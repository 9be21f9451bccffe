/** Concrete runs on which the conflation unit goes wrong; the lemmas elsewhere say exactly when it does not. */
module ConflationExamples {
  import opened Basics
  import opened Versions
  import opened ConflationModel
  import opened ConflationRuns
  import opened ConflationQueue

  const KIND := "complete"
  const DEPENDENT := "dependent"

  function NewSlot(kind: string, dependency: Option<Dependency>): Slot<nat> {
    Slot(CompleteState, kind, dependency, false, ZERO, None, None)
  }

  function Arrival(kind: string, id: nat, generation: uint64, value: uint64, needs: Option<Stamp>): Action<nat> {
    Arrive(Event(kind, ""), id, Meta(kind, Position("", "status", 0, id), Stamp(generation, value), needs, 0))
  }

  // ---------------------------------------------------------------- a stale job crosses a restart

  function OneSlot(slot: Slot<nat>, store: Store<nat>, jobs: map<nat, Job<nat>>, nextJob: nat, flagged: bool,
                   accepted: seq<nat>, handled: seq<nat>, handouts: multiset<nat>): System<nat> {
    System(Unit([slot], map[KIND := 0], flagged, if flagged then 1 else 0), store, jobs, nextJob, [accepted],
           [handled], handouts)
  }

  function At(id: nat, generation: uint64, value: uint64, count: int): Meta {
    Meta(KIND, Position("", "status", 0, id), Stamp(generation, value), None, count)
  }

  const E1 := Event(KIND, "")
  const HELD := NewSlot(KIND, None).(event := Some(E1))
  const RUNNING: map<nat, Job<nat>> := map[0 := Job(0, E1, 1, false, false)]
  const STORE1: Store<nat> := map[1 := At(1, 5, 10, 0)]
  const STORE2: Store<nat> := map[1 := At(1, 5, 10, 0), 2 := At(2, 5, 11, 0)]
  const STORE3: Store<nat> := map[1 := At(1, 5, 10, 0), 2 := At(2, 0, 0, 0), 3 := At(3, 0, 1, 0)]
  const STORE4: Store<nat> := map[1 := At(1, 5, 10, -1), 2 := At(2, 0, 0, 0), 3 := At(3, 0, 1, 0)]

  const S0 := OneSlot(NewSlot(KIND, None), map[], map[], 0, false, [], [], multiset{})
  const S1 := OneSlot(HELD.(metadata := Some(1)), STORE1, map[], 0, true, [1], [], multiset{})
  const S2 := OneSlot(HELD.(metadata := Some(1), inProcess := true), STORE1, RUNNING, 1, false, [1], [], multiset{1})
  const S3 := OneSlot(HELD.(metadata := Some(2), inProcess := true), STORE2, RUNNING, 1, false, [1, 2], [], multiset{1})
  const S4 := OneSlot(HELD.(metadata := Some(3), inProcess := true), STORE3, RUNNING, 1, false, [1, 2, 3], [],
                      multiset{1})
  const S5 := OneSlot(HELD.(metadata := Some(3), inProcess := true), STORE4,
                      map[0 := Job(0, E1, 1, true, true)], 1, false, [1, 2, 3], [1], multiset{1})
  const S6 := OneSlot(HELD.(metadata := Some(3), lastProcessed := Stamp(5, 10)), STORE4, map[], 1, true, [1, 2, 3],
                      [1], multiset{1})

  lemma Same(s: System<nat>, s': System<nat>)
    requires |s.unit.slots| == |s'.unit.slots| == |s.accepted| == |s'.accepted| == |s.handled| == |s'.handled| == 1
    requires s.unit.slots[0] == s'.unit.slots[0] && s.accepted[0] == s'.accepted[0] && s.handled[0] == s'.handled[0]
    requires s.(unit := s'.unit, accepted := s'.accepted, handled := s'.handled) == s'
    requires s.unit.(slots := s'.unit.slots) == s'.unit
    ensures s == s'
  {
    assert s.unit.slots == s'.unit.slots && s.accepted == s'.accepted && s.handled == s'.handled;
  }

  lemma FirstArrival()
    requires Inv(S0) && Reachable(S0)
    ensures Inv(S1) && Reachable(S1)
  {
    StepReachable(S0, Arrival(KIND, 1, 5, 10, None));
    var a := Arrival(KIND, 1, 5, 10, None);
    StoreGrows(S0.unit, S0.store, 1, a.meta);
    assert IsReady(S1.unit, STORE1, 0);
    Same(Apply(S0, a), S1);
  }

  lemma FirstDispatch()
    requires Inv(S1) && Reachable(S1)
    ensures Inv(S2) && Reachable(S2)
  {
    StepReachable(S1, Dispatch);
    assert IsReady(S1.unit.(queued := 0), STORE1, 0);
    Same(Apply(S1, Dispatch), S2);
  }

  lemma Supersede()
    requires Inv(S2) && Reachable(S2)
    ensures Inv(S3) && Reachable(S3)
  {
    SupersedeStep();
    StepReachable(S2, Arrival(KIND, 2, 5, 11, None));
  }

  lemma SupersedeStep()
    requires Inv(S2)
    ensures Enabled(S2, Arrival(KIND, 2, 5, 11, None)) && Apply(S2, Arrival(KIND, 2, 5, 11, None)) == S3
  {
    var a := Arrival(KIND, 2, 5, 11, None);
    StoreGrows(S2.unit, S2.store, 2, a.meta);
    Same(Apply(S2, a), S3);
  }

  lemma Restart()
    requires Inv(S3) && Reachable(S3)
    ensures Inv(S4) && Reachable(S4)
  {
    RestartStep();
    StepReachable(S3, Arrival(KIND, 3, 0, 1, None));
  }

  lemma RestartStep()
    requires Inv(S3)
    ensures Enabled(S3, Arrival(KIND, 3, 0, 1, None)) && Apply(S3, Arrival(KIND, 3, 0, 1, None)) == S4
  {
    var a := Arrival(KIND, 3, 0, 1, None);
    StoreGrows(S3.unit, S3.store, 3, a.meta);
    Same(Apply(S3, a), S4);
  }

  lemma StaleSuccess()
    requires Inv(S4) && Reachable(S4)
    ensures Inv(S5) && Reachable(S5)
  {
    StaleSuccessStep();
    StepReachable(S4, Attempt(0, true));
  }

  lemma StaleSuccessStep()
    requires Inv(S4)
    ensures Enabled(S4, Attempt(0, true)) && Apply(S4, Attempt(0, true)) == S5
  {
    Same(Apply(S4, Attempt(0, true)), S5);
  }

  lemma StaleReport()
    requires Inv(S5) && Reachable(S5)
    ensures Inv(S6) && Reachable(S6)
  {
    StaleReportStep();
    StepReachable(S5, Report(0));
  }

  lemma StaleReportStep()
    requires Inv(S5)
    ensures Enabled(S5, Report(0)) && Apply(S5, Report(0)) == S6
  {
    assert JobOk(S5, 0);
    assert IsReady(S6.unit, STORE4, 0);
    Same(Apply(S5, Report(0)), S6);
  }

  /**
    Version 5.10 is handed out, 5.11 supersedes it, the agent restarts and sends 0.1. When the old job
    then reports, the element counts 5.10 as processed, so it turns away every later version of the new
    incarnation up to generation 4, although 0.1 is still pending.
   */
  lemma StaleJobRejectsNewIncarnation()
    ensures Reachable(S6)
    ensures var slot := S6.unit.slots[0];
            && slot.metadata == Some(3) && S6.store[3].version == Stamp(0, 1) && !S6.store[3].Processed()
            && slot.lastProcessed == Stamp(5, 10)
            && forall v: Stamp :: 0 < v.generation < 5 ==> !Accepts(slot, S6.store, v)
  {
    RunToS6();
    RestartTurnedAway();
  }

  lemma RunToS6()
    ensures Reachable(S6)
  {
    RunToS3();
    Restart();
    StaleSuccess();
    StaleReport();
  }

  lemma RunToS3()
    ensures Inv(S3) && Reachable(S3)
  {
    InitialReachable(S0);
    FirstArrival();
    FirstDispatch();
    Supersede();
  }

  lemma RestartTurnedAway()
    ensures var slot := S6.unit.slots[0];
            && slot.metadata == Some(3) && S6.store[3].version == Stamp(0, 1) && !S6.store[3].Processed()
            && slot.lastProcessed == Stamp(5, 10)
            && forall v: Stamp :: 0 < v.generation < 5 ==> !Accepts(slot, S6.store, v)
  {
  }

  // ---------------------------------------------------------------- a flagged unit that leaves the channel

  const NEEDS := Dependency(KIND, ExactMatch)
  const E2 := Event(DEPENDENT, "")

  function TwoSlots(slot: Slot<nat>, store: Store<nat>, queued: nat, accepted: seq<nat>): System<nat> {
    System(Unit([NewSlot(KIND, None), slot], map[KIND := 0, DEPENDENT := 1], accepted != [], queued),
           store, map[], 0, [[], accepted], [[], []], multiset{})
  }

  function Waiting(id: nat, generation: uint64, value: uint64, needs: uint64): Meta {
    Meta(DEPENDENT, Position("", "status", 0, id), Stamp(generation, value), Some(Stamp(0, needs)), 0)
  }

  const WAITING := NewSlot(DEPENDENT, Some(NEEDS)).(event := Some(E2))
  const T0 := TwoSlots(NewSlot(DEPENDENT, Some(NEEDS)), map[], 0, [])
  const T1 := TwoSlots(WAITING.(metadata := Some(1)), map[1 := Waiting(1, 0, 1, 0)], 1, [1])
  const T2 := TwoSlots(WAITING.(metadata := Some(2)), map[1 := Waiting(1, 0, 1, 0), 2 := Waiting(2, 1, 2, 7)], 1,
                       [1, 2])
  const T3 := TwoSlots(WAITING.(metadata := Some(2)), map[1 := Waiting(1, 0, 1, 0), 2 := Waiting(2, 1, 2, 7)], 0,
                       [1, 2])
  const MET := Arrive(E2, 1, Waiting(1, 0, 1, 0))
  const UNMET := Arrive(E2, 2, Waiting(2, 1, 2, 7))

  lemma SameTwo(s: System<nat>, s': System<nat>)
    requires |s.unit.slots| == |s'.unit.slots| == |s.accepted| == |s'.accepted| == 2
    requires s.unit.slots[0] == s'.unit.slots[0] && s.unit.slots[1] == s'.unit.slots[1]
    requires s.accepted[0] == s'.accepted[0] && s.accepted[1] == s'.accepted[1]
    requires s.(unit := s'.unit, accepted := s'.accepted) == s'
    requires s.unit.(slots := s'.unit.slots) == s'.unit
    ensures s == s'
  {
    assert s.unit.slots == s'.unit.slots && s.accepted == s'.accepted;
  }

  lemma ArriveMet()
    requires Inv(T0) && Reachable(T0)
    ensures Inv(T1) && Reachable(T1)
  {
    MetStep();
    StepReachable(T0, MET);
  }

  lemma MetStep()
    requires Inv(T0)
    ensures Enabled(T0, MET) && Apply(T0, MET) == T1
  {
    StepInv(T0, MET);
    StoreGrows(T0.unit, T0.store, 1, MET.meta);
    AcceptedArrivalQueues(T0, MET);
    assert IsReady(Apply(T0, MET).unit, Apply(T0, MET).store, 1);
    SameTwo(Apply(T0, MET), T1);
  }

  lemma ArriveUnmet()
    requires Inv(T1) && Reachable(T1)
    ensures Inv(T2) && Reachable(T2)
  {
    UnmetStep();
    StepReachable(T1, UNMET);
  }

  lemma UnmetStep()
    requires Inv(T1)
    ensures Enabled(T1, UNMET) && Apply(T1, UNMET) == T2
  {
    StoreGrows(T1.unit, T1.store, 2, UNMET.meta);
    SameTwo(Apply(T1, UNMET), T2);
  }

  lemma NoneIsReady()
    requires Inv(T2)
    ensures !SomeReady(T2.unit, T2.store)
  {
    assert !IsReady(T2.unit, T2.store, 0) && !IsReady(T2.unit, T2.store, 1);
  }

  lemma DispatchNothing()
    requires Inv(T2) && Reachable(T2)
    ensures Reachable(T3)
  {
    StepReachable(T2, Dispatch);
    NoneIsReady();
    DispatchedRel(T2);
  }

  /**
    A ready dependent event is replaced, before the dispatcher comes by, with one whose dependency is not
    met yet. GetNext returns its error with the flag still up: the unit is stranded (StuckForever).
   */
  lemma ReplacedBeforeDispatchStrands()
    ensures Reachable(T3) && Stuck(T3) && T3.handouts == multiset{}
  {
    InitialReachable(T0);
    ArriveMet();
    ArriveUnmet();
    DispatchNothing();
  }
}
