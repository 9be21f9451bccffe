/** Two runs on which a commit passes an event that still has to be handled. */
module CommitExamples {
  import opened Basics
  import opened Versions
  import opened ConflationModel
  import opened ConflationRuns
  import opened ConflationExamples
  import opened Committer
  import opened ManagerRuns
  import opened CommitReadings
  import opened CommitPositions
  import opened CommitDeltas
  import opened CommitMonotone

  const STATUS := Partition("status", 0)

  /** The id-th event of a hub, at some offset of the shared status partition. */
  function Numbered(id: uint64, offset: int, count: int): Meta {
    Meta(KIND, Position("", "status", 0, offset), Stamp(1, id), None, count)
  }

  // -------------------------------------------------------- units sharing a partition, read one after the other

  const Y0 := OneSlot(NewSlot(KIND, None), map[], map[], 0, false, [], [], multiset{})

  function Y1(o: int): System<nat> {
    OneSlot(HELD.(metadata := Some(1)), map[1 := Numbered(1, o, 0)], map[], 0, true, [1], [], multiset{})
  }

  function Y2(o: int): System<nat> {
    OneSlot(HELD.(metadata := Some(1), inProcess := true), map[1 := Numbered(1, o, 0)], RUNNING, 1, false, [1], [],
            multiset{1})
  }

  function Y3(o: int): System<nat> {
    OneSlot(HELD.(metadata := Some(1), inProcess := true), map[1 := Numbered(1, o, -1)],
            map[0 := Job(0, E1, 1, true, true)], 1, false,
            [1], [1], multiset{1})
  }

  const Y4 := OneSlot(HELD.(metadata := Some(2), inProcess := true),
                      map[1 := Numbered(1, 5, -1), 2 := Numbered(2, 6, 0)],
                      map[0 := Job(0, E1, 1, true, true)], 1, false, [1, 2], [1], multiset{1})

  function Arriving(id: nat, o: int): Action<nat>
    requires id < 9
  {
    Arrive(E1, id, Numbered(id, o, 0))
  }

  lemma YArrives(o: int)
    ensures Step(Y0, Arriving(1, o), Y1(o))
  {
    InitialInv(Y0);
    YInserted(o);
  }

  lemma YInserted(o: int)
    requires Inv(Y0)
    ensures Enabled(Y0, Arriving(1, o)) && Apply(Y0, Arriving(1, o)) == Y1(o)
  {
    var a := Arriving(1, o);
    StoreGrows(Y0.unit, Y0.store, 1, a.meta);
    assert IsReady(Y1(o).unit, Y1(o).store, 0);
    Same(Apply(Y0, a), Y1(o));
  }

  lemma YDispatched(o: int)
    requires Inv(Y1(o))
    ensures Step(Y1(o), Dispatch, Y2(o))
  {
    var s := Y1(o);
    assert IsReady(s.unit.(queued := 0), s.store, 0);
    YPopped(o);
  }

  lemma YPopped(o: int)
    requires WellFormed(Y1(o).unit, Y1(o).store)
    ensures Dispatched(Y1(o)) == Y2(o)
  {
    var u := Y1(o).unit.(queued := 0);
    SameReadiness(Y1(o).unit, u, Y1(o).store);
    assert IsReady(u, Y1(o).store, 0);
    Same(Dispatched(Y1(o)), Y2(o));
  }

  lemma YHandled(o: int)
    requires Inv(Y2(o))
    ensures Step(Y2(o), Attempt(0, true), Y3(o))
  {
    Same(Apply(Y2(o), Attempt(0, true)), Y3(o));
  }

  lemma YSuperseded()
    requires Inv(Y3(5))
    ensures Step(Y3(5), Arriving(2, 6), Y4)
  {
    var a := Arriving(2, 6);
    StoreGrows(Y3(5).unit, Y3(5).store, 2, a.meta);
    Same(Apply(Y3(5), a), Y4);
  }

  lemma StepTo(s: System<nat>, a: Action<nat>, s': System<nat>)
    requires Step(s, a, s')
    ensures Inv(s')
  {
    StepInv(s, a);
  }

  /** Hub "a" processes offset 5 and then accepts 6; hub "b" accepts and processes 7. */
  function Race(i: nat): Hubs<nat> {
    if i == 0 then map[]
    else if i == 1 then map["a" := Y1(5)]
    else if i == 2 then map["a" := Y2(5)]
    else if i == 3 then map["a" := Y3(5)]
    else if i == 4 then map["a" := Y4]
    else if i == 5 then map["a" := Y4, "b" := Y1(7)]
    else if i == 6 then map["a" := Y4, "b" := Y2(7)]
    else map["a" := Y4, "b" := Y3(7)]
  }

  function RaceStep(i: nat): Happening<nat> {
    if i == 0 then Happening("a", Arriving(1, 5))
    else if i == 1 then Happening("a", Dispatch)
    else if i == 2 then Happening("a", Attempt(0, true))
    else if i == 3 then Happening("a", Arriving(2, 6))
    else if i == 4 then Happening("b", Arriving(1, 7))
    else if i == 5 then Happening("b", Dispatch)
    else Happening("b", Attempt(0, true))
  }

  lemma HubStepOf(hubs: Hubs<nat>, hub: string, s: System<nat>, a: Action<nat>, s': System<nat>)
    requires Step(s, a, s') && s == (if hub in hubs then hubs[hub] else Y0)
    ensures HubStep(Y0, hubs, hub, a, hubs[hub := s'])
  {
  }

  lemma HubArrives(o: int, hubs: Hubs<nat>, hub: string, hubs': Hubs<nat>)
    requires hub !in hubs && hubs' == hubs[hub := Y1(o)]
    ensures HubStep(Y0, hubs, hub, Arriving(1, o), hubs')
  {
    YArrives(o);
    HubStepOf(hubs, hub, Y0, Arriving(1, o), Y1(o));
  }

  lemma HubDispatches(o: int, hubs: Hubs<nat>, hub: string, hubs': Hubs<nat>)
    requires hub in hubs && hubs[hub] == Y1(o) && hubs' == hubs[hub := Y2(o)]
    ensures HubStep(Y0, hubs, hub, Dispatch, hubs')
  {
    YArrives(o);
    StepTo(Y0, Arriving(1, o), Y1(o));
    YDispatched(o);
    HubStepOf(hubs, hub, Y1(o), Dispatch, Y2(o));
  }

  lemma HubHandles(o: int, hubs: Hubs<nat>, hub: string, hubs': Hubs<nat>)
    requires hub in hubs && hubs[hub] == Y2(o) && hubs' == hubs[hub := Y3(o)]
    ensures HubStep(Y0, hubs, hub, Attempt(0, true), hubs')
  {
    YInv(o);
    YHandled(o);
    HubStepOf(hubs, hub, Y2(o), Attempt(0, true), Y3(o));
  }

  lemma HubSupersedes(hubs: Hubs<nat>, hub: string, hubs': Hubs<nat>)
    requires hub in hubs && hubs[hub] == Y3(5) && hubs' == hubs[hub := Y4]
    ensures HubStep(Y0, hubs, hub, Arriving(2, 6), hubs')
  {
    YInv(5);
    YSuperseded();
    HubStepOf(hubs, hub, Y3(5), Arriving(2, 6), Y4);
  }

  lemma YInv(o: int)
    ensures Inv(Y2(o)) && Inv(Y3(o))
  {
    YArrives(o);
    StepTo(Y0, Arriving(1, o), Y1(o));
    YDispatched(o);
    StepTo(Y1(o), Dispatch, Y2(o));
    YHandled(o);
    StepTo(Y2(o), Attempt(0, true), Y3(o));
  }

  lemma RaceMaps()
    ensures Race(1) == Race(0)["a" := Y1(5)] && Race(2) == Race(1)["a" := Y2(5)] && Race(3) == Race(2)["a" := Y3(5)]
    ensures Race(4) == Race(3)["a" := Y4]
    ensures Race(5) == Race(4)["b" := Y1(7)] && Race(6) == Race(5)["b" := Y2(7)] && Race(7) == Race(6)["b" := Y3(7)]
  {
  }

  lemma RaceStepsA(i: nat)
    requires i < 4
    ensures HubStep(Y0, Race(i), RaceStep(i).hub, RaceStep(i).action, Race(i + 1))
  {
    RaceMaps();
    if i == 0 {
      HubArrives(5, Race(0), "a", Race(1));
    } else if i == 1 {
      HubDispatches(5, Race(1), "a", Race(2));
    } else if i == 2 {
      HubHandles(5, Race(2), "a", Race(3));
    } else {
      HubSupersedes(Race(3), "a", Race(4));
    }
  }

  lemma RaceStepsB(i: nat)
    requires 4 <= i < 7
    ensures HubStep(Y0, Race(i), RaceStep(i).hub, RaceStep(i).action, Race(i + 1))
  {
    RaceMaps();
    if i == 4 {
      HubArrives(7, Race(4), "b", Race(5));
    } else if i == 5 {
      HubDispatches(7, Race(5), "b", Race(6));
    } else {
      HubHandles(7, Race(6), "b", Race(7));
    }
  }

  const RACE: seq<Hubs<nat>> := seq(8, i requires i >= 0 => Race(i))
  const RACE_STEPS: seq<Happening<nat>> := seq(7, i requires i >= 0 => RaceStep(i))
  const EARLY := Reading(map["a" := 3, "b" := 7], 7, {READ5, READ7})
  const LATE := Reading(map["a" := 7, "b" := 7], 7, {HELD6, READ7})

  lemma RaceRun()
    ensures ManagerRun(Y0, RACE, RACE_STEPS)
  {
    forall i | 0 <= i < |RACE_STEPS|
      ensures HubStep(Y0, RACE[i], RACE_STEPS[i].hub, RACE_STEPS[i].action, RACE[i + 1]) {
      if i < 4 {
        RaceStepsA(i);
      } else {
        RaceStepsB(i);
      }
    }
  }

  const READ5 := Numbered(1, 5, -1)
  const READ7 := Numbered(1, 7, -1)
  const HELD6 := Numbered(2, 6, 0)

  lemma RaceHubs()
    ensures |RACE| == 8 && RACE[3] == map["a" := Y3(5)] && RACE[7] == map["a" := Y4, "b" := Y3(7)]
  {
  }

  lemma RaceSeen()
    ensures |RACE| == 8 && SeenBy(RACE, EARLY, "a", 0, READ5) && SeenBy(RACE, EARLY, "b", 0, READ7)
  {
    RaceHubs();
    var tr: seq<Hubs<nat>> := RACE;
    assert tr[3]["a"].store[1] == READ5;
    assert tr[7]["b"].store[1] == READ7;
  }

  lemma RaceReading()
    ensures |RACE| == 8 && ReadFrom(RACE, EARLY)
  {
    RaceHubs();
    RaceSeen();
    forall h, p | HoldsAt(RACE, EARLY, h, p) ensures exists x :: x in EARLY.ms && SeenBy(RACE, EARLY, h, p, x) {
      assert p == 0 && (h == "a" || h == "b");
    }
  }

  lemma RaceSeenLater()
    ensures |RACE| == 8 && SeenBy(RACE, LATE, "a", 0, HELD6) && SeenBy(RACE, LATE, "b", 0, READ7)
  {
    RaceHubs();
    var tr: seq<Hubs<nat>> := RACE;
    assert tr[7]["a"].store[2] == HELD6;
    assert tr[7]["b"].store[1] == READ7;
  }

  lemma RaceReadingLater()
    ensures |RACE| == 8 && ReadFrom(RACE, LATE)
  {
    RaceHubs();
    RaceSeenLater();
    forall h, p | HoldsAt(RACE, LATE, h, p) ensures exists x :: x in LATE.ms && SeenBy(RACE, LATE, h, p, x) {
      assert p == 0 && (h == "a" || h == "b");
    }
  }

  lemma RaceOutstanding()
    ensures |RACE| == 8 && Outstanding(RACE[7], "a", 0, 2) && RACE[7]["a"].store[2].position.offset == 6
  {
    RaceHubs();
  }

  /**
    GetMetadatas locks one unit at a time. Reading hub "a" before it accepts offset 6 and hub "b" after it
    has processed 7 yields restart offset 8, past the pending 6: the units were not read in time.
   */
  lemma ReadingApartPassesPendingEvent()
    ensures ManagerRun(Y0, RACE, RACE_STEPS)
    ensures |RACE| == 8 && ReadFrom(RACE, EARLY) && RestartAt(EARLY.ms, STATUS, 8)
    ensures Outstanding(RACE[7], "a", 0, 2) && RACE[7]["a"].store[2].position.offset == 6
  {
    RaceRun();
    RaceReading();
    RaceOutstanding();
    RaceOffset();
  }

  lemma RaceOffset()
    ensures RestartAt(EARLY.ms, STATUS, 8)
  {
    assert On(READ7, STATUS) && On(READ5, STATUS);
  }

  lemma RaceOffsetLater()
    ensures RestartAt(LATE.ms, STATUS, 6)
  {
    assert PendingOn(HELD6, STATUS) && On(READ7, STATUS);
  }

  /** Offsets arrive in order, and each hub stays on its partition. */
  lemma RaceInOrder()
    ensures |RACE| == 8 && ArriveInOrder(RACE, RACE_STEPS, 7)
  {
    forall i | 0 <= i < 7
      ensures OffsetsIncrease(Race(i), RaceStep(i).action)
      ensures StaysOnPartition(Race(i), RaceStep(i).hub, RaceStep(i).action)
    {
      RaceOrderAt(i);
    }
  }

  lemma RaceOrderAt(i: nat)
    requires i < 7
    ensures OffsetsIncrease(Race(i), RaceStep(i).action)
    ensures StaysOnPartition(Race(i), RaceStep(i).hub, RaceStep(i).action)
  {
  }

  /** In the same run, a second commit that reads both hubs after the first computes 6 after the first's 8. */
  lemma PositionFallsAfterReadingApart()
    ensures ManagerRun(Y0, RACE, RACE_STEPS)
    ensures |RACE| == 8 && Follows(RACE, EARLY, LATE) && ArriveInOrder(RACE, RACE_STEPS, LATE.until)
    ensures RestartAt(EARLY.ms, STATUS, 8) && RestartAt(LATE.ms, STATUS, 6)
  {
    RaceRun();
    RaceReading();
    RaceReadingLater();
    RaceInOrder();
    RaceHubs();
    RaceOffset();
    RaceOffsetLater();
  }

  // ---------------------------------------------------------------- delta elements

  const DELTA := NewSlot(KIND, None).(mode := DeltaState)
  const D0 := OneSlot(DELTA, map[], map[], 0, false, [], [], multiset{})
  const D1 := OneSlot(DELTA.(metadata := Some(1)), map[1 := Numbered(1, 1, 0)], map[0 := Job(0, E1, 1, false, false)],
                      1, false,
                      [1], [], multiset{})
  const D2 := OneSlot(DELTA.(metadata := Some(2)), map[1 := Numbered(1, 1, 0), 2 := Numbered(2, 2, 0)],
                      map[0 := Job(0, E1, 1, false, false), 1 := Job(0, E1, 2, false, false)], 2, false, [1, 2], [],
                        multiset{})
  const D3 := OneSlot(DELTA.(metadata := Some(2)), map[1 := Numbered(1, 1, 0), 2 := Numbered(2, 2, -1)],
                      map[0 := Job(0, E1, 1, false, false), 1 := Job(0, E1, 2, true, true)], 2, false, [1, 2], [2],
                        multiset{})

  lemma DeltaArrives()
    requires Inv(D0) && Reachable(D0)
    ensures Inv(D1) && Reachable(D1)
  {
    StepReachable(D0, Arriving(1, 1));
    StoreGrows(D0.unit, D0.store, 1, Arriving(1, 1).meta);
    Same(Apply(D0, Arriving(1, 1)), D1);
  }

  lemma DeltaArrivesAgain()
    requires Inv(D1) && Reachable(D1)
    ensures Inv(D2) && Reachable(D2)
  {
    StepReachable(D1, Arriving(2, 2));
    StoreGrows(D1.unit, D1.store, 2, Arriving(2, 2).meta);
    Same(Apply(D1, Arriving(2, 2)), D2);
  }

  lemma DeltaHandled()
    requires Inv(D2) && Reachable(D2)
    ensures Inv(D3) && Reachable(D3)
  {
    DeltaHandledStep();
    StepReachable(D2, Attempt(1, true));
  }

  lemma DeltaHandledStep()
    requires Inv(D2)
    ensures Enabled(D2, Attempt(1, true)) && Apply(D2, Attempt(1, true)) == D3
  {
    Same(Apply(D2, Attempt(1, true)), D3);
  }

  /**
    A delta slot remembers only its latest metadata. When the second of two queued delta events is handled
    first, the slot's restart offset is past the first, which no later event stands in for.
   */
  lemma DeltaCommitPassesQueuedEvent()
    ensures Reachable(D3) && Metadatas(D3.unit.slots) == [2]
    ensures RestartAt({D3.store[2]}, STATUS, 3)
    ensures 1 in D3.accepted[0] && !D3.store[1].Processed() && D3.store[1].position.offset == 1
    ensures PartitionOf(D3.store[1].position) == STATUS
  {
    RunToD3();
    DeltaOffset();
  }

  lemma RunToD3()
    ensures Reachable(D3)
  {
    InitialReachable(D0);
    DeltaArrives();
    DeltaArrivesAgain();
    DeltaHandled();
  }

  lemma DeltaOffset()
    ensures Metadatas(D3.unit.slots) == [2]
    ensures RestartAt({D3.store[2]}, STATUS, 3)
    ensures 1 in D3.accepted[0] && !D3.store[1].Processed() && D3.store[1].position.offset == 1
    ensures PartitionOf(D3.store[1].position) == STATUS
  {
    assert On(D3.store[2], STATUS);
    assert D3.unit.slots[..0] == [];
  }
}
