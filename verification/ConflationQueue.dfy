/** The ready queue: no ready element is forgotten, and the one way a unit can be stuck in it. */
module ConflationQueue {
  import opened Basics
  import opened Versions
  import opened ConflationModel
  import opened ConflationRuns
  import opened ConflationOrder

  ghost predicate SomeInProcess<M>(s: System<M>) {
    exists p :: 0 <= p < |s.unit.slots| && s.unit.slots[p].inProcess
  }

  /** A ready element is announced, or a running job will announce it when it reports. */
  ghost predicate Awake<M>(s: System<M>)
    requires WellFormed(s.unit, s.store)
  {
    SomeReady(s.unit, s.store) ==> s.unit.inReadyQueue || SomeInProcess(s)
  }

  // ---------------------------------------------------------------- what changes readiness

  /** Readiness of q looks only at q, at the in-process flags, and at its dependency's last processed value. */
  lemma ReadyFrame<M>(u: Unit<M>, ms: Store<M>, u': Unit<M>, ms': Store<M>, q: nat)
    requires WellFormed(u, ms) && WellFormed(u', ms') && SameRegistration(u, u') && q < |u.slots|
    requires forall p :: 0 <= p < |u.slots| && u.slots[p].IsComplete() ==> u'.slots[p].inProcess == u.slots[p].inProcess
    requires u'.slots[q] == u.slots[q].(lastProcessed := u'.slots[q].lastProcessed)
    requires u.slots[q].metadata.Some? ==>
               var m := u.slots[q].metadata.value;
               ms'[m].Processed() == ms[m].Processed() && ms'[m].dependency == ms[m].dependency
    requires u.slots[q].dependency.Some? && u.slots[DependencyIndex(u, q)].IsComplete() ==>
               u'.slots[DependencyIndex(u, q)].lastProcessed == u.slots[DependencyIndex(u, q)].lastProcessed
    ensures IsReady(u', ms', q) == IsReady(u, ms, q)
  {
    if u.slots[q].IsComplete() {
      ChainFrame(u, u', q);
    }
  }

  lemma {:induction false} ChainFrame<M>(u: Unit<M>, u': Unit<M>, q: nat)
    requires Registered(u) && Registered(u') && SameRegistration(u, u') && q < |u.slots| && u.slots[q].IsComplete()
    requires forall p :: 0 <= p < |u.slots| && u.slots[p].IsComplete() ==> u'.slots[p].inProcess == u.slots[p].inProcess
    ensures u'.slots[q].IsComplete() && ChainBusy(u', q) == ChainBusy(u, q)
    decreases q
  {
    if u.slots[q].dependency.Some? && u.slots[DependencyIndex(u, q)].IsComplete() {
      ChainFrame(u, u', DependencyIndex(u, q));
    }
  }

  /** An arrival at a delta slot, or one that is turned away, makes nothing ready. */
  lemma QuietArrival<M>(s: System<M>, a: Action<M>, q: nat)
    requires Inv(s) && Enabled(s, a) && a.Arrive? && q < |s.unit.slots|
    requires var p := s.unit.priority[a.event.eventType];
             !s.unit.slots[p].IsComplete() || !Accepts(s.unit.slots[p], s.store[a.id := a.meta], a.meta.version)
    ensures Inv(Apply(s, a)) && q < |Apply(s, a).unit.slots|
    ensures IsReady(Apply(s, a).unit, Apply(s, a).store, q) == IsReady(s.unit, s.store, q)
    ensures SameRegistration(s.unit, Apply(s, a).unit)
  {
    StepInv(s, a);
    StepKinds(s, a);
    var s' := Apply(s, a);
    if s.unit.slots[q].IsComplete() {
      QuietArrivalFrame(s, a);
      if s.unit.slots[q].metadata.Some? {
        QuietHeld(s, a, q);
      }
      ReadyFrame(s.unit, s.store, s'.unit, s'.store, q);
    }
  }

  lemma QuietHeld<M>(s: System<M>, a: Action<M>, q: nat)
    requires Inv(s) && Enabled(s, a) && a.Arrive? && q < |s.unit.slots| && s.unit.slots[q].metadata.Some?
    ensures var m, ms' := s.unit.slots[q].metadata.value, Apply(s, a).store;
            m in s.store && m in ms' && ms'[m].Processed() == s.store[m].Processed()
              && ms'[m].dependency == s.store[m].dependency
  {
    assert SlotOk(s.unit.slots[q], s.store);
    ArrivedRel(s, a.event, a.id, a.meta);
  }

  lemma QuietArrivalFrame<M>(s: System<M>, a: Action<M>)
    requires Inv(s) && Enabled(s, a) && a.Arrive?
    requires var p := s.unit.priority[a.event.eventType];
             !s.unit.slots[p].IsComplete() || !Accepts(s.unit.slots[p], s.store[a.id := a.meta], a.meta.version)
    ensures |Apply(s, a).unit.slots| == |s.unit.slots|
    ensures forall i :: 0 <= i < |s.unit.slots| && s.unit.slots[i].IsComplete() ==>
              Apply(s, a).unit.slots[i] == s.unit.slots[i]
  {
    StepKinds(s, a);
    forall i | 0 <= i < |s.unit.slots| && s.unit.slots[i].IsComplete()
      ensures Apply(s, a).unit.slots[i] == s.unit.slots[i]
    {
      ArrivalAt(s, a, i);
    }
  }

  /** A handler attempt makes no slot ready and unreadies none: its own slot is in process, or a delta. */
  lemma QuietAttempt<M>(s: System<M>, j: nat, ok: bool, q: nat)
    requires Inv(s) && Enabled(s, Attempt(j, ok)) && q < |s.unit.slots|
    ensures JobOk(s, j) && WellFormed(Attempted(s, j, ok).unit, Attempted(s, j, ok).store)
    ensures IsReady(Attempted(s, j, ok).unit, Attempted(s, j, ok).store, q) == IsReady(s.unit, s.store, q)
  {
    JobsKnown(s, j);
    assert JobOk(s, j);
    var s' := Attempted(s, j, ok);
    AttemptedWellFormed(s, s', j, ok);
    assert SlotOk(s.unit.slots[q], s.store);
    if s.jobs[j].slot != q && s.unit.slots[q].IsComplete() {
      assert s.unit.priority[s.unit.slots[q].eventType] == q;
      ReadyFrame(s.unit, s.store, s'.unit, s'.store, q);
    }
  }

  /** The chain of an element that is not busy avoids every element in process. */
  lemma {:induction false} IdleChain<M>(u: Unit<M>, u': Unit<M>, p: nat, q: nat)
    requires Registered(u) && Registered(u') && SameRegistration(u, u')
    requires p < |u.slots| && u.slots[p].IsComplete() && u.slots[p].inProcess
    requires forall i :: 0 <= i < |u.slots| && i != p ==> u'.slots[i] == u.slots[i]
    requires q < |u.slots| && u.slots[q].IsComplete() && !ChainBusy(u, q)
    ensures q != p && u'.slots[q].IsComplete() && !ChainBusy(u', q)
    ensures u.slots[q].dependency.Some? ==> DependencyIndex(u, q) != p
    decreases q
  {
    if u.slots[q].dependency.Some? && u.slots[DependencyIndex(u, q)].IsComplete() {
      IdleChain(u, u', p, DependencyIndex(u, q));
    }
  }

  /** A report unreadies nothing. */
  lemma ReportKeepsReady<M>(s: System<M>, j: nat, q: nat)
    requires Inv(s) && Enabled(s, Report(j)) && q < |s.unit.slots| && IsReady(s.unit, s.store, q)
    ensures JobOk(s, j) && WellFormed(Reported(s, j).unit, Reported(s, j).store) && q < |Reported(s, j).unit.slots|
    ensures IsReady(Reported(s, j).unit, Reported(s, j).store, q)
  {
    ReportAt(s, j);
    ReportedRel(s, j);
    var s' := Reported(s, j);
    var p := s.jobs[j].slot;
    OneSlotChanged(s.unit, s'.unit, p);
    assert JobOk(s, j);
    if s.unit.slots[p].IsComplete() {
      IdleChain(s.unit, s'.unit, p, q);
    } else {
      assert !s.unit.slots[p].inProcess by { assert SlotOk(s.unit.slots[p], s.store); }
      assert SlotOk(s.unit.slots[q], s.store);
      ReadyFrame(s.unit, s.store, s'.unit, s'.store, q);
    }
  }

  // ---------------------------------------------------------------- no lost wake-up

  /** An arrival at a complete slot that is accepted re-announces the unit. */
  lemma AcceptedArrivalQueues<M>(s: System<M>, a: Action<M>)
    requires Inv(s) && Enabled(s, a) && a.Arrive?
    requires var p := s.unit.priority[a.event.eventType];
             s.unit.slots[p].IsComplete() && Accepts(s.unit.slots[p], s.store[a.id := a.meta], a.meta.version)
    ensures Inv(Apply(s, a))
    ensures var s' := Apply(s, a);
            && (s'.unit.inReadyQueue <==> s.unit.inReadyQueue || SomeReady(s'.unit, s'.store))
            && s'.unit.queued ==
              (if s'.unit.inReadyQueue && !s.unit.inReadyQueue then s.unit.queued + 1 else s.unit.queued)
  {
    StepInv(s, a);
    StoreGrows(s.unit, s.store, a.id, a.meta);
  }

  lemma ArrivalAwake<M>(s: System<M>, a: Action<M>)
    requires Inv(s) && Enabled(s, a) && a.Arrive? && Awake(s)
    ensures Inv(Apply(s, a)) && Awake(Apply(s, a))
  {
    StepInv(s, a);
    var s' := Apply(s, a);
    var p := s.unit.priority[a.event.eventType];
    if s.unit.slots[p].IsComplete() && Accepts(s.unit.slots[p], s.store[a.id := a.meta], a.meta.version) {
      AcceptedArrivalQueues(s, a);
    } else if SomeReady(s'.unit, s'.store) {
      StepKinds(s, a);
      var q :| 0 <= q < |s'.unit.slots| && IsReady(s'.unit, s'.store, q);
      QuietArrival(s, a, q);
      QuietFlags(s, a);
    }
  }

  /** Such an arrival leaves the queue flag and the in-process flags alone. */
  lemma QuietFlags<M>(s: System<M>, a: Action<M>)
    requires Inv(s) && Enabled(s, a) && a.Arrive?
    requires var p := s.unit.priority[a.event.eventType];
             !s.unit.slots[p].IsComplete() || !Accepts(s.unit.slots[p], s.store[a.id := a.meta], a.meta.version)
    ensures var s' := Apply(s, a);
            && s'.unit.inReadyQueue == s.unit.inReadyQueue && s'.unit.queued == s.unit.queued
            && |s'.unit.slots| == |s.unit.slots|
            && (SomeInProcess(s) ==> SomeInProcess(s'))
  {
    StoreGrows(s.unit, s.store, a.id, a.meta);
    var s' := Apply(s, a);
    if SomeInProcess(s) {
      var i :| 0 <= i < |s.unit.slots| && s.unit.slots[i].inProcess;
      ArrivalAt(s, a, i);
      assert s'.unit.slots[i].inProcess;
    }
  }

  lemma AttemptAwake<M>(s: System<M>, j: nat, ok: bool)
    requires Inv(s) && Enabled(s, Attempt(j, ok)) && Awake(s)
    ensures JobOk(s, j) && WellFormed(Attempted(s, j, ok).unit, Attempted(s, j, ok).store) && Awake(Attempted(s, j, ok))
  {
    assert JobOk(s, j);
    var s' := Attempted(s, j, ok);
    QuietAttempt(s, j, ok, 0);
    if SomeReady(s'.unit, s'.store) {
      var q :| 0 <= q < |s'.unit.slots| && IsReady(s'.unit, s'.store, q);
      QuietAttempt(s, j, ok, q);
    }
  }

  lemma ReportAwake<M>(s: System<M>, j: nat)
    requires Inv(s) && Enabled(s, Report(j)) && Awake(s)
    ensures JobOk(s, j) && WellFormed(Reported(s, j).unit, Reported(s, j).store) && Awake(Reported(s, j))
  {
    ReportAt(s, j);
    ReportedRel(s, j);
    var s' := Reported(s, j);
    var p := s.jobs[j].slot;
    if !s.unit.slots[p].IsComplete() && SomeReady(s'.unit, s'.store) {
      var q :| 0 <= q < |s'.unit.slots| && IsReady(s'.unit, s'.store, q);
      DeltaReport(s, j, q);
    }
  }

  /** A delta report changes no readiness, no flag. */
  lemma DeltaReport<M>(s: System<M>, j: nat, q: nat)
    requires Inv(s) && Enabled(s, Report(j)) && JobOk(s, j) && !s.unit.slots[s.jobs[j].slot].IsComplete()
    requires q < |s.unit.slots|
    ensures var s' := Reported(s, j);
            && WellFormed(s'.unit, s'.store) && |s'.unit.slots| == |s.unit.slots|
            && IsReady(s'.unit, s'.store, q) == IsReady(s.unit, s.store, q)
            && s'.unit.inReadyQueue == s.unit.inReadyQueue && s'.unit.queued == s.unit.queued
            && (SomeInProcess(s) ==> SomeInProcess(s'))
  {
    ReportAt(s, j);
    ReportedRel(s, j);
    var s' := Reported(s, j);
    var p := s.jobs[j].slot;
    OneSlotChanged(s.unit, s'.unit, p);
    assert SlotOk(s.unit.slots[p], s.store) && SlotOk(s.unit.slots[q], s.store);
    ReadyFrame(s.unit, s.store, s'.unit, s'.store, q);
    assert s.unit.priority[s.unit.slots[p].eventType] == p;
    if SomeInProcess(s) {
      var i :| 0 <= i < |s.unit.slots| && s.unit.slots[i].inProcess;
      assert s'.unit.slots[i].inProcess;
    }
  }

  /** No lost wake-up, whatever the step. */
  lemma StepAwake<M>(s: System<M>, a: Action<M>)
    requires Inv(s) && Enabled(s, a) && Awake(s)
    ensures Inv(Apply(s, a)) && Awake(Apply(s, a))
  {
    StepInv(s, a);
    match a
    case Arrive(_, _, _) => ArrivalAwake(s, a);
    case Dispatch =>
      DispatchedRel(s);
      if SomeReady(s.unit, s.store) {
        assert Dispatched(s).unit.slots[NextReady(s.unit, s.store).value].inProcess;
      } else {
        SameReadiness(s.unit, Dispatched(s).unit, s.store);
      }
    case Attempt(j, ok) => AttemptAwake(s, j, ok);
    case Report(j) => ReportAwake(s, j);
  }

  // ---------------------------------------------------------------- one place on the channel

  /** The unit stands on the channel once when it is flagged, and then GetNext will find something. */
  ghost predicate QueueExact<M>(s: System<M>)
    requires WellFormed(s.unit, s.store)
  {
    && s.unit.queued == (if s.unit.inReadyQueue then 1 else 0)
    && (s.unit.inReadyQueue ==> SomeReady(s.unit, s.store))
  }

  ghost predicate Landed<M>(s: System<M>, a: Action<M>)
    requires Inv(s) && Enabled(s, a) && a.Arrive?
  {
    var p := s.unit.priority[a.event.eventType];
    s.unit.slots[p].IsComplete() && Accepts(s.unit.slots[p], s.store[a.id := a.meta], a.meta.version)
  }

  /** A dependency version asks for what the dependency last processed. */
  predicate Meets(kind: DependencyType, needed: Stamp, last: Stamp) {
    match kind
    case ExactMatch => needed.EqualValue(last)
    case AtLeast => !needed.NewerValueThan(last)
  }

  /** Ready, except that its dependency last processed `last`. */
  ghost predicate ReadyBut<M>(u: Unit<M>, ms: Store<M>, q: nat, metadata: Meta, last: Stamp)
    requires Registered(u) && q < |u.slots|
  {
    var slot := u.slots[q];
    && slot.IsComplete() && !slot.inProcess && !metadata.Processed() && !ChainBusy(u, q)
    && (slot.dependency.Some? ==>
          && u.slots[DependencyIndex(u, q)].IsComplete() && metadata.dependency.Some?
          && Meets(slot.dependency.value.kind, metadata.dependency.value, last))
  }

  ghost function LastOfDependency<M>(u: Unit<M>, q: nat): Stamp
    requires Registered(u) && q < |u.slots|
  {
    if u.slots[q].IsComplete() && u.slots[q].dependency.Some? then u.slots[DependencyIndex(u, q)].lastProcessed
      else ZERO
  }

  /**
    Whether slot q will be ready once an event lands on slot p: p itself by the arriving event, a slot whose
    dependency restarts against version zero, every other slot as before.
   */
  ghost predicate ReadyOnLanding<M>(u: Unit<M>, ms: Store<M>, p: nat, metadata: Meta, q: nat)
    requires WellFormed(u, ms) && p < |u.slots| && q < |u.slots|
  {
    var slot := u.slots[q];
    if q == p then ReadyBut(u, ms, q, metadata, LastOfDependency(u, q))
    else if slot.IsComplete() && slot.dependency.Some? && DependencyIndex(u, q) == p && metadata.version.InitGen() then
      && slot.event.Some? && slot.metadata.Some? && slot.metadata.value in ms
      && ReadyBut(u, ms, q, ms[slot.metadata.value], ZERO)
    else IsReady(u, ms, q)
  }

  /** Whether slot q will be ready after an arrival, from the state before it. */
  ghost predicate ReadyAfter<M>(s: System<M>, a: Action<M>, q: nat)
    requires Inv(s) && Enabled(s, a) && a.Arrive? && q < |s.unit.slots|
  {
    if Landed(s, a) then ReadyOnLanding(s.unit, s.store, s.unit.priority[a.event.eventType], a.meta, q)
    else IsReady(s.unit, s.store, q)
  }

  /** What a landing event changes: its own slot, in known ways, and the version of what that held. */
  ghost predicate LandedOn<M>(u: Unit<M>, ms: Store<M>, u': Unit<M>, ms': Store<M>, p: nat, e: Event, id: M,
                              metadata: Meta)
  {
    && p < |u.slots| && u.slots[p].IsComplete() && SameRegistration(u, u')
    && u'.slots == u.slots[p := ResetBy(u.slots[p], metadata.version).(event := Some(e), metadata := Some(id))]
    && id in ms' && ms'[id] == metadata
    && (forall m :: m in ms ==> m in ms' && ms'[m] == ms[m].(version := ms'[m].version))
  }

  lemma LandedFrame<M>(s: System<M>, a: Action<M>)
    requires Inv(s) && Enabled(s, a) && a.Arrive? && Landed(s, a)
    ensures WellFormed(Apply(s, a).unit, Apply(s, a).store)
    ensures LandedOn(s.unit, s.store, Apply(s, a).unit, Apply(s, a).store, s.unit.priority[a.event.eventType], a.event,
                     a.id, a.meta)
  {
    StepInv(s, a);
    StepKinds(s, a);
    ArrivedRel(s, a.event, a.id, a.meta);
    ArrivalAt(s, a, s.unit.priority[a.event.eventType]);
  }

  lemma ReadyHere<M>(u: Unit<M>, ms: Store<M>, u': Unit<M>, ms': Store<M>, p: nat, e: Event, id: M, metadata: Meta)
    requires WellFormed(u, ms) && WellFormed(u', ms') && LandedOn(u, ms, u', ms', p, e, id, metadata)
    ensures IsReady(u', ms', p) == ReadyOnLanding(u, ms, p, metadata, p)
  {
    ChainFrame(u, u', p);
  }

  lemma ReadyElsewhere<M>(u: Unit<M>, ms: Store<M>, u': Unit<M>, ms': Store<M>, p: nat, e: Event, id: M,
                          metadata: Meta, q: nat)
    requires WellFormed(u, ms) && WellFormed(u', ms') && LandedOn(u, ms, u', ms', p, e, id, metadata)
    requires q < |u.slots| && q != p
    ensures IsReady(u', ms', q) == ReadyOnLanding(u, ms, p, metadata, q)
  {
    assert SlotOk(u.slots[q], ms);
    if u.slots[q].IsComplete() {
      ChainFrame(u, u', q);
    }
  }

  /** ReadyAfter foresees exactly what is ready. */
  lemma ReadyAfterExact<M>(s: System<M>, a: Action<M>, q: nat)
    requires Inv(s) && Enabled(s, a) && a.Arrive? && q < |s.unit.slots|
    ensures var s' := Apply(s, a);
            WellFormed(s'.unit, s'.store) && |s'.unit.slots| == |s.unit.slots|
              && IsReady(s'.unit, s'.store, q) == ReadyAfter(s, a, q)
  {
    if !Landed(s, a) {
      QuietArrival(s, a, q);
    } else {
      LandedFrame(s, a);
      var s', p := Apply(s, a), s.unit.priority[a.event.eventType];
      if q == p {
        ReadyHere(s.unit, s.store, s'.unit, s'.store, p, a.event, a.id, a.meta);
      } else {
        ReadyElsewhere(s.unit, s.store, s'.unit, s'.store, p, a.event, a.id, a.meta, q);
      }
    }
  }

  /** An arrival leaves a flagged unit something ready. */
  ghost predicate LeavesReady<M>(s: System<M>, a: Action<M>)
    requires Inv(s) && Enabled(s, a)
  {
    a.Arrive? && s.unit.inReadyQueue ==> exists q :: 0 <= q < |s.unit.slots| && ReadyAfter(s, a, q)
  }

  lemma LeavesReadyIs<M>(s: System<M>, a: Action<M>)
    requires Inv(s) && Enabled(s, a) && a.Arrive?
    ensures WellFormed(Apply(s, a).unit, Apply(s, a).store)
    ensures SomeReady(Apply(s, a).unit, Apply(s, a).store) <==>
              exists q :: 0 <= q < |s.unit.slots| && ReadyAfter(s, a, q)
  {
    ReadyAfterExact(s, a, 0);
    forall q | 0 <= q < |s.unit.slots| ensures IsReady(Apply(s, a).unit, Apply(s, a).store, q) == ReadyAfter(s, a, q) {
      ReadyAfterExact(s, a, q);
    }
  }

  lemma ArrivalQueueExact<M>(s: System<M>, a: Action<M>)
    requires Inv(s) && Enabled(s, a) && a.Arrive? && QueueExact(s)
    ensures Inv(Apply(s, a)) && (QueueExact(Apply(s, a)) <==> LeavesReady(s, a))
  {
    StepInv(s, a);
    LeavesReadyIs(s, a);
    if Landed(s, a) {
      AcceptedArrivalQueues(s, a);
    } else {
      QuietFlags(s, a);
    }
  }

  lemma AttemptQueueExact<M>(s: System<M>, j: nat, ok: bool)
    requires Inv(s) && Enabled(s, Attempt(j, ok)) && QueueExact(s)
    ensures JobOk(s, j) && WellFormed(Attempted(s, j, ok).unit, Attempted(s, j, ok).store)
    ensures QueueExact(Attempted(s, j, ok))
  {
    QuietAttempt(s, j, ok, 0);
    if s.unit.inReadyQueue {
      var q :| 0 <= q < |s.unit.slots| && IsReady(s.unit, s.store, q);
      QuietAttempt(s, j, ok, q);
    }
  }

  lemma ReportQueueExact<M>(s: System<M>, j: nat)
    requires Inv(s) && Enabled(s, Report(j)) && QueueExact(s)
    ensures JobOk(s, j) && WellFormed(Reported(s, j).unit, Reported(s, j).store) && QueueExact(Reported(s, j))
  {
    ReportAt(s, j);
    ReportedRel(s, j);
    ReportQueues(s, j);
    if s.unit.inReadyQueue {
      var q :| 0 <= q < |s.unit.slots| && IsReady(s.unit, s.store, q);
      ReportKeepsReady(s, j, q);
    }
  }

  lemma ReportQueues<M>(s: System<M>, j: nat)
    requires Inv(s) && Enabled(s, Report(j)) && JobOk(s, j)
    ensures var s' := Reported(s, j);
            && WellFormed(s'.unit, s'.store)
            && s'.unit.queued ==
              (if s'.unit.inReadyQueue && !s.unit.inReadyQueue then s.unit.queued + 1 else s.unit.queued)
            && (s.unit.inReadyQueue ==> s'.unit.inReadyQueue)
            && (s'.unit.inReadyQueue && !s.unit.inReadyQueue ==> SomeReady(s'.unit, s'.store))
  {
    ReportAt(s, j);
    ReportedRel(s, j);
    if !s.unit.slots[s.jobs[j].slot].IsComplete() {
      DeltaReport(s, j, 0);
    }
  }

  /**
    Queue uniqueness holds after a step exactly when the step is no arrival that leaves a flagged unit nothing
    ready.
   */
  lemma StepQueueExact<M>(s: System<M>, a: Action<M>)
    requires Inv(s) && Enabled(s, a) && QueueExact(s)
    ensures Inv(Apply(s, a)) && (QueueExact(Apply(s, a)) <==> LeavesReady(s, a))
  {
    StepInv(s, a);
    match a
    case Arrive(_, _, _) => ArrivalQueueExact(s, a);
    case Dispatch => DispatchedRel(s);
    case Attempt(j, ok) => AttemptQueueExact(s, j, ok);
    case Report(j) => ReportQueueExact(s, j);
  }

  /**
    An event cannot unready anything when its own dependency is already met and, if it restarts its
    element's versions, no element depends on that one. Without dependencies this is every event.
   */
  ghost predicate Harmless<M>(s: System<M>, a: Action<M>)
    requires Inv(s) && Enabled(s, a) && a.Arrive?
  {
    var p := s.unit.priority[a.event.eventType];
    && (s.unit.slots[p].dependency.Some? && s.unit.slots[DependencyIndex(s.unit, p)].IsComplete() ==>
          var last := s.unit.slots[DependencyIndex(s.unit, p)].lastProcessed;
          var needed := a.meta.dependency;
          needed.Some? &&
          Meets(s.unit.slots[p].dependency.value.kind, needed.value, last))
    && (a.meta.version.InitGen() ==>
          forall q :: 0 <= q < |s.unit.slots| && s.unit.slots[q].dependency.Some? ==> DependencyIndex(s.unit, q) != p)
  }

  lemma HarmlessKeepsReady<M>(s: System<M>, a: Action<M>, q: nat)
    requires Inv(s) && Enabled(s, a) && a.Arrive? && Harmless(s, a)
    requires q < |s.unit.slots| && IsReady(s.unit, s.store, q)
    ensures ReadyAfter(s, a, q)
  {
    assert SlotOk(s.unit.slots[q], s.store);
  }

  lemma HarmlessLeavesReady<M>(s: System<M>, a: Action<M>)
    requires Inv(s) && Enabled(s, a) && QueueExact(s) && (a.Arrive? ==> Harmless(s, a))
    ensures LeavesReady(s, a)
  {
    if a.Arrive? && s.unit.inReadyQueue {
      var q :| 0 <= q < |s.unit.slots| && IsReady(s.unit, s.store, q);
      HarmlessKeepsReady(s, a, q);
    }
  }

  ghost predicate Exact<M>(s: System<M>) {
    Inv(s) && QueueExact(s)
  }

  lemma StepExact<M>(s: System<M>, a: Action<M>, s': System<M>)
    requires Step(s, a, s') && Exact(s) && LeavesReady(s, a)
    ensures Exact(s')
  {
    StepQueueExact(s, a);
  }

  lemma {:induction false} RunQueueExact<M>(tr: seq<System<M>>, actions: seq<Action<M>>, i: nat)
    requires Run(tr, actions) && i < |tr|
    requires forall k :: 0 <= k < i && Step(tr[k], actions[k], tr[k + 1]) ==> LeavesReady(tr[k], actions[k])
    ensures Exact(tr[i])
  {
    if i == 0 {
      InitialInv(tr[0]);
    } else {
      RunQueueExact(tr, actions, i - 1);
      assert Step(tr[i - 1], actions[i - 1], tr[i - 1 + 1]);
      StepExact(tr[i - 1], actions[i - 1], tr[i]);
    }
  }

  /** In such a run a dispatch never comes back with an error. */
  lemma GetNextNeverFails<M>(tr: seq<System<M>>, actions: seq<Action<M>>, i: nat)
    requires Run(tr, actions) && i < |actions| && actions[i].Dispatch?
    requires forall k :: 0 <= k < i && Step(tr[k], actions[k], tr[k + 1]) ==> LeavesReady(tr[k], actions[k])
    ensures Inv(tr[i]) && GetNext(tr[i].unit, tr[i].store).Handed? && tr[i].unit.inReadyQueue && tr[i].unit.queued == 1
  {
    RunQueueExact(tr, actions, i);
    assert Step(tr[i], actions[i], tr[i + 1]);
  }

  // -------------------------------------------------------- every run: at most once on the channel, awake or stuck

  /** Flagged but on no channel. */
  ghost predicate Stuck<M>(s: System<M>) {
    s.unit.inReadyQueue && s.unit.queued == 0
  }

  /** The unit is never on the channel twice, and only while it is flagged. */
  ghost predicate QueuedOnce<M>(s: System<M>) {
    s.unit.queued <= 1 && (s.unit.queued == 1 ==> s.unit.inReadyQueue)
  }

  lemma StepQueuedOnce<M>(s: System<M>, a: Action<M>)
    requires Inv(s) && Enabled(s, a) && QueuedOnce(s)
    ensures QueuedOnce(Apply(s, a))
  {
    match a
    case Arrive(_, _, _) =>
      if Landed(s, a) {
        AcceptedArrivalQueues(s, a);
      } else {
        QuietFlags(s, a);
      }
    case Dispatch => DispatchedRel(s);
    case Attempt(j, ok) => assert JobOk(s, j);
    case Report(j) => assert JobOk(s, j); ReportQueues(s, j);
  }

  ghost predicate Kept<M>(s: System<M>) {
    WellFormed(s.unit, s.store) && Awake(s) && QueuedOnce(s)
  }

  lemma StepKept<M>(s: System<M>, a: Action<M>, s': System<M>)
    requires Step(s, a, s') && Kept(s)
    ensures Kept(s')
  {
    StepAwake(s, a);
    StepQueuedOnce(s, a);
  }

  lemma InitialKept<M>(s: System<M>)
    requires Initial(s)
    ensures Kept(s)
  {
    InitialInv(s);
    assert forall p :: 0 <= p < |s.unit.slots| ==> !IsReady(s.unit, s.store, p);
  }

  lemma KeptOn<M>(tr: seq<System<M>>, actions: seq<Action<M>>, n: nat)
    requires Run(tr, actions) && n < |actions| && Kept(tr[n])
    ensures Kept(tr[n + 1])
  {
    StepKept(tr[n], actions[n], tr[n + 1]);
  }

  lemma RunKept<M>(tr: seq<System<M>>, actions: seq<Action<M>>, i: nat)
    requires Run(tr, actions) && i < |tr|
    ensures Kept(tr[i])
  {
    InitialKept(tr[0]);
    for n := 0 to i
      invariant Kept(tr[n])
    {
      KeptOn(tr, actions, n);
    }
  }

  /**
    No lost wake-up: in every state of every run, a ready element finds its unit on the channel (once), or
    some complete element in process whose report will look again, or the unit stuck.
   */
  lemma NoLostWakeUp<M>(tr: seq<System<M>>, actions: seq<Action<M>>, i: nat)
    requires Run(tr, actions) && i < |tr|
    ensures WellFormed(tr[i].unit, tr[i].store) && Awake(tr[i]) && QueuedOnce(tr[i])
    ensures SomeReady(tr[i].unit, tr[i].store) ==> tr[i].unit.queued == 1 || SomeInProcess(tr[i]) || Stuck(tr[i])
  {
    RunKept(tr, actions, i);
  }

  /** A dispatch strands the unit exactly when it finds nothing ready. */
  lemma DispatchStrands<M>(s: System<M>)
    requires Inv(s) && Enabled(s, Dispatch) && QueuedOnce(s)
    ensures Stuck(Dispatched(s)) <==> !SomeReady(s.unit, s.store)
  {
    DispatchedRel(s);
  }

  /**
    In any run, a unit is stuck after a step exactly when it was before, or the step dispatched it with nothing
    ready.
   */
  lemma StuckExactly<M>(tr: seq<System<M>>, actions: seq<Action<M>>, i: nat)
    requires Run(tr, actions) && i < |actions|
    ensures WellFormed(tr[i].unit, tr[i].store)
    ensures Stuck(tr[i + 1]) <==> Stuck(tr[i]) || (actions[i].Dispatch? && !SomeReady(tr[i].unit, tr[i].store))
  {
    RunKept(tr, actions, i);
    assert Step(tr[i], actions[i], tr[i + 1]);
    StepStrands(tr[i], actions[i], tr[i + 1]);
  }

  lemma StepStrands<M>(s: System<M>, a: Action<M>, s': System<M>)
    requires Step(s, a, s') && QueuedOnce(s)
    ensures Stuck(s') <==> Stuck(s) || (a.Dispatch? && !SomeReady(s.unit, s.store))
  {
    match a
    case Arrive(_, _, _) =>
      if Landed(s, a) {
        AcceptedArrivalQueues(s, a);
      } else {
        QuietFlags(s, a);
      }
    case Dispatch => DispatchStrands(s);
    case Attempt(j, ok) => assert JobOk(s, j);
    case Report(j) => assert JobOk(s, j); ReportQueues(s, j);
  }

  // ---------------------------------------------------------------- the stuck unit

  lemma StepStuck<M>(s: System<M>, a: Action<M>)
    requires Inv(s) && Enabled(s, a) && Stuck(s)
    ensures Stuck(Apply(s, a)) && Apply(s, a).handouts == s.handouts
  {
    match a
    case Arrive(_, _, _) =>
      var p := s.unit.priority[a.event.eventType];
      if s.unit.slots[p].IsComplete() && Accepts(s.unit.slots[p], s.store[a.id := a.meta], a.meta.version) {
        AcceptedArrivalQueues(s, a);
      } else {
        QuietFlags(s, a);
      }
    case Dispatch =>
    case Attempt(j, ok) => assert JobOk(s, j);
    case Report(j) => assert JobOk(s, j); ReportQueues(s, j);
  }

  lemma StepStuckTo<M>(s: System<M>, a: Action<M>, s': System<M>)
    requires Step(s, a, s') && Stuck(s)
    ensures Stuck(s') && s'.handouts == s.handouts
  {
    StepStuck(s, a);
  }

  /** Once stranded, a unit never hands out another job, whatever arrives or reports. */
  lemma {:induction false} StuckForever<M>(tr: seq<System<M>>, actions: seq<Action<M>>, i: nat, k: nat)
    requires Run(tr, actions) && i <= k < |tr| && Stuck(tr[i])
    ensures Stuck(tr[k])
    ensures tr[k].handouts == tr[i].handouts
    decreases k - i
  {
    if i < k {
      StepStuckTo(tr[i], actions[i], tr[i + 1]);
      StuckForever(tr, actions, i + 1, k);
    }
  }

  // ---------------------------------------------------------------- conflation preserves meaning

  /** The state a handler leaves after a list of events. */
  function Replay<D, M>(handle: (D, M) -> D, d: D, events: seq<M>): D {
    if events == [] then d else handle(Replay(handle, d, events[..|events| - 1]), events[|events| - 1])
  }

  /** An overwriting handler forgets what was there before. */
  ghost predicate Overwrites<D(!new), M>(handle: (D, M) -> D, events: seq<M>) {
    forall d, d', m :: m in events ==> handle(d, m) == handle(d', m)
  }

  lemma FirstIsMember<M>(xs: seq<M>)
    ensures xs == [] || xs[0] in xs
  {
  }

  /** Nothing of the unit is on the channel and no complete element is in process. */
  ghost predicate Quiescent<M>(s: System<M>) {
    s.unit.queued == 0 && !SomeInProcess(s)
  }

  /** At rest, an element whose dependency is met has dealt with its newest event: handled it, or given up on it. */
  lemma QuiescentProcessed<M>(s: System<M>, p: nat)
    requires Inv(s) && Awake(s) && Quiescent(s) && !Stuck(s)
    requires p < |s.unit.slots| && s.unit.slots[p].IsComplete() && SlotOrdered(s, p)
    requires s.unit.slots[p].metadata.Some? ==> MatchesDependency(s.unit, s.store, p)
    ensures s.unit.slots[p].metadata.Some? ==> s.store[s.unit.slots[p].metadata.value].Processed()
  {
    assert SlotOk(s.unit.slots[p], s.store);
    if s.unit.slots[p].metadata.Some? {
      assert !IsReady(s.unit, s.store, p);
      ChainBusyMeaning(s.unit, p);
    }
  }

  /**
    Conflation preserves meaning: at rest, the state left by the events the handler really ran for is the
    state left by handling every accepted event in order, unless the handler gave up on the newest one or
    the unit is stranded (RunQueueExact says which arrivals rule that out).
   */
  lemma ConflationPreservesMeaning<D(!new), M>(
    tr: seq<System<M>>, actions: seq<Action<M>>, i: nat, p: nat, handle: (D, M) -> D, d: D)
    requires Run(tr, actions) && i < |tr| && p < |tr[0].unit.slots| && tr[0].unit.slots[p].IsComplete()
    requires forall k :: 0 <= k < i && p < |tr[k].unit.slots| ==> Orderly(tr[k], actions[k], p)
    requires Quiescent(tr[i]) && !Stuck(tr[i]) && Inv(tr[i]) && p < |tr[i].unit.slots|
    requires tr[i].unit.slots[p].IsComplete() && tr[i].unit.slots[p].metadata.Some? ==>
               MatchesDependency(tr[i].unit, tr[i].store, p)
    requires forall m :: tr[i].unit.slots[p].metadata == Some(m) && m in tr[i].store ==>
               tr[i].store[m].count < MAX_RETRY
    requires Overwrites(handle, tr[i].accepted[p])
    ensures Replay(handle, d, tr[i].handled[p]) == Replay(handle, d, tr[i].accepted[p])
  {
    var s := tr[i];
    NoLostWakeUp(tr, actions, i);
    RunOrdered(tr, actions, p, i);
    QuiescentProcessed(s, p);
    assert HistoryOk(s, p);
    FirstIsMember(s.handled[p]);
    if s.accepted[p] != [] {
      assert s.handled[p][|s.handled[p]| - 1] == s.accepted[p][|s.accepted[p]| - 1];
    }
  }
}
