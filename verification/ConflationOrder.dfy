/** Versions along a run: what is pending is newer than what was processed, unless a stale job crosses a restart. */
module ConflationOrder {
  import opened Basics
  import opened Versions
  import opened ConflationModel
  import opened ConflationRuns

  /** The order a complete slot keeps between what it processed, what runs and what it holds. */
  ghost predicate SlotOrdered<M>(s: System<M>, p: nat)
    requires p < |s.unit.slots|
  {
    var slot := s.unit.slots[p];
    if slot.metadata.None? then slot.lastProcessed == ZERO
    else
      && slot.metadata.value in s.store
      && var h := s.store[slot.metadata.value];
         && (slot.lastProcessed == h.version || h.version.NewerThan(slot.lastProcessed))
         && (slot.event.Some? && !h.Processed() ==> h.version.NewerThan(slot.lastProcessed))
         && (slot.event.None? ==> h.count == -1)
         && (forall j :: j in s.jobs && s.jobs[j].slot == p && Some(s.jobs[j].metadata) != slot.metadata ==>
               s.jobs[j].metadata in s.store && h.version.NewerThan(s.store[s.jobs[j].metadata].version))
  }

  /**
    No first-generation event arrives while a superseded job of its slot, at least as new as it, is still in flight.
   */
  ghost predicate Orderly<M>(s: System<M>, a: Action<M>, p: nat)
    requires p < |s.unit.slots|
  {
    a.Arrive? && a.event.eventType == s.unit.slots[p].eventType && a.meta.version.InitGen() ==>
      forall j :: j in s.jobs && s.jobs[j].slot == p && Some(s.jobs[j].metadata) != s.unit.slots[p].metadata ==>
        s.jobs[j].metadata in s.store && a.meta.version.NewerThan(s.store[s.jobs[j].metadata].version)
  }

  lemma ArrivalApart<M>(s: System<M>, a: Action<M>, p: nat)
    requires Inv(s) && Enabled(s, a) && a.Arrive? && p < |s.unit.slots|
    requires a.event.eventType != s.unit.slots[p].eventType
    ensures var s' := Apply(s, a); var slot := s.unit.slots[p];
            && p < |s'.unit.slots| && s'.unit.slots[p] == slot
            && (slot.metadata.Some? ==>
                  slot.metadata.value in s.store && slot.metadata.value in s'.store
                  && s'.store[slot.metadata.value] == s.store[slot.metadata.value])
  {
    StoreGrows(s.unit, s.store, a.id, a.meta);
    assert s.unit.priority[s.unit.slots[p].eventType] == p;
    var q := s.unit.priority[a.event.eventType];
    assert SlotOk(s.unit.slots[p], s.store) && SlotOk(s.unit.slots[q], s.store);
  }

  lemma ArrivalThere<M>(s: System<M>, a: Action<M>)
    requires Inv(s) && Enabled(s, a) && a.Arrive?
    ensures var s', p, ms := Apply(s, a), s.unit.priority[a.event.eventType], s.store[a.id := a.meta];
            var slot := s.unit.slots[p];
            && |s'.unit.slots| == |s.unit.slots| && s'.unit.priority == s.unit.priority
            && SlotOk(slot, ms)
            && s'.unit.slots[p] == InsertedSlot(slot, ms, a.event, a.id)
            && s'.store == StoreResetBy(slot, ms, a.meta.version)
            && s'.accepted ==
              (if Accepts(slot, ms, a.meta.version) then s.accepted[p := s.accepted[p] + [a.id]] else s.accepted)
            && (slot.IsComplete() ==> s'.jobs == s.jobs)
  {
    StoreGrows(s.unit, s.store, a.id, a.meta);
  }

  /** Where an arrival goes and what it leaves there. */
  lemma ArrivalAt<M>(s: System<M>, a: Action<M>, p: nat)
    requires Inv(s) && Enabled(s, a) && a.Arrive? && p < |s.unit.slots|
    ensures var s' := Apply(s, a); var ms := s.store[a.id := a.meta]; var slot := s.unit.slots[p];
            && |s'.unit.slots| == |s.unit.slots| && s'.unit.priority == s.unit.priority
            && SlotOk(slot, ms)
            && (a.event.eventType != slot.eventType ==>
                  s'.unit.slots[p] == slot
                    && (slot.metadata.Some? ==> s'.store[slot.metadata.value] == s.store[slot.metadata.value]))
            && (a.event.eventType == slot.eventType ==>
                  && s'.unit.slots[p] == InsertedSlot(slot, ms, a.event, a.id)
                  && s'.store == StoreResetBy(slot, ms, a.meta.version)
                  && s'.accepted == (if Accepts(slot, ms, a.meta.version) then s.accepted[p := s.accepted[p] + [a.id]]
                                       else s.accepted)
                  && (slot.IsComplete() ==> s'.jobs == s.jobs))
  {
    ArrivalThere(s, a);
    StoreGrows(s.unit, s.store, a.id, a.meta);
    assert SlotOk(s.unit.slots[p], s.store[a.id := a.meta]);
    if a.event.eventType != s.unit.slots[p].eventType {
      ArrivalApart(s, a, p);
    } else {
      assert s.unit.priority[s.unit.slots[p].eventType] == p;
    }
  }

  lemma JobsKnown<M>(s: System<M>, j: nat)
    requires Inv(s) && j in s.jobs
    ensures s.jobs[j].metadata in s.store && s.jobs[j].slot < |s.unit.slots|
    ensures s.store[s.jobs[j].metadata].eventType == s.unit.slots[s.jobs[j].slot].eventType
    ensures s.unit.priority[s.unit.slots[s.jobs[j].slot].eventType] == s.jobs[j].slot
    ensures !s.jobs[j].done ==> s.store[s.jobs[j].metadata].count >= 0
  {
    assert JobOk(s, j);
  }

  lemma ArrivalOrder<M>(s: System<M>, a: Action<M>, p: nat)
    requires Inv(s) && Enabled(s, a) && a.Arrive? && p < |s.unit.slots| && s.unit.slots[p].IsComplete()
    requires SlotOrdered(s, p)
    ensures p < |Apply(s, a).unit.slots|
    ensures SlotOrdered(Apply(s, a), p) <==> Orderly(s, a, p)
  {
    if a.event.eventType != s.unit.slots[p].eventType {
      OtherArrival(s, a, p);
    } else {
      ArrivalHere(s, a, p);
      HereOrder(s, Apply(s, a), a, p);
    }
  }

  /** Slot p, its held metadata and its jobs are untouched. */
  ghost predicate Untouched<M>(s: System<M>, s': System<M>, p: nat) {
    && p < |s.unit.slots| && p < |s'.unit.slots| && s'.unit.slots[p] == s.unit.slots[p]
    && (s.unit.slots[p].metadata.Some? ==>
          s.unit.slots[p].metadata.value in s.store && s.unit.slots[p].metadata.value in s'.store
          && s'.store[s.unit.slots[p].metadata.value] == s.store[s.unit.slots[p].metadata.value])
    && (forall j :: j in s'.jobs && s'.jobs[j].slot == p ==>
          && j in s.jobs && s'.jobs[j] == s.jobs[j]
          && s.jobs[j].metadata in s.store && s.jobs[j].metadata in s'.store
          && s'.store[s.jobs[j].metadata] == s.store[s.jobs[j].metadata])
  }

  lemma UntouchedOrder<M>(s: System<M>, s': System<M>, p: nat)
    requires Untouched(s, s', p) && SlotOrdered(s, p)
    ensures SlotOrdered(s', p)
  {
  }

  /** Where an arrival of another type leaves slot p and what it holds. */
  lemma OtherSlot<M>(s: System<M>, a: Action<M>, p: nat)
    requires Inv(s) && Enabled(s, a) && a.Arrive? && p < |s.unit.slots|
    requires a.event.eventType != s.unit.slots[p].eventType
    ensures var s' := Apply(s, a);
            && p < |s'.unit.slots| && s'.unit.slots[p] == s.unit.slots[p]
            && (s.unit.slots[p].metadata.Some? ==>
                  s.unit.slots[p].metadata.value in s.store && s.unit.slots[p].metadata.value in s'.store
                  && s'.store[s.unit.slots[p].metadata.value] == s.store[s.unit.slots[p].metadata.value])
  {
    ArrivalApart(s, a, p);
  }

  /** An arrival touches no event of another type. */
  lemma OtherStore<M>(s: System<M>, a: Action<M>, m: M)
    requires Inv(s) && Enabled(s, a) && a.Arrive? && m in s.store && s.store[m].eventType != a.event.eventType
    ensures m in Apply(s, a).store && Apply(s, a).store[m] == s.store[m]
  {
    var q := s.unit.priority[a.event.eventType];
    ArrivalThere(s, a);
    assert SlotOk(s.unit.slots[q], s.store);
  }

  /** Jobs of other slots are there as before, and none is new. */
  lemma OtherJobs<M>(s: System<M>, a: Action<M>, j: nat)
    requires Inv(s) && Enabled(s, a) && a.Arrive? && j in Apply(s, a).jobs
    requires Apply(s, a).jobs[j].slot != s.unit.priority[a.event.eventType]
    ensures j in s.jobs && Apply(s, a).jobs[j] == s.jobs[j]
  {
    ArrivedRel(s, a.event, a.id, a.meta);
    OnlyNewJob(s, Arrived(s, a.event, a.id, a.meta), s.unit.priority[a.event.eventType], a.event, a.id, j);
  }

  lemma OnlyNewJob<M>(s: System<M>, s': System<M>, p: nat, e: Event, id: M, j: nat)
    requires AcceptRel(s, s', p, e, id) || RejectRel(s, s', p, e, id)
    requires j in s'.jobs && s'.jobs[j].slot != p
    ensures j in s.jobs && s'.jobs[j] == s.jobs[j]
  {
  }

  lemma OtherUntouched<M>(s: System<M>, a: Action<M>, p: nat)
    requires Inv(s) && Enabled(s, a) && a.Arrive? && p < |s.unit.slots|
    requires a.event.eventType != s.unit.slots[p].eventType
    ensures Untouched(s, Apply(s, a), p)
  {
    OtherSlot(s, a, p);
    var s' := Apply(s, a);
    forall j | j in s'.jobs && s'.jobs[j].slot == p
      ensures j in s.jobs && s'.jobs[j] == s.jobs[j]
      ensures s.jobs[j].metadata in s.store && s.jobs[j].metadata in s'.store
      ensures s'.store[s.jobs[j].metadata] == s.store[s.jobs[j].metadata]
    {
      OtherJobs(s, a, j);
      JobsKnown(s, j);
      OtherStore(s, a, s.jobs[j].metadata);
    }
  }

  lemma OtherArrival<M>(s: System<M>, a: Action<M>, p: nat)
    requires Inv(s) && Enabled(s, a) && a.Arrive? && p < |s.unit.slots| && s.unit.slots[p].IsComplete()
    requires SlotOrdered(s, p) && a.event.eventType != s.unit.slots[p].eventType
    ensures p < |Apply(s, a).unit.slots| && SlotOrdered(Apply(s, a), p)
  {
    OtherUntouched(s, a, p);
    UntouchedOrder(s, Apply(s, a), p);
  }

  /** An arrival at complete slot p, as far as its order is concerned. */
  ghost predicate HereRel<M>(s: System<M>, s': System<M>, a: Action<M>, p: nat) {
    && a.Arrive? && p < |s.unit.slots| == |s'.unit.slots|
    && a.event.eventType == s.unit.slots[p].eventType && s.unit.slots[p].IsComplete()
    && a.id !in s.store && a.meta.count == 0 && (a.meta.version.InitGen() ==> a.meta.version.value > 0)
    && SlotOk(s.unit.slots[p], s.store)
    && s'.unit.slots[p] == InsertedSlot(s.unit.slots[p], s.store[a.id := a.meta], a.event, a.id)
    && s'.store == StoreResetBy(s.unit.slots[p], s.store[a.id := a.meta], a.meta.version)
    && s'.jobs == s.jobs
    && (forall j :: j in s.jobs ==>
          s.jobs[j].metadata in s.store && s.jobs[j].metadata != a.id
            && (s.jobs[j].slot == p ==> s.unit.slots[p].metadata.Some?))
  }

  lemma HereOrder<M>(s: System<M>, s': System<M>, a: Action<M>, p: nat)
    requires HereRel(s, s', a, p) && SlotOrdered(s, p)
    ensures SlotOrdered(s', p) <==> Orderly(s, a, p)
  {
  }

  lemma ArrivalHere<M>(s: System<M>, a: Action<M>, p: nat)
    requires Inv(s) && Enabled(s, a) && a.Arrive? && p < |s.unit.slots| && s.unit.slots[p].IsComplete()
    requires a.event.eventType == s.unit.slots[p].eventType
    ensures HereRel(s, Apply(s, a), a, p)
  {
    ArrivalAt(s, a, p);
    assert SlotOk(s.unit.slots[p], s.store);
    forall j | j in s.jobs
      ensures s.jobs[j].metadata in s.store && (s.jobs[j].slot == p ==> s.unit.slots[p].metadata.Some?) {
      JobsKnown(s, j);
      assert JobOk(s, j);
    }
  }

  lemma DispatchOrder<M>(s: System<M>, p: nat)
    requires Inv(s) && Enabled(s, Dispatch) && p < |s.unit.slots| && SlotOrdered(s, p)
    ensures p < |Dispatched(s).unit.slots| && SlotOrdered(Dispatched(s), p)
  {
    DispatchedRel(s);
    if SomeReady(s.unit, s.store) {
      HandedOrder(s, Dispatched(s), NextReady(s.unit, s.store).value, p);
    }
  }

  lemma HandedOrder<M>(s: System<M>, s': System<M>, q: nat, p: nat)
    requires HandRel(s, s', q) && p < |s.unit.slots| && SlotOrdered(s, p)
    ensures SlotOrdered(s', p)
  {
  }

  lemma AttemptOrder<M>(s: System<M>, j: nat, ok: bool, p: nat)
    requires Inv(s) && Enabled(s, Attempt(j, ok)) && p < |s.unit.slots| && SlotOrdered(s, p)
    ensures JobOk(s, j) && p < |Attempted(s, j, ok).unit.slots| && SlotOrdered(Attempted(s, j, ok), p)
  {
    JobsKnown(s, j);
    assert JobOk(s, j);
  }

  /** What a report leaves behind. */
  lemma ReportAt<M>(s: System<M>, j: nat)
    requires Inv(s) && Enabled(s, Report(j))
    ensures JobOk(s, j)
    ensures var s' := Reported(s, j); var q := s.jobs[j].slot; var m := s.jobs[j].metadata;
            && (s.unit.slots[q].IsComplete() ==> s.unit.slots[q].metadata.Some?)
            && (s.unit.slots[q].metadata.Some? ==> s.unit.slots[q].metadata.value in s.store)
            && s'.unit.slots == s.unit.slots[q := PostProcess(s.unit.slots[q], s.store, m, !s.jobs[j].done)]
            && s'.store == s.store && s'.jobs == s.jobs - {j}
  {
    JobsKnown(s, j);
    assert JobOk(s, j);
    assert SlotOk(s.unit.slots[s.jobs[j].slot], s.store);
  }

  lemma ReportOrder<M>(s: System<M>, j: nat, p: nat)
    requires Inv(s) && Enabled(s, Report(j)) && p < |s.unit.slots| && s.unit.slots[p].IsComplete() && SlotOrdered(s, p)
    ensures JobOk(s, j) && p < |Reported(s, j).unit.slots| && SlotOrdered(Reported(s, j), p)
  {
    ReportAt(s, j);
    var s' := Reported(s, j);
    if s.jobs[j].slot != p {
      assert s'.unit.slots[p] == s.unit.slots[p];
    } else {
      ReportedHere(s, j);
    }
  }

  lemma ReportedHere<M>(s: System<M>, j: nat)
    requires Inv(s) && Enabled(s, Report(j)) && JobOk(s, j)
    requires s.unit.slots[s.jobs[j].slot].IsComplete() && SlotOrdered(s, s.jobs[j].slot)
    ensures SlotOrdered(Reported(s, j), s.jobs[j].slot)
  {
    ReportAt(s, j);
    var p, m := s.jobs[j].slot, s.jobs[j].metadata;
    var slot := s.unit.slots[p];
    var h := slot.metadata.value;
    if m != h {
      assert s.store[h].version.NewerThan(s.store[m].version);
    }
  }

  /** Steps other than arrivals keep the order of every complete slot. */
  lemma WorkOrder<M>(s: System<M>, a: Action<M>, p: nat)
    requires Inv(s) && Enabled(s, a) && !a.Arrive? && p < |s.unit.slots| && s.unit.slots[p].IsComplete()
    requires SlotOrdered(s, p)
    ensures p < |Apply(s, a).unit.slots| && SlotOrdered(Apply(s, a), p)
  {
    match a
    case Dispatch => DispatchOrder(s, p);
    case Attempt(j, ok) => AttemptOrder(s, j, ok, p);
    case Report(j) => ReportOrder(s, j, p);
  }

  /** Exactly the orderly arrivals keep the order. */
  lemma StepOrder<M>(s: System<M>, a: Action<M>, p: nat)
    requires Inv(s) && Enabled(s, a) && p < |s.unit.slots| && s.unit.slots[p].IsComplete() && SlotOrdered(s, p)
    ensures p < |Apply(s, a).unit.slots|
    ensures SlotOrdered(Apply(s, a), p) <==> Orderly(s, a, p)
  {
    if a.Arrive? {
      ArrivalOrder(s, a, p);
    } else {
      WorkOrder(s, a, p);
    }
  }

  // ---------------------------------------------------------------- over whole runs

  lemma {:induction false} RunOrdered<M>(tr: seq<System<M>>, actions: seq<Action<M>>, p: nat, i: nat)
    requires Run(tr, actions) && i < |tr|
    requires p < |tr[0].unit.slots| && tr[0].unit.slots[p].IsComplete()
    requires forall k :: 0 <= k < i && p < |tr[k].unit.slots| ==> Orderly(tr[k], actions[k], p)
    ensures p < |tr[i].unit.slots| && tr[i].unit.slots[p].IsComplete() && SlotOrdered(tr[i], p)
  {
    RunKinds(tr, actions, i);
    if i > 0 {
      RunOrdered(tr, actions, p, i - 1);
      assert Step(tr[i - 1], actions[i - 1], tr[i]);
      StepOrder(tr[i - 1], actions[i - 1], p);
    }
  }

  /** In a run with orderly arrivals, what an element still has to process is newer than all it processed. */
  lemma PendingIsNewer<M>(tr: seq<System<M>>, actions: seq<Action<M>>, p: nat, i: nat)
    requires Run(tr, actions) && i < |tr|
    requires p < |tr[0].unit.slots| && tr[0].unit.slots[p].IsComplete()
    requires forall k :: 0 <= k < i && p < |tr[k].unit.slots| ==> Orderly(tr[k], actions[k], p)
    ensures p < |tr[i].unit.slots|
    ensures var slot := tr[i].unit.slots[p];
            slot.event.Some? && slot.metadata.Some? && slot.metadata.value in tr[i].store
              && !tr[i].store[slot.metadata.value].Processed() ==>
              tr[i].store[slot.metadata.value].version.NewerThan(slot.lastProcessed)
  {
    RunOrdered(tr, actions, p, i);
  }

  ghost predicate Restarts<M>(a: Action<M>, eventType: string) {
    a.Arrive? && a.event.eventType == eventType && a.meta.version.InitGen()
  }

  /** Slot p of the later state has processed and holds nothing older than in the earlier one. */
  ghost predicate NoOlder<M>(s: System<M>, s': System<M>, p: nat) {
    && p < |s.unit.slots| && p < |s'.unit.slots|
    && !s.unit.slots[p].lastProcessed.NewerThan(s'.unit.slots[p].lastProcessed)
    && (s.unit.slots[p].metadata.Some? ==>
          && s'.unit.slots[p].metadata.Some?
          && s.unit.slots[p].metadata.value in s.store && s'.unit.slots[p].metadata.value in s'.store
          && var h, h' := s.store[s.unit.slots[p].metadata.value], s'.store[s'.unit.slots[p].metadata.value];
             !h.version.NewerThan(h'.version))
  }

  lemma ArrivalNoOlder<M>(s: System<M>, a: Action<M>, p: nat)
    requires Inv(s) && Enabled(s, a) && a.Arrive? && p < |s.unit.slots| && s.unit.slots[p].IsComplete()
    requires !Restarts(a, s.unit.slots[p].eventType)
    ensures NoOlder(s, Apply(s, a), p)
  {
    ArrivalAt(s, a, p);
    assert SlotOk(s.unit.slots[p], s.store);
  }

  lemma DispatchNoOlder<M>(s: System<M>, p: nat)
    requires Inv(s) && Enabled(s, Dispatch) && p < |s.unit.slots|
    ensures NoOlder(s, Dispatched(s), p)
  {
    DispatchedRel(s);
    assert SlotOk(s.unit.slots[p], s.store);
  }

  lemma AttemptNoOlder<M>(s: System<M>, j: nat, ok: bool, p: nat)
    requires Inv(s) && Enabled(s, Attempt(j, ok)) && p < |s.unit.slots|
    ensures JobOk(s, j) && NoOlder(s, Attempted(s, j, ok), p)
  {
    assert JobOk(s, j);
    assert SlotOk(s.unit.slots[p], s.store);
  }

  lemma PostProcessNoOlder<M>(slot: Slot<M>, ms: Store<M>, m: M, failed: bool)
    requires m in ms && (slot.metadata.Some? ==> slot.metadata.value in ms)
             && (slot.IsComplete() ==> slot.metadata.Some?)
    ensures var after := PostProcess(slot, ms, m, failed);
            after.metadata == slot.metadata && !slot.lastProcessed.NewerThan(after.lastProcessed)
  {
  }

  lemma ReportNoOlder<M>(s: System<M>, j: nat, p: nat)
    requires Inv(s) && Enabled(s, Report(j)) && p < |s.unit.slots|
    ensures JobOk(s, j) && NoOlder(s, Reported(s, j), p)
  {
    JobsKnown(s, j);
    ReportAt(s, j);
    PostProcessNoOlder(s.unit.slots[s.jobs[j].slot], s.store, s.jobs[j].metadata, !s.jobs[j].done);
    assert SlotOk(s.unit.slots[p], s.store);
  }

  /** Only a first-generation arrival of its own type takes an element's versions back. */
  lemma VersionsNeverFall<M>(s: System<M>, a: Action<M>, p: nat)
    requires Inv(s) && Enabled(s, a) && p < |s.unit.slots| && s.unit.slots[p].IsComplete()
    requires !Restarts(a, s.unit.slots[p].eventType)
    ensures NoOlder(s, Apply(s, a), p)
  {
    match a
    case Arrive(_, _, _) => ArrivalNoOlder(s, a, p);
    case Dispatch => DispatchNoOlder(s, p);
    case Attempt(j, ok) => AttemptNoOlder(s, j, ok, p);
    case Report(j) => ReportNoOlder(s, j, p);
  }

  /** The same of a step, with the element's registration. */
  ghost predicate Holds<M>(s: System<M>, s': System<M>, p: nat) {
    NoOlder(s, s', p) && s'.unit.slots[p].SameKind(s.unit.slots[p])
  }

  lemma StepHolds<M>(s: System<M>, a: Action<M>, s': System<M>, p: nat)
    requires Step(s, a, s') && p < |s.unit.slots| && s.unit.slots[p].IsComplete()
    requires !Restarts(a, s.unit.slots[p].eventType)
    ensures Holds(s, s', p)
  {
    VersionsNeverFall(s, a, p);
    StepKinds(s, a);
  }

  lemma HoldsOn<M>(tr: seq<System<M>>, actions: seq<Action<M>>, p: nat, i: nat, n: nat)
    requires Run(tr, actions) && i <= n < |actions| && Holds(tr[i], tr[n], p)
    requires tr[i].unit.slots[p].IsComplete() && !Restarts(actions[n], tr[i].unit.slots[p].eventType)
    ensures Holds(tr[i], tr[n + 1], p)
  {
    assert Step(tr[n], actions[n], tr[n + 1]);
    StepHolds(tr[n], actions[n], tr[n + 1], p);
    HoldsTransitive(tr[i], tr[n], tr[n + 1], p);
  }

  lemma HeldNeverFalls<M>(tr: seq<System<M>>, actions: seq<Action<M>>, p: nat, i: nat, k: nat)
    requires Run(tr, actions) && i <= k < |tr| && p < |tr[i].unit.slots| && tr[i].unit.slots[p].IsComplete()
    requires forall n :: i <= n < k ==> !Restarts(actions[n], tr[i].unit.slots[p].eventType)
    requires tr[i].unit.slots[p].metadata.Some? && tr[i].unit.slots[p].metadata.value in tr[i].store
    ensures Holds(tr[i], tr[k], p)
  {
    for n := i to k
      invariant Holds(tr[i], tr[n], p)
    {
      HoldsOn(tr, actions, p, i, n);
    }
  }

  lemma HoldsTransitive<M>(s: System<M>, t: System<M>, u: System<M>, p: nat)
    requires Holds(s, t, p) && Holds(t, u, p)
    ensures Holds(s, u, p)
  {
  }

  /** Action n hands out the event that element p holds. */
  ghost predicate HandsOut<M>(tr: seq<System<M>>, actions: seq<Action<M>>, n: nat, p: nat)
    requires Run(tr, actions) && n < |actions|
  {
    actions[n].Dispatch? && p < |tr[n].unit.slots| && HandRel(tr[n], tr[n + 1], p)
  }

  /** Between first-generation arrivals an element's events go to workers in version order. */
  lemma DispatchedNeverFall<M>(tr: seq<System<M>>, actions: seq<Action<M>>, p: nat, i: nat, k: nat)
    requires Run(tr, actions) && i < k < |actions| && HandsOut(tr, actions, i, p) && HandsOut(tr, actions, k, p)
    requires forall n :: i <= n < k ==> !Restarts(actions[n], tr[i].unit.slots[p].eventType)
    ensures var m, m' := tr[i].unit.slots[p].metadata.value, tr[k].unit.slots[p].metadata.value;
            !tr[i].store[m].version.NewerThan(tr[k].store[m'].version)
  {
    HeldNeverFalls(tr, actions, p, i, k);
  }
}
