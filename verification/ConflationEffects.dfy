/** What each step of a run does, field by field, and what an element has processed. */
module ConflationEffects {
  import opened Basics
  import opened Versions
  import opened ConflationModel
  import opened ConflationRuns
  import opened ConflationOrder

  ghost function Newer(v: Stamp, v': Stamp): Stamp {
    if v'.Rank() > v.Rank() then v' else v
  }

  // ---------------------------------------------------------------- readiness

  /**
    An element is ready exactly when it is complete, has an event that was neither handled nor failed three times,
    no element of its chain is in process, and its dependency, if it has one, is a complete element that last
    processed the Value asked for, or at least that Value.
   */
  lemma ReadyExactly<M>(u: Unit<M>, ms: Store<M>, p: nat)
    requires WellFormed(u, ms) && p < |u.slots|
    ensures var slot := u.slots[p];
            IsReady(u, ms, p) <==>
              && slot.IsComplete() && slot.event.Some? && slot.metadata.Some? && slot.metadata.value in ms
              && ms[slot.metadata.value].count != -1 && ms[slot.metadata.value].count < 3
              && (forall q :: 0 <= q < |u.slots| && InChain(u, p, q) && u.slots[q].IsComplete() ==>
                    !u.slots[q].inProcess)
              && match slot.dependency
                 case None => true
                 case Some(on) =>
                   && u.slots[DependencyIndex(u, p)].IsComplete() && ms[slot.metadata.value].dependency.Some?
                   && var needed, processed := ms[slot.metadata.value].dependency.value.value,
                                               u.slots[DependencyIndex(u, p)].lastProcessed.value;
                      if on.kind == ExactMatch then processed == needed else processed >= needed
  {
    assert SlotOk(u.slots[p], ms);
    if u.slots[p].IsComplete() {
      ChainBusyMeaning(u, p);
      if u.slots[p].inProcess {
        assert InChain(u, p, p);
      }
    }
  }

  // ---------------------------------------------------------------- reports

  /**
    A report ends its job. If the handler succeeded, its slot, of either kind, has processed the newer of what
    it had and the job's version, and it drops the event if it still holds that version; after a failure it keeps
    both. Nothing else changes.
   */
  lemma ReportEffect<M>(s: System<M>, j: nat)
    requires Inv(s) && Enabled(s, Report(j))
    ensures s.jobs[j].slot < |s.unit.slots| && s.jobs[j].metadata in s.store
    ensures var s', job := Apply(s, Report(j)), s.jobs[j];
            var v, was, after := s.store[job.metadata].version, s.unit.slots[job.slot], s'.unit.slots[job.slot];
            && s'.store == s.store && s'.accepted == s.accepted && s'.handled == s.handled && s'.jobs == s.jobs - {j}
            && |s'.unit.slots| == |s.unit.slots|
            && (forall p :: 0 <= p < |s.unit.slots| && p != job.slot ==> s'.unit.slots[p] == s.unit.slots[p])
            && after.SameKind(was) && after.metadata == was.metadata && !after.inProcess
            && after.lastProcessed == (if job.done then Newer(was.lastProcessed, v) else was.lastProcessed)
            && (was.IsComplete() ==> was.metadata.Some? && was.metadata.value in s.store)
            && after.event == (if job.done && was.IsComplete() && s.store[was.metadata.value].version == v
                             then None else was.event)
  {
    JobsKnown(s, j);
    ReportAt(s, j);
    ReportedRel(s, j);
    assert JobOk(s, j) && SlotOk(s.unit.slots[s.jobs[j].slot], s.store);
  }

  // ---------------------------------------------------------------- arrivals

  /**
    Whether a slot takes an event of version v: newer than what it processed and, if it is complete, than what it
    holds; or a restart.
   */
  ghost predicate Takes<M>(slot: Slot<M>, ms: Store<M>, v: Stamp) {
    || v.generation == 0
    || (&& v.Rank() > slot.lastProcessed.Rank()
        && (slot.IsComplete() && slot.metadata.Some? && slot.metadata.value in ms ==>
              v.Rank() > ms[slot.metadata.value].version.Rank()))
  }

  lemma InsertEffect<M>(slot: Slot<M>, ms: Store<M>, e: Event, id: M, meta: Meta)
    requires id !in ms && (slot.metadata.Some? ==> slot.metadata.value in ms)
    requires meta.version.generation == 0 ==> meta.version.value > 0
    ensures var taken, after := Takes(slot, ms, meta.version), InsertedSlot(slot, ms[id := meta], e, id);
            && Accepts(slot, ms[id := meta], meta.version) == taken
            && after.SameKind(slot) && after.inProcess == slot.inProcess
            && after.lastProcessed == (if meta.version.generation == 0 then ZERO else slot.lastProcessed)
            && after.metadata == (if taken then Some(id) else slot.metadata)
            && after.event == (if taken && slot.IsComplete() then Some(e) else slot.event)
            && StoreResetBy(slot, ms[id := meta], meta.version) ==
                 (if meta.version.generation == 0 && slot.IsComplete() && slot.metadata.Some?
                  then ms[slot.metadata.value := ms[slot.metadata.value].(version := ZERO)][id := meta]
                  else ms[id := meta])
  {
  }

  /**
    An arrival at slot p, of either kind: a first-generation version sets back what the slot processed and, for a
    complete slot, the version of what it holds; a taken event replaces what is held, and for a delta slot
    becomes a job at once.
   */
  lemma ArrivalEffect<M>(s: System<M>, a: Action<M>, p: nat)
    requires Inv(s) && Enabled(s, a) && a.Arrive? && p < |s.unit.slots|
    requires a.event.eventType == s.unit.slots[p].eventType
    ensures var s', v, was := Apply(s, a), a.meta.version, s.unit.slots[p];
            var taken := Takes(was, s.store, v);
            && |s'.unit.slots| == |s.unit.slots|
            && (forall q :: 0 <= q < |s.unit.slots| && q != p ==> s'.unit.slots[q] == s.unit.slots[q])
            && s'.unit.slots[p].SameKind(was) && s'.unit.slots[p].inProcess == was.inProcess
            && s'.unit.slots[p].lastProcessed == (if v.generation == 0 then ZERO else was.lastProcessed)
            && s'.unit.slots[p].metadata == (if taken then Some(a.id) else was.metadata)
            && s'.unit.slots[p].event == (if taken && was.IsComplete() then Some(a.event) else was.event)
            && s'.accepted == (if taken then s.accepted[p := s.accepted[p] + [a.id]] else s.accepted)
            && s'.jobs == (if taken && !was.IsComplete()
                           then s.jobs[s.nextJob := Job(p, a.event, a.id, false, false)] else s.jobs)
            && (was.metadata.Some? ==> was.metadata.value in s.store)
            && s'.store == (if v.generation == 0 && was.IsComplete() && was.metadata.Some? then
                              s.store[was.metadata.value := s.store[was.metadata.value].(version := ZERO)]
                            else s.store)[a.id := a.meta]
  {
    assert s.unit.priority[s.unit.slots[p].eventType] == p;
    assert SlotOk(s.unit.slots[p], s.store);
    InsertEffect(s.unit.slots[p], s.store, a.event, a.id, a.meta);
    ArrivalThere(s, a);
    ArrivedRel(s, a.event, a.id, a.meta);
  }

  // ---------------------------------------------------------------- attempts

  /**
    A handler attempt marks the job's metadata and nothing else of the unit: -1 for success, one more failure
    otherwise.
   */
  lemma AttemptEffect<M>(s: System<M>, j: nat, ok: bool)
    requires Inv(s) && Enabled(s, Attempt(j, ok))
    ensures var s', m := Apply(s, Attempt(j, ok)), s.jobs[j].metadata;
            && m in s.store && s'.unit == s.unit && s'.accepted == s.accepted
            && s'.store.Keys == s.store.Keys
            && (forall k :: k in s.store && k != m ==> s'.store[k] == s.store[k])
            && s'.store[m] == s.store[m].(count := if ok then -1 else s.store[m].count + 1)
            && s'.jobs == s.jobs[j := s.jobs[j].(tried := true, done := ok)]
  {
    JobsKnown(s, j);
    assert JobOk(s, j);
  }

  /**
    Three attempts: when a job of the event that a complete slot still holds reports a failure, the event stays,
    and the slot is ready again exactly when fewer than three attempts failed and its chain and dependency allow it.
   */
  lemma RetriedUntilThree<M>(s: System<M>, j: nat)
    requires Inv(s) && Enabled(s, Report(j)) && !s.jobs[j].done && s.jobs[j].slot < |s.unit.slots|
    requires s.unit.slots[s.jobs[j].slot].IsComplete() && SlotOrdered(s, s.jobs[j].slot)
    requires s.unit.slots[s.jobs[j].slot].metadata == Some(s.jobs[j].metadata)
    ensures var s', p := Apply(s, Report(j)), s.jobs[j].slot;
            && WellFormed(s'.unit, s'.store) && p < |s'.unit.slots| && s'.unit.slots[p].IsComplete()
            && s'.unit.slots[p].metadata.Some? && s.jobs[j].metadata in s.store
            && s'.unit.slots[p].event.Some? && s'.unit.slots[p].event == s.unit.slots[p].event
            && (IsReady(s'.unit, s'.store, p) <==>
                  s.store[s.jobs[j].metadata].count < 3 && !ChainBusy(s'.unit, p)
                    && MatchesDependency(s'.unit, s'.store, p))
  {
    ReportEffect(s, j);
    StepInv(s, Report(j));
    JobsKnown(s, j);
    assert JobOk(s, j);
  }

  // ---------------------------------------------------------------- what an element has processed

  /** The newest version of slot p reported as handled since the last first-generation arrival of its type. */
  ghost function NewestReported<M>(tr: seq<System<M>>, actions: seq<Action<M>>, p: nat, n: nat): Stamp
    requires |tr| == |actions| + 1 && n <= |actions|
  {
    if n == 0 then ZERO
    else
      var s, a, before := tr[n - 1], actions[n - 1], NewestReported(tr, actions, p, n - 1);
      if a.Arrive? && p < |s.unit.slots| && a.event.eventType == s.unit.slots[p].eventType
        && a.meta.version.generation == 0
      then ZERO
      else if a.Report? && Succeeded(s, a.job, p) then Newer(before, s.store[s.jobs[a.job].metadata].version)
      else before
  }

  ghost predicate Succeeded<M>(s: System<M>, j: nat, p: nat) {
    j in s.jobs && s.jobs[j].slot == p && s.jobs[j].done && s.jobs[j].metadata in s.store
  }

  lemma ArrivalProcessed<M>(s: System<M>, a: Action<M>, p: nat)
    requires Inv(s) && Enabled(s, a) && a.Arrive? && p < |s.unit.slots|
    ensures p < |Apply(s, a).unit.slots|
    ensures Apply(s, a).unit.slots[p].lastProcessed ==
              if a.event.eventType == s.unit.slots[p].eventType && a.meta.version.generation == 0
              then ZERO else s.unit.slots[p].lastProcessed
  {
    if a.event.eventType == s.unit.slots[p].eventType {
      ArrivalEffect(s, a, p);
    } else {
      ArrivalAt(s, a, p);
    }
  }

  lemma ProcessedOn<M>(tr: seq<System<M>>, actions: seq<Action<M>>, p: nat, n: nat)
    requires Run(tr, actions) && n < |actions| && p < |tr[n].unit.slots|
    requires tr[n].unit.slots[p].lastProcessed == NewestReported(tr, actions, p, n)
    ensures p < |tr[n + 1].unit.slots| && tr[n + 1].unit.slots[p].lastProcessed == NewestReported(tr, actions, p, n + 1)
  {
    var s, a := tr[n], actions[n];
    assert Step(s, a, tr[n + 1]);
    match a
    case Arrive(_, _, _) => ArrivalProcessed(s, a, p);
    case Dispatch => DispatchedRel(s);
    case Attempt(j, ok) => AttemptEffect(s, j, ok);
    case Report(j) => ReportEffect(s, j);
  }

  /** In every run, what an element, of either kind, has processed is exactly the newest version reported as handled. */
  lemma LastProcessedIsNewest<M>(tr: seq<System<M>>, actions: seq<Action<M>>, p: nat, n: nat)
    requires Run(tr, actions) && n <= |actions| && p < |tr[0].unit.slots|
    ensures p < |tr[n].unit.slots| && tr[n].unit.slots[p].lastProcessed == NewestReported(tr, actions, p, n)
  {
    for k := 0 to n
      invariant p < |tr[k].unit.slots| && tr[k].unit.slots[p].lastProcessed == NewestReported(tr, actions, p, k)
    {
      ProcessedOn(tr, actions, p, k);
    }
  }

  /**
    In every run, a dependent element's pending event is ready, when nothing of its chain is in process, exactly
    when its dependency's newest handled version has the Value it asks for, or at least that Value.
   */
  lemma DependentReadyExactly<M>(tr: seq<System<M>>, actions: seq<Action<M>>, p: nat, n: nat)
    requires Run(tr, actions) && n <= |actions| && p < |tr[0].unit.slots| && p < |tr[n].unit.slots|
    requires tr[n].unit.slots[p].IsComplete() && tr[n].unit.slots[p].dependency.Some?
    requires Inv(tr[n]) && tr[n].unit.slots[DependencyIndex(tr[n].unit, p)].IsComplete()
    requires tr[n].unit.slots[p].event.Some? && !tr[n].unit.slots[p].inProcess && !ChainBusy(tr[n].unit, p)
    ensures var u, slot := tr[n].unit, tr[n].unit.slots[p];
            && slot.metadata.Some? && slot.metadata.value in tr[n].store
            && var meta, handled :=
              tr[n].store[slot.metadata.value], NewestReported(tr, actions, DependencyIndex(u, p), n);
               && meta.dependency.Some?
               && (IsReady(u, tr[n].store, p) <==>
                     && 0 <= meta.count < 3
                     && match slot.dependency.value.kind
                        case ExactMatch => meta.dependency.value.value == handled.value
                        case AtLeast => meta.dependency.value.value <= handled.value)
  {
    RunKinds(tr, actions, n);
    LastProcessedIsNewest(tr, actions, DependencyIndex(tr[n].unit, p), n);
    assert SlotOk(tr[n].unit.slots[p], tr[n].store);
  }
}
