/**
  Runs of one conflation unit with its dispatcher and workers: inserts, dispatches (pop and GetNext),
  handler attempts and result reports, in any interleaving. History fields record what was accepted,
  handled and handed out; no step reads them.
 */
module ConflationRuns {
  import opened Basics
  import opened Versions
  import opened ConflationModel

  /** A job at a worker (or, for delta events, on its way to one). `done`: the handler succeeded. */
  datatype Job<M> = Job(slot: nat, event: Event, metadata: M, tried: bool, done: bool)

  datatype System<M(==)> = System(
    unit: Unit<M>, store: Store<M>, jobs: map<nat, Job<M>>, nextJob: nat,
    accepted: seq<seq<M>>, handled: seq<seq<M>>, handouts: multiset<M>)

  datatype Action<M> =
    | Arrive(event: Event, id: M, meta: Meta)
    | Dispatch
    | Attempt(job: nat, ok: bool)
    | Report(job: nat)

  ghost predicate Initial<M>(s: System<M>) {
    && Registered(s.unit) && !s.unit.inReadyQueue && s.unit.queued == 0
    && s.store == map[] && s.jobs == map[] && s.handouts == multiset{}
    && |s.accepted| == |s.handled| == |s.unit.slots|
    && (forall p :: 0 <= p < |s.unit.slots| ==>
          && s.accepted[p] == [] && s.handled[p] == []
          && s.unit.slots[p] == Slot(s.unit.slots[p].mode, s.unit.slots[p].eventType, s.unit.slots[p].dependency,
                                     false, ZERO, None, None))
  }

  /** Fresh metadata of a registered type; first-generation events carry a positive value, as the emitters send them. */
  ghost predicate Enabled<M>(s: System<M>, a: Action<M>) {
    match a
    case Arrive(e, id, meta) =>
      && id !in s.store && meta.count == 0 && meta.eventType == e.eventType && e.eventType in s.unit.priority
      && (meta.version.InitGen() ==> meta.version.value > 0)
      && (forall p ::
            0 <= p < |s.unit.slots| && s.unit.slots[p].eventType == e.eventType && s.unit.slots[p].dependency.Some? ==>
              meta.dependency.Some?)
    case Dispatch => s.unit.queued > 0
    case Attempt(j, _) => j in s.jobs && !s.jobs[j].done
    case Report(j) => j in s.jobs && s.jobs[j].tried
  }

  // ---------------------------------------------------------------- the invariant of every run

  ghost predicate HistoryOk<M>(s: System<M>, p: nat)
    requires p < |s.unit.slots| && |s.accepted| == |s.handled| == |s.unit.slots|
  {
    var slot := s.unit.slots[p];
    && (slot.metadata.None? <==> s.accepted[p] == [])
    && (slot.metadata.Some? ==> s.accepted[p][|s.accepted[p]| - 1] == slot.metadata.value)
    && (forall m :: m in s.accepted[p] ==> m in s.store && s.store[m].eventType == slot.eventType)
    && (forall m :: m in s.handled[p] ==> m in s.accepted[p])
    && (slot.IsComplete() && slot.metadata.Some? ==>
          var h := slot.metadata.value;
          s.store[h].count == -1 <==> s.handled[p] != [] && s.handled[p][|s.handled[p]| - 1] == h)
  }

  ghost predicate JobOk<M>(s: System<M>, j: nat)
    requires j in s.jobs && WellFormed(s.unit, s.store)
  {
    var job := s.jobs[j];
    && j < s.nextJob
    && job.slot < |s.unit.slots| && job.slot < |s.accepted|
    && job.metadata in s.accepted[job.slot]
    && job.metadata in s.store && s.store[job.metadata].eventType == s.unit.slots[job.slot].eventType
    && (job.done <==> s.store[job.metadata].count == -1)
    && (!job.tried ==> !s.store[job.metadata].Processed())
    && (job.done ==> job.tried)
    && (s.unit.slots[job.slot].IsComplete() ==>
          && s.unit.slots[job.slot].inProcess
          && (s.unit.slots[job.slot].metadata != Some(job.metadata) ==>
                s.store[s.unit.slots[job.slot].metadata.value].count == 0))
  }

  ghost predicate HasJob<M>(s: System<M>, p: nat) {
    exists j :: j in s.jobs && s.jobs[j].slot == p
  }

  ghost predicate Untried<M>(s: System<M>, m: M) {
    exists j :: j in s.jobs && s.jobs[j].metadata == m && !s.jobs[j].tried
  }

  /** Two outstanding jobs never share metadata, and never a complete slot. */
  ghost predicate JobsApart<M>(s: System<M>) {
    forall i, j :: i in s.jobs && j in s.jobs && i != j ==>
      && s.jobs[i].metadata != s.jobs[j].metadata
      && (s.jobs[i].slot < |s.unit.slots| && s.unit.slots[s.jobs[i].slot].IsComplete() ==>
            s.jobs[i].slot != s.jobs[j].slot)
  }

  ghost predicate Inv<M>(s: System<M>) {
    && WellFormed(s.unit, s.store)
    && |s.accepted| == |s.handled| == |s.unit.slots|
    && (forall m :: m in s.store ==> s.store[m].count >= -1)
    && (forall p :: 0 <= p < |s.unit.slots| ==> HistoryOk(s, p))
    && (forall j :: j in s.jobs ==> JobOk(s, j))
    && JobsApart(s)
    && (forall p :: 0 <= p < |s.unit.slots| && s.unit.slots[p].inProcess ==> HasJob(s, p))
  }

  // ---------------------------------------------------------------- steps

  function Arrived<M>(s: System<M>, e: Event, id: M, meta: Meta): System<M>
    requires WellFormed(s.unit, s.store) && |s.accepted| == |s.unit.slots| && Enabled(s, Arrive(e, id, meta))
  {
    var store := s.store[id := meta];
    var p := s.unit.priority[e.eventType];
    StoreGrows(s.unit, s.store, id, meta);
    var r := Insert(s.unit, store, e, id);
    var s' := s.(unit := r.unit, store := r.store);
    if !r.accepted then s'
    else
      var s'' := s'.(accepted := s.accepted[p := s.accepted[p] + [id]]);
      if s.unit.slots[p].IsComplete() then s''
      else s''.(jobs := s.jobs[s.nextJob := Job(p, e, id, false, false)], nextJob := s.nextJob + 1)
  }

  lemma StoreGrows<M>(u: Unit<M>, ms: Store<M>, id: M, meta: Meta)
    requires WellFormed(u, ms) && id !in ms
    ensures WellFormed(u, ms[id := meta])
    ensures forall p :: 0 <= p < |u.slots| ==> u.slots[p].metadata != Some(id)
  {
    var ms' := ms[id := meta];
    forall p | 0 <= p < |u.slots| ensures SlotOk(u.slots[p], ms') && u.slots[p].metadata != Some(id) {
      assert SlotOk(u.slots[p], ms);
    }
  }

  function Dispatched<M>(s: System<M>): System<M>
    requires WellFormed(s.unit, s.store) && s.unit.queued > 0
  {
    var u := s.unit.(queued := s.unit.queued - 1);
    match GetNext(u, s.store)
    case NoneReady => s.(unit := u)
    case Handed(p, e, m, u') =>
      s.(unit := u', jobs := s.jobs[s.nextJob := Job(p, e, m, false, false)], nextJob := s.nextJob + 1,
         handouts := s.handouts + multiset{m})
  }

  function Attempted<M>(s: System<M>, j: nat, ok: bool): System<M>
    requires j in s.jobs && s.jobs[j].metadata in s.store && s.jobs[j].slot < |s.handled|
  {
    var job := s.jobs[j];
    var m, p := job.metadata, job.slot;
    s.(store := s.store[m := s.store[m].Marked(ok)],
       jobs := s.jobs[j := job.(tried := true, done := ok)],
       handled := if ok then s.handled[p := s.handled[p] + [m]] else s.handled)
  }

  function Reported<M>(s: System<M>, j: nat): System<M>
    requires WellFormed(s.unit, s.store) && |s.accepted| == |s.unit.slots| && j in s.jobs && JobOk(s, j)
  {
    s.(unit := ReportResult(s.unit, s.store, s.jobs[j].metadata, !s.jobs[j].done), jobs := s.jobs - {j})
  }

  function Apply<M>(s: System<M>, a: Action<M>): System<M>
    requires Inv(s) && Enabled(s, a)
  {
    match a
    case Arrive(e, id, meta) => Arrived(s, e, id, meta)
    case Dispatch => Dispatched(s)
    case Attempt(j, ok) => assert JobOk(s, j); Attempted(s, j, ok)
    case Report(j) => Reported(s, j)
  }

  // ---------------------------------------------------------------- every step keeps the invariant

  lemma InitialInv<M>(s: System<M>)
    requires Initial(s)
    ensures Inv(s)
  {
  }

  /** What an arrival changes, whichever way the version checks go. */
  ghost predicate ArriveRel<M>(s: System<M>, s': System<M>, p: nat, e: Event, id: M) {
    && p < |s.unit.slots| == |s'.unit.slots| == |s.accepted| == |s.handled|
    && (forall q :: 0 <= q < |s.unit.slots| && q != p ==> s'.unit.slots[q] == s.unit.slots[q])
    && s'.unit.slots[p].SameKind(s.unit.slots[p])
    && s'.unit.slots[p].inProcess == s.unit.slots[p].inProcess
    && id !in s.store && id in s'.store && s'.store[id].count == 0
    && s'.store[id].eventType == s.unit.slots[p].eventType
    && (forall m :: m in s'.store ==> m in s.store || m == id)
    && (forall m :: m in s.store ==> m in s'.store && s'.store[m] == s.store[m].(version := s'.store[m].version))
    && s'.unit.priority == s.unit.priority
    && s'.handled == s.handled && s'.handouts == s.handouts
  }

  ghost predicate RejectRel<M>(s: System<M>, s': System<M>, p: nat, e: Event, id: M) {
    && ArriveRel(s, s', p, e, id)
    && s'.accepted == s.accepted && s'.jobs == s.jobs && s'.nextJob == s.nextJob
    && s'.unit.slots[p].metadata == s.unit.slots[p].metadata && s'.unit.slots[p].event == s.unit.slots[p].event
  }

  ghost predicate AcceptRel<M>(s: System<M>, s': System<M>, p: nat, e: Event, id: M) {
    && ArriveRel(s, s', p, e, id)
    && s'.accepted == s.accepted[p := s.accepted[p] + [id]]
    && s'.unit.slots[p].metadata == Some(id)
    && (if s.unit.slots[p].IsComplete()
        then s'.jobs == s.jobs && s'.nextJob == s.nextJob
        else s'.jobs == s.jobs[s.nextJob := Job(p, e, id, false, false)] && s'.nextJob == s.nextJob + 1)
  }

  lemma InsertedRel<M>(s: System<M>, s': System<M>, r: Inserted<M>, e: Event, id: M, meta: Meta)
    requires |s.accepted| == |s.handled| == |s.unit.slots| && Registered(s.unit) && Enabled(s, Arrive(e, id, meta))
    requires var p, store := s.unit.priority[e.eventType], s.store[id := meta]; var slot := s.unit.slots[p];
             && (slot.metadata.Some? ==> slot.metadata.value in s.store)
             && r.unit.priority == s.unit.priority
             && r.unit.slots == s.unit.slots[p := InsertedSlot(slot, store, e, id)]
             && r.store == StoreResetBy(slot, store, meta.version)
             && s' == s.(unit := r.unit, store := r.store, handled := s.handled, accepted := s'.accepted,
                         jobs := s'.jobs, nextJob := s'.nextJob)
    ensures ArriveRel(s, s', s.unit.priority[e.eventType], e, id)
  {
  }

  lemma ArrivedRel<M>(s: System<M>, e: Event, id: M, meta: Meta)
    requires WellFormed(s.unit, s.store) && |s.accepted| == |s.handled| == |s.unit.slots|
    requires Enabled(s, Arrive(e, id, meta))
    ensures var s' := Arrived(s, e, id, meta); var p := s.unit.priority[e.eventType];
            && WellFormed(s'.unit, s'.store)
            && (if Accepts(s.unit.slots[p], s.store[id := meta], meta.version)
                then AcceptRel(s, s', p, e, id) else RejectRel(s, s', p, e, id))
  {
    StoreGrows(s.unit, s.store, id, meta);
    assert SlotOk(s.unit.slots[s.unit.priority[e.eventType]], s.store);
    InsertedRel(s, Arrived(s, e, id, meta), Insert(s.unit, s.store[id := meta], e, id), e, id, meta);
  }

  lemma ArrivedHistory<M>(s: System<M>, s': System<M>, e: Event, id: M, p: nat, q: nat)
    requires AcceptRel(s, s', q, e, id) || RejectRel(s, s', q, e, id)
    requires p < |s.unit.slots| && HistoryOk(s, p)
    ensures |s'.accepted| == |s'.unit.slots| && HistoryOk(s', p)
  {
    if p == q && AcceptRel(s, s', q, e, id) {
      assert s'.accepted[p] == s.accepted[p] + [id];
    } else {
      assert s'.accepted[p] == s.accepted[p];
    }
  }

  lemma ArrivedJob<M>(s: System<M>, s': System<M>, e: Event, id: M, q: nat, j: nat)
    requires AcceptRel(s, s', q, e, id) || RejectRel(s, s', q, e, id)
    requires WellFormed(s.unit, s.store) && WellFormed(s'.unit, s'.store)
    requires j in s.jobs ==> JobOk(s, j)
    requires j in s'.jobs
    ensures JobOk(s', j)
  {
  }

  lemma ArrivedInv<M>(s: System<M>, e: Event, id: M, meta: Meta)
    requires Inv(s) && Enabled(s, Arrive(e, id, meta))
    ensures Inv(Arrived(s, e, id, meta))
  {
    var s' := Arrived(s, e, id, meta);
    ArrivedRel(s, e, id, meta);
    ArrivedRelInv(s, s', e, id, s.unit.priority[e.eventType]);
  }

  /** Jobs keep standing for their slots when none of them goes away. */
  lemma StillHasJob<M>(s: System<M>, s': System<M>, p: nat)
    requires HasJob(s, p)
    requires forall j :: j in s.jobs ==> j in s'.jobs && s'.jobs[j].slot == s.jobs[j].slot
    ensures HasJob(s', p)
  {
    var j :| j in s.jobs && s.jobs[j].slot == p;
    assert s'.jobs[j].slot == p;
  }

  /** No outstanding job is of the arriving event, or has the next number. */
  lemma JobsAreOld<M>(s: System<M>, s': System<M>, e: Event, id: M, q: nat)
    requires ArriveRel(s, s', q, e, id)
    requires WellFormed(s.unit, s.store) && forall j :: j in s.jobs ==> JobOk(s, j)
    ensures forall j :: j in s.jobs ==> s.jobs[j].metadata != id && j != s.nextJob
  {
    forall j | j in s.jobs ensures s.jobs[j].metadata != id && j != s.nextJob {
      assert JobOk(s, j);
    }
  }

  lemma ArrivedApart<M>(s: System<M>, s': System<M>, q: nat, e: Event, id: M)
    requires SameRegistration(s.unit, s'.unit) && JobsApart(s)
    requires forall j :: j in s.jobs ==> s.jobs[j].metadata != id && j != s.nextJob
    requires || s'.jobs == s.jobs
             || (q < |s.unit.slots| && !s.unit.slots[q].IsComplete()
                 && s'.jobs == s.jobs[s.nextJob := Job(q, e, id, false, false)])
    ensures JobsApart(s')
    ensures forall j :: j in s.jobs ==> j in s'.jobs && s'.jobs[j].slot == s.jobs[j].slot
  {
  }

  lemma ArrivedRelInv<M>(s: System<M>, s': System<M>, e: Event, id: M, q: nat)
    requires AcceptRel(s, s', q, e, id) || RejectRel(s, s', q, e, id)
    requires Inv(s) && WellFormed(s'.unit, s'.store)
    ensures Inv(s')
  {
    forall p | 0 <= p < |s'.unit.slots| ensures HistoryOk(s', p) {
      ArrivedHistory(s, s', e, id, p, q);
    }
    forall j | j in s'.jobs ensures JobOk(s', j) {
      ArrivedJob(s, s', e, id, q, j);
    }
    JobsAreOld(s, s', e, id, q);
    OneSlotChanged(s.unit, s'.unit, q);
    ArrivedApart(s, s', q, e, id);
    forall p | 0 <= p < |s'.unit.slots| && s'.unit.slots[p].inProcess ensures HasJob(s', p) {
      StillHasJob(s, s', p);
    }
  }

  /** A dispatch that finds a ready slot p. */
  ghost predicate HandRel<M>(s: System<M>, s': System<M>, p: nat) {
    && p < |s.unit.slots|
    && var slot := s.unit.slots[p];
       && slot.IsComplete() && !slot.inProcess && slot.event.Some? && slot.metadata.Some?
       && slot.metadata.value in s.store && !s.store[slot.metadata.value].Processed()
       && s'.unit.slots == s.unit.slots[p := slot.(inProcess := true)] && s'.unit.priority == s.unit.priority
       && s'.store == s.store && s'.accepted == s.accepted && s'.handled == s.handled
       && s'.jobs == s.jobs[s.nextJob := Job(p, slot.event.value, slot.metadata.value, false, false)]
       && s'.nextJob == s.nextJob + 1
       && s'.handouts == s.handouts + multiset{slot.metadata.value}
  }

  lemma DispatchedRel<M>(s: System<M>)
    requires WellFormed(s.unit, s.store) && s.unit.queued > 0
    ensures var s' := Dispatched(s);
            && WellFormed(s'.unit, s'.store)
            && (SomeReady(s.unit, s.store) ==>
                  var p := NextReady(s.unit, s.store).value;
                  HandRel(s, s', p) && IsReady(s.unit, s.store, p) && !s'.unit.inReadyQueue)
            && (!SomeReady(s.unit, s.store) ==> s' == s.(unit := s.unit.(queued := s.unit.queued - 1)))
  {
    var u := s.unit.(queued := s.unit.queued - 1);
    SameReadiness(s.unit, u, s.store);
  }

  lemma HandedJob<M>(s: System<M>, s': System<M>, p: nat, j: nat)
    requires HandRel(s, s', p) && WellFormed(s.unit, s.store) && WellFormed(s'.unit, s'.store)
    requires p < |s.accepted| == |s.handled| == |s.unit.slots| && HistoryOk(s, p)
    requires j in s'.jobs && (j in s.jobs ==> JobOk(s, j) && j != s.nextJob)
    ensures JobOk(s', j)
  {
  }

  /** No outstanding job is of the slot handed out, or of what it holds. */
  lemma NoneOutstanding<M>(s: System<M>, s': System<M>, p: nat)
    requires Inv(s) && HandRel(s, s', p)
    ensures forall j :: j in s.jobs ==>
              j != s.nextJob && s.jobs[j].slot != p && s.jobs[j].metadata != s.unit.slots[p].metadata.value
  {
    forall j | j in s.jobs
      ensures j != s.nextJob && s.jobs[j].slot != p && s.jobs[j].metadata != s.unit.slots[p].metadata.value
    {
      assert JobOk(s, j) && SlotOk(s.unit.slots[p], s.store);
    }
  }

  lemma HandedApart<M>(s: System<M>, s': System<M>, p: nat)
    requires HandRel(s, s', p) && JobsApart(s)
    requires forall j :: j in s.jobs ==>
               j != s.nextJob && s.jobs[j].slot != p && s.jobs[j].metadata != s.unit.slots[p].metadata.value
    ensures JobsApart(s')
  {
  }

  lemma HandedJobs<M>(s: System<M>, s': System<M>, p: nat)
    requires Inv(s) && HandRel(s, s', p) && WellFormed(s'.unit, s'.store)
    ensures forall j :: j in s'.jobs ==> JobOk(s', j)
    ensures JobsApart(s')
  {
    NoneOutstanding(s, s', p);
    HandedApart(s, s', p);
    forall j | j in s'.jobs ensures JobOk(s', j) {
      HandedJob(s, s', p, j);
    }
  }

  lemma HandedInv<M>(s: System<M>, s': System<M>, p: nat)
    requires Inv(s) && HandRel(s, s', p) && WellFormed(s'.unit, s'.store)
    ensures Inv(s')
  {
    HandedJobs(s, s', p);
    forall q | 0 <= q < |s'.unit.slots| ensures HistoryOk(s', q) {
      assert HistoryOk(s, q);
    }
    forall j | j in s.jobs ensures j != s.nextJob {
      assert JobOk(s, j);
    }
    forall q | 0 <= q < |s'.unit.slots| && s'.unit.slots[q].inProcess ensures HasJob(s', q) {
      if q == p {
        assert s'.jobs[s.nextJob].slot == p;
      } else {
        StillHasJob(s, s', q);
      }
    }
  }

  ghost predicate AttemptRel<M>(s: System<M>, s': System<M>, j: nat, ok: bool) {
    && j in s.jobs && !s.jobs[j].done
    && var job := s.jobs[j];
       && job.metadata in s.store && job.slot < |s.handled|
       && s' == s.(store := s.store[job.metadata := s.store[job.metadata].Marked(ok)],
                   jobs := s.jobs[j := job.(tried := true, done := ok)],
                   handled := if ok then s.handled[job.slot := s.handled[job.slot] + [job.metadata]] else s.handled)
  }

  lemma AttemptedWellFormed<M>(s: System<M>, s': System<M>, j: nat, ok: bool)
    requires AttemptRel(s, s', j, ok) && WellFormed(s.unit, s.store)
    ensures WellFormed(s'.unit, s'.store)
  {
    forall p | 0 <= p < |s.unit.slots| ensures SlotOk(s'.unit.slots[p], s'.store) {
      assert SlotOk(s.unit.slots[p], s.store);
    }
  }

  lemma AttemptedHistory<M>(s: System<M>, s': System<M>, j: nat, ok: bool, p: nat)
    requires AttemptRel(s, s', j, ok) && WellFormed(s.unit, s.store) && JobOk(s, j)
    requires s.store[s.jobs[j].metadata].count >= -1
    requires |s.accepted| == |s.handled| == |s.unit.slots|
    requires p < |s.unit.slots| && HistoryOk(s, p)
    ensures HistoryOk(s', p)
  {
    var m := s.jobs[j].metadata;
    if s.unit.slots[p].metadata == Some(m) {
      assert SlotOk(s.unit.slots[p], s.store);
      assert s.unit.priority[s.unit.slots[p].eventType] == p;
      assert p == s.jobs[j].slot;
    }
    if p == s.jobs[j].slot && ok {
      assert s'.handled[p] == s.handled[p] + [m];
    } else {
      assert s'.handled[p] == s.handled[p];
    }
  }

  lemma AttemptedInv<M>(s: System<M>, s': System<M>, j: nat, ok: bool)
    requires Inv(s) && AttemptRel(s, s', j, ok)
    ensures Inv(s')
  {
    AttemptedWellFormed(s, s', j, ok);
    forall p | 0 <= p < |s'.unit.slots| ensures HistoryOk(s', p) {
      assert JobOk(s, j);
      AttemptedHistory(s, s', j, ok, p);
    }
    AttemptedJobs(s, s', j, ok);
    forall p | 0 <= p < |s'.unit.slots| && s'.unit.slots[p].inProcess ensures HasJob(s', p) {
      StillHasJob(s, s', p);
    }
  }

  lemma AttemptedApart<M>(s: System<M>, s': System<M>, j: nat, ok: bool)
    requires AttemptRel(s, s', j, ok) && JobsApart(s)
    ensures JobsApart(s')
  {
  }

  lemma AttemptedJobs<M>(s: System<M>, s': System<M>, j: nat, ok: bool)
    requires Inv(s) && AttemptRel(s, s', j, ok) && WellFormed(s'.unit, s'.store)
    ensures forall i :: i in s'.jobs ==> JobOk(s', i)
    ensures JobsApart(s')
  {
    AttemptedApart(s, s', j, ok);
    forall i | i in s'.jobs ensures JobOk(s', i) {
      assert JobOk(s, j) && JobOk(s, i);
      AttemptedJob(s, s', j, ok, i);
    }
  }

  lemma AttemptedJob<M>(s: System<M>, s': System<M>, j: nat, ok: bool, i: nat)
    requires AttemptRel(s, s', j, ok) && WellFormed(s.unit, s.store) && WellFormed(s'.unit, s'.store)
    requires JobOk(s, j) && i in s.jobs && JobOk(s, i) && s.store[s.jobs[j].metadata].count >= -1
    requires i != j ==> s.jobs[i].metadata != s.jobs[j].metadata
                        && (s.unit.slots[s.jobs[i].slot].IsComplete() ==> s.jobs[i].slot != s.jobs[j].slot)
    ensures JobOk(s', i)
  {
    var p, m := s.jobs[i].slot, s.jobs[j].metadata;
    if i != j && s.unit.slots[p].metadata == Some(m) {
      assert SlotOk(s.unit.slots[p], s.store);
      assert s.unit.priority[s.unit.slots[p].eventType] == p;
    }
  }

  ghost predicate ReportRel<M>(s: System<M>, s': System<M>, j: nat) {
    && j in s.jobs && s.jobs[j].slot < |s.unit.slots| == |s'.unit.slots|
    && s'.unit.priority == s.unit.priority
    && var p := s.jobs[j].slot;
       && (forall q :: 0 <= q < |s.unit.slots| && q != p ==> s'.unit.slots[q] == s.unit.slots[q])
       && s'.unit.slots[p].SameKind(s.unit.slots[p])
       && s'.unit.slots[p].metadata == s.unit.slots[p].metadata
       && !s'.unit.slots[p].inProcess
       && s'.jobs == s.jobs - {j} && s'.nextJob == s.nextJob
       && s'.store == s.store && s'.accepted == s.accepted && s'.handled == s.handled && s'.handouts == s.handouts
  }

  lemma ReportedRel<M>(s: System<M>, j: nat)
    requires WellFormed(s.unit, s.store) && |s.accepted| == |s.unit.slots| && j in s.jobs && JobOk(s, j)
    ensures var s' := Reported(s, j); ReportRel(s, s', j) && WellFormed(s'.unit, s'.store)
  {
    var p := s.jobs[j].slot;
    assert SlotOk(s.unit.slots[p], s.store);
    assert s.unit.priority[s.unit.slots[p].eventType] == p;
  }

  lemma ReportedJob<M>(s: System<M>, s': System<M>, j: nat, i: nat)
    requires ReportRel(s, s', j) && WellFormed(s.unit, s.store) && WellFormed(s'.unit, s'.store) && JobsApart(s)
    requires i in s'.jobs && JobOk(s, i)
    ensures JobOk(s', i)
  {
  }

  lemma ReportedApart<M>(s: System<M>, s': System<M>, j: nat)
    requires ReportRel(s, s', j) && JobsApart(s)
    ensures JobsApart(s')
  {
  }

  lemma ReportedJobs<M>(s: System<M>, s': System<M>, j: nat)
    requires Inv(s) && ReportRel(s, s', j) && WellFormed(s'.unit, s'.store)
    ensures forall i :: i in s'.jobs ==> JobOk(s', i)
    ensures JobsApart(s')
  {
    ReportedApart(s, s', j);
    forall i | i in s'.jobs ensures JobOk(s', i) {
      assert JobOk(s, i);
      ReportedJob(s, s', j, i);
    }
  }

  lemma ReportedInv<M>(s: System<M>, s': System<M>, j: nat)
    requires Inv(s) && ReportRel(s, s', j) && WellFormed(s'.unit, s'.store)
    ensures Inv(s')
  {
    ReportedJobs(s, s', j);
    forall p | 0 <= p < |s'.unit.slots| ensures HistoryOk(s', p) {
      assert HistoryOk(s, p);
    }
    forall p | 0 <= p < |s'.unit.slots| && s'.unit.slots[p].inProcess ensures HasJob(s', p) {
      assert HasJob(s, p);
      var i :| i in s.jobs && s.jobs[i].slot == p;
      assert s'.jobs[i].slot == p;
    }
  }

  /** Exclusion, history and bookkeeping survive every step. */
  lemma StepInv<M>(s: System<M>, a: Action<M>)
    requires Inv(s) && Enabled(s, a)
    ensures Inv(Apply(s, a))
  {
    match a
    case Arrive(e, id, meta) => ArrivedInv(s, e, id, meta);
    case Dispatch =>
      DispatchedRel(s);
      if SomeReady(s.unit, s.store) {
        HandedInv(s, Dispatched(s), NextReady(s.unit, s.store).value);
      } else {
        QueuedDoesNotMatter(s, Dispatched(s));
      }
    case Attempt(j, ok) =>
      assert JobOk(s, j);
      AttemptedInv(s, Attempted(s, j, ok), j, ok);
    case Report(j) =>
      assert JobOk(s, j);
      ReportedRel(s, j);
      ReportedInv(s, Reported(s, j), j);
  }

  lemma QueuedDoesNotMatter<M>(s: System<M>, s': System<M>)
    requires Inv(s) && s' == s.(unit := s'.unit) && s'.unit == s.unit.(queued := s'.unit.queued)
    ensures Inv(s')
  {
    SameReadiness(s.unit, s'.unit, s.store);
    forall p | 0 <= p < |s'.unit.slots| ensures HistoryOk(s', p) {
      assert HistoryOk(s, p);
    }
    forall j | j in s'.jobs ensures JobOk(s', j) {
      assert JobOk(s, j);
    }
    forall p | 0 <= p < |s'.unit.slots| && s'.unit.slots[p].inProcess ensures HasJob(s', p) {
      assert HasJob(s, p);
    }
  }

  // ---------------------------------------------------------------- runs

  /** One step; Inv only makes Apply defined, RunExtends shows that it excludes nothing. */
  ghost predicate Step<M>(s: System<M>, a: Action<M>, s': System<M>) {
    Inv(s) && Enabled(s, a) && s' == Apply(s, a)
  }

  ghost predicate Run<M>(tr: seq<System<M>>, actions: seq<Action<M>>) {
    && |tr| == |actions| + 1
    && Initial(tr[0])
    && forall i :: 0 <= i < |actions| ==> Step(tr[i], actions[i], tr[i + 1])
  }

  lemma RunInv<M>(tr: seq<System<M>>, actions: seq<Action<M>>, i: nat)
    requires Run(tr, actions) && i < |tr|
    ensures Inv(tr[i])
  {
    if i == 0 {
      InitialInv(tr[0]);
    } else {
      assert Step(tr[i - 1], actions[i - 1], tr[i]);
      StepInv(tr[i - 1], actions[i - 1]);
    }
  }

  /** Whatever is enabled at the end of a run continues it. */
  lemma RunExtends<M>(tr: seq<System<M>>, actions: seq<Action<M>>, a: Action<M>)
    requires Run(tr, actions) && Enabled(tr[|actions|], a)
    ensures Inv(tr[|actions|]) && Run(tr + [Apply(tr[|actions|], a)], actions + [a])
  {
    RunInv(tr, actions, |actions|);
  }

  ghost predicate RunsTo<M>(tr: seq<System<M>>, actions: seq<Action<M>>, s: System<M>) {
    Run(tr, actions) && tr[|actions|] == s
  }

  ghost predicate Reachable<M(!new)>(s: System<M>) {
    exists tr: seq<System<M>>, actions: seq<Action<M>> :: RunsTo(tr, actions, s)
  }

  lemma InitialReachable<M(!new)>(s: System<M>)
    requires Initial(s)
    ensures Inv(s) && Reachable(s)
  {
    InitialInv(s);
    var actions: seq<Action<M>> := [];
    assert RunsTo([s], actions, s);
  }

  lemma StepReachable<M(!new)>(s: System<M>, a: Action<M>)
    requires Reachable(s) && Enabled(s, a)
    ensures Inv(s) && Inv(Apply(s, a)) && Reachable(Apply(s, a))
  {
    ReachableInv(s);
    StepInv(s, a);
    ReachableExtends(s, a, Apply(s, a));
  }

  lemma ReachableInv<M(!new)>(s: System<M>)
    requires Reachable(s)
    ensures Inv(s)
  {
    var tr: seq<System<M>>, actions: seq<Action<M>> :| RunsTo(tr, actions, s);
    RunInv(tr, actions, |actions|);
  }

  lemma ReachableExtends<M(!new)>(s: System<M>, a: Action<M>, s': System<M>)
    requires Reachable(s) && Step(s, a, s')
    ensures Reachable(s')
  {
    var tr: seq<System<M>>, actions: seq<Action<M>> :| RunsTo(tr, actions, s);
    RunAppend(tr, actions, a, s');
    assert RunsTo(tr + [s'], actions + [a], s');
  }

  lemma RunAppend<M>(tr: seq<System<M>>, actions: seq<Action<M>>, a: Action<M>, s': System<M>)
    requires Run(tr, actions) && Step(tr[|actions|], a, s')
    ensures Run(tr + [s'], actions + [a])
  {
    var tr', actions' := tr + [s'], actions + [a];
    forall i | 0 <= i < |actions'| ensures Step(tr'[i], actions'[i], tr'[i + 1]) {
      if i < |actions| {
        assert Step(tr[i], actions[i], tr[i + 1]);
      }
    }
  }

  /**
    Exclusion in every state of every run: a complete element is in process exactly when one job of it
    is outstanding, never two, and whatever it holds is the newest event it accepted.
   */
  lemma OneJobPerElement<M>(tr: seq<System<M>>, actions: seq<Action<M>>, i: nat, p: nat)
    requires Run(tr, actions) && i < |tr| && p < |tr[i].unit.slots| && tr[i].unit.slots[p].IsComplete()
    ensures |tr[i].accepted| == |tr[i].unit.slots|
    ensures tr[i].unit.slots[p].inProcess <==> exists j :: j in tr[i].jobs && tr[i].jobs[j].slot == p
    ensures forall j, k :: j in tr[i].jobs && k in tr[i].jobs && tr[i].jobs[j].slot == p && tr[i].jobs[k].slot == p ==>
              j == k
    ensures tr[i].unit.slots[p].metadata ==
            if tr[i].accepted[p] == [] then None else Some(tr[i].accepted[p][|tr[i].accepted[p]| - 1])
  {
    var s := tr[i];
    RunInv(tr, actions, i);
    assert HistoryOk(s, p);
    if s.unit.slots[p].inProcess {
      assert HasJob(s, p);
    }
    if j :| j in s.jobs && s.jobs[j].slot == p {
      assert JobOk(s, j);
    }
  }

  ghost predicate SameRegistration<M>(u: Unit<M>, u': Unit<M>) {
    && |u'.slots| == |u.slots| && u'.priority == u.priority
    && forall p :: 0 <= p < |u.slots| ==> u'.slots[p].SameKind(u.slots[p])
  }

  lemma OneSlotChanged<M>(u: Unit<M>, u': Unit<M>, p: nat)
    requires p < |u.slots| == |u'.slots| && u'.priority == u.priority
    requires u'.slots[p].SameKind(u.slots[p])
    requires forall q :: 0 <= q < |u.slots| && q != p ==> u'.slots[q] == u.slots[q]
    ensures SameRegistration(u, u')
  {
  }

  lemma ArrivedKinds<M>(s: System<M>, e: Event, id: M, meta: Meta)
    requires Inv(s) && Enabled(s, Arrive(e, id, meta))
    ensures SameRegistration(s.unit, Arrived(s, e, id, meta).unit)
  {
    ArrivedRel(s, e, id, meta);
    OneSlotChanged(s.unit, Arrived(s, e, id, meta).unit, s.unit.priority[e.eventType]);
  }

  lemma DispatchedKinds<M>(s: System<M>)
    requires Inv(s) && Enabled(s, Dispatch)
    ensures SameRegistration(s.unit, Dispatched(s).unit)
  {
    DispatchedRel(s);
    if SomeReady(s.unit, s.store) {
      OneSlotChanged(s.unit, Dispatched(s).unit, NextReady(s.unit, s.store).value);
    }
  }

  lemma ReportedKinds<M>(s: System<M>, j: nat)
    requires Inv(s) && Enabled(s, Report(j))
    ensures JobOk(s, j) && SameRegistration(s.unit, Reported(s, j).unit)
  {
    assert JobOk(s, j);
    ReportedRel(s, j);
    OneSlotChanged(s.unit, Reported(s, j).unit, s.jobs[j].slot);
  }

  /** Registration never changes. */
  lemma StepKinds<M>(s: System<M>, a: Action<M>)
    requires Inv(s) && Enabled(s, a)
    ensures SameRegistration(s.unit, Apply(s, a).unit)
  {
    match a
    case Arrive(e, id, meta) => ArrivedKinds(s, e, id, meta);
    case Dispatch => DispatchedKinds(s);
    case Attempt(j, ok) => assert JobOk(s, j);
    case Report(j) => ReportedKinds(s, j);
  }

  lemma KindsOn<M>(tr: seq<System<M>>, actions: seq<Action<M>>, n: nat)
    requires Run(tr, actions) && n < |actions| && SameRegistration(tr[0].unit, tr[n].unit)
    ensures SameRegistration(tr[0].unit, tr[n + 1].unit)
  {
    assert Step(tr[n], actions[n], tr[n + 1]);
    StepKinds(tr[n], actions[n]);
  }

  lemma RunKinds<M>(tr: seq<System<M>>, actions: seq<Action<M>>, i: nat)
    requires Run(tr, actions) && i < |tr|
    ensures SameRegistration(tr[0].unit, tr[i].unit)
  {
    for n := 0 to i
      invariant SameRegistration(tr[0].unit, tr[n].unit)
    {
      KindsOn(tr, actions, n);
    }
  }
}
