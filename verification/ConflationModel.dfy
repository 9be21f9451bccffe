/**
  The conflation unit of one leaf hub as values: its slots, the checks a slot makes, and what each
  locked method of the unit does to them. `M` names metadata objects; the classes in
  ConflationUnits use object references for it, runs may use anything.
 */
module ConflationModel {
  import opened Basics
  import opened Versions

  /** The retry threshold every inserted event gets. */
  const MAX_RETRY := 3

  datatype DependencyType = ExactMatch | AtLeast

  datatype Dependency = Dependency(eventType: string, kind: DependencyType)

  datatype Event = Event(eventType: string, data: string)

  datatype Position = Position(owner: string, topic: string, partition: int, offset: int)

  /** Threshold metadata: count is the number of failed attempts, or -1 once the handler succeeded. */
  datatype Meta = Meta(eventType: string, position: Position, version: Stamp, dependency: Option<Stamp>, count: int) {
    predicate Processed() {
      count == -1 || count >= MAX_RETRY
    }

    function Marked(ok: bool): Meta {
      this.(count := if ok then -1 else count + 1)
    }
  }

  datatype SyncMode = CompleteState | DeltaState

  /** An element of either kind; a delta element never sets inProcess or event. */
  datatype Slot<M> = Slot(mode: SyncMode, eventType: string, dependency: Option<Dependency>, inProcess: bool,
                          lastProcessed: Stamp, event: Option<Event>, metadata: Option<M>)
  {
    predicate IsComplete() {
      mode.CompleteState?
    }

    /** Same registration: only the state differs. */
    ghost predicate SameKind(other: Slot<M>) {
      mode == other.mode && eventType == other.eventType && dependency == other.dependency
    }
  }

  /** `queued` counts how often the unit stands on the dispatcher's channel. */
  datatype Unit<M> = Unit(slots: seq<Slot<M>>, priority: map<string, nat>, inReadyQueue: bool, queued: nat)

  type Store<M(==)> = map<M, Meta>

  /** A Go map lookup: an unregistered type reads as priority 0. */
  function PriorityOf(priority: map<string, nat>, eventType: string): nat {
    if eventType in priority then priority[eventType] else 0
  }

  /** Priorities are exactly 0..n-1 and every dependency stands before its dependent. */
  ghost predicate Registered<M>(u: Unit<M>) {
    && |u.slots| > 0
    && (forall t :: t in u.priority ==> u.priority[t] < |u.slots| && u.slots[u.priority[t]].eventType == t)
    && (forall p :: 0 <= p < |u.slots| ==> u.slots[p].eventType in u.priority && u.priority[u.slots[p].eventType] == p)
    && (forall p :: 0 <= p < |u.slots| && u.slots[p].IsComplete() && u.slots[p].dependency.Some? ==>
          DependencyIndex(u, p) < p)
  }

  function DependencyIndex<M>(u: Unit<M>, p: nat): nat
    requires p < |u.slots| && u.slots[p].dependency.Some?
  {
    PriorityOf(u.priority, u.slots[p].dependency.value.eventType)
  }

  /** What a slot holds is known, of the slot's own type, and names a dependency version when the slot needs one. */
  ghost predicate SlotOk<M>(s: Slot<M>, ms: Store<M>) {
    && (s.metadata.Some? ==>
          && s.metadata.value in ms
          && ms[s.metadata.value].eventType == s.eventType
          && (s.IsComplete() && s.dependency.Some? ==> ms[s.metadata.value].dependency.Some?))
    && (s.event.Some? || s.inProcess ==> s.IsComplete() && s.metadata.Some?)
  }

  ghost predicate WellFormed<M>(u: Unit<M>, ms: Store<M>) {
    && Registered(u)
    && forall p :: 0 <= p < |u.slots| ==> SlotOk(u.slots[p], ms)
  }

  function WithSlot<M>(u: Unit<M>, p: nat, s: Slot<M>): Unit<M>
    requires p < |u.slots|
  {
    u.(slots := u.slots[p := s])
  }

  /** Every known metadata stays known and keeps its type and dependency version. */
  ghost predicate Extends<M>(ms: Store<M>, ms': Store<M>) {
    forall m :: m in ms ==> m in ms' && ms'[m].eventType == ms[m].eventType && ms'[m].dependency == ms[m].dependency
  }

  lemma WithSlotWellFormed<M>(u: Unit<M>, ms: Store<M>, ms': Store<M>, p: nat, s: Slot<M>)
    requires WellFormed(u, ms) && Extends(ms, ms') && p < |u.slots|
    requires s.SameKind(u.slots[p]) && SlotOk(s, ms')
    ensures WellFormed(WithSlot(u, p, s), ms')
  {
    var u' := WithSlot(u, p, s);
    forall q | 0 <= q < |u'.slots|
      ensures SlotOk(u'.slots[q], ms')
      ensures u'.slots[q].SameKind(u.slots[q])
    {
    }
  }

  // ---------------------------------------------------------------- readiness

  /** isCurrentOrAnyDependencyInProcess: the walk stops at a delta element. */
  predicate ChainBusy<M>(u: Unit<M>, p: nat)
    requires Registered(u) && p < |u.slots| && u.slots[p].IsComplete()
  {
    if u.slots[p].inProcess then true
    else if u.slots[p].dependency.None? then false
    else
      var q := DependencyIndex(u, p);
      u.slots[q].IsComplete() && ChainBusy(u, q)
  }

  predicate MatchesDependency<M>(u: Unit<M>, ms: Store<M>, p: nat)
    requires WellFormed(u, ms) && p < |u.slots| && u.slots[p].IsComplete() && u.slots[p].metadata.Some?
  {
    if u.slots[p].dependency.None? then true
    else
      var needed := ms[u.slots[p].metadata.value].dependency.value;
      var d := u.slots[DependencyIndex(u, p)];
      if !d.IsComplete() then false
      else if u.slots[p].dependency.value.kind == ExactMatch then needed.EqualValue(d.lastProcessed)
      else !needed.NewerValueThan(d.lastProcessed)
  }

  predicate IsReady<M>(u: Unit<M>, ms: Store<M>, p: nat)
    requires WellFormed(u, ms) && p < |u.slots|
  {
    var s := u.slots[p];
    && s.IsComplete() && s.event.Some? && s.metadata.Some?
    && !s.inProcess
    && !ms[s.metadata.value].Processed()
    && !ChainBusy(u, p)
    && MatchesDependency(u, ms, p)
  }

  ghost predicate SomeReady<M>(u: Unit<M>, ms: Store<M>)
    requires WellFormed(u, ms)
  {
    exists p :: 0 <= p < |u.slots| && IsReady(u, ms, p)
  }

  /** The ready slot of lowest index at or after `from`. */
  function NextReady<M>(u: Unit<M>, ms: Store<M>, from: nat := 0): (r: Option<nat>)
    requires WellFormed(u, ms) && from <= |u.slots|
    ensures r.Some? ==> from <= r.value < |u.slots| && IsReady(u, ms, r.value)
    ensures forall p :: from <= p < (if r.Some? then r.value else |u.slots|) ==> !IsReady(u, ms, p)
    decreases |u.slots| - from
  {
    if from == |u.slots| then None
    else if IsReady(u, ms, from) then Some(from)
    else NextReady(u, ms, from + 1)
  }

  lemma NextReadyIs<M>(u: Unit<M>, ms: Store<M>, r: Option<nat>)
    requires WellFormed(u, ms)
    requires r.Some? ==> r.value < |u.slots| && IsReady(u, ms, r.value)
    requires forall p :: 0 <= p < (if r.Some? then r.value else |u.slots|) ==> !IsReady(u, ms, p)
    ensures r == NextReady(u, ms)
  {
  }

  /** Readiness does not look at the queue flag or the channel. */
  lemma SameReadiness<M>(u: Unit<M>, u': Unit<M>, ms: Store<M>)
    requires WellFormed(u, ms) && u'.slots == u.slots && u'.priority == u.priority
    ensures WellFormed(u', ms)
    ensures forall p :: 0 <= p < |u.slots| ==> IsReady(u', ms, p) == IsReady(u, ms, p)
    ensures SomeReady(u', ms) == SomeReady(u, ms)
    ensures NextReady(u', ms) == NextReady(u, ms)
  {
    assert forall p :: 0 <= p < |u.slots| ==> SlotOk(u'.slots[p], ms);
    forall p | 0 <= p < |u.slots| ensures IsReady(u', ms, p) == IsReady(u, ms, p) {
      SameReadyAt(u, u', ms, p);
    }
    NextReadyIs(u', ms, NextReady(u, ms));
  }

  lemma SameReadyAt<M>(u: Unit<M>, u': Unit<M>, ms: Store<M>, p: nat)
    requires WellFormed(u, ms) && WellFormed(u', ms) && u'.slots == u.slots && u'.priority == u.priority
    requires p < |u.slots|
    ensures IsReady(u', ms, p) == IsReady(u, ms, p)
  {
    if u.slots[p].IsComplete() {
      SameChain(u, u', p);
    }
  }

  lemma {:induction false} SameChain<M>(u: Unit<M>, u': Unit<M>, p: nat)
    requires Registered(u) && Registered(u') && |u'.slots| == |u.slots| && u'.priority == u.priority
    requires forall q :: 0 <= q < |u.slots| ==>
               u'.slots[q].SameKind(u.slots[q]) && u'.slots[q].inProcess == u.slots[q].inProcess
    requires p < |u.slots| && u.slots[p].IsComplete() && u'.slots[p].IsComplete()
    ensures ChainBusy(u', p) == ChainBusy(u, p)
    decreases p
  {
    if !u.slots[p].inProcess && u.slots[p].dependency.Some? && u.slots[DependencyIndex(u, p)].IsComplete() {
      SameChain(u, u', DependencyIndex(u, p));
    }
  }

  // ---------------------------------------------------------------- the unit's locked methods

  /** Predicate: first-generation versions reset the slot and, in place, the version of what it holds. */
  function ResetBy<M>(s: Slot<M>, v: Stamp): Slot<M> {
    if v.InitGen() then s.(lastProcessed := ZERO) else s
  }

  function StoreResetBy<M>(s: Slot<M>, ms: Store<M>, v: Stamp): Store<M>
    requires s.metadata.Some? ==> s.metadata.value in ms
  {
    if v.InitGen() && s.IsComplete() && s.metadata.Some?
    then ms[s.metadata.value := ms[s.metadata.value].(version := ZERO)]
    else ms
  }

  predicate Accepts<M>(s: Slot<M>, ms: Store<M>, v: Stamp)
    requires s.metadata.Some? ==> s.metadata.value in ms
  {
    && v.NewerThan(ResetBy(s, v).lastProcessed)
    && (s.IsComplete() && s.metadata.Some? ==> v.NewerThan(StoreResetBy(s, ms, v)[s.metadata.value].version))
  }

  /** addCUToReadyQueueIfNeeded. */
  function Queue<M>(u: Unit<M>, ms: Store<M>): (r: Unit<M>)
    requires WellFormed(u, ms)
    ensures r.slots == u.slots && r.priority == u.priority
    ensures WellFormed(r, ms) && SomeReady(r, ms) == SomeReady(u, ms)
    ensures r.inReadyQueue <==> u.inReadyQueue || SomeReady(u, ms)
    ensures r.queued == if r.inReadyQueue && !u.inReadyQueue then u.queued + 1 else u.queued
  {
    SameReadiness(u, u.(inReadyQueue := true, queued := u.queued + 1), ms);
    if !u.inReadyQueue && NextReady(u, ms).Some? then u.(inReadyQueue := true, queued := u.queued + 1) else u
  }

  /** The slot after an insert: Predicate's reset, then the payload if the version is accepted. */
  function InsertedSlot<M>(s: Slot<M>, ms: Store<M>, e: Event, m: M): Slot<M>
    requires m in ms && (s.metadata.Some? ==> s.metadata.value in ms)
  {
    var s1 := ResetBy(s, ms[m].version);
    if !Accepts(s, ms, ms[m].version) then s1
    else if s.IsComplete() then s1.(event := Some(e), metadata := Some(m))
    else s1.(metadata := Some(m))
  }

  /** An event the manager may insert: registered, fresh, and with the dependency version its slot will read. */
  ghost predicate Insertable<M>(u: Unit<M>, ms: Store<M>, e: Event, m: M) {
    && e.eventType in u.priority
    && m in ms && ms[m].eventType == e.eventType && ms[m].count == 0
    && (forall p :: 0 <= p < |u.slots| ==> u.slots[p].metadata != Some(m))
    && (Registered(u) ==>
          var s := u.slots[u.priority[e.eventType]];
          s.IsComplete() && s.dependency.Some? ==> ms[m].dependency.Some?)
  }

  datatype Inserted<M> = Inserted(unit: Unit<M>, store: Store<M>, accepted: bool)

  function Insert<M>(u: Unit<M>, ms: Store<M>, e: Event, m: M): (r: Inserted<M>)
    requires WellFormed(u, ms) && Insertable(u, ms, e, m)
    ensures var p := u.priority[e.eventType];
            && WellFormed(r.unit, r.store)
            && r.unit.priority == u.priority && r.unit.slots == u.slots[p := InsertedSlot(u.slots[p], ms, e, m)]
            && r.store == StoreResetBy(u.slots[p], ms, ms[m].version)
            && r.accepted == Accepts(u.slots[p], ms, ms[m].version)
            && (r.unit.inReadyQueue <==>
                  u.inReadyQueue || (r.accepted && u.slots[p].IsComplete() && SomeReady(r.unit, r.store)))
            && r.unit.queued == if r.unit.inReadyQueue && !u.inReadyQueue then u.queued + 1 else u.queued
  {
    var p := u.priority[e.eventType];
    var s := u.slots[p];
    var ms' := StoreResetBy(s, ms, ms[m].version);
    WithSlotWellFormed(u, ms, ms', p, InsertedSlot(s, ms, e, m));
    var u' := WithSlot(u, p, InsertedSlot(s, ms, e, m));
    var accepted := Accepts(s, ms, ms[m].version);
    Inserted(if accepted && s.IsComplete() then Queue(u', ms') else u', ms', accepted)
  }

  /** Insert is the slot's insert, then, for an accepted event of a complete element, the ready queue. */
  lemma InsertIs<M>(u: Unit<M>, ms: Store<M>, e: Event, m: M)
    requires WellFormed(u, ms) && Insertable(u, ms, e, m)
    ensures var p := u.priority[e.eventType];
            var u', ms' :=
              WithSlot(u, p, InsertedSlot(u.slots[p], ms, e, m)), StoreResetBy(u.slots[p], ms, ms[m].version);
            && WellFormed(u', ms')
            && Insert(u, ms, e, m).unit ==
                 (if Accepts(u.slots[p], ms, ms[m].version) && u.slots[p].IsComplete() then Queue(u', ms') else u')
  {
    var p := u.priority[e.eventType];
    WithSlotWellFormed(u, ms, StoreResetBy(u.slots[p], ms, ms[m].version), p, InsertedSlot(u.slots[p], ms, e, m));
  }

  datatype Next<M> = NoneReady | Handed(p: nat, event: Event, metadata: M, unit: Unit<M>)

  /** GetNext: without a ready element it returns an error and leaves the unit as it is. */
  function GetNext<M>(u: Unit<M>, ms: Store<M>): (r: Next<M>)
    requires WellFormed(u, ms)
    ensures r.NoneReady? <==> !SomeReady(u, ms)
    ensures r.Handed? ==>
              && r.p < |u.slots| && IsReady(u, ms, r.p) && r.p == NextReady(u, ms).value
              && WellFormed(r.unit, ms)
              && r.unit == WithSlot(u, r.p, u.slots[r.p].(inProcess := true)).(inReadyQueue := false)
              && Some(r.event) == u.slots[r.p].event && Some(r.metadata) == u.slots[r.p].metadata
  {
    match NextReady(u, ms)
    case None => NoneReady
    case Some(p) =>
      var s := u.slots[p];
      WithSlotWellFormed(u, ms, ms, p, s.(inProcess := true));
      Handed(p, s.event.value, s.metadata.value, WithSlot(u, p, s.(inProcess := true)).(inReadyQueue := false))
  }

  /** PostProcess of either kind of element; `failed` is a non-nil error. */
  function PostProcess<M>(s: Slot<M>, ms: Store<M>, m: M, failed: bool): Slot<M>
    requires m in ms && (s.metadata.Some? ==> s.metadata.value in ms)
    requires s.IsComplete() ==> s.metadata.Some?
  {
    var s1 := if s.IsComplete() then s.(inProcess := false) else s;
    if failed then s1
    else
      var s2 := if ms[m].Processed() && ms[m].version.NewerThan(s1.lastProcessed)
        then s1.(lastProcessed := ms[m].version) else s1;
      if s2.IsComplete() && ms[m].version == ms[s2.metadata.value].version then s2.(event := None) else s2
  }

  function ReportResult<M>(u: Unit<M>, ms: Store<M>, m: M, failed: bool): (r: Unit<M>)
    requires WellFormed(u, ms) && m in ms && ms[m].eventType in u.priority
    requires var s := u.slots[u.priority[ms[m].eventType]]; s.IsComplete() ==> s.metadata.Some?
    ensures var p := u.priority[ms[m].eventType];
            && WellFormed(r, ms) && r.priority == u.priority
            && r.slots == u.slots[p := PostProcess(u.slots[p], ms, m, failed)]
            && (u.slots[p].IsComplete() ==> (r.inReadyQueue <==> u.inReadyQueue || SomeReady(r, ms)))
  {
    var p := u.priority[ms[m].eventType];
    var u' := WithSlot(u, p, PostProcess(u.slots[p], ms, m, failed));
    WithSlotWellFormed(u, ms, ms, p, u'.slots[p]);
    if u.slots[p].IsComplete() then Queue(u', ms) else u'
  }

  /** ReportResult is the slot's PostProcess, then, for a complete element, the ready queue. */
  lemma ReportResultIs<M>(u: Unit<M>, ms: Store<M>, m: M, failed: bool)
    requires WellFormed(u, ms) && m in ms && ms[m].eventType in u.priority
    requires var s := u.slots[u.priority[ms[m].eventType]]; s.IsComplete() ==> s.metadata.Some?
    ensures var p := u.priority[ms[m].eventType];
            var u' := WithSlot(u, p, PostProcess(u.slots[p], ms, m, failed));
            && WellFormed(u', ms)
            && ReportResult(u, ms, m, failed) == (if u.slots[p].IsComplete() then Queue(u', ms) else u')
  {
    var p := u.priority[ms[m].eventType];
    WithSlotWellFormed(u, ms, ms, p, PostProcess(u.slots[p], ms, m, failed));
  }

  /** getMetadatas: what every slot holds, in priority order. */
  function Metadatas<M>(slots: seq<Slot<M>>): seq<M> {
    if slots == [] then []
    else
      var rest := Metadatas(slots[..|slots| - 1]);
      match slots[|slots| - 1].metadata
      case None => rest
      case Some(m) => rest + [m]
  }

  lemma {:induction false} MetadatasAre<M>(slots: seq<Slot<M>>, m: M)
    ensures m in Metadatas(slots) <==> exists p :: 0 <= p < |slots| && slots[p].metadata == Some(m)
  {
    if slots != [] {
      var n := |slots| - 1;
      MetadatasAre(slots[..n], m);
      assert forall p :: 0 <= p < n ==> slots[..n][p] == slots[p];
    }
  }

  // ---------------------------------------------------------------- dependency-respecting dispatch

  /** q is p or reached from p along dependencies through complete elements. */
  ghost predicate InChain<M>(u: Unit<M>, p: nat, q: nat)
    requires Registered(u) && p < |u.slots| && u.slots[p].IsComplete()
    decreases p
  {
    || p == q
    || (u.slots[p].dependency.Some? && u.slots[DependencyIndex(u, p)].IsComplete()
        && InChain(u, DependencyIndex(u, p), q))
  }

  lemma {:induction false} ChainBusyMeaning<M>(u: Unit<M>, p: nat)
    requires Registered(u) && p < |u.slots| && u.slots[p].IsComplete()
    ensures ChainBusy(u, p) <==>
              exists q :: 0 <= q < |u.slots| && InChain(u, p, q) && u.slots[q].IsComplete() && u.slots[q].inProcess
    decreases p
  {
    if u.slots[p].inProcess {
      assert InChain(u, p, p);
    } else if u.slots[p].dependency.Some? && u.slots[DependencyIndex(u, p)].IsComplete() {
      var d := DependencyIndex(u, p);
      ChainBusyMeaning(u, d);
      forall q | 0 <= q < |u.slots| && u.slots[q].IsComplete() && u.slots[q].inProcess
        ensures InChain(u, p, q) <==> InChain(u, d, q)
      {
      }
    }
  }

  /**
    Whatever GetNext hands out is the lowest-index ready element, nothing in its transitive dependency
    chain is in process, and its direct dependency last processed the value it asks for.
   */
  lemma DispatchRespectsDependencies<M>(u: Unit<M>, ms: Store<M>)
    requires WellFormed(u, ms)
    ensures GetNext(u, ms).NoneReady? <==> !SomeReady(u, ms)
    ensures GetNext(u, ms).Handed? ==>
              var p := GetNext(u, ms).p;
              && p < |u.slots| && IsReady(u, ms, p)
              && (forall q :: 0 <= q < p ==> !IsReady(u, ms, q))
              && (forall q :: 0 <= q < |u.slots| && InChain(u, p, q) && u.slots[q].IsComplete() ==>
                    !u.slots[q].inProcess)
              && (u.slots[p].dependency.Some? ==>
                    var d := DependencyIndex(u, p);
                    var needed := ms[u.slots[p].metadata.value].dependency.value.value;
                    && d < p && u.slots[d].IsComplete()
                    && match u.slots[p].dependency.value.kind
                       case ExactMatch => u.slots[d].lastProcessed.value == needed
                       case AtLeast => u.slots[d].lastProcessed.value >= needed)
  {
    if GetNext(u, ms).Handed? {
      ChainBusyMeaning(u, GetNext(u, ms).p);
    }
  }
}
