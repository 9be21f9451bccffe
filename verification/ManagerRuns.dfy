/** Runs of the whole conflation manager, one unit per leaf hub, and what they keep. */
module ManagerRuns {
  import opened Basics
  import opened ConflationModel
  import opened ConflationRuns
  import opened ConflationOrder
  import opened Committer

  type Hubs<M(==)> = map<string, System<M>>

  /** One unit makes a step; a hub is created with its first event. `empty` is the registered, empty unit. */
  ghost predicate HubStep<M>(empty: System<M>, hubs: Hubs<M>, hub: string, a: Action<M>, hubs': Hubs<M>) {
    && hub in hubs'
    && hubs' == hubs[hub := hubs'[hub]]
    && Step(if hub in hubs then hubs[hub] else empty, a, hubs'[hub])
  }

  datatype Happening<M> = Happening(hub: string, action: Action<M>)

  ghost predicate ManagerRun<M>(empty: System<M>, tr: seq<Hubs<M>>, steps: seq<Happening<M>>) {
    && Initial(empty)
    && |tr| == |steps| + 1 && tr[0] == map[]
    && forall i :: 0 <= i < |steps| ==> HubStep(empty, tr[i], steps[i].hub, steps[i].action, tr[i + 1])
  }

  // ---------------------------------------------------------------- what a commit can see of a step

  /** Every slot holds the newest event it accepted, and knows it. */
  ghost predicate HoldsNewest<M>(s: System<M>) {
    && |s.accepted| == |s.unit.slots|
    && forall p :: 0 <= p < |s.unit.slots| ==>
         && s.unit.slots[p].metadata == (if s.accepted[p] == [] then None else Some(s.accepted[p][|s.accepted[p]| - 1]))
         && (forall m :: m in s.accepted[p] ==> m in s.store)
  }

  /** Nothing accepted is forgotten, no processed mark reverts, no position changes. */
  ghost predicate Grows<M>(s: System<M>, s': System<M>) {
    && |s.accepted| == |s'.accepted|
    && (forall p :: 0 <= p < |s.accepted| ==> s.accepted[p] <= s'.accepted[p])
    && (forall m :: m in s.store ==>
          && m in s'.store && s'.store[m].position == s.store[m].position
          && (s.store[m].Processed() ==> s'.store[m].Processed()))
  }

  /** A slot goes on holding what it holds, or takes up the arriving event, unprocessed. */
  ghost predicate HeldKept<M>(s: System<M>, a: Action<M>, s': System<M>) {
    && |s.unit.slots| == |s'.unit.slots|
    && forall p :: 0 <= p < |s.unit.slots| ==>
         || s'.unit.slots[p].metadata == s.unit.slots[p].metadata
         || (&& a.Arrive? && s'.unit.slots[p].metadata == Some(a.id) && s'.unit.slots[p].eventType == a.event.eventType
             && a.id in s'.store && s'.store[a.id].position == a.meta.position && s'.store[a.id].count == 0
             && s.unit.slots[p].eventType == a.event.eventType)
  }

  ghost predicate AcceptsOnlyArrivals<M>(s: System<M>, a: Action<M>, s': System<M>) {
    && |s.accepted| == |s'.accepted|
    && (forall p :: 0 <= p < |s.accepted| ==> |s'.accepted[p]| <= |s.accepted[p]| + 1)
    && forall p, n :: 0 <= p < |s'.accepted| && 0 <= n < |s'.accepted[p]| ==>
         || (n < |s.accepted[p]| && s.accepted[p][n] == s'.accepted[p][n])
         || (a.Arrive? && s'.accepted[p][n] == a.id && a.id in s'.store && s'.store[a.id].position == a.meta.position)
  }

  ghost predicate Link<M>(s: System<M>, a: Action<M>, s': System<M>) {
    && HoldsNewest(s) && HoldsNewest(s') && Grows(s, s') && HeldKept(s, a, s') && AcceptsOnlyArrivals(s, a, s')
  }

  lemma InvHoldsNewest<M>(s: System<M>)
    requires Inv(s)
    ensures HoldsNewest(s)
  {
    forall p | 0 <= p < |s.unit.slots|
      ensures s.unit.slots[p].metadata ==
                (if s.accepted[p] == [] then None else Some(s.accepted[p][|s.accepted[p]| - 1]))
      ensures forall m :: m in s.accepted[p] ==> m in s.store
    {
      assert HistoryOk(s, p);
    }
  }

  lemma ArrivalLinks<M>(s: System<M>, s': System<M>, a: Action<M>, p: nat)
    requires a.Arrive? && (AcceptRel(s, s', p, a.event, a.id) || RejectRel(s, s', p, a.event, a.id))
    requires s'.store[a.id] == a.meta && s.unit.slots[p].eventType == a.event.eventType
    ensures Grows(s, s') && HeldKept(s, a, s') && AcceptsOnlyArrivals(s, a, s')
  {
  }

  ghost predicate Shows<M>(s: System<M>, a: Action<M>, s': System<M>) {
    Grows(s, s') && HeldKept(s, a, s') && AcceptsOnlyArrivals(s, a, s')
  }

  lemma ArriveShows<M>(s: System<M>, a: Action<M>)
    requires Inv(s) && Enabled(s, a) && a.Arrive?
    ensures Shows(s, a, Arrived(s, a.event, a.id, a.meta))
  {
    var p := s.unit.priority[a.event.eventType];
    ArrivedRel(s, a.event, a.id, a.meta);
    ArrivalAt(s, a, p);
    ArrivalLinks(s, Arrived(s, a.event, a.id, a.meta), a, p);
  }

  lemma DispatchShows<M>(s: System<M>)
    requires Inv(s) && Enabled(s, Dispatch)
    ensures Shows(s, Dispatch, Dispatched(s))
  {
    DispatchedRel(s);
    if SomeReady(s.unit, s.store) {
      HandShows(s, Dispatched(s), NextReady(s.unit, s.store).value);
    }
  }

  lemma HandShows<M>(s: System<M>, s': System<M>, p: nat)
    requires HandRel(s, s', p)
    ensures Shows(s, Dispatch, s')
  {
  }

  lemma AttemptShows<M>(s: System<M>, s': System<M>, j: nat, ok: bool)
    requires AttemptRel(s, s', j, ok) && s.store[s.jobs[j].metadata].count >= 0
    ensures Shows(s, Attempt(j, ok), s')
  {
  }

  lemma ReportShows<M>(s: System<M>, s': System<M>, j: nat)
    requires ReportRel(s, s', j)
    ensures Shows(s, Report(j), s')
  {
  }

  lemma StepLinks<M>(s: System<M>, a: Action<M>)
    requires Inv(s) && Enabled(s, a)
    ensures Shows(s, a, Apply(s, a))
  {
    match a
    case Arrive(e, id, meta) => ArriveShows(s, a);
    case Dispatch => DispatchShows(s);
    case Attempt(j, ok) =>
      assert JobOk(s, j);
      JobsKnown(s, j);
      AttemptShows(s, Attempted(s, j, ok), j, ok);
    case Report(j) =>
      assert JobOk(s, j);
      ReportedRel(s, j);
      ReportShows(s, Reported(s, j), j);
  }

  lemma StepLink<M>(s: System<M>, a: Action<M>, s': System<M>)
    requires Step(s, a, s')
    ensures Link(s, a, s')
  {
    StepInv(s, a);
    InvHoldsNewest(s);
    InvHoldsNewest(s');
    StepLinks(s, a);
  }

  ghost predicate HubLink<M>(empty: System<M>, hubs: Hubs<M>, hub: string, a: Action<M>, hubs': Hubs<M>) {
    && hub in hubs'
    && hubs' == hubs[hub := hubs'[hub]]
    && Link(if hub in hubs then hubs[hub] else empty, a, hubs'[hub])
  }

  /** A run as the committer sees it. */
  ghost predicate Linked<M>(f: System<M>, tr: seq<Hubs<M>>, steps: seq<Happening<M>>) {
    && |tr| == |steps| + 1 && tr[0] == map[]
    && (forall p :: 0 <= p < |f.accepted| ==> f.accepted[p] == [])
    && forall i :: 0 <= i < |steps| ==> HubLink(f, tr[i], steps[i].hub, steps[i].action, tr[i + 1])
  }

  lemma RunLinked<M>(f: System<M>, tr: seq<Hubs<M>>, steps: seq<Happening<M>>)
    requires ManagerRun(f, tr, steps)
    ensures Linked(f, tr, steps)
  {
    forall i | 0 <= i < |steps| ensures HubLink(f, tr[i], steps[i].hub, steps[i].action, tr[i + 1]) {
      var hub := steps[i].hub;
      StepLink(if hub in tr[i] then tr[i][hub] else f, steps[i].action, tr[i + 1][hub]);
    }
  }

  // ---------------------------------------------------------------- facts about linked runs

  lemma GrowsTransitive<M>(s: System<M>, s': System<M>, s'': System<M>)
    requires Grows(s, s') && Grows(s', s'')
    ensures Grows(s, s'')
  {
  }

  lemma {:induction false} HubGrows<M>(f: System<M>, tr: seq<Hubs<M>>, steps: seq<Happening<M>>, hub: string, i: nat,
                                       k: nat)
    requires Linked(f, tr, steps) && i <= k < |tr| && hub in tr[i]
    ensures hub in tr[k] && Grows(tr[i][hub], tr[k][hub])
    decreases k - i
  {
    if i < k {
      assert HubLink(f, tr[i], steps[i].hub, steps[i].action, tr[i + 1]);
      HubGrows(f, tr, steps, hub, i + 1, k);
      GrowsTransitive(tr[i][hub], tr[i + 1][hub], tr[k][hub]);
    }
  }

  lemma {:induction false} HubHolds<M>(f: System<M>, tr: seq<Hubs<M>>, steps: seq<Happening<M>>, hub: string, i: nat)
    requires Linked(f, tr, steps) && i < |tr| && hub in tr[i]
    ensures HoldsNewest(tr[i][hub])
  {
    assert i > 0;
    assert HubLink(f, tr[i - 1], steps[i - 1].hub, steps[i - 1].action, tr[i]);
    if steps[i - 1].hub != hub {
      HubHolds(f, tr, steps, hub, i - 1);
    }
  }

  /** The n-th event accepted at slot p of a hub. */
  ghost predicate AcceptedAs<M>(hubs: Hubs<M>, hub: string, p: nat, n: nat, m: M) {
    && hub in hubs && p < |hubs[hub].accepted| && n < |hubs[hub].accepted[p]|
    && hubs[hub].accepted[p][n] == m && m in hubs[hub].store
  }

  /** The moment after time i at which an event accepted by time k, but not by i, arrived. */
  lemma {:induction false} AcceptedWhen<M>(f: System<M>, tr: seq<Hubs<M>>, steps: seq<Happening<M>>, hub: string,
                                           p: nat, n: nat, m: M, i: nat, k: nat)
    returns (j: nat)
    requires Linked(f, tr, steps) && i <= k < |tr|
    requires !AcceptedAs(tr[i], hub, p, n, m) && AcceptedAs(tr[k], hub, p, n, m)
    ensures i <= j < k && steps[j].hub == hub && steps[j].action.Arrive? && steps[j].action.id == m
    ensures tr[k][hub].store[m].position == steps[j].action.meta.position
    decreases k - i
  {
    assert HubLink(f, tr[i], steps[i].hub, steps[i].action, tr[i + 1]);
    if AcceptedAs(tr[i + 1], hub, p, n, m) {
      j := i;
      HubGrows(f, tr, steps, hub, i + 1, k);
      if hub in tr[i] {
        HubHolds(f, tr, steps, hub, i);
      }
    } else {
      j := AcceptedWhen(f, tr, steps, hub, p, n, m, i + 1, k);
    }
  }

  // ---------------------------------------------------------------- offsets

  /** Every arrival carries a higher offset than all events of its partition that arrived before, at any hub. */
  ghost predicate OffsetsIncrease<M>(hubs: Hubs<M>, a: Action<M>) {
    a.Arrive? ==>
      forall h, m ::
        h in hubs && m in hubs[h].store && PartitionOf(hubs[h].store[m].position) == PartitionOf(a.meta.position) ==>
          hubs[h].store[m].position.offset < a.meta.position.offset
  }

  /** Accepted, not processed, and not superseded by a later event of the same hub and type. */
  ghost predicate Outstanding<M>(hubs: Hubs<M>, h: string, p: nat, m: M) {
    && h in hubs && p < |hubs[h].accepted| && hubs[h].accepted[p] != []
    && hubs[h].accepted[p][|hubs[h].accepted[p]| - 1] == m
    && m in hubs[h].store && !hubs[h].store[m].Processed()
  }
}
