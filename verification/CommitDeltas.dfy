/**
  Commits and events that their slot no longer holds: for a complete element a newer event stands in for
  them, for a delta element nothing does.
 */
module CommitDeltas {
  import opened Basics
  import opened ConflationModel
  import opened ConflationRuns
  import opened Committer
  import opened ManagerRuns
  import opened CommitPositions
  import opened CommitReadings

  /** Events later in a slot's history have higher offsets on the same partition. */
  ghost predicate InOrder<M>(s: System<M>) {
    forall p, i, j :: 0 <= p < |s.accepted| && 0 <= i < j < |s.accepted[p]| ==>
      Precedes(s, s.accepted[p][i], s.accepted[p][j])
  }

  ghost predicate Precedes<M>(s: System<M>, m: M, m': M) {
    && m in s.store && m' in s.store
    && SamePlace(s.store[m], s.store[m']) && s.store[m].position.offset < s.store[m'].position.offset
  }

  /** What is accepted at slot p of a hub goes on in order. */
  lemma StepInOrder<M>(f: System<M>, hubs: Hubs<M>, hub: string, a: Action<M>, hubs': Hubs<M>)
    requires HubLink(f, hubs, hub, a, hubs') && OffsetsIncrease(hubs, a) && StaysOnPartition(hubs, hub, a)
    requires forall p :: 0 <= p < |f.accepted| ==> f.accepted[p] == []
    requires hub in hubs ==> InOrder(hubs[hub])
    ensures InOrder(hubs'[hub])
  {
    var s, s' := if hub in hubs then hubs[hub] else f, hubs'[hub];
    forall p, i, j | 0 <= p < |s'.accepted| && 0 <= i < j < |s'.accepted[p]|
      ensures Precedes(s', s'.accepted[p][i], s'.accepted[p][j])
    {
      if j < |s.accepted[p]| {
        assert Precedes(s, s.accepted[p][i], s.accepted[p][j]);
      } else {
        NewestPrecedes(f, hubs, hub, a, hubs', p, i);
      }
    }
  }

  lemma NewestPrecedes<M>(f: System<M>, hubs: Hubs<M>, hub: string, a: Action<M>, hubs': Hubs<M>, p: nat, i: nat)
    requires HubLink(f, hubs, hub, a, hubs') && OffsetsIncrease(hubs, a) && StaysOnPartition(hubs, hub, a)
    requires hub in hubs && InOrder(hubs[hub]) && p < |hubs'[hub].accepted| == |hubs[hub].accepted|
    requires i < |hubs[hub].accepted[p]| && |hubs'[hub].accepted[p]| == |hubs[hub].accepted[p]| + 1
    ensures Precedes(hubs'[hub], hubs'[hub].accepted[p][i], hubs'[hub].accepted[p][|hubs[hub].accepted[p]|])
  {
    var s, s' := hubs[hub], hubs'[hub];
    var last := |s.accepted[p]|;
    var m, held := s.accepted[p][i], s.accepted[p][last - 1];
    assert s'.accepted[p][last] == a.id && s'.unit.slots[p].metadata == Some(a.id);
    assert s.unit.slots[p].metadata == Some(held) && held in s.store && m in s.store;
    assert a.id != held;
    assert PartitionOf(s.store[held].position) == PartitionOf(a.meta.position);
    assert i < last - 1 ==> Precedes(s, m, held);
  }

  /** Offsets arrive in order, and each slot's events on one partition, up to moment n. */
  ghost predicate ArriveInOrder<M>(tr: seq<Hubs<M>>, steps: seq<Happening<M>>, n: nat)
    requires n <= |steps| < |tr|
  {
    OffsetsIncreaseTo(tr, steps, n) && forall i :: 0 <= i < n ==> StaysOnPartition(tr[i], steps[i].hub, steps[i].action)
  }

  lemma {:induction false} RunInOrder<M>(f: System<M>, tr: seq<Hubs<M>>, steps: seq<Happening<M>>, h: string, i: nat)
    requires Linked(f, tr, steps) && i < |tr| && h in tr[i] && ArriveInOrder(tr, steps, i)
    ensures InOrder(tr[i][h])
  {
    if i > 0 {
      assert HubLink(f, tr[i - 1], steps[i - 1].hub, steps[i - 1].action, tr[i - 1 + 1]);
      if h in tr[i - 1] {
        RunInOrder(f, tr, steps, h, i - 1);
      }
      if h == steps[i - 1].hub {
        StepInOrder(f, tr[i - 1], h, steps[i - 1].action, tr[i]);
      }
    }
  }

  /** Event m was accepted at slot p and had given way to a later one when its hub was read. */
  ghost predicate SupersededWhenRead<M>(tr: seq<Hubs<M>>, r: Reading, h: string, p: nat, n: nat, m: M)
    requires r.until < |tr|
  {
    && h in r.gather && r.gather[h] <= r.until && h in tr[r.until]
    && h in tr[r.gather[h]] && p < |tr[r.gather[h]][h].accepted| && n + 1 < |tr[r.gather[h]][h].accepted[p]|
    && tr[r.gather[h]][h].accepted[p][n] == m && m in tr[r.gather[h]][h].store
  }

  /** What its slot held instead was read, at a later offset of the same partition. */
  lemma HeldLaterIsSeen<M>(f: System<M>, tr: seq<Hubs<M>>, steps: seq<Happening<M>>, r: Reading,
                           h: string, p: nat, n: nat, m: M) returns (x: Meta)
    requires Linked(f, tr, steps) && r.until < |tr| && ReadFrom(tr, r) && ArriveInOrder(tr, steps, r.until)
    requires SupersededWhenRead(tr, r, h, p, n, m)
    ensures x in r.ms && SamePlace(tr[r.gather[h]][h].store[m], x)
    ensures tr[r.gather[h]][h].store[m].position.offset < x.position.offset
  {
    var t := r.gather[h];
    var s := tr[t][h];
    HubHolds(f, tr, steps, h, t);
    RunInOrder(f, tr, steps, h, t);
    assert Precedes(s, m, s.accepted[p][|s.accepted[p]| - 1]);
    assert HoldsAt(tr, r, h, p);
    x :| x in r.ms && SeenBy(tr, r, h, p, x);
    var m' := SeenFacts(f, tr, steps, r, h, p, x);
  }

  /**
    A restart offset passes an accepted event its slot no longer held, processed or not, exactly when every
    pending entry read of the partition lies past the event. For a delta element the event may still be
    queued.
   */
  lemma SupersededPassedExactly<M>(f: System<M>, tr: seq<Hubs<M>>, steps: seq<Happening<M>>, r: Reading,
                                   k: Partition, offset: int, h: string, p: nat, n: nat, m: M)
    requires ManagerRun(f, tr, steps) && r.until < |tr| && ReadFrom(tr, r) && RestartAt(r.ms, k, offset)
    requires ArriveInOrder(tr, steps, r.until)
    requires SupersededWhenRead(tr, r, h, p, n, m) && On(tr[r.gather[h]][h].store[m], k)
    ensures var at := tr[r.gather[h]][h].store[m].position.offset;
            offset > at <==> forall x :: x in r.ms && PendingOn(x, k) ==> x.position.offset > at
  {
    RunLinked(f, tr, steps);
    var x := HeldLaterIsSeen(f, tr, steps, r, h, p, n, m);
    assert On(x, k);
    RestartPasses(r.ms, k, offset, tr[r.gather[h]][h].store[m].position.offset);
  }
}
