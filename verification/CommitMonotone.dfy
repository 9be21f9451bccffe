/** One commit after another: when the position computed for a partition can fall, and when it cannot. */
module CommitMonotone {
  import opened Basics
  import opened ConflationModel
  import opened ConflationRuns
  import opened Committer
  import opened ManagerRuns
  import opened CommitPositions
  import opened CommitReadings
  import opened CommitDeltas

  /** The second commit reads its hubs after the first has read its own. */
  ghost predicate Follows<M>(tr: seq<Hubs<M>>, r: Reading, r': Reading)
    requires r.until <= r'.until < |tr|
  {
    ReadFrom(tr, r) && ReadFrom(tr, r') && forall h :: h in tr[r'.until] ==> r.until <= r'.gather[h]
  }

  /** A slot that held something goes on holding it, or something later on the same partition. */
  lemma HeldOn<M>(f: System<M>, tr: seq<Hubs<M>>, steps: seq<Happening<M>>, h: string, p: nat, m: M, t: nat, t': nat)
    returns (m': M)
    requires Linked(f, tr, steps) && t <= t' < |tr| && h in tr[t] && ArriveInOrder(tr, steps, t')
    requires p < |tr[t][h].unit.slots| && tr[t][h].unit.slots[p].metadata == Some(m) && m in tr[t][h].store
    ensures h in tr[t'] && p < |tr[t'][h].unit.slots| && tr[t'][h].unit.slots[p].metadata == Some(m')
    ensures m' in tr[t'][h].store
    ensures SamePlace(tr[t][h].store[m], tr[t'][h].store[m'])
    ensures tr[t][h].store[m].position.offset <= tr[t'][h].store[m'].position.offset
  {
    HubGrows(f, tr, steps, h, t, t');
    HubHolds(f, tr, steps, h, t);
    HubHolds(f, tr, steps, h, t');
    RunInOrder(f, tr, steps, h, t');
    var before, after := tr[t][h].accepted[p], tr[t'][h].accepted[p];
    m' := after[|after| - 1];
    assert after[|before| - 1] == m;
    assert |before| < |after| ==> Precedes(tr[t'][h], m, m');
  }

  /** What the first commit saw, the second sees, or something later on the same partition. */
  lemma SeenAgain<M>(f: System<M>, tr: seq<Hubs<M>>, steps: seq<Happening<M>>, r: Reading, r': Reading, x: Meta)
    returns (y: Meta)
    requires Linked(f, tr, steps) && r.until <= r'.until < |tr| && Follows(tr, r, r')
    requires ArriveInOrder(tr, steps, r'.until) && x in r.ms
    ensures y in r'.ms && SamePlace(x, y) && x.position.offset <= y.position.offset
  {
    var h, p :| SeenBy(tr, r, h, p, x);
    var m := SeenFacts(f, tr, steps, r, h, p, x);
    HubGrows(f, tr, steps, h, r.until, r'.until);
    var m' := HeldOn(f, tr, steps, h, p, m, r.gather[h], r'.gather[h]);
    assert HoldsAt(tr, r', h, p);
    y :| y in r'.ms && SeenBy(tr, r', h, p, y);
    var m'' := SeenFacts(f, tr, steps, r', h, p, y);
  }

  lemma LinkedFallsExactly<M>(f: System<M>, tr: seq<Hubs<M>>, steps: seq<Happening<M>>, r: Reading, r': Reading,
                              k: Partition, o: int, o': int)
    requires Linked(f, tr, steps) && r.until <= r'.until < |tr| && Follows(tr, r, r')
    requires ArriveInOrder(tr, steps, r'.until)
    requires RestartAt(r.ms, k, o) && RestartAt(r'.ms, k, o')
    ensures o' < o <==> exists z :: z in r'.ms && PendingOn(z, k) && z.position.offset < o
  {
    var x := RestartSource(r.ms, k, o);
    var y := SeenAgain(f, tr, steps, r, r', x);
    assert On(y, k);
    RestartPasses(r'.ms, k, o', o - 1);
  }

  /**
    From one commit to the next, the position of a partition falls exactly when the second sees something pending
    below it.
   */
  lemma FallsExactly<M>(f: System<M>, tr: seq<Hubs<M>>, steps: seq<Happening<M>>, r: Reading, r': Reading,
                        k: Partition, o: int, o': int)
    requires ManagerRun(f, tr, steps) && r.until <= r'.until < |tr| && Follows(tr, r, r')
    requires ArriveInOrder(tr, steps, r'.until)
    requires RestartAt(r.ms, k, o) && RestartAt(r'.ms, k, o')
    ensures o' < o <==> exists z :: z in r'.ms && PendingOn(z, k) && z.position.offset < o
  {
    RunLinked(f, tr, steps);
    LinkedFallsExactly(f, tr, steps, r, r', k, o, o');
  }

  /** What the second commit sees as pending is outstanding when its hub is read. */
  lemma PendingIsOutstanding<M>(f: System<M>, tr: seq<Hubs<M>>, steps: seq<Happening<M>>, r: Reading, h: string,
                                p: nat, z: Meta)
    returns (m: M)
    requires Linked(f, tr, steps) && r.until < |tr| && SeenBy(tr, r, h, p, z) && !z.Processed()
    ensures Outstanding(tr[r.gather[h]], h, p, m) && tr[r.gather[h]][h].store[m].position == z.position
  {
    m := SeenFacts(f, tr, steps, r, h, p, z);
    HubHolds(f, tr, steps, h, r.gather[h]);
  }

  /** Positions never fall from one commit to the next when the first read the hubs of the partition in time. */
  lemma ReadingsNeverFall<M>(f: System<M>, tr: seq<Hubs<M>>, steps: seq<Happening<M>>, r: Reading, r': Reading,
                             k: Partition, o: int, o': int)
    requires ManagerRun(f, tr, steps) && r.until <= r'.until < |tr| && Follows(tr, r, r')
    requires ArriveInOrder(tr, steps, r'.until)
    requires ReadInTime(tr, steps, r, k) && RestartAt(r.ms, k, o) && RestartAt(r'.ms, k, o')
    ensures o <= o'
  {
    RunLinked(f, tr, steps);
    LinkedFallsExactly(f, tr, steps, r, r', k, o, o');
    if z :| z in r'.ms && PendingOn(z, k) && z.position.offset < o {
      var h, p :| SeenBy(tr, r', h, p, z);
      var m := PendingIsOutstanding(f, tr, steps, r', h, p, z);
      LinkedCommitSafe(f, tr, steps, r, r'.gather[h], k, o, h, p, m);
    }
  }
}
