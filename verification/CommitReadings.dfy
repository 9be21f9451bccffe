/** What a commit may conclude from reading the units one after the other while they go on working. */
module CommitReadings {
  import opened Basics
  import opened ConflationModel
  import opened ConflationRuns
  import opened Committer
  import opened ManagerRuns

  /**
    What one commit reads, and has read by moment `until` of a run: hub h is read at moment gather[h], and
    `ms` are the metadata the committer then works on.
   */
  datatype Reading = Reading(gather: map<string, nat>, until: nat, ms: set<Meta>)

  /** At its moment, hub h had an event in slot p. */
  ghost predicate HoldsAt<M>(tr: seq<Hubs<M>>, r: Reading, h: string, p: nat)
    requires r.until < |tr|
  {
    && h in r.gather && r.gather[h] <= r.until && h in tr[r.gather[h]] && h in tr[r.until]
    && p < |tr[r.gather[h]][h].unit.slots| && tr[r.gather[h]][h].unit.slots[p].metadata.Some?
  }

  /** x is what was read of slot p of hub h: the event it held, under the lock, and its mark at some later moment. */
  ghost predicate SeenBy<M>(tr: seq<Hubs<M>>, r: Reading, h: string, p: nat, x: Meta)
    requires r.until < |tr|
  {
    && HoldsAt(tr, r, h, p)
    && var m := tr[r.gather[h]][h].unit.slots[p].metadata.value;
       exists e :: r.gather[h] <= e <= r.until && h in tr[e] && m in tr[e][h].store && x == tr[e][h].store[m]
  }

  /** Every hub is read, and `ms` is what was seen. Hubs created after their moment are not seen. */
  ghost predicate ReadFrom<M>(tr: seq<Hubs<M>>, r: Reading)
    requires r.until < |tr|
  {
    && (forall h :: h in tr[r.until] ==> h in r.gather && r.gather[h] <= r.until)
    && (forall x :: x in r.ms ==> exists h, p :: SeenBy(tr, r, h, p, x))
    && (forall h, p :: HoldsAt(tr, r, h, p) ==> exists x :: x in r.ms && SeenBy(tr, r, h, p, x))
  }

  /** When it was read, slot p of hub h held an event of partition k. */
  ghost predicate ReadOn<M>(tr: seq<Hubs<M>>, r: Reading, h: string, p: nat, k: Partition)
    requires r.until < |tr|
  {
    && HoldsAt(tr, r, h, p)
    && var m := tr[r.gather[h]][h].unit.slots[p].metadata.value;
       m in tr[r.gather[h]][h].store && PartitionOf(tr[r.gather[h]][h].store[m].position) == k
  }

  /** The hub of the step had been read by moment j. */
  ghost predicate ReadBefore<M>(step: Happening<M>, r: Reading, j: nat) {
    step.hub in r.gather && r.gather[step.hub] <= j
  }

  ghost predicate ArrivesOn<M>(step: Happening<M>, k: Partition) {
    step.action.Arrive? && PartitionOf(step.action.meta.position) == k
  }

  /**
    No event of partition k comes to a hub already read before another hub that holds an event of k is
    read. Hubs are read one after the other; anything else may happen in between.
   */
  ghost predicate ReadInTime<M>(tr: seq<Hubs<M>>, steps: seq<Happening<M>>, r: Reading, k: Partition)
    requires r.until < |tr| == |steps| + 1
  {
    forall j, h, p ::
      0 <= j < r.until && ReadBefore(steps[j], r, j) && ArrivesOn(steps[j], k) && ReadOn(tr, r, h, p, k) ==>
        r.gather[h] <= j
  }

  ghost predicate OffsetsIncreaseTo<M>(tr: seq<Hubs<M>>, steps: seq<Happening<M>>, n: nat)
    requires n <= |steps| < |tr|
  {
    forall i :: 0 <= i < n ==> OffsetsIncrease(tr[i], steps[i].action)
  }

  // ---------------------------------------------------------------- what was seen

  /** What was read of a slot agrees with what is known at the end, but for marks made since. */
  lemma SeenFacts<M>(f: System<M>, tr: seq<Hubs<M>>, steps: seq<Happening<M>>, r: Reading, h: string, p: nat, x: Meta)
    returns (m: M)
    requires Linked(f, tr, steps) && r.until < |tr| && SeenBy(tr, r, h, p, x)
    ensures tr[r.gather[h]][h].unit.slots[p].metadata == Some(m)
    ensures m in tr[r.gather[h]][h].store && m in tr[r.until][h].store
    ensures x.position == tr[r.until][h].store[m].position == tr[r.gather[h]][h].store[m].position
    ensures x.Processed() ==> tr[r.until][h].store[m].Processed()
    ensures tr[r.gather[h]][h].store[m].Processed() ==> x.Processed()
  {
    var t := r.gather[h];
    m := tr[t][h].unit.slots[p].metadata.value;
    HubHolds(f, tr, steps, h, t);
    var e :| t <= e <= r.until && h in tr[e] && m in tr[e][h].store && x == tr[e][h].store[m];
    HubGrows(f, tr, steps, h, t, e);
    HubGrows(f, tr, steps, h, e, r.until);
    assert m in tr[t][h].accepted[p];
  }

  lemma HeldThen<M>(f: System<M>, tr: seq<Hubs<M>>, steps: seq<Happening<M>>, now: nat, h: string, p: nat, m: M, t: nat)
    requires Linked(f, tr, steps) && t <= now < |tr| && Outstanding(tr[now], h, p, m)
    requires AcceptedAs(tr[t], h, p, |tr[now][h].accepted[p]| - 1, m)
    ensures p < |tr[t][h].unit.slots| && tr[t][h].unit.slots[p].metadata == Some(m)
  {
    HubHolds(f, tr, steps, h, t);
    HubGrows(f, tr, steps, h, t, now);
    assert |tr[t][h].accepted[p]| == |tr[now][h].accepted[p]|;
  }

  /** At its hub's reading, m was already the event accepted at its slot as it is at moment `now`. */
  ghost predicate ThereWhenRead<M>(tr: seq<Hubs<M>>, r: Reading, now: nat, h: string, p: nat, m: M)
    requires r.until <= now < |tr|
  {
    && h in r.gather && r.gather[h] <= r.until && h in tr[r.until]
    && h in tr[now] && p < |tr[now][h].accepted| && tr[now][h].accepted[p] != []
    && AcceptedAs(tr[r.gather[h]], h, p, |tr[now][h].accepted[p]| - 1, m)
  }

  /** An event that was there when its hub was read is seen as pending. */
  lemma SeenPending<M>(f: System<M>, tr: seq<Hubs<M>>, steps: seq<Happening<M>>, r: Reading, now: nat,
                       h: string, p: nat, m: M) returns (x: Meta)
    requires Linked(f, tr, steps) && r.until <= now < |tr| && ReadFrom(tr, r)
    requires Outstanding(tr[now], h, p, m) && ThereWhenRead(tr, r, now, h, p, m)
    ensures x in r.ms && !x.Processed() && x.position == tr[now][h].store[m].position
  {
    HeldThen(f, tr, steps, now, h, p, m, r.gather[h]);
    assert HoldsAt(tr, r, h, p);
    x :| x in r.ms && SeenBy(tr, r, h, p, x);
    var m' := SeenFacts(f, tr, steps, r, h, p, x);
    HubGrows(f, tr, steps, h, r.until, now);
  }

  /** Whatever was read of a partition in time arrived before anything that came later. */
  lemma SeenIsOlder<M>(f: System<M>, tr: seq<Hubs<M>>, steps: seq<Happening<M>>, r: Reading, h: string, p: nat,
                       x: Meta, j: nat)
    requires Linked(f, tr, steps) && r.until < |tr| && SeenBy(tr, r, h, p, x)
    requires ReadInTime(tr, steps, r, PartitionOf(x.position)) && j < |steps|
    requires ArrivesOn(steps[j], PartitionOf(x.position)) && OffsetsIncrease(tr[j], steps[j].action)
    requires j < r.until ==> ReadBefore(steps[j], r, j)
    ensures x.position.offset < steps[j].action.meta.position.offset
  {
    var m := SeenFacts(f, tr, steps, r, h, p, x);
    assert ReadOn(tr, r, h, p, PartitionOf(x.position));
    HubGrows(f, tr, steps, h, r.gather[h], j);
  }

  lemma AllSeenAreOlder<M>(f: System<M>, tr: seq<Hubs<M>>, steps: seq<Happening<M>>, r: Reading, k: Partition, j: nat)
    requires Linked(f, tr, steps) && r.until < |tr| && ReadFrom(tr, r) && ReadInTime(tr, steps, r, k)
    requires j < |steps| && ArrivesOn(steps[j], k) && OffsetsIncrease(tr[j], steps[j].action)
    requires j < r.until ==> ReadBefore(steps[j], r, j)
    ensures forall x :: x in r.ms && On(x, k) ==> x.position.offset < steps[j].action.meta.position.offset
  {
    forall x | x in r.ms && On(x, k) ensures x.position.offset < steps[j].action.meta.position.offset {
      var h, p :| SeenBy(tr, r, h, p, x);
      SeenIsOlder(f, tr, steps, r, h, p, x, j);
    }
  }

  /** What was not there when its hub was read came later than all that was read in time. */
  lemma MissedIsNewer<M>(f: System<M>, tr: seq<Hubs<M>>, steps: seq<Happening<M>>, r: Reading, now: nat, k: Partition,
                         h: string, p: nat, m: M)
    requires Linked(f, tr, steps) && r.until <= now < |tr| && ReadFrom(tr, r) && ReadInTime(tr, steps, r, k)
    requires OffsetsIncreaseTo(tr, steps, now)
    requires Outstanding(tr[now], h, p, m) && PartitionOf(tr[now][h].store[m].position) == k
    requires !ThereWhenRead(tr, r, now, h, p, m)
    ensures forall x :: x in r.ms && On(x, k) ==> x.position.offset < tr[now][h].store[m].position.offset
  {
    var from := if h in tr[r.until] then r.gather[h] else r.until;
    var j := AcceptedWhen(f, tr, steps, h, p, |tr[now][h].accepted[p]| - 1, m, from, now);
    AllSeenAreOlder(f, tr, steps, r, k, j);
  }

  // ---------------------------------------------------------------- commit safety

  /** A restart offset is past `at` exactly when some entry is at or past it and every pending one past it. */
  lemma RestartPasses(ms: set<Meta>, k: Partition, offset: int, at: int)
    requires RestartAt(ms, k, offset)
    ensures offset > at <==>
              && (exists x :: x in ms && On(x, k) && x.position.offset >= at)
              && (forall x :: x in ms && PendingOn(x, k) ==> x.position.offset > at)
  {
    if pending :| pending in ms && PendingOn(pending, k) {
      var lowest :| lowest in ms && PendingOn(lowest, k) && lowest.position.offset == offset;
      assert On(lowest, k);
    } else {
      var highest :| highest in ms && On(highest, k) && highest.position.offset + 1 == offset;
    }
  }

  lemma LinkedPassesExactly<M>(f: System<M>, tr: seq<Hubs<M>>, steps: seq<Happening<M>>, r: Reading, now: nat,
                               k: Partition, offset: int, h: string, p: nat, m: M)
    requires Linked(f, tr, steps) && r.until <= now < |tr| && ReadFrom(tr, r) && RestartAt(r.ms, k, offset)
    requires Outstanding(tr[now], h, p, m) && PartitionOf(tr[now][h].store[m].position) == k
    ensures offset > tr[now][h].store[m].position.offset <==>
              && !ThereWhenRead(tr, r, now, h, p, m)
              && (exists x :: x in r.ms && On(x, k) && x.position.offset >= tr[now][h].store[m].position.offset)
              && (forall x :: x in r.ms && PendingOn(x, k) ==> x.position.offset > tr[now][h].store[m].position.offset)
  {
    if ThereWhenRead(tr, r, now, h, p, m) {
      var x := SeenPending(f, tr, steps, r, now, h, p, m);
      assert PendingOn(x, k);
    }
    RestartPasses(r.ms, k, offset, tr[now][h].store[m].position.offset);
  }

  /**
    A restart offset computed from units read one after the other passes an event that is outstanding then
    or at any later moment exactly when the event was not yet there when its hub was read, some entry read of
    the partition is at or past it, and every pending entry read lies past it.
   */
  lemma PassesExactly<M>(f: System<M>, tr: seq<Hubs<M>>, steps: seq<Happening<M>>, r: Reading, now: nat,
                         k: Partition, offset: int, h: string, p: nat, m: M)
    requires ManagerRun(f, tr, steps) && r.until <= now < |tr| && ReadFrom(tr, r) && RestartAt(r.ms, k, offset)
    requires Outstanding(tr[now], h, p, m) && PartitionOf(tr[now][h].store[m].position) == k
    ensures offset > tr[now][h].store[m].position.offset <==>
              && !ThereWhenRead(tr, r, now, h, p, m)
              && (exists x :: x in r.ms && On(x, k) && x.position.offset >= tr[now][h].store[m].position.offset)
              && (forall x :: x in r.ms && PendingOn(x, k) ==> x.position.offset > tr[now][h].store[m].position.offset)
  {
    RunLinked(f, tr, steps);
    LinkedPassesExactly(f, tr, steps, r, now, k, offset, h, p, m);
  }

  lemma LinkedCommitSafe<M>(f: System<M>, tr: seq<Hubs<M>>, steps: seq<Happening<M>>, r: Reading, now: nat,
                            k: Partition, offset: int, h: string, p: nat, m: M)
    requires Linked(f, tr, steps) && r.until <= now < |tr| && ReadFrom(tr, r)
    requires OffsetsIncreaseTo(tr, steps, now) && ReadInTime(tr, steps, r, k) && RestartAt(r.ms, k, offset)
    requires Outstanding(tr[now], h, p, m) && PartitionOf(tr[now][h].store[m].position) == k
    ensures offset <= tr[now][h].store[m].position.offset
  {
    LinkedPassesExactly(f, tr, steps, r, now, k, offset, h, p, m);
    if !ThereWhenRead(tr, r, now, h, p, m) {
      MissedIsNewer(f, tr, steps, r, now, k, h, p, m);
    }
  }

  /**
    Commit safety: with offsets arriving in order and the hubs of a partition read in time, a restart offset
    never passes an event of the partition that is outstanding then or at any later moment, when a crash may
    make use of it.
   */
  lemma CommitSafe<M>(f: System<M>, tr: seq<Hubs<M>>, steps: seq<Happening<M>>, r: Reading, now: nat,
                      k: Partition, offset: int, h: string, p: nat, m: M)
    requires ManagerRun(f, tr, steps) && r.until <= now < |tr| && ReadFrom(tr, r)
    requires OffsetsIncreaseTo(tr, steps, now) && ReadInTime(tr, steps, r, k) && RestartAt(r.ms, k, offset)
    requires Outstanding(tr[now], h, p, m) && PartitionOf(tr[now][h].store[m].position) == k
    ensures offset <= tr[now][h].store[m].position.offset
  {
    RunLinked(f, tr, steps);
    LinkedCommitSafe(f, tr, steps, r, now, k, offset, h, p, m);
  }
}
