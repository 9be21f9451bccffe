/** The computed position of a partition never moves back, over any run of inserts and processed marks. */
module CommitPositions {
  import opened Basics
  import opened ConflationModel
  import opened ConflationRuns
  import opened Committer
  import opened ManagerRuns

  // ---------------------------------------------------------------- the metadata held, as a set

  ghost predicate SamePlace(x: Meta, y: Meta) {
    PartitionOf(x.position) == PartitionOf(y.position)
  }

  /** y is x, perhaps processed since. */
  ghost predicate Later(x: Meta, y: Meta) {
    x.position == y.position && (x.Processed() ==> y.Processed())
  }

  /** y is pending and newer than everything of its partition in ms. */
  ghost predicate NewIn(ms: set<Meta>, y: Meta) {
    !y.Processed() && forall x :: x in ms && SamePlace(x, y) ==> x.position.offset < y.position.offset
  }

  /** Each entry stays or gives way to a newer pending one of the same partition; nothing else appears. */
  ghost predicate Advances(ms: set<Meta>, ms': set<Meta>) {
    && (forall y :: y in ms' ==> (exists x :: x in ms && Later(x, y)) || NewIn(ms, y))
    && (forall x :: x in ms ==> exists y :: y in ms' && (Later(x, y) || (SamePlace(x, y) && NewIn(ms, y))))
  }

  /** A restart offset comes from some entry of its partition. */
  lemma RestartSource(ms: set<Meta>, k: Partition, o: int) returns (x: Meta)
    requires RestartAt(ms, k, o)
    ensures x in ms && On(x, k)
    ensures if x.Processed() then x.position.offset + 1 == o else x.position.offset == o
    ensures x.Processed() ==> forall m :: m in ms && On(m, k) ==> m.Processed() && m.position.offset + 1 <= o
  {
    if exists m :: m in ms && PendingOn(m, k) {
      x :| x in ms && PendingOn(x, k) && x.position.offset == o;
    } else {
      x :| x in ms && On(x, k) && x.position.offset + 1 == o;
      assert !PendingOn(x, k);
      forall m | m in ms && On(m, k) ensures m.Processed() {
        assert !PendingOn(m, k);
      }
    }
  }

  /** Nothing pending afterwards lies before the old position. */
  lemma PendingIsPast(ms: set<Meta>, ms': set<Meta>, k: Partition, o: int, y: Meta)
    requires Advances(ms, ms') && RestartAt(ms, k, o) && y in ms' && PendingOn(y, k)
    ensures o <= y.position.offset
  {
    if x :| x in ms && Later(x, y) {
      assert PendingOn(x, k);
    } else {
      var x := RestartSource(ms, k, o);
      assert NewIn(ms, y) && SamePlace(x, y);
    }
  }

  lemma PositionNeverFalls(ms: set<Meta>, ms': set<Meta>, k: Partition, o: int, o': int)
    requires Advances(ms, ms') && RestartAt(ms, k, o) && RestartAt(ms', k, o')
    ensures o <= o'
  {
    var z := RestartSource(ms', k, o');
    if !z.Processed() {
      PendingIsPast(ms, ms', k, o, z);
    } else {
      var x := RestartSource(ms, k, o);
      var y :| y in ms' && (Later(x, y) || (SamePlace(x, y) && NewIn(ms, y)));
      assert On(y, k);
      assert Later(x, y);
    }
  }

  // ---------------------------------------------------------------- the units' slots

  ghost predicate HeldIn<M>(hubs: Hubs<M>, h: string, p: nat, m: M) {
    h in hubs && p < |hubs[h].unit.slots| && hubs[h].unit.slots[p].metadata == Some(m) && m in hubs[h].store
  }

  /** GetMetadatas at one moment: what all slots of all hubs hold. */
  ghost function AllHeld<M>(hubs: Hubs<M>): set<Meta> {
    set h, p | h in hubs && 0 <= p < |hubs[h].unit.slots| && hubs[h].unit.slots[p].metadata.Some?
               && hubs[h].unit.slots[p].metadata.value in hubs[h].store
      :: hubs[h].store[hubs[h].unit.slots[p].metadata.value]
  }

  /** An arriving event comes on the partition its slot's events have always come on. */
  ghost predicate StaysOnPartition<M>(hubs: Hubs<M>, hub: string, a: Action<M>) {
    a.Arrive? && hub in hubs ==>
      forall p :: 0 <= p < |hubs[hub].unit.slots| && hubs[hub].unit.slots[p].eventType == a.event.eventType ==>
        var held := hubs[hub].unit.slots[p].metadata;
        held.Some? && held.value in hubs[hub].store ==>
          PartitionOf(hubs[hub].store[held.value].position) == PartitionOf(a.meta.position)
  }

  lemma HeldLater<M>(f: System<M>, hubs: Hubs<M>, hub: string, a: Action<M>, hubs': Hubs<M>, h: string, p: nat, m: M)
    requires HubLink(f, hubs, hub, a, hubs') && OffsetsIncrease(hubs, a) && StaysOnPartition(hubs, hub, a)
    requires HeldIn(hubs, h, p, m)
    ensures exists m' :: HeldIn(hubs', h, p, m') &&
              var x, y := hubs[h].store[m], hubs'[h].store[m'];
              Later(x, y) || (SamePlace(x, y) && NewIn(AllHeld(hubs), y))
  {
    if h == hub && hubs'[h].unit.slots[p].metadata != Some(m) {
      ArrivedIsNew(hubs, a, hubs'[h].store[a.id]);
      assert HeldIn(hubs', h, p, a.id);
    } else {
      assert HeldIn(hubs', h, p, m);
    }
  }

  lemma ArrivedIsNew<M>(hubs: Hubs<M>, a: Action<M>, y: Meta)
    requires OffsetsIncrease(hubs, a) && a.Arrive? && y.position == a.meta.position && y.count == 0
    ensures NewIn(AllHeld(hubs), y)
  {
  }

  lemma HeldBefore<M>(f: System<M>, hubs: Hubs<M>, hub: string, a: Action<M>, hubs': Hubs<M>, h: string, p: nat, m: M)
    requires HubLink(f, hubs, hub, a, hubs') && OffsetsIncrease(hubs, a) && HeldIn(hubs', h, p, m)
    requires hub !in hubs ==> forall q :: 0 <= q < |f.unit.slots| ==> f.unit.slots[q].metadata.None?
    ensures (exists x :: x in AllHeld(hubs) && Later(x, hubs'[h].store[m])) || NewIn(AllHeld(hubs), hubs'[h].store[m])
  {
    if h == hub {
      var s := if h in hubs then hubs[h] else f;
      if s.unit.slots[p].metadata == Some(m) {
        assert m in s.accepted[p];
        assert HeldIn(hubs, h, p, m);
        assert hubs[h].store[m] in AllHeld(hubs);
      } else {
        ArrivedIsNew(hubs, a, hubs'[h].store[m]);
      }
    } else {
      assert HeldIn(hubs, h, p, m);
      assert hubs[h].store[m] in AllHeld(hubs);
    }
  }

  lemma StepAdvances<M>(f: System<M>, hubs: Hubs<M>, hub: string, a: Action<M>, hubs': Hubs<M>)
    requires HubLink(f, hubs, hub, a, hubs') && OffsetsIncrease(hubs, a) && StaysOnPartition(hubs, hub, a)
    requires forall q :: 0 <= q < |f.unit.slots| ==> f.unit.slots[q].metadata.None?
    ensures Advances(AllHeld(hubs), AllHeld(hubs'))
  {
    var ms, ms' := AllHeld(hubs), AllHeld(hubs');
    forall y | y in ms' ensures (exists x :: x in ms && Later(x, y)) || NewIn(ms, y) {
      var h, p :| h in hubs' && 0 <= p < |hubs'[h].unit.slots| && hubs'[h].unit.slots[p].metadata.Some?
                  && hubs'[h].unit.slots[p].metadata.value in hubs'[h].store
                  && y == hubs'[h].store[hubs'[h].unit.slots[p].metadata.value];
      HeldBefore(f, hubs, hub, a, hubs', h, p, hubs'[h].unit.slots[p].metadata.value);
    }
    forall x | x in ms ensures exists y :: y in ms' && (Later(x, y) || (SamePlace(x, y) && NewIn(ms, y))) {
      var h, p :| h in hubs && 0 <= p < |hubs[h].unit.slots| && hubs[h].unit.slots[p].metadata.Some?
                  && hubs[h].unit.slots[p].metadata.value in hubs[h].store
                  && x == hubs[h].store[hubs[h].unit.slots[p].metadata.value];
      var m := hubs[h].unit.slots[p].metadata.value;
      HeldLater(f, hubs, hub, a, hubs', h, p, m);
      var m' :| HeldIn(hubs', h, p, m')
        && (Later(x, hubs'[h].store[m']) || (SamePlace(x, hubs'[h].store[m']) && NewIn(ms, hubs'[h].store[m'])));
      assert hubs'[h].store[m'] in ms';
    }
  }

  /** A partition that has a position keeps having one. */
  lemma StepPosition<M>(f: System<M>, hubs: Hubs<M>, hub: string, a: Action<M>, hubs': Hubs<M>, k: Partition, o: int)
    returns (next: int)
    requires HubLink(f, hubs, hub, a, hubs') && OffsetsIncrease(hubs, a) && StaysOnPartition(hubs, hub, a)
    requires forall q :: 0 <= q < |f.unit.slots| ==> f.unit.slots[q].metadata.None?
    requires RestartAt(AllHeld(hubs), k, o)
    ensures RestartAt(AllHeld(hubs'), k, next) && o <= next
  {
    StepAdvances(f, hubs, hub, a, hubs');
    var ms, ms' := AllHeld(hubs), AllHeld(hubs');
    var x := RestartSource(ms, k, o);
    var y :| y in ms' && (Later(x, y) || (SamePlace(x, y) && NewIn(ms, y)));
    assert On(y, k);
    next := RestartExists(ms', k, y);
    PositionNeverFalls(ms, ms', k, o, next);
  }

  lemma {:induction false} LinkedPositionsRise<M>(f: System<M>, tr: seq<Hubs<M>>, steps: seq<Happening<M>>, i: nat,
                                                  j: nat, k: Partition, o: int, o': int)
    requires Linked(f, tr, steps) && i <= j < |tr|
    requires forall q :: 0 <= q < |f.unit.slots| ==> f.unit.slots[q].metadata.None?
    requires forall n :: i <= n < j ==>
               OffsetsIncrease(tr[n], steps[n].action) && StaysOnPartition(tr[n], steps[n].hub, steps[n].action)
    requires RestartAt(AllHeld(tr[i]), k, o) && RestartAt(AllHeld(tr[j]), k, o')
    ensures o <= o'
    decreases j - i
  {
    if i < j {
      var next := StepPosition(f, tr[i], steps[i].hub, steps[i].action, tr[i + 1], k, o);
      LinkedPositionsRise(f, tr, steps, i + 1, j, k, next, o');
    } else {
      RestartUnique(AllHeld(tr[i]), k, o, o');
    }
  }

  /** With offsets arriving in order and each hub and type on one partition, computed positions never fall. */
  lemma PositionsNeverFall<M>(f: System<M>, tr: seq<Hubs<M>>, steps: seq<Happening<M>>, i: nat, j: nat, k: Partition,
                              o: int, o': int)
    requires ManagerRun(f, tr, steps) && i <= j < |tr|
    requires forall n :: i <= n < j ==>
               OffsetsIncrease(tr[n], steps[n].action) && StaysOnPartition(tr[n], steps[n].hub, steps[n].action)
    requires RestartAt(AllHeld(tr[i]), k, o) && RestartAt(AllHeld(tr[j]), k, o')
    ensures o <= o'
  {
    RunLinked(f, tr, steps);
    LinkedPositionsRise(f, tr, steps, i, j, k, o, o');
  }
}
