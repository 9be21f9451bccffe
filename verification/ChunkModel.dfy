/** Messages cut into chunks, and the state of an assembler, as values. */
module ChunkModel {
  import opened Basics

  type Byte = x: int | 0 <= x < 256
  type Bytes = seq<Byte>

  /** offset is where the chunk ENDS in its message; size is the length of the whole message. */
  datatype Chunk = Chunk(id: string, offset: int, size: int, data: Bytes)

  function Concat(pieces: seq<Bytes>): Bytes {
    if pieces == [] then [] else Concat(pieces[..|pieces| - 1]) + pieces[|pieces| - 1]
  }

  /** Where piece i ends. */
  function End(pieces: seq<Bytes>, i: nat): nat
    requires i < |pieces|
  {
    |Concat(pieces[..i + 1])|
  }

  ghost predicate Pieces(pieces: seq<Bytes>) {
    |pieces| > 0 && forall i :: 0 <= i < |pieces| ==> |pieces[i]| > 0
  }

  function ChunkOf(id: string, pieces: seq<Bytes>, i: nat): Chunk
    requires i < |pieces|
  {
    Chunk(id, End(pieces, i), |Concat(pieces)|, pieces[i])
  }

  lemma EndStep(pieces: seq<Bytes>, n: nat)
    requires n < |pieces|
    ensures Concat(pieces[..n + 1]) == Concat(pieces[..n]) + pieces[n]
    ensures End(pieces, n) == |Concat(pieces[..n])| + |pieces[n]|
  {
    assert pieces[..n + 1][..n] == pieces[..n];
  }

  lemma {:induction false} EndsIncrease(pieces: seq<Bytes>, i: nat, j: nat)
    requires Pieces(pieces) && i < j < |pieces|
    ensures End(pieces, i) < End(pieces, j)
    decreases j
  {
    EndStep(pieces, j);
    if i < j - 1 {
      EndsIncrease(pieces, i, j - 1);
    }
  }

  // ---------------------------------------------------------------- what a set of chunks spells

  ghost predicate AtMost(keys: set<int>, k: int) {
    forall j :: j in keys ==> j <= k
  }

  lemma {:induction false} HasLargest(keys: set<int>)
    requires keys != {}
    ensures exists k :: k in keys && AtMost(keys, k)
  {
    var x := Pick(keys);
    var rest := keys - {x};
    assert forall j :: j in keys ==> j == x || j in rest;
    if rest == {} {
      assert AtMost(keys, x);
    } else {
      HasLargest(rest);
      var y :| y in rest && AtMost(rest, y);
      assert AtMost(keys, if x > y then x else y);
    }
  }

  ghost function Largest(keys: set<int>): (k: int)
    requires keys != {}
    ensures k in keys && AtMost(keys, k)
  {
    HasLargest(keys);
    var k :| k in keys && AtMost(keys, k);
    k
  }

  lemma LargestIs(keys: set<int>, k: int)
    requires k in keys && AtMost(keys, k)
    ensures Largest(keys) == k
  {
  }

  /** The data in ascending order of offset. */
  ghost function Collected(chunks: map<int, Chunk>): Bytes
    decreases |chunks|
  {
    if chunks == map[] then []
    else
      var k := Largest(chunks.Keys);
      Collected(chunks - {k}) + chunks[k].data
  }

  /** A further chunk adds its length, wherever it falls. */
  lemma {:induction false} CollectedGrows(chunks: map<int, Chunk>, k: int, c: Chunk)
    requires k !in chunks
    ensures |Collected(chunks[k := c])| == |Collected(chunks)| + |c.data|
    decreases |chunks|
  {
    var more := chunks[k := c];
    var top := Largest(more.Keys);
    if top == k {
      assert more - {k} == chunks;
    } else {
      assert top in chunks.Keys;
      assert forall j :: j in chunks.Keys ==> j in more.Keys;
      LargestIs(chunks.Keys, top);
      assert more - {top} == (chunks - {top})[k := c];
      CollectedGrows(chunks - {top}, k, c);
    }
  }

  // ---------------------------------------------------------------- the chunks of one message

  ghost function Indices(n: nat): (all: set<nat>)
    ensures forall i: nat :: i in all <==> i < n
  {
    if n == 0 then {} else Indices(n - 1) + {n - 1}
  }

  /** Those of the first n chunks of a message whose number is in `which`, by offset. */
  ghost function Received(id: string, pieces: seq<Bytes>, which: set<nat>,
                          n: nat := |pieces|): (chunks: map<int, Chunk>)
    requires Pieces(pieces) && n <= |pieces|
    ensures forall k :: k in chunks.Keys ==> k <= |Concat(pieces[..n])|
  {
    if n == 0 then map[]
    else
      EndStep(pieces, n - 1);
      var before := Received(id, pieces, which, n - 1);
      if n - 1 in which then before[End(pieces, n - 1) := ChunkOf(id, pieces, n - 1)] else before
  }

  /** A chunk's offset is taken exactly when the chunk is among the received. */
  lemma {:induction false} ReceivedAt(id: string, pieces: seq<Bytes>, which: set<nat>, i: nat, n: nat)
    requires Pieces(pieces) && i < n <= |pieces|
    ensures End(pieces, i) in Received(id, pieces, which, n) <==> i in which
    decreases n
  {
    EndStep(pieces, n - 1);
    var before := Received(id, pieces, which, n - 1);
    if i < n - 1 {
      EndsIncrease(pieces, i, n - 1);
      ReceivedAt(id, pieces, which, i, n - 1);
    } else {
      assert End(pieces, i) > |Concat(pieces[..n - 1])|;
      assert End(pieces, i) !in before.Keys;
    }
  }

  lemma {:induction false} ReceiveOne(id: string, pieces: seq<Bytes>, which: set<nat>, i: nat, n: nat)
    requires Pieces(pieces) && n <= |pieces| && i < |pieces|
    ensures Received(id, pieces, which + {i}, n) ==
              if i < n then Received(id, pieces, which, n)[End(pieces, i) := ChunkOf(id, pieces, i)]
                else Received(id, pieces, which, n)
    decreases n
  {
    if n > 0 {
      ReceiveOne(id, pieces, which, i, n - 1);
      if i < n - 1 {
        EndsIncrease(pieces, i, n - 1);
      }
    }
  }

  lemma {:induction false} ReceivedNone(id: string, pieces: seq<Bytes>, n: nat)
    requires Pieces(pieces) && n <= |pieces|
    ensures Received(id, pieces, {}, n) == map[]
  {
    if n > 0 {
      ReceivedNone(id, pieces, n - 1);
    }
  }

  /** All of the first n chunks spell the message up to there; some of them spell less. */
  lemma {:induction false} ReceivedSpells(id: string, pieces: seq<Bytes>, which: set<nat>, n: nat)
    requires Pieces(pieces) && n <= |pieces|
    ensures if forall i :: 0 <= i < n ==> i in which
            then Collected(Received(id, pieces, which, n)) == Concat(pieces[..n])
            else |Collected(Received(id, pieces, which, n))| < |Concat(pieces[..n])|
  {
    if n > 0 {
      EndStep(pieces, n - 1);
      ReceivedSpells(id, pieces, which, n - 1);
      if n - 1 in which {
        var before, k := Received(id, pieces, which, n - 1), End(pieces, n - 1);
        assert k !in before.Keys;
        AppendChunk(before, k, ChunkOf(id, pieces, n - 1));
      }
    }
  }

  /** A chunk past all others comes last. */
  lemma AppendChunk(chunks: map<int, Chunk>, k: int, c: Chunk)
    requires forall j :: j in chunks.Keys ==> j < k
    ensures Collected(chunks[k := c]) == Collected(chunks) + c.data
  {
    var more := chunks[k := c];
    LargestIs(more.Keys, k);
    assert k !in chunks.Keys;
    assert more - {k} == chunks;
  }

  /** The size test of the assembler passes exactly when every chunk of the message is there. */
  lemma CompleteExactlyWithAll(id: string, pieces: seq<Bytes>, which: set<nat>)
    requires Pieces(pieces) && which <= Indices(|pieces|)
    ensures |Concat(pieces)| <= |Collected(Received(id, pieces, which))| <==> which == Indices(|pieces|)
    ensures which == Indices(|pieces|) ==> Collected(Received(id, pieces, which)) == Concat(pieces)
    ensures |Concat(pieces)| > 0
  {
    assert pieces[..|pieces|] == pieces;
    EndStep(pieces, |pieces| - 1);
    ReceivedSpells(id, pieces, which, |pieces|);
    if forall i :: 0 <= i < |pieces| ==> i in which {
      assert which == Indices(|pieces|);
    }
  }

  // ---------------------------------------------------------------- the assembler

  /** One collection: the size its first chunk announced, and the chunks by offset. */
  datatype Collection = Collection(total: int, chunks: map<int, Chunk>)

  type Assembly = map<string, Collection>

  /** A buffer nobody wrote a byte to is nil. */
  ghost function NilIfEmpty(data: Bytes): Option<Bytes> {
    if data == [] then None else Some(data)
  }

  ghost function Joined(a: Assembly, c: Chunk): Collection {
    var col := if c.id in a then a[c.id] else Collection(c.size, map[]);
    if c.offset in col.chunks then col else col.(chunks := col.chunks[c.offset := c])
  }

  ghost predicate Completes(a: Assembly, c: Chunk) {
    Joined(a, c).total <= |Collected(Joined(a, c).chunks)|
  }

  ghost function AssembledTo(a: Assembly, c: Chunk): Assembly {
    if Completes(a, c) then a - {c.id} else a[c.id := Joined(a, c)]
  }

  ghost function Assembled(a: Assembly, c: Chunk): Option<Bytes> {
    if Completes(a, c) then NilIfEmpty(Collected(Joined(a, c).chunks)) else None
  }

  /**
    Any chunk at all: only the first chunk at an offset counts, and only the size that the collection's first chunk
    announced. The collection ends when as many bytes are there, and comes out unless that is none.
   */
  lemma ChunkArrives(a: Assembly, c: Chunk)
    ensures var held := if c.id in a then a[c.id].chunks else map[];
            var announced := if c.id in a then a[c.id].total else c.size;
            var bytes := |Collected(held)| + if c.offset in held then 0 else |c.data|;
            var after := AssembledTo(a, c);
            && (forall id :: id != c.id ==> (id in after <==> id in a) && (id in a ==> after[id] == a[id]))
            && (c.id in after <==> bytes < announced)
            && (c.id in after ==>
                  && after[c.id].total == announced && after[c.id].chunks.Keys == held.Keys + {c.offset}
                  && forall k :: k in after[c.id].chunks ==> after[c.id].chunks[k] == if k in held then held[k] else c)
            && (Assembled(a, c).Some? <==> bytes >= announced && bytes > 0)
            && (Assembled(a, c).Some? ==> |Assembled(a, c).value| == bytes)
  {
    var held := if c.id in a then a[c.id].chunks else map[];
    assert Collected(map[]) == [];
    if c.offset !in held {
      CollectedGrows(held, c.offset, c);
    }
  }

  // ---------------------------------------------------------------- any stream of chunks of any messages

  /** The arrival of chunk `index` of message `id`. */
  datatype Arrival = Arrival(id: string, index: nat)

  ghost predicate StreamOf(messages: map<string, seq<Bytes>>, stream: seq<Arrival>) {
    && (forall id :: id in messages ==> Pieces(messages[id]))
    && (forall k :: 0 <= k < |stream| ==> stream[k].id in messages && stream[k].index < |messages[stream[k].id]|)
  }

  ghost function ChunkAt(messages: map<string, seq<Bytes>>, a: Arrival): Chunk
    requires a.id in messages && a.index < |messages[a.id]|
  {
    ChunkOf(a.id, messages[a.id], a.index)
  }

  ghost function After(messages: map<string, seq<Bytes>>, stream: seq<Arrival>): Assembly
    requires StreamOf(messages, stream)
  {
    if stream == [] then map[]
    else
      var n := |stream| - 1;
      AssembledTo(After(messages, stream[..n]), ChunkAt(messages, stream[n]))
  }

  /** What assemble returns for the last arrival of the stream. */
  ghost function Output(messages: map<string, seq<Bytes>>, stream: seq<Arrival>): Option<Bytes>
    requires StreamOf(messages, stream) && |stream| > 0
  {
    var n := |stream| - 1;
    Assembled(After(messages, stream[..n]), ChunkAt(messages, stream[n]))
  }

  /** Reference: the distinct chunks of `id` that arrived since the message was last complete. */
  ghost function Seen(messages: map<string, seq<Bytes>>, stream: seq<Arrival>, id: string): set<nat>
    requires StreamOf(messages, stream) && id in messages
  {
    if stream == [] then {}
    else
      var n := |stream| - 1;
      var before := Seen(messages, stream[..n], id);
      if stream[n].id != id then before
      else if before + {stream[n].index} == Indices(|messages[id]|) then {}
      else before + {stream[n].index}
  }

  ghost predicate Tracks(messages: map<string, seq<Bytes>>, stream: seq<Arrival>, a: Assembly, id: string)
    requires StreamOf(messages, stream) && id in messages
  {
    var seen := Seen(messages, stream, id);
    && seen <= Indices(|messages[id]|)
    && (id in a <==> seen != {})
    && (id in a ==> a[id] == Collection(|Concat(messages[id])|, Received(id, messages[id], seen)))
  }

  /** The assembler holds, for every message separately, exactly the distinct chunks seen since its last completion. */
  lemma {:induction false} AssemblyTracksSeen(messages: map<string, seq<Bytes>>, stream: seq<Arrival>)
    requires StreamOf(messages, stream)
    ensures forall id :: id in messages ==> Tracks(messages, stream, After(messages, stream), id)
  {
    if stream != [] {
      var n := |stream| - 1;
      AssemblyTracksSeen(messages, stream[..n]);
      forall id | id in messages ensures Tracks(messages, stream, After(messages, stream), id) {
        assert Tracks(messages, stream[..n], After(messages, stream[..n]), id);
        if id == stream[n].id {
          AssembleOne(messages, stream);
        }
      }
    }
  }

  /** One chunk: it completes its message exactly when it is the last missing one. */
  lemma JoinOne(id: string, pieces: seq<Bytes>, a: Assembly, seen: set<nat>, i: nat)
    requires Pieces(pieces) && seen <= Indices(|pieces|) && i < |pieces|
    requires id in a <==> seen != {}
    requires id in a ==> a[id] == Collection(|Concat(pieces)|, Received(id, pieces, seen))
    ensures var c, which := ChunkOf(id, pieces, i), seen + {i};
            && Joined(a, c) == Collection(|Concat(pieces)|, Received(id, pieces, which))
            && (Completes(a, c) <==> which == Indices(|pieces|))
            && Assembled(a, c) == if which == Indices(|pieces|) then Some(Concat(pieces)) else None
  {
    var c := ChunkOf(id, pieces, i);
    ReceivedAt(id, pieces, seen, i, |pieces|);
    ReceiveOne(id, pieces, seen, i, |pieces|);
    CompleteExactlyWithAll(id, pieces, seen + {i});
    if i in seen {
      assert seen + {i} == seen;
    } else if seen == {} {
      ReceivedNone(id, pieces, |pieces|);
    }
  }

  /** The same, for the last arrival of a stream. */
  lemma AssembleOne(messages: map<string, seq<Bytes>>, stream: seq<Arrival>)
    requires StreamOf(messages, stream) && |stream| > 0
    requires var n := |stream| - 1; Tracks(messages, stream[..n], After(messages, stream[..n]), stream[n].id)
    ensures var n, id := |stream| - 1, stream[|stream| - 1].id;
            var which := Seen(messages, stream[..n], id) + {stream[n].index};
            && Tracks(messages, stream, After(messages, stream), id)
            && Output(messages, stream) == if which == Indices(|messages[id]|) then Some(Concat(messages[id])) else None
  {
    var n := |stream| - 1;
    var id, i := stream[n].id, stream[n].index;
    JoinOne(id, messages[id], After(messages, stream[..n]), Seen(messages, stream[..n], id), i);
    assert i in Indices(|messages[id]|);
  }

  /**
    Chunk round trip: for every stream of chunks of any messages, whatever the order, the interleaving
    and the duplicates, each call of assemble returns the original payload when its chunk is the last
    missing one, and nil otherwise.
   */
  lemma ChunkRoundTrip(messages: map<string, seq<Bytes>>, stream: seq<Arrival>)
    requires StreamOf(messages, stream) && |stream| > 0
    ensures var n, id := |stream| - 1, stream[|stream| - 1].id;
            Output(messages, stream) ==
              if Seen(messages, stream[..n], id) + {stream[n].index} == Indices(|messages[id]|)
              then Some(Concat(messages[id])) else None
  {
    AssemblyTracksSeen(messages, stream[..|stream| - 1]);
    AssembleOne(messages, stream);
  }

  // ---------------------------------------------------------------- how often a message comes out

  ghost predicate Complete(messages: map<string, seq<Bytes>>, stream: seq<Arrival>, id: string)
    requires id in messages
  {
    forall i :: 0 <= i < |messages[id]| ==> Arrival(id, i) in stream
  }

  /** Until a message is complete for the first time, seen means arrived. */
  lemma {:induction false} SeenIsArrived(messages: map<string, seq<Bytes>>, stream: seq<Arrival>, id: string)
    requires StreamOf(messages, stream) && id in messages && !Complete(messages, stream, id)
    ensures forall i: nat :: i in Seen(messages, stream, id) <==> Arrival(id, i) in stream
  {
    if stream != [] {
      var n := |stream| - 1;
      assert stream == stream[..n] + [stream[n]];
      SeenIsArrived(messages, stream[..n], id);
      if Seen(messages, stream[..n], id) + {stream[n].index} == Indices(|messages[id]|) && stream[n].id == id {
        forall i | 0 <= i < |messages[id]| ensures Arrival(id, i) in stream {
          assert i in Indices(|messages[id]|);
        }
      }
    }
  }

  /** The first complete arrival delivers; every earlier chunk of the message gives nil. */
  lemma DeliveredAtLastDistinctChunk(messages: map<string, seq<Bytes>>, stream: seq<Arrival>)
    requires StreamOf(messages, stream) && |stream| > 0
    requires !Complete(messages, stream[..|stream| - 1], stream[|stream| - 1].id)
    ensures var id := stream[|stream| - 1].id;
            Output(messages, stream) == if Complete(messages, stream, id) then Some(Concat(messages[id])) else None
  {
    var n := |stream| - 1;
    var id := stream[n].id;
    var before := Seen(messages, stream[..n], id);
    ChunkRoundTrip(messages, stream);
    AssemblyTracksSeen(messages, stream[..n]);
    assert Tracks(messages, stream[..n], After(messages, stream[..n]), id);
    SeenIsArrived(messages, stream[..n], id);
    assert stream == stream[..n] + [stream[n]];
    LastMissing(messages, stream[..n], stream[n], before);
  }

  lemma LastMissing(messages: map<string, seq<Bytes>>, earlier: seq<Arrival>, last: Arrival, before: set<nat>)
    requires last.id in messages && last.index < |messages[last.id]|
    requires before <= Indices(|messages[last.id]|) && forall i: nat :: i in before <==> Arrival(last.id, i) in earlier
    ensures Complete(messages, earlier + [last], last.id) <==> before + {last.index} == Indices(|messages[last.id]|)
  {
    var which, all := before + {last.index}, Indices(|messages[last.id]|);
    if Complete(messages, earlier + [last], last.id) {
      forall i | i in all ensures i in which {
        assert Arrival(last.id, i) in earlier + [last];
      }
    } else {
      var i :| 0 <= i < |messages[last.id]| && Arrival(last.id, i) !in earlier + [last];
      assert i in all && i !in which;
    }
  }

  /** How often message `id` came out. */
  ghost function Delivered(messages: map<string, seq<Bytes>>, stream: seq<Arrival>, id: string): nat
    requires StreamOf(messages, stream)
  {
    if stream == [] then 0
    else
      var n := |stream| - 1;
      Delivered(messages, stream[..n], id) + if stream[n].id == id && Output(messages, stream).Some? then 1 else 0
  }

  /** No message comes out more often than its scarcest chunk arrived. */
  lemma {:induction false} DeliveredAtMostScarcest(messages: map<string, seq<Bytes>>, stream: seq<Arrival>, id: string,
                                                   i: nat)
    requires StreamOf(messages, stream) && id in messages && i < |messages[id]|
    ensures Delivered(messages, stream, id) + (if i in Seen(messages, stream, id) then 1 else 0) <=
              multiset(stream)[Arrival(id, i)]
  {
    if stream != [] {
      var n := |stream| - 1;
      assert stream == stream[..n] + [stream[n]];
      DeliveredAtMostScarcest(messages, stream[..n], id, i);
      ChunkRoundTrip(messages, stream);
      assert i in Indices(|messages[id]|);
    }
  }

  /** A message whose chunks all arrive comes out, and as long as one chunk is never repeated it comes out once. */
  lemma {:induction false} CompleteMeansDelivered(messages: map<string, seq<Bytes>>, stream: seq<Arrival>, id: string)
    requires StreamOf(messages, stream) && id in messages && Complete(messages, stream, id)
    ensures Delivered(messages, stream, id) >= 1
    ensures forall i :: 0 <= i < |messages[id]| && multiset(stream)[Arrival(id, i)] == 1 ==>
              Delivered(messages, stream, id) == 1
  {
    assert Arrival(id, 0) in stream;
    var n := |stream| - 1;
    assert stream == stream[..n] + [stream[n]];
    if Complete(messages, stream[..n], id) {
      CompleteMeansDelivered(messages, stream[..n], id);
    } else {
      assert stream[n].id == id;
      DeliveredAtLastDistinctChunk(messages, stream);
    }
    forall i | 0 <= i < |messages[id]| && multiset(stream)[Arrival(id, i)] == 1
      ensures Delivered(messages, stream, id) == 1 {
      DeliveredAtMostScarcest(messages, stream, id, i);
    }
  }

  /** Duplicates that arrive before completion do no harm: exactly one delivery, at the completing arrival. */
  lemma {:induction false} DuplicatesBeforeCompletion(messages: map<string, seq<Bytes>>, stream: seq<Arrival>,
                                                      id: string, k: nat)
    requires StreamOf(messages, stream) && id in messages && k < |stream|
    requires !Complete(messages, stream[..k], id) && Complete(messages, stream[..k + 1], id)
    requires forall j :: k < j < |stream| ==> stream[j].id != id
    ensures Delivered(messages, stream, id) == 1
    ensures Output(messages, stream[..k + 1]) == Some(Concat(messages[id]))
  {
    assert stream[..k + 1] == stream[..k] + [stream[k]];
    assert stream[..k + 1][..k] == stream[..k];
    assert stream[k].id == id;
    DeliveredAtLastDistinctChunk(messages, stream[..k + 1]);
    NoneBefore(messages, stream[..k], id);
    NoneAfter(messages, stream, id, k + 1);
  }

  lemma {:induction false} NoneBefore(messages: map<string, seq<Bytes>>, stream: seq<Arrival>, id: string)
    requires StreamOf(messages, stream) && id in messages && !Complete(messages, stream, id)
    ensures Delivered(messages, stream, id) == 0
  {
    if stream != [] {
      var n := |stream| - 1;
      assert stream == stream[..n] + [stream[n]];
      NoneBefore(messages, stream[..n], id);
      if stream[n].id == id {
        DeliveredAtLastDistinctChunk(messages, stream);
      }
    }
  }

  lemma {:induction false} NoneAfter(messages: map<string, seq<Bytes>>, stream: seq<Arrival>, id: string, k: nat)
    requires StreamOf(messages, stream) && id in messages && k <= |stream|
    requires forall j :: k <= j < |stream| ==> stream[j].id != id
    ensures Delivered(messages, stream, id) == Delivered(messages, stream[..k], id)
  {
    if k == |stream| {
      assert stream[..k] == stream;
    } else {
      var n := |stream| - 1;
      NoneAfter(messages, stream[..n], id, k);
      assert stream[..n][..k] == stream[..k];
    }
  }
}
