/** Both ends of the chunked transport: the producer's split and send loops, and the consumer's assembler. */
module ChunkTransport {
  import opened Basics
  import opened ChunkModel

  /** Extensions are None when absent or not a 32-bit integer. */
  datatype CloudEvent = CloudEvent(id: string, chunkOffset: Option<int>, chunkSize: Option<int>, data: Bytes)

  const INT32_MAX: int := 0x7fff_ffff

  // ---------------------------------------------------------------- producer

  function Split(payload: Bytes, limit: nat): (pieces: seq<Bytes>)
    requires limit > 0
  {
    if |payload| >= limit then [payload[..limit]] + Split(payload[limit..], limit)
    else if |payload| > 0 then [payload]
    else []
  }

  lemma {:induction false} ConcatFront(first: Bytes, rest: seq<Bytes>)
    ensures Concat([first] + rest) == first + Concat(rest)
  {
    var all := [first] + rest;
    if rest == [] {
      assert all[..0] == [];
    } else {
      ConcatFront(first, rest[..|rest| - 1]);
      assert all[..|all| - 1] == [first] + rest[..|rest| - 1];
    }
  }

  /** The chunks are the payload again; each is within the limit, and only the last may fall short of it. */
  lemma {:induction false} SplitIsWhole(payload: Bytes, limit: nat)
    requires limit > 0
    ensures var pieces := Split(payload, limit);
            && Concat(pieces) == payload
            && (forall i :: 0 <= i < |pieces| ==> 0 < |pieces[i]| <= limit)
            && (forall i :: 0 <= i < |pieces| - 1 ==> |pieces[i]| == limit)
            && (|pieces| <= 1 <==> |payload| <= limit)
  {
    if |payload| >= limit {
      SplitIsWhole(payload[limit..], limit);
      ConcatFront(payload[..limit], Split(payload[limit..], limit));
    } else if |payload| > 0 {
      ConcatFront(payload, []);
    }
  }

  /** The event sent for piece i. */
  function TaggedEvent(evt: CloudEvent, pieces: seq<Bytes>, i: nat): CloudEvent
    requires i < |pieces|
  {
    evt.(chunkOffset := Some(End(pieces, i)), chunkSize := Some(|Concat(pieces)|), data := pieces[i])
  }

  /** The client gives an event that has no id a new one, with every send. */
  function Named(evt: CloudEvent, newId: string): CloudEvent {
    if evt.id == "" then evt.(id := newId) else evt
  }

  /** How many sends an event takes. */
  function Sends(evt: CloudEvent, limit: nat): (n: nat)
    requires limit > 0
    ensures n > 0
  {
    if |Split(evt.data, limit)| <= 1 then 1 else |Split(evt.data, limit)|
  }

  /** What leaves the client with send i. */
  function Wire(evt: CloudEvent, limit: nat, newId: string, i: nat): CloudEvent
    requires limit > 0 && i < Sends(evt, limit)
  {
    var pieces := Split(evt.data, limit);
    Named(if |pieces| <= 1 then evt else TaggedEvent(evt, pieces, i), newId)
  }

  function Min(a: int, b: int): int {
    if a < b then a else b
  }

  /** The first k pieces are the first k times the limit bytes of the payload, or all of it. */
  lemma {:induction false} SplitPrefix(payload: Bytes, limit: nat, k: nat)
    requires limit > 0 && k <= |Split(payload, limit)|
    ensures Concat(Split(payload, limit)[..k]) == payload[..Min(k * limit, |payload|)]
  {
    var pieces := Split(payload, limit);
    if k > 0 {
      if |payload| >= limit {
        var others := payload[limit..];
        SplitPrefix(others, limit, k - 1);
        assert pieces[..k] == [payload[..limit]] + Split(others, limit)[..k - 1];
        ConcatFront(payload[..limit], Split(others, limit)[..k - 1]);
        assert k * limit == (k - 1) * limit + limit;
      } else {
        assert k == 1 && pieces[..1] == [payload] + [];
        ConcatFront(payload, []);
      }
    }
  }

  /**
    Send i of an over-long event carries bytes i * limit to (i + 1) * limit of the payload, as far as there are any,
    with the end of that range as its offset and the length of the whole payload as its size.
   */
  lemma WireMeans(evt: CloudEvent, limit: nat, newId: string, i: nat)
    requires limit > 0 && i < Sends(evt, limit)
    ensures var e := Wire(evt, limit, newId, i);
            var from, to := i * limit, Min((i + 1) * limit, |evt.data|);
            && e.id == (if evt.id == "" then newId else evt.id)
            && if |evt.data| <= limit then e == evt.(id := e.id)
               else
                 && 0 <= from < to && e.data == evt.data[from..to]
                 && e.chunkOffset == Some(to) && e.chunkSize == Some(|evt.data|)
  {
    var pieces := Split(evt.data, limit);
    SplitIsWhole(evt.data, limit);
    if |evt.data| > limit {
      SplitPrefix(evt.data, limit, i);
      SplitPrefix(evt.data, limit, i + 1);
      EndStep(pieces, i);
      PieceIs(evt.data, Min(i * limit, |evt.data|), Min((i + 1) * limit, |evt.data|), pieces[i]);
    }
  }

  lemma PieceIs(payload: Bytes, from: nat, to: nat, piece: Bytes)
    requires from <= |payload| && to <= |payload| && |piece| > 0 && payload[..to] == payload[..from] + piece
    ensures from < to && piece == payload[from..to]
  {
    assert |payload[..to]| == from + |piece|;
    assert payload[..to][from..] == piece;
  }

  class GenericProducer {
    var messageSizeLimit: nat

    constructor (limit: nat)
      ensures messageSizeLimit == limit
    {
      messageSizeLimit := limit;
    }

    method SplitPayloadIntoChunks(data: Bytes) returns (chunks: seq<Bytes>)
      requires messageSizeLimit > 0
      ensures chunks == Split(data, messageSizeLimit)
    {
      var payload := data;
      chunks := [];
      while |payload| >= messageSizeLimit
        invariant chunks + Split(payload, messageSizeLimit) == Split(data, messageSizeLimit)
        decreases |payload|
      {
        var chunk := payload[..messageSizeLimit];
        payload := payload[messageSizeLimit..];
        chunks := chunks + [chunk];
      }
      if |payload| > 0 {
        chunks := chunks + [payload];
      }
    }

    /**
      Sends up to the first attempt the client reports as undelivered; `undelivered` holds the numbers of such
      attempts and newIds(i) is the id the client would make up for attempt i.
     */
    method SendEvent(evt: CloudEvent, undelivered: set<nat>, newIds: nat -> string)
      returns (sent: seq<CloudEvent>, ok: bool)
      requires messageSizeLimit > 0 && |evt.data| <= INT32_MAX
      ensures |sent| <= Sends(evt, messageSizeLimit)
      ensures forall i :: 0 <= i < |sent| ==> sent[i] == Wire(evt, messageSizeLimit, newIds(i), i) && i !in undelivered
      ensures ok <==> |sent| == Sends(evt, messageSizeLimit)
      ensures !ok ==> |sent| in undelivered
    {
      var chunks := SplitPayloadIntoChunks(evt.data);
      if |chunks| <= 1 {
        if 0 in undelivered {
          return [], false;
        }
        return [Named(evt, newIds(0))], true;
      }
      SplitIsWhole(evt.data, messageSizeLimit);
      var chunkOffset := 0;
      sent := [];
      for i := 0 to |chunks|
        invariant |sent| == i && chunkOffset == |Concat(chunks[..i])|
        invariant forall k :: 0 <= k < i ==>
                    sent[k] == Named(TaggedEvent(evt, chunks, k), newIds(k)) && k !in undelivered
      {
        EndStep(chunks, i);
        chunkOffset := chunkOffset + |chunks[i]|;
        if i in undelivered {
          return sent, false;
        }
        sent := sent + [Named(evt.(chunkSize := Some(|evt.data|), chunkOffset := Some(chunkOffset), data := chunks[i]),
                              newIds(i))];
      }
      ok := true;
    }
  }

  // ---------------------------------------------------------------- consumer

  function InsertSorted(x: int, s: seq<int>): seq<int> {
    if s == [] || x <= s[0] then [x] + s else [s[0]] + InsertSorted(x, s[1..])
  }

  /** sort.Ints. */
  function SortInts(s: seq<int>): seq<int> {
    if s == [] then [] else InsertSorted(s[0], SortInts(s[1..]))
  }

  ghost predicate Increasing(s: seq<int>) {
    forall i, j :: 0 <= i < j < |s| ==> s[i] < s[j]
  }

  lemma {:induction false} InsertedInOrder(x: int, s: seq<int>)
    requires Increasing(s) && x !in Members(s)
    ensures Increasing(InsertSorted(x, s))
    ensures Members(InsertSorted(x, s)) == Members(s) + {x}
  {
    if s != [] {
      var tail := s[1..];
      assert s == [s[0]] + tail && Members(s) == Members(tail) + {s[0]};
      if x > s[0] {
        InsertedInOrder(x, tail);
        var rest := InsertSorted(x, tail);
        forall k | 0 <= k < |rest| ensures s[0] < rest[k] {
          assert rest[k] in Members(rest);
        }
        assert Members([s[0]] + rest) == Members(rest) + {s[0]};
      }
    }
  }

  ghost function Members(s: seq<int>): set<int> {
    set x | x in s
  }

  ghost predicate Distinct(s: seq<int>) {
    forall i, j :: 0 <= i < j < |s| ==> s[i] != s[j]
  }

  lemma {:induction false} SortedInOrder(s: seq<int>)
    requires Distinct(s)
    ensures Increasing(SortInts(s))
    ensures Members(SortInts(s)) == Members(s)
  {
    if s != [] {
      assert s == [s[0]] + s[1..];
      SortedInOrder(s[1..]);
      InsertedInOrder(s[0], SortInts(s[1..]));
    }
  }

  /** The data of the given offsets, in the order given. */
  function Written(chunks: map<int, Chunk>, offsets: seq<int>): Bytes
    requires Members(offsets) <= chunks.Keys
  {
    if offsets == [] then []
    else
      var n := |offsets| - 1;
      assert Members(offsets[..n]) <= Members(offsets) && offsets[n] in Members(offsets);
      Written(chunks, offsets[..n]) + chunks[offsets[n]].data
  }

  /** In ascending order, every offset once: that is Collected. */
  lemma {:induction false} WrittenIsCollected(chunks: map<int, Chunk>, offsets: seq<int>)
    requires Increasing(offsets) && chunks.Keys == Members(offsets)
    ensures Written(chunks, offsets) == Collected(chunks)
    decreases |offsets|
  {
    if offsets == [] {
      assert Members(offsets) == {};
    } else {
      var n := |offsets| - 1;
      var top, rest := offsets[n], offsets[..n];
      assert offsets == rest + [top];
      LargestIs(chunks.Keys, top);
      var fewer := chunks - {top};
      MinusKeys(chunks, top);
      assert Members(rest) == Members(offsets) - {top};
      WrittenIsCollected(fewer, rest);
      SameWritten(fewer, chunks, rest);
    }
  }

  lemma {:induction false} SameWritten(fewer: map<int, Chunk>, chunks: map<int, Chunk>, offsets: seq<int>)
    requires Members(offsets) <= fewer.Keys <= chunks.Keys && forall k :: k in fewer.Keys ==> fewer[k] == chunks[k]
    ensures Written(fewer, offsets) == Written(chunks, offsets)
  {
    if offsets != [] {
      var n := |offsets| - 1;
      assert Members(offsets[..n]) <= Members(offsets) && offsets[n] in Members(offsets);
      SameWritten(fewer, chunks, offsets[..n]);
    }
  }

  class MessageChunksCollection {
    const id: string
    const totalSize: int
    var accumulatedSize: int
    var chunks: map<int, Chunk>
    var orderedOffsets: seq<int>

    ghost predicate Valid()
      reads this
    {
      && Distinct(orderedOffsets)
      && chunks.Keys == Members(orderedOffsets)
      && accumulatedSize == |Collected(chunks)|
    }

    ghost function Value(): Collection
      reads this
    {
      Collection(totalSize, chunks)
    }

    constructor (id: string, size: int)
      ensures Valid() && Value() == Collection(size, map[]) && this.id == id
    {
      this.id, totalSize := id, size;
      accumulatedSize, chunks, orderedOffsets := 0, map[], [];
    }

    method Add(chunk: Chunk)
      requires Valid()
      modifies this
      ensures Valid()
      ensures Value() == if chunk.offset in old(chunks) then old(Value())
              else Collection(totalSize, old(chunks)[chunk.offset := chunk])
    {
      if chunk.offset in chunks {
        return;
      }
      CollectedGrows(chunks, chunk.offset, chunk);
      assert chunk.offset !in chunks.Keys;
      chunks := chunks[chunk.offset := chunk];
      orderedOffsets := orderedOffsets + [chunk.offset];
      accumulatedSize := accumulatedSize + |chunk.data|;
    }

    method Collect() returns (data: Option<Bytes>)
      requires Valid()
      modifies this`orderedOffsets
      ensures Valid() && data == NilIfEmpty(Collected(chunks))
    {
      SortedInOrder(orderedOffsets);
      orderedOffsets := SortInts(orderedOffsets);
      var buffer := Write();
      WrittenIsCollected(chunks, orderedOffsets);
      data := if |buffer| == 0 then None else Some(buffer);
    }

    method Write() returns (buffer: Bytes)
      requires Members(orderedOffsets) == chunks.Keys
      ensures buffer == Written(chunks, orderedOffsets)
    {
      buffer := [];
      for i := 0 to |orderedOffsets|
        invariant Members(orderedOffsets[..i]) <= Members(orderedOffsets)
        invariant buffer == Written(chunks, orderedOffsets[..i])
      {
        assert orderedOffsets[..i + 1][..i] == orderedOffsets[..i];
        assert Members(orderedOffsets[..i + 1]) <= Members(orderedOffsets) && orderedOffsets[i] in chunks.Keys;
        buffer := buffer + chunks[orderedOffsets[i]].data;
      }
      assert orderedOffsets[..|orderedOffsets|] == orderedOffsets;
    }
  }

  /** An event is a chunk when it carries both extensions. */
  function AsChunk(e: CloudEvent): Option<Chunk> {
    if e.chunkOffset.Some? && e.chunkSize.Some? then Some(Chunk(e.id, e.chunkOffset.value, e.chunkSize.value, e.data))
      else None
  }

  /**
    Events that are no chunks go on as they are; a chunk goes on when it completes its message, with the whole data.
   */
  ghost function Forwarded(a: Assembly, e: CloudEvent): Option<CloudEvent> {
    match AsChunk(e)
    case None => Some(e)
    case Some(chunk) =>
      match Assembled(a, chunk)
      case None => None
      case Some(payload) => Some(e.(data := payload))
  }

  ghost function ReceivedTo(a: Assembly, e: CloudEvent): Assembly {
    match AsChunk(e)
    case None => a
    case Some(chunk) => AssembledTo(a, chunk)
  }

  /** Joining the collection just created is joining a missing one. */
  lemma JoinCreated(a: Assembly, c: Chunk)
    ensures var created := if c.id in a then a else a[c.id := Collection(c.size, map[])];
            created[c.id := Joined(created, c)] == a[c.id := Joined(a, c)]
  {
  }

  lemma RemoveUpdated(a: Assembly, id: string, c: Collection)
    ensures a[id := c] - {id} == a - {id}
  {
  }

  class MessageAssembler {
    var chunkCollectionMap: map<string, MessageChunksCollection>

    ghost predicate Valid()
      reads this, chunkCollectionMap.Values
    {
      && (forall id :: id in chunkCollectionMap ==> chunkCollectionMap[id].Valid() && chunkCollectionMap[id].id == id)
    }

    ghost function Value(): Assembly
      reads this, chunkCollectionMap.Values
    {
      map id | id in chunkCollectionMap :: chunkCollectionMap[id].Value()
    }

    constructor ()
      ensures Valid() && Value() == map[] && chunkCollectionMap == map[]
    {
      chunkCollectionMap := map[];
    }

    /** The collection of the chunk's message, created when there is none. */
    method CollectionOf(chunk: Chunk) returns (chunkCollection: MessageChunksCollection)
      requires Valid()
      modifies this
      ensures Valid() && chunk.id in chunkCollectionMap && chunkCollectionMap[chunk.id] == chunkCollection
      ensures Value() == if chunk.id in old(Value()) then old(Value())
              else old(Value())[chunk.id := Collection(chunk.size, map[])]
      ensures chunkCollection in old(chunkCollectionMap.Values) || fresh(chunkCollection)
      ensures fresh(chunkCollectionMap.Values - old(chunkCollectionMap.Values))
    {
      if chunk.id in chunkCollectionMap {
        chunkCollection := chunkCollectionMap[chunk.id];
      } else {
        chunkCollection := new MessageChunksCollection(chunk.id, chunk.size);
        chunkCollectionMap := chunkCollectionMap[chunk.id := chunkCollection];
      }
    }

    method AddTo(chunkCollection: MessageChunksCollection, chunk: Chunk)
      requires Valid() && chunk.id in chunkCollectionMap && chunkCollectionMap[chunk.id] == chunkCollection
      modifies chunkCollection
      ensures Valid() && Value() == old(Value())[chunk.id := Joined(old(Value()), chunk)]
    {
      assert Value()[chunk.id] == chunkCollection.Value();
      chunkCollection.Add(chunk);
    }

    /** The chunk joins the collection of its message. */
    method Join(chunk: Chunk) returns (chunkCollection: MessageChunksCollection)
      requires Valid()
      modifies this, chunkCollectionMap.Values
      ensures Valid() && Value() == old(Value())[chunk.id := Joined(old(Value()), chunk)]
      ensures chunk.id in chunkCollectionMap && chunkCollectionMap[chunk.id] == chunkCollection
      ensures chunkCollection in old(chunkCollectionMap.Values) || fresh(chunkCollection)
      ensures fresh(chunkCollectionMap.Values - old(chunkCollectionMap.Values))
    {
      ghost var before := Value();
      chunkCollection := CollectionOf(chunk);
      JoinCreated(before, chunk);
      AddTo(chunkCollection, chunk);
    }

    method Assemble(chunk: Chunk) returns (payload: Option<Bytes>)
      requires Valid()
      modifies this, chunkCollectionMap.Values
      ensures Valid() && Value() == AssembledTo(old(Value()), chunk)
      ensures payload == Assembled(old(Value()), chunk)
      ensures fresh(chunkCollectionMap.Values - old(chunkCollectionMap.Values))
    {
      ghost var before := Value();
      var chunkCollection := Join(chunk);
      payload := Conclude(chunkCollection, before, chunk);
    }

    /** What assemble does once the chunk has joined: release the collection if it is complete. */
    method Conclude(chunkCollection: MessageChunksCollection, ghost before: Assembly, ghost chunk: Chunk)
      returns (payload: Option<Bytes>)
      requires Valid() && Value() == before[chunk.id := Joined(before, chunk)]
      requires chunk.id in chunkCollectionMap && chunkCollectionMap[chunk.id] == chunkCollection
      modifies this, chunkCollection
      ensures Valid() && Value() == AssembledTo(before, chunk) && payload == Assembled(before, chunk)
      ensures chunkCollectionMap.Values <= old(chunkCollectionMap.Values)
    {
      assert chunkCollection.Value() == Value()[chunk.id];
      payload := None;
      if chunkCollection.totalSize <= chunkCollection.accumulatedSize {
        RemoveUpdated(before, chunk.id, Joined(before, chunk));
        payload := Release(chunkCollection);
      }
    }

    /** The collected payload, with the collection gone from the map. */
    method Release(chunkCollection: MessageChunksCollection) returns (payload: Option<Bytes>)
      requires Valid() && chunkCollection.id in chunkCollectionMap
      requires chunkCollectionMap[chunkCollection.id] == chunkCollection
      modifies this, chunkCollection
      ensures Valid() && Value() == old(Value()) - {chunkCollection.id}
      ensures payload == NilIfEmpty(Collected(old(chunkCollection.chunks)))
      ensures chunkCollectionMap.Values <= old(chunkCollectionMap.Values)
    {
      payload := chunkCollection.Collect();
      chunkCollectionMap := chunkCollectionMap - {chunkCollection.id};
    }

    method MessageChunk(e: CloudEvent) returns (chunk: Option<Chunk>)
      ensures chunk == AsChunk(e)
      ensures chunk.Some? <==> e.chunkOffset.Some? && e.chunkSize.Some?
      ensures chunk.Some? ==>
                && chunk.value.id == e.id && Some(chunk.value.offset) == e.chunkOffset
                && Some(chunk.value.size) == e.chunkSize && chunk.value.data == e.data
    {
      if e.chunkOffset.None? {
        return None;
      }
      if e.chunkSize.None? {
        return None;
      }
      chunk := Some(Chunk(e.id, e.chunkOffset.value, e.chunkSize.value, e.data));
    }

    /** The consumer's receive function: the event that goes on, if any. */
    method Receive(e: CloudEvent) returns (forwarded: Option<CloudEvent>)
      requires Valid()
      modifies this, chunkCollectionMap.Values
      ensures Valid() && Value() == ReceivedTo(old(Value()), e)
      ensures forwarded == Forwarded(old(Value()), e)
      ensures fresh(chunkCollectionMap.Values - old(chunkCollectionMap.Values))
    {
      var chunk := MessageChunk(e);
      if chunk.None? {
        return Some(e);
      }
      var payload := Assemble(chunk.value);
      forwarded := if payload.None? then None else Some(e.(data := payload.value));
    }
  }
}
