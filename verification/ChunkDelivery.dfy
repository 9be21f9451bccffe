/** From producer to consumer: which payloads come out, for any delivery of what any number of SendEvent calls sent. */
module ChunkDelivery {
  import opened Basics
  import opened ChunkModel
  import opened ChunkTransport

  /** The arrival of send `send` of event number `event`; redelivered sends arrive more than once. */
  datatype Delivery = Delivery(event: nat, send: nat)

  /** The events given to SendEvent, and the id the client makes up for each send of each of them. */
  datatype Outbox = Outbox(events: seq<CloudEvent>, limit: nat, newIds: (nat, nat) -> string) {
    ghost predicate IsSend(d: Delivery) {
      limit > 0 && d.event < |events| && d.send < Sends(events[d.event], limit)
    }

    ghost function IdOf(d: Delivery): string
      requires d.event < |events|
    {
      if events[d.event].id == "" then newIds(d.event, d.send) else events[d.event].id
    }

    ghost predicate TooLong(n: nat)
      requires n < |events|
    {
      |events[n].data| > limit
    }

    ghost function Sent(d: Delivery): CloudEvent
      requires IsSend(d)
    {
      Wire(events[d.event], limit, newIds(d.event, d.send), d.send)
    }

    /** No event looks like a chunk before it is sent, and no two events and no two made-up ids are the same. */
    ghost predicate Sound() {
      && limit > 0
      && (forall n :: 0 <= n < |events| ==> events[n].chunkOffset == events[n].chunkSize == None)
      && (forall d, d' :: IsSend(d) && IsSend(d') && IdOf(d) == IdOf(d') ==>
            d.event == d'.event && (events[d.event].id == "" ==> d.send == d'.send))
    }

    ghost predicate Delivers(stream: seq<Delivery>) {
      Sound() && forall k :: 0 <= k < |stream| ==> IsSend(stream[k])
    }

    /** The consumer after a stream of deliveries. */
    ghost function After(stream: seq<Delivery>): Assembly
      requires Delivers(stream)
    {
      if stream == [] then map[] else ReceivedTo(After(stream[..|stream| - 1]), Sent(stream[|stream| - 1]))
    }

    /** What the consumer passes on at the last delivery of the stream. */
    ghost function Out(stream: seq<Delivery>): Option<CloudEvent>
      requires Delivers(stream) && stream != []
    {
      Forwarded(After(stream[..|stream| - 1]), Sent(stream[|stream| - 1]))
    }

    /** Event n came out at some delivery of one of its sends. */
    ghost predicate ComesOut(stream: seq<Delivery>, n: nat)
      requires Delivers(stream)
    {
      && stream != []
      && (ComesOut(stream[..|stream| - 1], n) || (stream[|stream| - 1].event == n && Out(stream).Some?))
    }

    /** Reference: the sends of event n that arrived since they were last all there. */
    ghost function Gathered(stream: seq<Delivery>, n: nat): set<nat>
      requires Delivers(stream) && limit > 0 && n < |events|
    {
      if stream == [] then {}
      else
        var d, before := stream[|stream| - 1], Gathered(stream[..|stream| - 1], n);
        if d.event != n then before
        else if before + {d.send} == Indices(Sends(events[n], limit)) then {}
        else before + {d.send}
    }

    // -------------------------------------------------------------- as chunks of messages

    /** Every id under which chunks arrive, with the pieces of its event. */
    ghost function Messages(): map<string, seq<Bytes>>
      requires Sound()
    {
      map n: nat, i: nat | 0 <= n < |events| && 0 <= i < Sends(events[n], limit) && TooLong(n)
        :: IdOf(Delivery(n, i)) := Split(events[n].data, limit)
    }

    ghost function Arrivals(stream: seq<Delivery>): seq<Arrival>
      requires Delivers(stream)
    {
      if stream == [] then []
      else
        var d := stream[|stream| - 1];
        Arrivals(stream[..|stream| - 1]) + if TooLong(d.event) then [Arrival(IdOf(d), d.send)] else []
    }

    lemma MessageOf(d: Delivery)
      requires Sound() && IsSend(d) && TooLong(d.event)
      ensures IdOf(d) in Messages() && Messages()[IdOf(d)] == Split(events[d.event].data, limit)
      ensures |Messages()[IdOf(d)]| >= 2 && d.send < |Messages()[IdOf(d)]|
      ensures AsChunk(Sent(d)) == Some(ChunkOf(IdOf(d), Messages()[IdOf(d)], d.send))
    {
      SplitIsWhole(events[d.event].data, limit);
      assert IdOf(Delivery(d.event, d.send)) in Messages();
    }

    lemma MessagesArePieces()
      requires Sound()
      ensures forall id :: id in Messages() ==> Pieces(Messages()[id])
    {
      forall id | id in Messages() ensures Pieces(Messages()[id]) {
        var n: nat, i: nat :| 0 <= n < |events| && 0 <= i < Sends(events[n], limit) && TooLong(n)
                              && id == IdOf(Delivery(n, i)) && Messages()[id] == Split(events[n].data, limit);
        SplitIsWhole(events[n].data, limit);
      }
    }

    /** The last delivery as an arrival, if it is one. */
    lemma LastArrival(stream: seq<Delivery>)
      requires Delivers(stream) && stream != []
      ensures var d, front, arrivals := stream[|stream| - 1], stream[..|stream| - 1], Arrivals(stream);
              if TooLong(d.event)
              then arrivals != [] && arrivals[..|arrivals| - 1] == Arrivals(front)
                && arrivals[|arrivals| - 1] == Arrival(IdOf(d), d.send)
              else arrivals == Arrivals(front)
    {
    }

    /** What one send does to the consumer. */
    lemma ReceiveOne(a: Assembly, d: Delivery)
      requires Sound() && IsSend(d)
      ensures if TooLong(d.event)
              then
                && IdOf(d) in Messages() && d.send < |Messages()[IdOf(d)]|
                && var c := ChunkOf(IdOf(d), Messages()[IdOf(d)], d.send);
                   && ReceivedTo(a, Sent(d)) == AssembledTo(a, c)
                   && Forwarded(a, Sent(d)) == match Assembled(a, c)
                                               case None => None
                                               case Some(payload) => Some(Sent(d).(data := payload))
              else
                && ReceivedTo(a, Sent(d)) == a && Forwarded(a, Sent(d)) == Some(Sent(d))
                && Sent(d).data == events[d.event].data
    {
      if TooLong(d.event) {
        MessageOf(d);
      } else {
        SplitIsWhole(events[d.event].data, limit);
      }
    }

    lemma {:induction false} ArrivalsStream(stream: seq<Delivery>)
      requires Delivers(stream)
      ensures StreamOf(Messages(), Arrivals(stream))
    {
      MessagesArePieces();
      if stream != [] {
        ArrivalsStream(stream[..|stream| - 1]);
        LastArrival(stream);
        ReceiveOne(map[], stream[|stream| - 1]);
      }
    }

    lemma {:induction false} AfterIs(stream: seq<Delivery>)
      requires Delivers(stream)
      ensures StreamOf(Messages(), Arrivals(stream))
      ensures After(stream) == ChunkModel.After(Messages(), Arrivals(stream))
    {
      ArrivalsStream(stream);
      if stream != [] {
        AfterIs(stream[..|stream| - 1]);
        LastArrival(stream);
        ReceiveOne(After(stream[..|stream| - 1]), stream[|stream| - 1]);
      }
    }

    /** Over-long events come out as ChunkModel says of their chunks, all others as they are. */
    lemma OutIs(stream: seq<Delivery>)
      requires Delivers(stream) && stream != []
      ensures StreamOf(Messages(), Arrivals(stream))
      ensures var d := stream[|stream| - 1];
              if TooLong(d.event)
              then Arrivals(stream) != [] && Out(stream) == match Output(Messages(), Arrivals(stream))
                                                             case None => None
                                                             case Some(payload) => Some(Sent(d).(data := payload))
              else Out(stream) == Some(Sent(d)) && Sent(d).data == events[d.event].data
    {
      ArrivalsStream(stream);
      AfterIs(stream[..|stream| - 1]);
      LastArrival(stream);
      ReceiveOne(After(stream[..|stream| - 1]), stream[|stream| - 1]);
    }

    /** Seen, for the chunks of the event of send d. */
    ghost function SeenOf(stream: seq<Delivery>, d: Delivery): set<nat>
      requires Delivers(stream) && IsSend(d) && TooLong(d.event)
    {
      ArrivalsStream(stream);
      MessageOf(d);
      Seen(Messages(), Arrivals(stream), IdOf(d))
    }

    /** The payload comes out with the last missing chunk. */
    lemma OverlongOut(stream: seq<Delivery>)
      requires Delivers(stream) && stream != [] && TooLong(stream[|stream| - 1].event)
      ensures var d := stream[|stream| - 1];
              Out(stream) == if SeenOf(stream[..|stream| - 1], d) + {d.send} == Indices(Sends(events[d.event], limit))
                             then Some(Sent(d).(data := events[d.event].data)) else None
    {
      var d := stream[|stream| - 1];
      OutIs(stream);
      LastArrival(stream);
      MessageOf(d);
      ChunkRoundTrip(Messages(), Arrivals(stream));
      SplitIsWhole(events[d.event].data, limit);
    }

    lemma SeenStep(stream: seq<Delivery>, d: Delivery)
      requires Delivers(stream) && stream != [] && IsSend(d) && TooLong(d.event)
      ensures var last, before := stream[|stream| - 1], SeenOf(stream[..|stream| - 1], d);
              SeenOf(stream, d) ==
                if TooLong(last.event) && IdOf(last) == IdOf(d)
                then if before + {last.send} == Indices(Sends(events[d.event], limit)) then {} else before + {last.send}
                else before
    {
      LastArrival(stream);
      MessageOf(d);
    }

    /** The chunks seen of a named event are the sends gathered. */
    lemma {:induction false} GatheredIsSeen(stream: seq<Delivery>, d: Delivery)
      requires Delivers(stream) && IsSend(d) && TooLong(d.event) && events[d.event].id != ""
      ensures SeenOf(stream, d) == Gathered(stream, d.event)
    {
      if stream == [] {
        assert Arrivals(stream) == [];
      } else {
        GatheredIsSeen(stream[..|stream| - 1], d);
        SeenStep(stream, d);
        SameEvent(stream[|stream| - 1], d.event);
      }
    }

    // -------------------------------------------------------------- events without an id

    /** An id that only ever comes with one index has seen no other. */
    lemma {:induction false} SeenOnly(arrivals: seq<Arrival>, id: string, i: nat)
      requires Sound() && StreamOf(Messages(), arrivals) && id in Messages()
      requires forall k :: 0 <= k < |arrivals| && arrivals[k].id == id ==> arrivals[k].index == i
      ensures Seen(Messages(), arrivals, id) <= {i}
    {
      if arrivals != [] {
        SeenOnly(arrivals[..|arrivals| - 1], id, i);
      }
    }

    lemma {:induction false} ArrivalsFrom(stream: seq<Delivery>, k: nat) returns (d: Delivery)
      requires Delivers(stream) && k < |Arrivals(stream)|
      ensures d in stream && IsSend(d) && TooLong(d.event) && Arrivals(stream)[k] == Arrival(IdOf(d), d.send)
    {
      var n := |stream| - 1;
      if k < |Arrivals(stream[..n])| {
        d := ArrivalsFrom(stream[..n], k);
      } else {
        d := stream[n];
      }
    }

    /** Under the made-up id of a send, only that send has arrived. */
    lemma SeenAlone(stream: seq<Delivery>, d: Delivery)
      requires Delivers(stream) && IsSend(d) && TooLong(d.event) && events[d.event].id == ""
      ensures SeenOf(stream, d) <= {d.send}
    {
      ArrivalsStream(stream);
      MessageOf(d);
      forall k | 0 <= k < |Arrivals(stream)| && Arrivals(stream)[k].id == IdOf(d)
        ensures Arrivals(stream)[k].index == d.send {
        var d' := ArrivalsFrom(stream, k);
      }
      SeenOnly(Arrivals(stream), IdOf(d), d.send);
    }

    /** Without an id of its own, an over-long event never comes out: its chunks arrive under ids of their own. */
    lemma UnnamedNeverOut(stream: seq<Delivery>)
      requires Delivers(stream) && stream != []
      requires var d := stream[|stream| - 1]; TooLong(d.event) && events[d.event].id == ""
      ensures Out(stream) == None
    {
      var d := stream[|stream| - 1];
      OverlongOut(stream);
      SeenAlone(stream[..|stream| - 1], d);
      SplitIsWhole(events[d.event].data, limit);
      assert (if d.send == 0 then 1 else 0) in Indices(Sends(events[d.event], limit));
    }

    // -------------------------------------------------------------- every delivery

    /**
      End to end, for any events, any order, interleaving and repetition of their sends: a delivery passes on
      the payload of its event, if anything. That is so at once for an event within the limit, with the last
      missing chunk for an over-long event that has an id, and never for an over-long event without one.
     */
    lemma DeliveryOutcome(stream: seq<Delivery>)
      requires Delivers(stream) && stream != []
      ensures var d, front := stream[|stream| - 1], stream[..|stream| - 1];
              Out(stream) == if !TooLong(d.event) ||
                                (events[d.event].id != ""
                                 && Gathered(front, d.event) + {d.send} == Indices(Sends(events[d.event], limit)))
                             then Some(Sent(d).(data := events[d.event].data)) else None
    {
      var d := stream[|stream| - 1];
      if !TooLong(d.event) {
        OutIs(stream);
      } else if events[d.event].id == "" {
        UnnamedNeverOut(stream);
      } else {
        OverlongOut(stream);
        GatheredIsSeen(stream[..|stream| - 1], d);
      }
    }

    lemma {:induction false} ArrivesToo(stream: seq<Delivery>, d: Delivery)
      requires Delivers(stream) && d in stream && TooLong(d.event)
      ensures Arrival(IdOf(d), d.send) in Arrivals(stream)
    {
      var n := |stream| - 1;
      if stream[n] != d {
        assert stream == stream[..n] + [stream[n]];
        ArrivesToo(stream[..n], d);
      }
    }

    /** A named over-long event comes out when, and as often as, its message is delivered. */
    lemma {:induction false} ComesOutWhenDelivered(stream: seq<Delivery>, n: nat)
      requires Delivers(stream) && n < |events| && TooLong(n) && events[n].id != ""
      ensures StreamOf(Messages(), Arrivals(stream))
      ensures ComesOut(stream, n) <==> Delivered(Messages(), Arrivals(stream), events[n].id) >= 1
    {
      ArrivalsStream(stream);
      if stream != [] {
        var d := stream[|stream| - 1];
        ComesOutWhenDelivered(stream[..|stream| - 1], n);
        OutIs(stream);
        LastArrival(stream);
        SameEvent(d, n);
      }
    }

    lemma SameEvent(d: Delivery, n: nat)
      requires Sound() && IsSend(d) && n < |events| && events[n].id != ""
      ensures IdOf(d) == events[n].id <==> d.event == n
    {
      assert IsSend(Delivery(n, 0)) && IdOf(Delivery(n, 0)) == events[n].id;
    }

    lemma {:induction false} UnnamedStaysIn(stream: seq<Delivery>, n: nat)
      requires Delivers(stream) && n < |events| && TooLong(n) && events[n].id == ""
      ensures !ComesOut(stream, n)
    {
      if stream != [] {
        UnnamedStaysIn(stream[..|stream| - 1], n);
        if stream[|stream| - 1].event == n {
          UnnamedNeverOut(stream);
        }
      }
    }

    lemma {:induction false} ShortComesOut(stream: seq<Delivery>, n: nat)
      requires Delivers(stream) && n < |events| && !TooLong(n) && Delivery(n, 0) in stream
      ensures ComesOut(stream, n)
    {
      var last := |stream| - 1;
      if stream[last] == Delivery(n, 0) {
        OutIs(stream);
      } else {
        assert stream == stream[..last] + [stream[last]];
        ShortComesOut(stream[..last], n);
      }
    }

    /**
      Once all sends of an event have arrived, its payload has come out if and only if it has an id or fits one
      send.
     */
    lemma PayloadComesOutExactly(stream: seq<Delivery>, n: nat)
      requires Delivers(stream) && n < |events|
      requires forall i :: 0 <= i < Sends(events[n], limit) ==> Delivery(n, i) in stream
      ensures ComesOut(stream, n) <==> events[n].id != "" || !TooLong(n)
    {
      if !TooLong(n) {
        ShortComesOut(stream, n);
      } else if events[n].id == "" {
        UnnamedStaysIn(stream, n);
      } else {
        ComesOutWhenDelivered(stream, n);
        MessageOf(Delivery(n, 0));
        forall i | 0 <= i < |Messages()[events[n].id]| ensures Arrival(events[n].id, i) in Arrivals(stream) {
          ArrivesToo(stream, Delivery(n, i));
        }
        CompleteMeansDelivered(Messages(), Arrivals(stream), events[n].id);
      }
    }
  }

  // ---------------------------------------------------------------- one event, sent and received

  ghost function OneEvent(evt: CloudEvent, limit: nat, newIds: nat -> string): Outbox {
    Outbox([evt], limit, (n: nat, i: nat) => newIds(i))
  }

  /** The first k sends of the one event, in order. */
  ghost function InOrder(k: nat): (stream: seq<Delivery>)
    ensures |stream| == k && forall i :: 0 <= i < k ==> stream[i] == Delivery(0, i)
  {
    if k == 0 then [] else InOrder(k - 1) + [Delivery(0, k - 1)]
  }

  ghost predicate Fresh(evt: CloudEvent, newIds: nat -> string) {
    evt.chunkOffset == evt.chunkSize == None && forall i: nat, j: nat :: newIds(i) == newIds(j) ==> i == j
  }

  lemma OneEventSound(evt: CloudEvent, limit: nat, newIds: nat -> string, k: nat)
    requires limit > 0 && Fresh(evt, newIds) && k <= Sends(evt, limit)
    ensures OneEvent(evt, limit, newIds).Delivers(InOrder(k))
  {
  }

  lemma {:induction false} GatheredInOrder(evt: CloudEvent, limit: nat, newIds: nat -> string, k: nat)
    requires limit > 0 && Fresh(evt, newIds) && k < Sends(evt, limit)
    ensures OneEvent(evt, limit, newIds).Delivers(InOrder(k))
    ensures OneEvent(evt, limit, newIds).Gathered(InOrder(k), 0) == Indices(k)
  {
    OneEventSound(evt, limit, newIds, k);
    if k > 0 {
      GatheredInOrder(evt, limit, newIds, k - 1);
      assert k !in Indices(k) && k in Indices(Sends(evt, limit));
    }
  }

  /** What the consumer passes on with send k. */
  lemma OutInOrder(evt: CloudEvent, limit: nat, newIds: nat -> string, k: nat)
    requires limit > 0 && Fresh(evt, newIds) && k < Sends(evt, limit)
    ensures var box, stream := OneEvent(evt, limit, newIds), InOrder(k + 1);
            && box.Delivers(stream)
            && stream[..k] == InOrder(k)
            && box.Out(stream) == if k + 1 == Sends(evt, limit) && (evt.id != "" || |evt.data| <= limit)
                                  then Some(Wire(evt, limit, newIds(k), k).(data := evt.data)) else None
  {
    var box := OneEvent(evt, limit, newIds);
    OneEventSound(evt, limit, newIds, k + 1);
    box.DeliveryOutcome(InOrder(k + 1));
    GatheredInOrder(evt, limit, newIds, k);
    SplitIsWhole(evt.data, limit);
    assert Indices(k) + {k} == Indices(k + 1);
    assert k + 1 in Indices(Sends(evt, limit)) <==> k + 1 < Sends(evt, limit);
  }

  /**
    SendEvent and Receive put together, everything delivered in order: the consumer passes on the payload,
    once, if the event has an id or fits one send, and nothing at all otherwise.
   */
  method SendAndReceive(producer: GenericProducer, evt: CloudEvent, newIds: nat -> string)
    returns (out: seq<CloudEvent>)
    requires producer.messageSizeLimit > 0 && |evt.data| <= INT32_MAX && Fresh(evt, newIds)
    ensures if evt.id != "" || |evt.data| <= producer.messageSizeLimit
            then |out| == 1 && out[0].data == evt.data && (evt.id != "" ==> out[0].id == evt.id)
            else out == []
  {
    ghost var limit := producer.messageSizeLimit;
    ghost var box := OneEvent(evt, limit, newIds);
    var sent, ok := producer.SendEvent(evt, {}, newIds);
    var assembler := new MessageAssembler();
    out := [];
    OneEventSound(evt, limit, newIds, 0);
    for k := 0 to |sent|
      invariant assembler.Valid() && fresh(assembler) && fresh(assembler.chunkCollectionMap.Values)
      invariant box.Delivers(InOrder(k)) && assembler.Value() == box.After(InOrder(k))
      invariant if k == |sent| && (evt.id != "" || |evt.data| <= limit)
                then |out| == 1 && out[0].data == evt.data && (evt.id != "" ==> out[0].id == evt.id)
                else out == []
    {
      OutInOrder(evt, limit, newIds, k);
      var forwarded := assembler.Receive(sent[k]);
      if forwarded.Some? {
        out := out + [forwarded.value];
      }
    }
  }
}
