/** lib/grpcxx/uv/conn.cpp, `conn::read`: one HTTP/2 event stream folded into per-stream requests. */
module Demux {
  import opened Base
  import opened Messages
  import opened Requests

  datatype Event =
    | Noop(id: int)
    | Close(id: int)
    | Data(id: int, bytes: seq<byte>)
    | End(id: int)
    | HeaderField(id: int, header: Header)

  type Streams = map<int, Req>

  /** `requests` is in list order: `push_front` puts the latest one first. */
  datatype Outcome = Outcome(streams: Streams, requests: seq<Req>)

  /** The entry `emplace` leaves for stream `id`. */
  function Entry(streams: Streams, id: int): Req {
    if id in streams then streams[id] else NewReq(id)
  }

  function Step(sign: CharSign, streams: Streams, ev: Event): Outcome {
    if ev.id <= 0 then Outcome(streams, [])
    else
      var req := Entry(streams, ev.id);
      match ev
      case Close(id) => Outcome(streams - {id}, [])
      case Data(id, bytes) => Outcome(streams[id := ApplyData(sign, req, bytes)], [])
      case End(id) => Outcome(streams - {id}, [req])
      case HeaderField(id, header) => Outcome(streams[id := ApplyHeader(req, header)], [])
      case Noop(id) => Outcome(streams[id := req], [])
  }

  function Run(sign: CharSign, streams: Streams, events: seq<Event>): Outcome {
    if events == [] then Outcome(streams, [])
    else
      var before := Run(sign, streams, events[..|events| - 1]);
      var last := Step(sign, before.streams, events[|events| - 1]);
      Outcome(last.streams, last.requests + before.requests)
  }

  // ----- What every run keeps

  /** Each entry belongs to the stream it is filed under. */
  ghost predicate WellKeyed(streams: Streams) {
    forall id :: id in streams ==> id > 0 && streams[id].id == id
  }

  lemma ApplyKeepsId(sign: CharSign, r: Req, h: Header, chunk: seq<byte>)
    ensures ApplyHeader(r, h).id == r.id && ApplyData(sign, r, chunk).id == r.id
  {
    hide DecodeLength;
  }

  lemma StepKeys(sign: CharSign, streams: Streams, ev: Event)
    requires WellKeyed(streams)
    ensures var o := Step(sign, streams, ev);
            WellKeyed(o.streams) && forall r :: r in o.requests ==> r.id == ev.id > 0
  {
    hide ApplyHeader, ApplyData;
    match ev
    case Data(id, bytes) => ApplyKeepsId(sign, Entry(streams, id), Header("", ""), bytes);
    case HeaderField(id, header) => ApplyKeepsId(sign, Entry(streams, id), header, []);
    case _ =>
  }

  lemma {:induction false} RunKeys(sign: CharSign, streams: Streams, events: seq<Event>)
    requires WellKeyed(streams)
    ensures WellKeyed(Run(sign, streams, events).streams)
  {
    hide Step;
    if events != [] {
      RunKeys(sign, streams, events[..|events| - 1]);
      StepKeys(sign, Run(sign, streams, events[..|events| - 1]).streams, events[|events| - 1]);
    }
  }

  // ----- Batching

  /** Reading two batches is reading them as one, with the later batch's requests in front. */
  lemma {:induction false} BatchIndependence(sign: CharSign, streams: Streams, e1: seq<Event>, e2: seq<Event>)
    ensures var first := Run(sign, streams, e1);
            var second := Run(sign, first.streams, e2);
            Run(sign, streams, e1 + e2) == Outcome(second.streams, second.requests + first.requests)
    decreases |e2|
  {
    hide Step;
    if e2 == [] {
      assert e1 + e2 == e1;
    } else {
      var init, last := e2[..|e2| - 1], e2[|e2| - 1];
      assert (e1 + e2)[..|e1 + e2| - 1] == e1 + init;
      assert (e1 + e2)[|e1 + e2| - 1] == last;
      BatchIndependence(sign, streams, e1, init);
      var first := Run(sign, streams, e1);
      var middle := Run(sign, first.streams, init);
      var step := Step(sign, middle.streams, last);
      assert step.requests + (middle.requests + first.requests) == (step.requests + middle.requests) + first.requests;
    }
  }

  // ----- Streams do not interfere

  function Only(events: seq<Event>, id: int): seq<Event> {
    if events == [] then []
    else
      var init, last := Only(events[..|events| - 1], id), events[|events| - 1];
      if last.id == id then init + [last] else init
  }

  function Single(streams: Streams, id: int): Streams {
    if id in streams then map[id := streams[id]] else map[]
  }

  function RequestsOf(requests: seq<Req>, id: int): seq<Req> {
    if requests == [] then []
    else (if requests[0].id == id then [requests[0]] else []) + RequestsOf(requests[1..], id)
  }

  lemma {:induction false} RequestsOfAdd(a: seq<Req>, b: seq<Req>, id: int)
    ensures RequestsOf(a + b, id) == RequestsOf(a, id) + RequestsOf(b, id)
  {
    if a == [] {
      assert a + b == b;
    } else {
      var head := if a[0].id == id then [a[0]] else [];
      assert (a + b)[0] == a[0] && (a + b)[1..] == a[1..] + b;
      RequestsOfAdd(a[1..], b, id);
      assert head + (RequestsOf(a[1..], id) + RequestsOf(b, id)) == (head + RequestsOf(a[1..], id)) + RequestsOf(b, id);
    }
  }

  lemma {:induction false} OnlyAdd(a: seq<Event>, b: seq<Event>, id: int)
    ensures Only(a + b, id) == Only(a, id) + Only(b, id)
    decreases |b|
  {
    if b == [] {
      assert a + b == a;
    } else {
      assert (a + b)[..|a + b| - 1] == a + b[..|b| - 1];
      OnlyAdd(a, b[..|b| - 1], id);
    }
  }

  /** An event touches its own stream and no other, and acts on it alone. */
  lemma StepLocal(sign: CharSign, streams: Streams, ev: Event, id: int)
    requires WellKeyed(streams)
    ensures var o := Step(sign, streams, ev);
            if ev.id == id
            then Step(sign, Single(streams, id), ev) == Outcome(Single(o.streams, id), RequestsOf(o.requests, id))
            else Single(o.streams, id) == Single(streams, id) && RequestsOf(o.requests, id) == []
  {
    hide ApplyHeader, ApplyData;
    StepKeys(sign, streams, ev);
    var o := Step(sign, streams, ev);
    assert Entry(Single(streams, ev.id), ev.id) == Entry(streams, ev.id);
    if ev.id == id && ev.id > 0 {
      assert Single(streams, id) - {id} == map[];
      if ev.End? {
        assert o.requests == [Entry(streams, id)];
        assert o.requests[1..] == [];
      }
    } else if o.requests != [] {
      assert o.requests[1..] == [];
    }
  }

  /** What a stream gets out of a run is what its own events give it when run alone. */
  lemma {:induction false} NonInterference(sign: CharSign, streams: Streams, events: seq<Event>, id: int)
    requires WellKeyed(streams)
    ensures var all := Run(sign, streams, events);
            Run(sign, Single(streams, id), Only(events, id)) ==
            Outcome(Single(all.streams, id), RequestsOf(all.requests, id))
  {
    hide Step, Single;
    if events != [] {
      var init, last := events[..|events| - 1], events[|events| - 1];
      NonInterference(sign, streams, init, id);
      RunKeys(sign, streams, init);
      var before := Run(sign, streams, init);
      StepLocal(sign, before.streams, last, id);
      var step := Step(sign, before.streams, last);
      RequestsOfAdd(step.requests, before.requests, id);
      if last.id == id {
        assert Only(events, id)[..|Only(events, id)| - 1] == Only(init, id);
      }
    }
  }

  /** Two interleavings of the same per-stream events end in the same map and the same requests per stream. */
  lemma InterleavingIrrelevant(sign: CharSign, streams: Streams, e1: seq<Event>, e2: seq<Event>)
    requires WellKeyed(streams)
    requires forall id :: Only(e1, id) == Only(e2, id)
    ensures Run(sign, streams, e1).streams == Run(sign, streams, e2).streams
    ensures forall id ::
              RequestsOf(Run(sign, streams, e1).requests, id) == RequestsOf(Run(sign, streams, e2).requests, id)
  {
    hide Run;
    var o1, o2 := Run(sign, streams, e1), Run(sign, streams, e2);
    forall id
      ensures Single(o1.streams, id) == Single(o2.streams, id)
      ensures RequestsOf(o1.requests, id) == RequestsOf(o2.requests, id)
    {
      NonInterference(sign, streams, e1, id);
      NonInterference(sign, streams, e2, id);
    }
    forall id
      ensures id in o1.streams <==> id in o2.streams
      ensures id in o1.streams ==> o1.streams[id] == o2.streams[id]
    {
      assert Single(o1.streams, id) == Single(o2.streams, id);
      assert id in o1.streams <==> id in Single(o1.streams, id);
      assert id in o2.streams <==> id in Single(o2.streams, id);
      if id in o1.streams {
        assert Single(o1.streams, id)[id] == Single(o2.streams, id)[id];
      }
    }
  }

  // ----- Which streams have an entry

  /** Whether stream `id` has an entry after some events: it has been heard of, and not been ended or closed since. */
  ghost predicate Heard(streams: Streams, events: seq<Event>, id: int) {
    var mine := Only(events, id);
    if mine == [] then id in streams else !mine[|mine| - 1].End? && !mine[|mine| - 1].Close?
  }

  /** The map has an entry for exactly the streams whose last event neither ends nor closes them. */
  lemma {:induction false} KeysExact(sign: CharSign, streams: Streams, events: seq<Event>, id: int)
    requires id > 0
    ensures id in Run(sign, streams, events).streams <==> Heard(streams, events, id)
  {
    hide ApplyHeader, ApplyData;
    if events != [] {
      KeysExact(sign, streams, events[..|events| - 1], id);
    }
  }

  /** An event makes or removes the entry of its own stream at most. */
  lemma StepEntries(sign: CharSign, streams: Streams, ev: Event)
    ensures var after := Step(sign, streams, ev).streams;
            && (ev.id > 0 ==> (ev.id in after <==> !ev.End? && !ev.Close?))
            && after.Keys - {ev.id} == streams.Keys - {ev.id} && (ev.id <= 0 ==> after == streams)
  {
    hide ApplyHeader, ApplyData;
  }

  /** What a stream that was opened and then closed leaves behind: nothing. */
  lemma CloseForgets(sign: CharSign, streams: Streams, events: seq<Event>, id: int)
    requires id > 0
    ensures id !in Run(sign, streams, events + [Close(id)]).streams
  {
    hide Run;
    var all := events + [Close(id)];
    assert all[..|events|] == events;
    assert Only(all, id) == Only(events, id) + [Close(id)];
    KeysExact(sign, streams, all, id);
  }

  // ----- One request per ended stream

  /** The streams that end, in event order. */
  function EndedIds(events: seq<Event>): seq<int> {
    if events == [] then []
    else
      var init, last := EndedIds(events[..|events| - 1]), events[|events| - 1];
      if last.End? && last.id > 0 then init + [last.id] else init
  }

  function RequestIds(requests: seq<Req>): (ids: seq<int>)
    ensures |ids| == |requests|
    ensures forall i :: 0 <= i < |ids| ==> ids[i] == requests[i].id
  {
    if requests == [] then [] else [requests[0].id] + RequestIds(requests[1..])
  }

  lemma StepEmits(sign: CharSign, streams: Streams, ev: Event)
    ensures Step(sign, streams, ev).requests ==
            if ev.End? && ev.id > 0 then [Entry(streams, ev.id)] else []
  {
  }

  /** Every end event on a real stream gives one request, and nothing else does. */
  lemma {:induction false} OneRequestPerEnd(sign: CharSign, streams: Streams, events: seq<Event>)
    requires WellKeyed(streams)
    ensures RequestIds(Run(sign, streams, events).requests) == Reverse(EndedIds(events))
  {
    hide Step;
    if events != [] {
      var init, last := events[..|events| - 1], events[|events| - 1];
      OneRequestPerEnd(sign, streams, init);
      RunKeys(sign, streams, init);
      var before := Run(sign, streams, init);
      StepEmits(sign, before.streams, last);
      if last.End? && last.id > 0 {
        ReverseAdd(EndedIds(init), [last.id]);
        assert Reverse([last.id]) == [last.id];
      }
    }
  }

  // ----- Stream 0

  /** The bit that means END_STREAM on DATA and HEADERS and ACK on SETTINGS and PING. */
  const END_STREAM: nat := 0x1

  /** `frame_recv_cb`: the events a received frame adds. */
  function FrameEvents(flags: nat, id: int): seq<Event> {
    if flags % 2 == END_STREAM then [End(id)] else []
  }

  /** A frame ends its stream exactly if the lowest bit of its flags is set. */
  lemma FrameEnds(flags: nat, id: int)
    ensures FrameEvents(flags, id) == if flags % 2 == 1 then [End(id)] else []
  {
  }

  lemma SilentEvents(sign: CharSign, streams: Streams, events: seq<Event>)
    requires forall i :: 0 <= i < |events| ==> events[i].id <= 0
    ensures Run(sign, streams, events) == Outcome(streams, [])
  {
  }

  /** A SETTINGS or PING acknowledgement, which is always on stream 0, leaves no trace wherever it arrives. */
  lemma AcknowledgementsAreSilent(sign: CharSign, streams: Streams, e1: seq<Event>, flags: nat, e2: seq<Event>)
    ensures Run(sign, streams, e1 + FrameEvents(flags, 0) + e2) == Run(sign, streams, e1 + e2)
  {
    var ack := FrameEvents(flags, 0);
    BatchIndependence(sign, streams, e1 + ack, e2);
    BatchIndependence(sign, streams, e1, ack);
    BatchIndependence(sign, streams, e1, e2);
    var s1 := Run(sign, streams, e1).streams;
    SilentEvents(sign, s1, ack);
    assert [] + Run(sign, streams, e1).requests == Run(sign, streams, e1).requests;
  }
}
