/** From the events of one stream, scattered over reads and other streams, to the request the server sees. */
module Reassembly {
  import opened Base
  import opened Messages
  import opened Requests
  import opened Demux

  // ----- Several reads

  /** The map after a list of reads, and the list of requests each of them returned. */
  datatype Batches = Batches(streams: Streams, requests: seq<seq<Req>>)

  function ReadAll(sign: CharSign, streams: Streams, batches: seq<seq<Event>>): Batches {
    if batches == [] then Batches(streams, [])
    else
      var before := ReadAll(sign, streams, batches[..|batches| - 1]);
      var last := Run(sign, before.streams, batches[|batches| - 1]);
      Batches(last.streams, before.requests + [last.requests])
  }

  /** The part of each read's list that belongs to stream `id`, latest read first. */
  function LatestFirst(lists: seq<seq<Req>>, id: int): seq<Req> {
    if lists == [] then []
    else RequestsOf(lists[|lists| - 1], id) + LatestFirst(lists[..|lists| - 1], id)
  }

  /** However the events are cut into reads, the map ends the same and each stream gets the same requests. */
  lemma {:induction false} ReadsAsOne(sign: CharSign, streams: Streams, batches: seq<seq<Event>>, id: int)
    requires WellKeyed(streams)
    ensures var many := ReadAll(sign, streams, batches);
            var one := Run(sign, streams, Concat(batches));
            && many.streams == one.streams && WellKeyed(many.streams)
            && LatestFirst(many.requests, id) == RequestsOf(one.requests, id)
  {
    if batches != [] {
      hide Run;
      var init, last := batches[..|batches| - 1], batches[|batches| - 1];
      ReadsAsOne(sign, streams, init, id);
      var before := ReadAll(sign, streams, init);
      var list := Run(sign, before.streams, last).requests;
      RunKeys(sign, before.streams, last);
      BatchIndependence(sign, streams, Concat(init), last);
      RequestsOfAdd(list, Run(sign, streams, Concat(init)).requests, id);
      assert (before.requests + [list])[..|before.requests|] == before.requests;
    }
  }

  lemma {:induction false} LatestFirstLength(lists: seq<seq<Req>>, id: int)
    ensures |LatestFirst(lists, id)| == |RequestsOf(Concat(lists), id)|
    ensures |LatestFirst(lists, id)| == 1 ==> LatestFirst(lists, id) == RequestsOf(Concat(lists), id)
  {
    if lists != [] {
      LatestFirstLength(lists[..|lists| - 1], id);
      RequestsOfAdd(Concat(lists[..|lists| - 1]), lists[|lists| - 1], id);
    }
  }

  // ----- One stream's request

  /** What a stream can send before it ends: headers and body data, in any order. */
  predicate IsBody(id: int, events: seq<Event>) {
    forall i :: 0 <= i < |events| ==>
      events[i].id == id && (events[i].HeaderField? || events[i].Data? || events[i].Noop?)
  }

  function HeadersIn(events: seq<Event>): seq<Header> {
    if events == [] then []
    else
      var init, last := HeadersIn(events[..|events| - 1]), events[|events| - 1];
      if last.HeaderField? then init + [last.header] else init
  }

  function ChunksIn(events: seq<Event>): seq<seq<byte>> {
    if events == [] then []
    else
      var init, last := ChunksIn(events[..|events| - 1]), events[|events| - 1];
      if last.Data? then init + [last.bytes] else init
  }

  function CloseEvents(id: int, n: nat): seq<Event> {
    seq(n, i => Close(id))
  }

  /** What a stream sends, its end, and the closing of the stream reported any number of times. */
  function RequestEvents(id: int, body: seq<Event>, closes: nat): seq<Event> {
    body + [End(id)] + CloseEvents(id, closes)
  }

  /** The request a stream has become after `events`. */
  function Made(sign: CharSign, id: int, events: seq<Event>): Req {
    if events == [] then NewReq(id)
    else
      var r := Made(sign, id, events[..|events| - 1]);
      match events[|events| - 1]
      case HeaderField(_, h) => ApplyHeader(r, h)
      case Data(_, bytes) => ApplyData(sign, r, bytes)
      case _ => r
  }

  /** The request made by all the headers and then all the data. */
  function Built(sign: CharSign, id: int, hs: seq<Header>, chunks: seq<seq<byte>>): Req {
    ApplyChunks(sign, ApplyHeaders(NewReq(id), hs), chunks)
  }

  lemma {:induction false} RunBody(sign: CharSign, id: int, events: seq<Event>)
    requires id > 0 && IsBody(id, events)
    ensures var o := Run(sign, map[], events);
            o.requests == [] && o.streams.Keys <= {id} && Entry(o.streams, id) == Made(sign, id, events)
  {
    hide ApplyHeader, ApplyData;
    if events != [] {
      RunBody(sign, id, events[..|events| - 1]);
    }
  }

  lemma {:induction false} RunCloses(sign: CharSign, id: int, n: nat)
    requires id > 0
    ensures Run(sign, map[], CloseEvents(id, n)) == Outcome(map[], [])
  {
    if n > 0 {
      RunCloses(sign, id, n - 1);
      assert CloseEvents(id, n)[..n - 1] == CloseEvents(id, n - 1);
    }
  }

  lemma RunEnd(sign: CharSign, id: int, streams: Streams)
    requires id > 0 && streams.Keys <= {id}
    ensures Run(sign, streams, [End(id)]) == Outcome(map[], [Entry(streams, id)])
  {
    assert [End(id)][..0] == [];
    assert Run(sign, streams, []) == Outcome(streams, []);
    assert streams - {id} == map[];
  }

  /** Alone, the events of a stream give one request and leave nothing behind. */
  lemma RunRequest(sign: CharSign, id: int, body: seq<Event>, closes: nat)
    requires id > 0 && IsBody(id, body)
    ensures Run(sign, map[], RequestEvents(id, body, closes)) == Outcome(map[], [Made(sign, id, body)])
  {
    hide Run, Made, CloseEvents;
    RunBody(sign, id, body);
    RunEnd(sign, id, Run(sign, map[], body).streams);
    BatchIndependence(sign, map[], body, [End(id)]);
    RunCloses(sign, id, closes);
    BatchIndependence(sign, map[], body + [End(id)], CloseEvents(id, closes));
  }

  // ----- The order of headers and data

  /** The same request, or two that are both invalid. */
  predicate Alike(a: Req, b: Req) {
    a.id == b.id && IsInvalid(a) == IsInvalid(b) && (!IsInvalid(a) ==> a == b)
  }

  lemma HeaderPastChunk(sign: CharSign, r: Req, h: Header, chunk: seq<byte>)
    ensures Alike(ApplyData(sign, ApplyHeader(r, h), chunk), ApplyHeader(ApplyData(sign, r, chunk), h))
  {
    hide Feed, ApplyHeader;
    var m := Feed(sign, r.msg, chunk);
    HeaderIgnoresBody(r, h, if m.Some? then m.value else r.msg);
    if IsInvalid(r) || m.None? {
      HeaderKeepsInvalid(ApplyData(sign, r, chunk), h);
    }
  }

  lemma HeaderIgnoresBody(r: Req, h: Header, m: Msg)
    ensures ApplyHeader(r.(msg := m), h) == ApplyHeader(r, h).(msg := m)
    ensures ApplyHeader(r, h).msg == r.msg && ApplyHeader(r, h).id == r.id
    ensures IsInvalid(r) ==> IsInvalid(ApplyHeader(r, h))
  {
  }

  lemma HeaderKeepsInvalid(r: Req, h: Header)
    requires IsInvalid(r)
    ensures ApplyHeader(r, h) == r
  {
  }

  lemma AlikeSteps(sign: CharSign, a: Req, b: Req, h: Header, chunk: seq<byte>)
    requires Alike(a, b)
    ensures Alike(ApplyHeader(a, h), ApplyHeader(b, h)) && Alike(ApplyData(sign, a, chunk), ApplyData(sign, b, chunk))
  {
    hide Feed, ApplyPath;
  }

  lemma {:induction false} HeaderPastChunks(sign: CharSign, r: Req, h: Header, chunks: seq<seq<byte>>)
    ensures Alike(ApplyChunks(sign, ApplyHeader(r, h), chunks), ApplyHeader(ApplyChunks(sign, r, chunks), h))
  {
    hide ApplyHeader, ApplyData;
    if chunks != [] {
      var init, last := chunks[..|chunks| - 1], chunks[|chunks| - 1];
      HeaderPastChunks(sign, r, h, init);
      var before := ApplyChunks(sign, r, init);
      AlikeSteps(sign, ApplyChunks(sign, ApplyHeader(r, h), init), ApplyHeader(before, h), h, last);
      HeaderPastChunk(sign, before, h, last);
    }
  }

  lemma BuiltHeader(sign: CharSign, id: int, hs: seq<Header>, h: Header, chunks: seq<seq<byte>>)
    ensures Alike(Built(sign, id, hs + [h], chunks), ApplyHeader(Built(sign, id, hs, chunks), h))
  {
    hide ApplyHeader, ApplyChunks, Alike;
    assert (hs + [h])[..|hs|] == hs;
    HeaderPastChunks(sign, ApplyHeaders(NewReq(id), hs), h, chunks);
  }

  lemma BuiltChunk(sign: CharSign, id: int, hs: seq<Header>, chunks: seq<seq<byte>>, chunk: seq<byte>)
    ensures Built(sign, id, hs, chunks + [chunk]) == ApplyData(sign, Built(sign, id, hs, chunks), chunk)
  {
    hide ApplyHeaders, ApplyData;
    assert (chunks + [chunk])[..|chunks|] == chunks;
  }

  /** Headers may come before, between or after the data: the request is the same. */
  lemma {:induction false} MadeIsBuilt(sign: CharSign, id: int, body: seq<Event>)
    requires IsBody(id, body)
    ensures Alike(Made(sign, id, body), Built(sign, id, HeadersIn(body), ChunksIn(body)))
  {
    hide ApplyHeader, ApplyData, Built, Alike;
    if body == [] {
      NothingBuilt(sign, id);
    } else {
      var init, last := body[..|body| - 1], body[|body| - 1];
      MadeIsBuilt(sign, id, init);
      var hs, chunks := HeadersIn(init), ChunksIn(init);
      var a, b := Made(sign, id, init), Built(sign, id, hs, chunks);
      match last
      case HeaderField(_, h) =>
        AlikeSteps(sign, a, b, h, []);
        BuiltHeader(sign, id, hs, h, chunks);
        AlikeTwice(ApplyHeader(a, h), ApplyHeader(b, h), Built(sign, id, hs + [h], chunks));
      case Data(_, bytes) =>
        AlikeSteps(sign, a, b, Header("", ""), bytes);
        BuiltChunk(sign, id, hs, chunks, bytes);
      case _ =>
    }
  }

  lemma NothingBuilt(sign: CharSign, id: int)
    ensures Alike(NewReq(id), Built(sign, id, [], []))
  {
  }

  lemma AlikeTwice(a: Req, b: Req, c: Req)
    requires Alike(a, b) && Alike(c, b)
    ensures Alike(a, c)
  {
  }

  // ----- End to end

  /** The headers of a request for `rpc` of `service`: none of them bad, the last `:path` naming both. */
  ghost predicate CallHeaders(hs: seq<Header>, service: string, rpc: string) {
    !SomeBad(hs) && exists k: nat :: LastPathAt(hs, k) && PathNames(hs[k].value, service, rpc)
  }

  /** A request and the payload it carries, as the server base will see them. */
  ghost predicate Carries(r: Req, id: int, hs: seq<Header>, service: string, rpc: string, payload: seq<byte>) {
    && !IsInvalid(r) && r.id == id
    && r.service == service && r.rpc == rpc && MsgData(r.msg) == payload
    && MetadataRecorded(r.metadata, hs)
  }

  lemma BuiltRequest(
    sign: CharSign, id: int, hs: seq<Header>, chunks: seq<seq<byte>>, service: string, rpc: string, payload: seq<byte>)
    requires CallHeaders(hs, service, rpc)
    requires forall i :: 0 <= i < |chunks| ==> chunks[i] != []
    requires Concat(chunks) == Encode(payload)
    ensures var r := Built(sign, id, hs, chunks);
            && (Carries(r, id, hs, service, rpc, payload) <==> LengthDecodes(sign, |payload|) && CutAtPrefix(chunks))
            && (Carries(r, id, hs, service, rpc, payload) <==> !IsInvalid(r) && MsgData(r.msg) == payload)
  {
    hide ApplyChunks, ApplyHeaders, FeedAll, LengthDecodes, Encode, CutAtPrefix, MetadataRecorded;
    HeaderVerdict(id, hs);
    var r0 := ApplyHeaders(NewReq(id), hs);
    var k: nat :| LastPathAt(hs, k) && PathNames(hs[k].value, service, rpc);
    PathUnique(hs[k].value, service, rpc, r0.service, r0.rpc);
    var n := BodyVerdict(sign, r0, chunks);
    ChunkedFraming(sign, payload, chunks);
    assert chunks[..|chunks|] == chunks;
    if n < |chunks| {
      RejectedForGood(sign, chunks, n);
    }
  }

  /** The request is one `process` will dispatch: every header good, a path naming a service, the body accepted. */
  ghost predicate Dispatchable(sign: CharSign, hs: seq<Header>, chunks: seq<seq<byte>>, service: string) {
    && service != "" && FeedAll(sign, FRESH, chunks).Some?
    && exists rpc :: CallHeaders(hs, service, rpc)
  }

  lemma BuiltReady(sign: CharSign, id: int, hs: seq<Header>, chunks: seq<seq<byte>>)
    ensures var r := Built(sign, id, hs, chunks);
            && r.id == id
            && (IsReady(r) ==> Dispatchable(sign, hs, chunks, r.service))
            && (forall service :: Dispatchable(sign, hs, chunks, service) ==> IsReady(r) && r.service == service)
            && (forall service, rpc :: Dispatchable(sign, hs, chunks, service) && CallHeaders(hs, service, rpc) ==>
                  && r.rpc == rpc && r.msg == FeedAll(sign, FRESH, chunks).value
                  && MetadataRecorded(r.metadata, hs))
  {
    hide ApplyChunks, ApplyHeaders, FeedAll, MetadataRecorded, SomeBad;
    HeaderVerdict(id, hs);
    var r0 := ApplyHeaders(NewReq(id), hs);
    if IsInvalid(r0) {
      InvalidForGood(sign, r0, [], chunks);
      return;
    }
    var r := Built(sign, id, hs, chunks);
    var n := BodyVerdict(sign, r0, chunks);
    assert chunks[..|chunks|] == chunks;
    if n < |chunks| {
      RejectedForGood(sign, chunks, n);
    }
    if r0.service != "" {
      var k := FindLastPath(hs);
      assert CallHeaders(hs, r0.service, r0.rpc);
    }
    forall service | Dispatchable(sign, hs, chunks, service)
      ensures IsReady(r) && r.service == service
    {
      var rpc :| CallHeaders(hs, service, rpc);
      var k: nat :| LastPathAt(hs, k) && PathNames(hs[k].value, service, rpc);
      PathUnique(hs[k].value, service, rpc, r0.service, r0.rpc);
    }
    forall service, rpc | Dispatchable(sign, hs, chunks, service) && CallHeaders(hs, service, rpc)
      ensures r.rpc == rpc && r.msg == FeedAll(sign, FRESH, chunks).value && MetadataRecorded(r.metadata, hs)
    {
      var k: nat :| LastPathAt(hs, k) && PathNames(hs[k].value, service, rpc);
      PathUnique(hs[k].value, service, rpc, r0.service, r0.rpc);
    }
  }

  lemma {:induction false} FindLastPath(hs: seq<Header>) returns (k: nat)
    requires exists j :: 0 <= j < |hs| && hs[j].name == ":path"
    ensures LastPathAt(hs, k)
  {
    k := |hs| - 1;
    if hs[k].name != ":path" {
      var init := hs[..k];
      assert forall j :: 0 <= j < k ==> init[j] == hs[j];
      k := FindLastPath(init);
    }
  }

  /** A chunk list that is rejected part of the way is rejected. */
  lemma {:induction false} RejectedForGood(sign: CharSign, chunks: seq<seq<byte>>, n: nat)
    requires n < |chunks|
    requires FeedAll(sign, FRESH, chunks[..n]).Some? && Full(FeedAll(sign, FRESH, chunks[..n]).value)
    ensures FeedAll(sign, FRESH, chunks).None?
  {
    hide DecodeLength;
    var init := chunks[..|chunks| - 1];
    if n < |init| {
      assert init[..n] == chunks[..n];
      RejectedForGood(sign, init, n);
    } else {
      assert Feed(sign, FeedAll(sign, FRESH, init).value, chunks[|chunks| - 1]).None?;
    }
  }

  /** However they arrive, the events of a stream make exactly one request: the one they make alone. */
  lemma StreamMakesOneRequest(
    sign: CharSign, streams: Streams, batches: seq<seq<Event>>, id: int, body: seq<Event>, closes: nat)
    requires WellKeyed(streams) && id > 0 && id !in streams && IsBody(id, body)
    requires Only(Concat(batches), id) == RequestEvents(id, body, closes)
    ensures var result := ReadAll(sign, streams, batches);
            && RequestsOf(Concat(result.requests), id) == [Made(sign, id, body)]
            && Alike(Made(sign, id, body), Built(sign, id, HeadersIn(body), ChunksIn(body)))
            && id !in result.streams
  {
    hide Run, ReadAll, Only, LatestFirst, RequestsOf, Made, IsBody;
    var result := ReadAll(sign, streams, batches);
    ReadsAsOne(sign, streams, batches, id);
    NonInterference(sign, streams, Concat(batches), id);
    RunRequest(sign, id, body, closes);
    LatestFirstLength(result.requests, id);
    assert id !in Single(result.streams, id);
    MadeIsBuilt(sign, id, body);
  }

  /**
   * A call whose events arrive on stream `id`, interleaved in any way with other streams and split over
   * any number of reads, reaches the server exactly once. It carries its service, method, payload and
   * metadata if and only if the length survives the codec and the pieces are cut as the reader needs.
   */
  lemma EndToEnd(
    sign: CharSign, streams: Streams, batches: seq<seq<Event>>, id: int, body: seq<Event>, closes: nat,
    service: string, rpc: string, payload: seq<byte>)
    requires WellKeyed(streams) && id > 0 && id !in streams && IsBody(id, body)
    requires Only(Concat(batches), id) == RequestEvents(id, body, closes)
    requires CallHeaders(HeadersIn(body), service, rpc)
    requires var chunks := ChunksIn(body);
             (forall i :: 0 <= i < |chunks| ==> chunks[i] != []) && Concat(chunks) == Encode(payload)
    ensures var result := ReadAll(sign, streams, batches);
            var mine := RequestsOf(Concat(result.requests), id);
            && |mine| == 1 && id !in result.streams
            && (Carries(mine[0], id, HeadersIn(body), service, rpc, payload) <==>
                LengthDecodes(sign, |payload|) && CutAtPrefix(ChunksIn(body)))
  {
    hide ReadAll, Only, RequestsOf, Built, LengthDecodes, CutAtPrefix, Encode, CallHeaders, MetadataRecorded, Made,
      IsBody;
    StreamMakesOneRequest(sign, streams, batches, id, body, closes);
    BuiltRequest(sign, id, HeadersIn(body), ChunksIn(body), service, rpc, payload);
  }
}
