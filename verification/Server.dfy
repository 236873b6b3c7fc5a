/**
 * lib/grpcxx/server_base.cpp and the job of `server::conn`: read, process, write.
 *
 * nghttp2's receiving half is a function from its state and the bytes received to the events its
 * callbacks emit, the control frames it wants sent, and whether it reported an error.
 */
module Server {
  import opened Base
  import opened Messages
  import opened Requests
  import opened Demux
  import opened Reassembly
  import opened Outbound
  import Pool

  // ----- Dispatch

  datatype Status = Status(code: nat, details: string)

  const INVALID_ARGUMENT := Status(3, "")
  const NOT_FOUND := Status(5, "")
  const INTERNAL := Status(13, "")

  /** What a registered service does with a call; `Threw` is a `std::exception`. */
  datatype Reply = Returned(status: Status, data: seq<byte>) | Threw

  /** Metadata, method and payload to reply. */
  type Handler = (map<string, string>, string, seq<byte>) -> Reply

  datatype Resp = Resp(id: int, status: Status, msg: Msg)

  function Process(services: map<string, Handler>, r: Req): (resp: Resp)
    ensures resp.id == r.id
  {
    if !IsReady(r) then Resp(r.id, INVALID_ARGUMENT, FRESH)
    else if r.service !in services then Resp(r.id, NOT_FOUND, FRESH)
    else
      match services[r.service](r.metadata, r.rpc, MsgData(r.msg))
      case Returned(status, data) => Resp(r.id, status, FromPayload(data))
      case Threw => Resp(r.id, INTERNAL, FRESH)
  }

  /** `std::to_string` of a status code. */
  function Decimal(n: nat): (s: string)
    ensures s != ""
  {
    if n < 10 then [DIGITS[n]] else Decimal(n / 10) + [DIGITS[n % 10]]
  }

  const DIGITS := "0123456789"

  function Digit(c: char): nat {
    if '0' <= c <= '9' then c as int - '0' as int else 0
  }

  /** The number a text of decimal digits stands for. */
  function ReadDecimal(s: string): nat {
    if s == "" then 0 else 10 * ReadDecimal(s[..|s| - 1]) + Digit(s[|s| - 1])
  }

  /** A status code is written in decimal digits, without leading zeros, and reads back as itself. */
  lemma {:induction false} DecimalReadsBack(n: nat)
    ensures ReadDecimal(Decimal(n)) == n
    ensures forall i :: 0 <= i < |Decimal(n)| ==> '0' <= Decimal(n)[i] <= '9'
    ensures if n == 0 then Decimal(n) == "0" else Decimal(n)[0] != '0'
  {
    if n < 10 {
      DigitText(n);
      assert [DIGITS[n]][..0] == "";
    } else {
      DecimalReadsBack(n / 10);
      DigitText(n % 10);
      assert Decimal(n)[..|Decimal(n)| - 1] == Decimal(n / 10);
    }
  }

  lemma DigitText(d: nat)
    requires d < 10
    ensures '0' <= DIGITS[d] <= '9' && Digit(DIGITS[d]) == d && (d > 0 ==> DIGITS[d] != '0')
  {
  }

  /** The codes of the answers that `process` gives itself. */
  lemma RefusalTexts()
    ensures Decimal(3) == "3" && Decimal(5) == "5" && Decimal(13) == "13"
  {
  }

  // ----- Events as the session holds them

  /**
   * An event in `_events`. The data of a data event is a view, from `start` to `end`, of the buffer the
   * bytes were read into; headers are copies.
   */
  datatype Raw = Span(id: int, start: nat, end: nat) | Whole(event: Event)

  function Slice(buf: seq<byte>, start: nat, end: nat): seq<byte> {
    if start <= end <= |buf| then buf[start..end] else []
  }

  /** What an event shows to whoever looks at it while the buffer holds `buf`. */
  function Shown(raw: Raw, buf: seq<byte>): Event {
    match raw
    case Span(id, start, end) => Data(id, Slice(buf, start, end))
    case Whole(event) => event
  }

  function Resolve(raws: seq<Raw>, buf: seq<byte>): (events: seq<Event>)
    ensures |events| == |raws|
    ensures forall i :: 0 <= i < |events| ==> events[i] == Shown(raws[i], buf)
  {
    seq(|raws|, i requires 0 <= i < |raws| => Shown(raws[i], buf))
  }

  /** A view of a part of the chunk just read shows that part of it. */
  lemma ShownIsChunk(lent: Pool.Lent, id: int, start: nat, end: nat)
    requires start <= end <= lent.size <= |lent.buf|
    ensures Shown(Span(id, start, end), lent.buf) == Data(id, Pool.Chunk(lent)[start..end])
  {
  }

  lemma ResolveAdd(a: seq<Raw>, b: seq<Raw>, buf: seq<byte>)
    ensures Resolve(a + b, buf) == Resolve(a, buf) + Resolve(b, buf)
  {
    hide Shown;
  }

  // ----- One connection's server

  datatype Recv<H> = Recv(h: H, raws: seq<Raw>, control: seq<seq<byte>>, ok: bool)

  datatype Env<!H> = Env(
    sign: CharSign,
    h2: H,
    settings: seq<byte>,
    recv: (H, seq<byte>) -> Recv<H>,
    services: map<string, Handler>)

  /** A response as written, and the rooms from the first attempt to send its body on. */
  datatype Posted = Posted(resp: Resp, rooms: Rooms)

  /**
   * `raws` are the events emitted and not yet returned by `session::read`: those it left in place when it
   * threw, and those emitted while sending. `batches` and `posted` are histories: the events of each
   * completed read as the connection saw them, and the responses written.
   */
  datatype Core<H> = Core(
    h: H,
    raws: seq<Raw>,
    streams: Streams,
    out: Out,
    batches: seq<seq<Event>>,
    posted: seq<Posted>)

  function Controls(control: seq<seq<byte>>): seq<Frame> {
    seq(|control|, i requires 0 <= i < |control| => Control(control[i]))
  }

  /** What writing responses comes to; `died` tells that one was for a closed stream, which ends the process. */
  datatype Written = Written(out: Out, frames: seq<Frame>, posted: seq<Posted>, died: bool)

  function WriteOne(out: Out, resp: Resp): Sent {
    WriteResponse(out, resp.id, MsgBytes(resp.msg), Decimal(resp.status.code), resp.status.details)
  }

  /**
   * `for (auto &req : ...) c.write(process(req))`. For a closed stream `session::data` throws, and
   * `conn::write` is `noexcept`.
   */
  function WriteAll(services: map<string, Handler>, out: Out, requests: seq<Req>): Written {
    if requests == [] then Written(out, [], [], false)
    else
      var before := WriteAll(services, out, requests[..|requests| - 1]);
      var resp := Process(services, requests[|requests| - 1]);
      if before.died || resp.id in before.out.closed then before.(died := true)
      else
        var s := WriteOne(before.out, resp);
        Written(s.out, before.frames + s.frames, before.posted + [Posted(resp, before.out.rooms)], false)
  }

  /** `stream_close_cb` while sending: a stream is closed when its trailers have left. */
  function ClosedBy(frames: seq<Frame>): seq<Raw> {
    if frames == [] then []
    else
      var init, last := ClosedBy(frames[..|frames| - 1]), frames[|frames| - 1];
      if last.TrailersFrame? then init + [Whole(Close(last.id))] else init
  }

  /** The streams whose closing is among some events. */
  function ClosedIn(raws: seq<Raw>): set<int> {
    set raw | raw in raws && raw.Whole? && raw.event.Close? :: raw.event.id
  }

  /** The sending half after a read: control frames queued, the peer's windows moved, streams closed. */
  function Received<H>(out: Out, r: Recv<H>, rooms: Rooms): Out {
    out.(ready := out.ready + Controls(r.control), rooms := rooms, closed := out.closed + ClosedIn(r.raws))
  }

  /** The lambda `server::conn` runs on a worker. */
  function Job<H>(env: Env<H>, core: Core<H>, lent: Pool.Lent): Pool.JobResult<Core<H>> {
    var r := env.recv(core.h, Pool.Chunk(lent));
    var raws := core.raws + r.raws;
    var out := Received(core.out, r, lent.rooms);
    if !r.ok then Pool.JobResult(core.(h := r.h, raws := raws, out := out), [], true, false)
    else
      var batch := Resolve(raws, lent.buf);
      var o := Run(env.sign, core.streams, batch);
      var sent := SendAll(out);
      var w := WriteAll(env.services, sent.out, o.requests);
      Pool.JobResult(
        Core(r.h, ClosedBy(sent.frames + w.frames), o.streams, w.out, core.batches + [batch], core.posted + w.posted),
        sent.frames + w.frames,
        false,
        w.died)
  }

  function Start<H>(env: Env<H>): Core<H> {
    Core(env.h2, [], map[], Out([Control(env.settings)], [], [], [], {}), [], [])
  }

  function Serve<H>(env: Env<H>): Pool.Program<Core<H>> {
    Pool.Program(Start(env), (core, lent) => Job(env, core, lent))
  }

  // ----- What the jobs have read

  /** The session after a list of reads: its state, the events it holds, and the batches it has handed out. */
  datatype Decoded<H> = Decoded(h: H, raws: seq<Raw>, batches: seq<seq<Event>>)

  /** The closing of the streams a batch ends: each is answered, latest first, and its trailers close it. */
  function Closings(batch: seq<Event>): (raws: seq<Raw>)
    ensures |raws| == |Reverse(EndedIds(batch))|
    ensures forall i :: 0 <= i < |raws| ==> raws[i] == Whole(Close(Reverse(EndedIds(batch))[i]))
  {
    var ids := Reverse(EndedIds(batch));
    seq(|ids|, i requires 0 <= i < |ids| => Whole(Close(ids[i])))
  }

  function Decode<H>(env: Env<H>, fed: seq<Pool.Lent>): Decoded<H> {
    if fed == [] then Decoded(env.h2, [], [])
    else
      var before, lent := Decode(env, fed[..|fed| - 1]), fed[|fed| - 1];
      var r := env.recv(before.h, Pool.Chunk(lent));
      var batch := Resolve(before.raws + r.raws, lent.buf);
      if r.ok then Decoded(r.h, Closings(batch), before.batches + [batch])
      else Decoded(r.h, before.raws + r.raws, before.batches)
  }

  lemma DecodeOne<H>(env: Env<H>, fed: seq<Pool.Lent>, lent: Pool.Lent)
    ensures var d := Decode(env, fed);
            var r := env.recv(d.h, Pool.Chunk(lent));
            var batch := Resolve(d.raws + r.raws, lent.buf);
            Decode(env, fed + [lent]) ==
            if r.ok then Decoded(r.h, Closings(batch), d.batches + [batch])
            else Decoded(r.h, d.raws + r.raws, d.batches)
  {
    hide Resolve, Closings;
    assert (fed + [lent])[..|fed|] == fed;
  }

  // ----- What the jobs have made of it

  function Resps(posted: seq<Posted>): (rs: seq<Resp>)
    ensures |rs| == |posted|
    ensures forall i :: 0 <= i < |rs| ==> rs[i] == posted[i].resp
  {
    seq(|posted|, i requires 0 <= i < |posted| => posted[i].resp)
  }

  function Answers(services: map<string, Handler>, requests: seq<Req>): (rs: seq<Resp>)
    ensures |rs| == |requests|
    ensures forall i :: 0 <= i < |rs| ==> rs[i] == Process(services, requests[i])
  {
    seq(|requests|, i requires 0 <= i < |requests| => Process(services, requests[i]))
  }

  /** The closing of stream `id` is in one of the batches. */
  predicate CloseSeen(batches: seq<seq<Event>>, id: int) {
    exists i :: 0 <= i < |batches| && Close(id) in batches[i]
  }

  /** The state is what demultiplexing the batches gives, every request in it answered. */
  ghost predicate CoreOk<H>(env: Env<H>, core: Core<H>, fed: seq<Pool.Lent>) {
    var d := Decode(env, fed);
    var all := ReadAll(env.sign, map[], d.batches);
    && core.h == d.h && core.raws == d.raws && core.batches == d.batches
    && core.streams == all.streams && WellKeyed(all.streams)
    && Resps(core.posted) == Answers(env.services, Concat(all.requests))
    && OnlyControl(core.out) && ClosedOk(core)
  }

  /** The closed streams are those whose closing was handed out or is about to be. */
  ghost predicate ClosedOk<H>(core: Core<H>) {
    forall id :: id in core.out.closed <==> CloseSeen(core.batches, id) || Whole(Close(id)) in core.raws
  }

  /** Nothing but control frames is waiting to be sent. */
  predicate OnlyControl(out: Out) {
    out.bodies == [] && forall i :: 0 <= i < |out.ready| ==> out.ready[i].Control?
  }

  lemma {:induction false} WriteAllAnswers(services: map<string, Handler>, out: Out, requests: seq<Req>)
    requires !WriteAll(services, out, requests).died
    ensures Resps(WriteAll(services, out, requests).posted) == Answers(services, requests)
  {
    hide Process, WriteOne;
    if requests != [] {
      WriteAllAnswers(services, out, requests[..|requests| - 1]);
    }
  }

  lemma ReadOne(sign: CharSign, batches: seq<seq<Event>>, events: seq<Event>)
    ensures var before := ReadAll(sign, map[], batches);
            var o := Run(sign, before.streams, events);
            && ReadAll(sign, map[], batches + [events]) == Batches(o.streams, before.requests + [o.requests])
            && Concat(before.requests + [o.requests]) == Concat(before.requests) + o.requests
  {
    hide Run;
    assert (batches + [events])[..|batches|] == batches;
    var before := ReadAll(sign, map[], batches);
    ConcatOne(before.requests, Run(sign, before.streams, events).requests);
  }

  lemma AnswersAdd(services: map<string, Handler>, a: seq<Req>, b: seq<Req>)
    ensures Answers(services, a + b) == Answers(services, a) + Answers(services, b)
  {
    hide Process;
  }

  lemma RespsAdd(a: seq<Posted>, b: seq<Posted>)
    ensures Resps(a + b) == Resps(a) + Resps(b)
  {
  }

  // ----- Streams closed while sending

  lemma {:induction false} ClosedByAdd(a: seq<Frame>, b: seq<Frame>)
    ensures ClosedBy(a + b) == ClosedBy(a) + ClosedBy(b)
    decreases |b|
  {
    if b == [] {
      assert a + b == a;
    } else {
      assert (a + b)[..|a + b| - 1] == a + b[..|b| - 1];
      ClosedByAdd(a, b[..|b| - 1]);
    }
  }

  lemma {:induction false} ClosedByNone(frames: seq<Frame>)
    requires forall i :: 0 <= i < |frames| ==> !frames[i].TrailersFrame?
    ensures ClosedBy(frames) == []
  {
    if frames != [] {
      ClosedByNone(frames[..|frames| - 1]);
    }
  }

  lemma ClosedByResponse(id: int, parts: seq<seq<byte>>, status: string, details: string)
    ensures ClosedBy(Spelled(id, parts, status, details)) == [Whole(Close(id))]
  {
    hide NonEmpty;
    var init := [HeadersFrame(id, ResponseHeaders())] + DataFrames(id, parts);
    ClosedByNone(init);
    assert Spelled(id, parts, status, details)[..|init|] == init;
  }

  lemma {:induction false} SendControl(o: Out)
    requires OnlyControl(o)
    ensures SendAll(o) == Sent(o.(ready := []), o.ready)
    decreases |o.ready|
  {
    hide Drain, DataFrames;
    if o.ready != [] {
      SendControl(o.(ready := o.ready[1..]));
    }
  }

  /** One response written to a drained session. */
  lemma WriteOneFacts(out: Out, resp: Resp)
    requires out.ready == [] && out.bodies == []
    ensures var s := WriteOne(out, resp);
            && s.out.ready == [] && s.out.bodies == [] && s.out.closed == out.closed + {resp.id}
            && s.out.rooms == Drain(MsgBytes(resp.msg), out.rooms).rooms
            && Rendered(s.frames, Posted(resp, out.rooms))
            && ClosedBy(s.frames) == [Whole(Close(resp.id))]
  {
    hide WriteResponse, MsgBytes, Decimal, Spelled, Covers;
    var bytes, status, details := MsgBytes(resp.msg), Decimal(resp.status.code), resp.status.details;
    ResponseLeavesWhole(out, resp.id, bytes, status, details);
    ResponseFrames(out, resp.id, bytes, status, details);
    var frames := WriteOne(out, resp).frames;
    var sent: seq<byte> :| sent <= bytes && IsResponse(frames, resp.id, sent, status, details);
    var parts: seq<seq<byte>> :| Concat(parts) == sent && frames == Spelled(resp.id, parts, status, details);
    ClosedByResponse(resp.id, parts, status, details);
  }

  // ----- When a job ends the process

  /** One of the streams is closed, or comes twice, and is closed by its first answer. */
  predicate Clash(closed: set<int>, ids: seq<int>) {
    exists i :: 0 <= i < |ids| && (ids[i] in closed || ids[i] in ids[..i])
  }

  lemma ClashOne(closed: set<int>, ids: seq<int>, id: int)
    ensures Clash(closed, ids + [id]) <==> Clash(closed, ids) || id in closed || id in ids
  {
    var all := ids + [id];
    forall i | 0 <= i < |ids|
      ensures all[i] == ids[i] && all[..i] == ids[..i]
    {
    }
    assert all[|ids|] == id && all[..|ids|] == ids;
    if Clash(closed, ids) {
      var i :| 0 <= i < |ids| && (ids[i] in closed || ids[i] in ids[..i]);
      assert all[i] in closed || all[i] in all[..i];
    }
  }

  /**
   * Writing the answers to a list of requests ends the process exactly if two are for one stream or one is for
   * a closed stream. Otherwise it closes their streams, in that order.
   */
  lemma {:induction false} WriteAllCloses(services: map<string, Handler>, out: Out, requests: seq<Req>)
    requires out.ready == [] && out.bodies == []
    ensures var w := WriteAll(services, out, requests);
            && (w.died <==> Clash(out.closed, RequestIds(requests)))
            && w.out.ready == [] && w.out.bodies == []
            && (!w.died ==>
                  && (forall id :: id in w.out.closed <==> id in out.closed || id in RequestIds(requests))
                  && |ClosedBy(w.frames)| == |requests|
                  && forall i :: 0 <= i < |requests| ==> ClosedBy(w.frames)[i] == Whole(Close(requests[i].id)))
  {
    hide Process, WriteOne, Rendered, ClosedBy, RequestIds, Clash;
    if requests == [] {
      NoClash(out.closed);
    } else {
      var init, last := requests[..|requests| - 1], requests[|requests| - 1];
      WriteAllCloses(services, out, init);
      var before, resp := WriteAll(services, out, init), Process(services, last);
      assert RequestIds(requests) == RequestIds(init) + [last.id];
      ClashOne(out.closed, RequestIds(init), last.id);
      WriteOneFacts(before.out, resp);
      ClosedByAdd(before.frames, WriteOne(before.out, resp).frames);
    }
  }

  lemma NoClash(closed: set<int>)
    ensures !Clash(closed, RequestIds([])) && ClosedBy([]) == []
  {
  }

  lemma {:induction false} ReverseAt(s: seq<int>, k: nat)
    requires k < |s|
    ensures Reverse(s)[k] == s[|s| - 1 - k]
  {
    if k < |s| - 1 {
      ReverseAt(s[1..], k);
    }
  }

  /** Neither a closed stream nor the same one twice: the order does not matter. */
  lemma ClashReverse(closed: set<int>, ids: seq<int>)
    ensures Clash(closed, Reverse(ids)) ==> Clash(closed, ids)
  {
    hide Reverse;
    var back := Reverse(ids);
    if Clash(closed, back) {
      var i :| 0 <= i < |back| && (back[i] in closed || back[i] in back[..i]);
      var n := |ids| - 1;
      ReverseAt(ids, i);
      if back[i] in closed {
        assert ids[n - i] in closed;
      } else {
        var j :| 0 <= j < i && back[j] == back[i];
        ReverseAt(ids, j);
        assert ids[n - j] == ids[..n - j][n - i];
      }
    }
  }

  lemma ClashBothWays(closed: set<int>, ids: seq<int>)
    ensures Clash(closed, Reverse(ids)) <==> Clash(closed, ids)
  {
    ClashReverse(closed, ids);
    ClashReverse(closed, Reverse(ids));
    ReverseBack(ids);
  }

  lemma {:induction false} ReverseBack(s: seq<int>)
    ensures Reverse(Reverse(s)) == s
  {
    if s != [] {
      ReverseBack(s[1..]);
      ReverseAdd(Reverse(s[1..]), [s[0]]);
      assert Reverse([s[0]]) == [s[0]];
    }
  }

  /**
   * Batch number `i` ends a stream that has been closed by then, such as one that the peer resets right after
   * its end, or it ends one stream twice.
   */
  ghost predicate DoomedAt(batches: seq<seq<Event>>, i: nat)
    requires i < |batches|
  {
    var ids := EndedIds(batches[i]);
    || (exists k :: 0 <= k < |ids| && CloseSeen(batches[..i + 1], ids[k]))
    || (exists j, k :: 0 <= j < k < |ids| && ids[j] == ids[k])
  }

  ghost predicate Doomed(batches: seq<seq<Event>>) {
    exists i :: 0 <= i < |batches| && DoomedAt(batches, i)
  }

  lemma DoomedOne(batches: seq<seq<Event>>, batch: seq<Event>)
    ensures Doomed(batches + [batch]) <==> Doomed(batches) || DoomedAt(batches + [batch], |batches|)
  {
    hide EndedIds, CloseSeen;
    var all := batches + [batch];
    forall i | 0 <= i < |batches|
      ensures DoomedAt(all, i) <==> DoomedAt(batches, i)
    {
      assert all[..i + 1] == batches[..i + 1];
    }
  }

  /** Answering a batch ends the process exactly if the batch is doomed. */
  lemma ClashIsDoom(batches: seq<seq<Event>>, batch: seq<Event>, closed: set<int>)
    requires forall id :: id in closed <==> CloseSeen(batches + [batch], id)
    ensures Clash(closed, Reverse(EndedIds(batch))) <==> DoomedAt(batches + [batch], |batches|)
  {
    hide EndedIds, CloseSeen, Reverse;
    var all, ids := batches + [batch], EndedIds(batch);
    assert all[..|batches| + 1] == all;
    ClashBothWays(closed, ids);
    if Clash(closed, ids) {
      var i :| 0 <= i < |ids| && (ids[i] in closed || ids[i] in ids[..i]);
      if ids[i] in ids[..i] {
        var j :| 0 <= j < i && ids[j] == ids[i];
      }
    }
    if DoomedAt(all, |batches|) && !(exists k :: 0 <= k < |ids| && CloseSeen(all, ids[k])) {
      var j, k :| 0 <= j < k < |ids| && ids[j] == ids[k];
      assert ids[..k][j] == ids[k];
    }
  }

  // ----- What a job keeps

  lemma ClosedAfterRead<H>(core: Core<H>, r: Recv<H>, rooms: Rooms, buf: seq<byte>, id: int)
    requires ClosedOk(core)
    ensures var batch := Resolve(core.raws + r.raws, buf);
            id in Received(core.out, r, rooms).closed <==> CloseSeen(core.batches + [batch], id)
    ensures id in Received(core.out, r, rooms).closed <==>
            CloseSeen(core.batches, id) || Whole(Close(id)) in core.raws + r.raws
  {
    var raws := core.raws + r.raws;
    var batch := Resolve(raws, buf);
    CloseSeenOne(core.batches, batch, id);
    if Close(id) in batch {
      var i :| 0 <= i < |batch| && batch[i] == Close(id);
      assert raws[i] == Whole(Close(id));
    }
    if Whole(Close(id)) in raws {
      var i :| 0 <= i < |raws| && raws[i] == Whole(Close(id));
      assert batch[i] == Close(id);
    }
    ClosedInHas(r.raws, id);
  }

  lemma ClosedInHas(raws: seq<Raw>, id: int)
    ensures id in ClosedIn(raws) <==> Whole(Close(id)) in raws
  {
    if id in ClosedIn(raws) {
      var raw :| raw in raws && raw.Whole? && raw.event.Close? && raw.event.id == id;
      assert raw == Whole(Close(id));
    }
  }

  lemma CloseSeenOne(batches: seq<seq<Event>>, batch: seq<Event>, id: int)
    ensures CloseSeen(batches + [batch], id) <==> CloseSeen(batches, id) || Close(id) in batch
  {
    var all := batches + [batch];
    if CloseSeen(batches, id) {
      var i :| 0 <= i < |batches| && Close(id) in batches[i];
      assert Close(id) in all[i];
    }
    if Close(id) in batch {
      assert Close(id) in all[|batches|];
    }
  }

  /** What a job that reads without an error writes: answers, unless its batch is doomed, and then closings. */
  lemma JobCloses<H>(env: Env<H>, out: Out, core: Core<H>, batch: seq<Event>)
    requires OnlyControl(out) && WellKeyed(core.streams)
    requires forall id :: id in out.closed <==> CloseSeen(core.batches + [batch], id)
    ensures var sent := SendAll(out);
            var w := WriteAll(env.services, sent.out, Run(env.sign, core.streams, batch).requests);
            && (w.died <==> DoomedAt(core.batches + [batch], |core.batches|))
            && w.out.ready == [] && w.out.bodies == []
            && (!w.died ==>
                  && ClosedBy(sent.frames + w.frames) == Closings(batch)
                  && forall id :: id in w.out.closed <==>
                       CloseSeen(core.batches + [batch], id) || Whole(Close(id)) in Closings(batch))
  {
    hide Run, SendAll, WriteAll, ClosedBy, EndedIds, Closings, CloseSeen, Clash, DoomedAt, RequestIds;
    var requests := Run(env.sign, core.streams, batch).requests;
    var sent := SendAll(out);
    SendControl(out);
    var w := WriteAll(env.services, sent.out, requests);
    WriteAllCloses(env.services, sent.out, requests);
    OneRequestPerEnd(env.sign, core.streams, batch);
    ClashIsDoom(core.batches, batch, out.closed);
    ClosedByAdd(sent.frames, w.frames);
    ClosedByNone(sent.frames);
    if !w.died {
      assert ClosedBy(sent.frames + w.frames) == Closings(batch);
      forall id
        ensures Whole(Close(id)) in Closings(batch) <==> id in RequestIds(requests)
      {
        ClosingsHave(batch, id);
      }
    }
  }

  lemma ClosingsHave(batch: seq<Event>, id: int)
    ensures Whole(Close(id)) in Closings(batch) <==> id in Reverse(EndedIds(batch))
  {
    hide Reverse, EndedIds;
    var ids, raws := Reverse(EndedIds(batch)), Closings(batch);
    if id in ids {
      var i :| 0 <= i < |ids| && ids[i] == id;
      assert raws[i] == Whole(Close(id));
    }
  }

  /** A job keeps the state what it should be, or ends the process, and that exactly if its batch is doomed. */
  lemma JobKeepsCore<H>(env: Env<H>, core: Core<H>, fed: seq<Pool.Lent>, lent: Pool.Lent)
    requires CoreOk(env, core, fed)
    ensures var r, d := Job(env, core, lent), Decode(env, fed + [lent]);
            && (!r.fatal ==> CoreOk(env, r.core, fed + [lent]))
            && (if r.threw then !r.fatal && d.batches == core.batches
                else |d.batches| == |core.batches| + 1 && d.batches[..|core.batches|] == core.batches &&
                     (r.fatal <==> DoomedAt(d.batches, |core.batches|)))
  {
    hide Run, SendAll, WriteAll, Process, Answers, Received, Decode, ReadAll, Concat, Resolve, Closings, ClosedBy,
      WellKeyed, Resps, CloseSeen, OnlyControl, DoomedAt;
    DecodeOne(env, fed, lent);
    var r := env.recv(core.h, Pool.Chunk(lent));
    var batch := Resolve(core.raws + r.raws, lent.buf);
    var out := Received(core.out, r, lent.rooms);
    assert OnlyControl(out) by { ControlsAdded(core.out, r, lent.rooms); }
    forall id
      ensures id in out.closed <==> CloseSeen(core.batches + [batch], id)
      ensures id in out.closed <==> CloseSeen(core.batches, id) || Whole(Close(id)) in core.raws + r.raws
    {
      ClosedAfterRead(core, r, lent.rooms, lent.buf, id);
    }
    if r.ok {
      ReadOne(env.sign, core.batches, batch);
      var before := ReadAll(env.sign, map[], core.batches);
      var o := Run(env.sign, before.streams, batch);
      RunKeys(env.sign, before.streams, batch);
      JobCloses(env, out, core, batch);
      var w := WriteAll(env.services, SendAll(out).out, o.requests);
      assert w.out.ready == [] && w.out.bodies == [] ==> OnlyControl(w.out) by { DrainedControl(w.out); }
      if !w.died {
        WriteAllAnswers(env.services, SendAll(out).out, o.requests);
        RespsAdd(core.posted, w.posted);
        AnswersAdd(env.services, Concat(before.requests), o.requests);
      }
    }
  }

  lemma DrainedControl(out: Out)
    ensures out.ready == [] && out.bodies == [] ==> OnlyControl(out)
  {
  }

  lemma ControlsAdded<H>(out: Out, r: Recv<H>, rooms: Rooms)
    requires OnlyControl(out)
    ensures OnlyControl(Received(out, r, rooms))
  {
    hide ClosedIn;
  }

  /** A session whose first read ends stream 1 and reports that the peer has reset it. */
  function ResetAtOnce(services: map<string, Handler>): Env<bool> {
    Env(Signed, false, [], (h, bytes) => Recv(h, [Whole(End(1)), Whole(Close(1))], [], true), services)
  }

  /** There, the first job of a connection ends the process. */
  lemma ResetEndsProcess(services: map<string, Handler>, lent: Pool.Lent)
    ensures Job(ResetAtOnce(services), Start(ResetAtOnce(services)), lent).fatal
  {
    hide Run, SendAll, WriteAll, Received, ClosedBy, WellKeyed;
    var env := ResetAtOnce(services);
    var core := Start(env);
    var raws := [Whole(End(1)), Whole(Close(1))];
    assert core.raws + raws == raws;
    var batch := Resolve(raws, lent.buf);
    assert batch == [End(1), Close(1)];
    var r := env.recv(core.h, Pool.Chunk(lent));
    var out := Received(core.out, r, lent.rooms);
    ControlsAdded(core.out, r, lent.rooms);
    assert ClosedOk(core);
    forall id
      ensures id in out.closed <==> CloseSeen(core.batches + [batch], id)
    {
      ClosedAfterRead(core, r, lent.rooms, lent.buf, id);
    }
    assert WellKeyed(core.streams) by { NothingFiled(); }
    JobCloses(env, out, core, batch);
    assert batch[..1] == [End(1)] && [End(1)][..0] == [];
    assert EndedIds([]) == [] && EndedIds([End(1)]) == [1] && EndedIds(batch) == [1];
    var batches := core.batches + [batch];
    assert batches[..1] == batches && Close(1) in batches[0];
    assert DoomedAt(batches, 0);
  }

  lemma NothingFiled()
    ensures WellKeyed(map[])
  {
  }

  // ----- What the jobs have put on the wire

  /** The frames that belong to stream `id`. */
  function FramesOf(frames: seq<Frame>, id: int): seq<Frame> {
    if frames == [] then []
    else
      var init, last := FramesOf(frames[..|frames| - 1], id), frames[|frames| - 1];
      if !last.Control? && last.id == id then init + [last] else init
  }

  function PostedTo(posted: seq<Posted>, id: int): seq<Posted> {
    if posted == [] then []
    else
      var init, last := PostedTo(posted[..|posted| - 1], id), posted[|posted| - 1];
      if last.resp.id == id then init + [last] else init
  }

  /** `frames` carries the whole of response `r`: headers, all of its bytes, trailers. */
  ghost predicate RenderedWhole(frames: seq<Frame>, r: Resp) {
    IsResponse(frames, r.id, MsgBytes(r.msg), Decimal(r.status.code), r.status.details)
  }

  /** `frames` is a response on the wire, whole exactly if the peer's windows covered it. */
  ghost predicate Rendered(frames: seq<Frame>, p: Posted) {
    var r := p.resp;
    && IsResponsePart(frames, r.id, MsgBytes(r.msg), Decimal(r.status.code), r.status.details)
    && (RenderedWhole(frames, r) <==> Covers(p.rooms, |MsgBytes(r.msg)|))
  }

  /**
   * What a peer can read off the frames of a response: the headers of a gRPC response, data frames that carry a
   * first part of the message, and trailers with the status code as a decimal number and the details, if any.
   */
  ghost predicate Reads(frames: seq<Frame>, r: Resp) {
    var last := |frames| - 1;
    && last >= 1
    && frames[0] == HeadersFrame(r.id, [Header(":status", "200"), Header("content-type", "application/grpc")])
    && (forall i :: 0 < i < last ==> frames[i].DataFrame? && frames[i].id == r.id)
    && frames[last].TrailersFrame? && frames[last].id == r.id
    && (exists status: string ::
          && ReadDecimal(status) == r.status.code
          && frames[last].fields ==
             [Header("grpc-status", status)] +
             (if r.status.details == "" then [] else [Header("grpc-status-details-bin", r.status.details)]))
    && DataOf(frames) <= r.msg.prefix + r.msg.data
  }

  /** The bytes of all data frames. */
  function DataOf(frames: seq<Frame>): seq<byte> {
    if frames == [] then []
    else
      var init, last := DataOf(frames[..|frames| - 1]), frames[|frames| - 1];
      if last.DataFrame? then init + last.bytes else init
  }

  lemma {:induction false} DataOfFrames(id: int, parts: seq<seq<byte>>)
    ensures DataOf(DataFrames(id, parts)) == Concat(parts)
  {
    if parts != [] {
      DataOfFrames(id, parts[..|parts| - 1]);
      assert DataFrames(id, parts)[..|parts| - 1] == DataFrames(id, parts[..|parts| - 1]);
    }
  }

  lemma {:induction false} DataOfAdd(a: seq<Frame>, b: seq<Frame>)
    ensures DataOf(a + b) == DataOf(a) + DataOf(b)
    decreases |b|
  {
    if b == [] {
      assert a + b == a;
    } else {
      assert (a + b)[..|a + b| - 1] == a + b[..|b| - 1];
      DataOfAdd(a, b[..|b| - 1]);
    }
  }

  lemma DataOfSpelled(id: int, parts: seq<seq<byte>>, status: string, details: string)
    ensures DataOf(Spelled(id, parts, status, details)) == Concat(parts)
  {
    hide DataFrames, Concat, NonEmpty, ResponseHeaders, ResponseTrailers;
    var head := HeadersFrame(id, ResponseHeaders());
    var tail := TrailersFrame(id, NonEmpty(ResponseTrailers(status, details)));
    DataOfFrames(id, parts);
    DataOfAdd([head], DataFrames(id, parts));
    DataOfAdd([head] + DataFrames(id, parts), [tail]);
    assert [head][..0] == [] && [tail][..0] == [];
  }

  /** The frames of a response read as it, and as all of it exactly if the peer's windows covered it. */
  lemma RenderedReads(frames: seq<Frame>, p: Posted)
    requires Rendered(frames, p)
    ensures Reads(frames, p.resp)
    ensures DataOf(frames) == p.resp.msg.prefix + p.resp.msg.data <==> Covers(p.rooms, |MsgBytes(p.resp.msg)|)
  {
    hide Covers, Concat, Spelled, DataOf, NonEmpty, Decimal, ReadDecimal;
    var r := p.resp;
    var status, details := Decimal(r.status.code), r.status.details;
    var sent: seq<byte> :| sent <= MsgBytes(r.msg) && IsResponse(frames, r.id, sent, status, details);
    var parts: seq<seq<byte>> :| Concat(parts) == sent && frames == Spelled(r.id, parts, status, details);
    DataOfSpelled(r.id, parts, status, details);
    SpelledExactly(frames, r.id, parts, MsgBytes(r.msg), status, details);
    DecimalReadsBack(r.status.code);
    SpelledShape(r.id, parts, status, details);
  }

  lemma SpelledShape(id: int, parts: seq<seq<byte>>, status: string, details: string)
    requires status != ""
    ensures var frames := Spelled(id, parts, status, details);
            var last := |frames| - 1;
            && last >= 1
            && frames[0] == HeadersFrame(id, [Header(":status", "200"), Header("content-type", "application/grpc")])
            && (forall i :: 0 < i < last ==> frames[i].DataFrame? && frames[i].id == id)
            && frames[last] == TrailersFrame(id, [Header("grpc-status", status)] +
                 (if details == "" then [] else [Header("grpc-status-details-bin", details)]))
  {
    hide NonEmpty, ResponseTrailers;
    TrailersKept(status, details);
  }

  /** `frames` is the responses `ps`, one after the other. */
  ghost predicate RendersAll(frames: seq<Frame>, ps: seq<Posted>)
    decreases |ps|
  {
    if ps == [] then frames == []
    else exists cut :: 0 <= cut <= |frames| &&
           RendersAll(frames[..cut], ps[..|ps| - 1]) && Rendered(frames[cut..], ps[|ps| - 1])
  }

  lemma {:induction false} FramesOfAdd(a: seq<Frame>, b: seq<Frame>, id: int)
    ensures FramesOf(a + b, id) == FramesOf(a, id) + FramesOf(b, id)
    decreases |b|
  {
    if b == [] {
      assert a + b == a;
    } else {
      assert (a + b)[..|a + b| - 1] == a + b[..|b| - 1];
      FramesOfAdd(a, b[..|b| - 1], id);
    }
  }

  lemma {:induction false} FramesOfSame(frames: seq<Frame>, id: int, mine: bool)
    requires forall i :: 0 <= i < |frames| ==> (mine <==> !frames[i].Control? && frames[i].id == id)
    ensures FramesOf(frames, id) == if mine then frames else []
  {
    if frames != [] {
      FramesOfSame(frames[..|frames| - 1], id, mine);
      assert frames[..|frames| - 1] + [frames[|frames| - 1]] == frames;
    }
  }

  lemma RenderedIds(frames: seq<Frame>, p: Posted)
    requires Rendered(frames, p)
    ensures forall i :: 0 <= i < |frames| ==> !frames[i].Control? && frames[i].id == p.resp.id
  {
    hide Decimal, NonEmpty, ResponseHeaders, ResponseTrailers, MsgBytes, Covers;
  }

  lemma RendersOne(a: seq<Frame>, ps: seq<Posted>, b: seq<Frame>, p: Posted)
    requires RendersAll(a, ps) && Rendered(b, p)
    ensures RendersAll(a + b, ps + [p])
  {
    hide Rendered;
    assert (ps + [p])[..|ps|] == ps;
    assert (a + b)[..|a|] == a && (a + b)[|a|..] == b;
  }

  /** Per stream, the frames sent are the stream's responses. */
  ghost predicate WireOk(frames: seq<Frame>, ps: seq<Posted>, id: int) {
    RendersAll(FramesOf(frames, id), PostedTo(ps, id))
  }

  lemma WireResponse(frames: seq<Frame>, ps: seq<Posted>, more: seq<Frame>, p: Posted, id: int)
    requires WireOk(frames, ps, id) && Rendered(more, p)
    ensures WireOk(frames + more, ps + [p], id)
  {
    hide Rendered;
    FramesOfAdd(frames, more, id);
    RenderedIds(more, p);
    FramesOfSame(more, id, p.resp.id == id);
    assert (ps + [p])[..|ps|] == ps;
    if p.resp.id == id {
      RendersOne(FramesOf(frames, id), PostedTo(ps, id), more, p);
    } else {
      assert FramesOf(frames, id) + [] == FramesOf(frames, id);
    }
  }

  lemma WireControl(frames: seq<Frame>, ps: seq<Posted>, more: seq<Frame>, id: int)
    requires WireOk(frames, ps, id) && forall i :: 0 <= i < |more| ==> more[i].Control?
    ensures WireOk(frames + more, ps, id)
  {
    FramesOfAdd(frames, more, id);
    FramesOfSame(more, id, false);
    assert FramesOf(frames, id) + [] == FramesOf(frames, id);
  }

  lemma {:induction false} WriteAllWire(
    services: map<string, Handler>, out: Out, requests: seq<Req>, frames: seq<Frame>, ps: seq<Posted>, id: int)
    requires out.ready == [] && out.bodies == [] && WireOk(frames, ps, id)
    ensures var w := WriteAll(services, out, requests);
            w.out.ready == [] && w.out.bodies == [] && WireOk(frames + w.frames, ps + w.posted, id)
  {
    hide Process, WriteOne, WireOk, Rendered, ClosedBy;
    if requests == [] {
      assert frames + [] == frames && ps + [] == ps;
    } else {
      var init := requests[..|requests| - 1];
      var before := WriteAll(services, out, init);
      WriteAllWire(services, out, init, frames, ps, id);
      var resp := Process(services, requests[|requests| - 1]);
      WriteOneFacts(before.out, resp);
      var more, p := WriteOne(before.out, resp).frames, Posted(resp, before.out.rooms);
      WireResponse(frames + before.frames, ps + before.posted, more, p, id);
      assert frames + (before.frames + more) == (frames + before.frames) + more;
      assert ps + (before.posted + [p]) == (ps + before.posted) + [p];
    }
  }

  lemma JobKeepsWire<H>(env: Env<H>, core: Core<H>, lent: Pool.Lent, frames: seq<Frame>, id: int)
    requires OnlyControl(core.out) && WireOk(frames, core.posted, id)
    ensures var r := Job(env, core, lent);
            OnlyControl(r.core.out) && WireOk(frames + r.emitted, r.core.posted, id)
  {
    hide Run, SendAll, WriteAll, WireOk, Resolve, ClosedBy, Received;
    var r := env.recv(core.h, Pool.Chunk(lent));
    var out := Received(core.out, r, lent.rooms);
    ControlsAdded(core.out, r, lent.rooms);
    if r.ok {
      var o := Run(env.sign, core.streams, Resolve(core.raws + r.raws, lent.buf));
      var sent := SendAll(out);
      SendControl(out);
      WireControl(frames, core.posted, sent.frames, id);
      var w := WriteAll(env.services, sent.out, o.requests);
      WriteAllWire(env.services, sent.out, o.requests, frames + sent.frames, core.posted, id);
      assert frames + (sent.frames + w.frames) == (frames + sent.frames) + w.frames;
    } else {
      assert frames + [] == frames;
    }
  }

  // ----- Control frames

  /** The contents of the control frames among some frames. */
  function ControlsOf(frames: seq<Frame>): seq<seq<byte>> {
    if frames == [] then []
    else
      var init, last := ControlsOf(frames[..|frames| - 1]), frames[|frames| - 1];
      if last.Control? then init + [last.bytes] else init
  }

  /** What nghttp2 has wanted sent for itself: the settings, and then read by read. */
  function ControlsWanted<H>(env: Env<H>, fed: seq<Pool.Lent>): seq<seq<byte>> {
    if fed == [] then [env.settings]
    else
      var init := fed[..|fed| - 1];
      ControlsWanted(env, init) + env.recv(Decode(env, init).h, Pool.Chunk(fed[|fed| - 1])).control
  }

  /** Control frames sent, and those still waiting because a read has failed, are those that were wanted. */
  ghost predicate ControlOk<H>(env: Env<H>, core: Core<H>, frames: seq<Frame>, fed: seq<Pool.Lent>) {
    ControlsOf(frames) + ControlsOf(core.out.ready) == ControlsWanted(env, fed)
  }

  lemma {:induction false} ControlsOfAdd(a: seq<Frame>, b: seq<Frame>)
    ensures ControlsOf(a + b) == ControlsOf(a) + ControlsOf(b)
    decreases |b|
  {
    if b == [] {
      assert a + b == a;
    } else {
      assert (a + b)[..|a + b| - 1] == a + b[..|b| - 1];
      ControlsOfAdd(a, b[..|b| - 1]);
    }
  }

  lemma {:induction false} ControlsOfControls(control: seq<seq<byte>>)
    ensures ControlsOf(Controls(control)) == control
  {
    if control != [] {
      var init := control[..|control| - 1];
      ControlsOfControls(init);
      assert Controls(control)[..|control| - 1] == Controls(init);
      assert init + [control[|control| - 1]] == control;
    }
  }

  lemma {:induction false} ControlsOfNone(frames: seq<Frame>)
    requires forall i :: 0 <= i < |frames| ==> !frames[i].Control?
    ensures ControlsOf(frames) == []
  {
    if frames != [] {
      ControlsOfNone(frames[..|frames| - 1]);
    }
  }

  lemma {:induction false} WriteAllNoControl(services: map<string, Handler>, out: Out, requests: seq<Req>)
    requires out.ready == [] && out.bodies == []
    ensures var w := WriteAll(services, out, requests);
            w.out.ready == [] && w.out.bodies == [] && ControlsOf(w.frames) == []
  {
    hide Process, WriteOne, Rendered, ControlsOf, ClosedBy;
    if requests == [] {
      ControlsOfNone([]);
    } else {
      var init := requests[..|requests| - 1];
      WriteAllNoControl(services, out, init);
      var before, resp := WriteAll(services, out, init), Process(services, requests[|requests| - 1]);
      WriteOneFacts(before.out, resp);
      var more := WriteOne(before.out, resp).frames;
      RenderedIds(more, Posted(resp, before.out.rooms));
      ControlsOfNone(more);
      ControlsOfAdd(before.frames, more);
    }
  }

  /** No job loses, repeats or reorders a control frame. */
  lemma JobKeepsControl<H>(env: Env<H>, core: Core<H>, frames: seq<Frame>, fed: seq<Pool.Lent>, lent: Pool.Lent)
    requires ControlOk(env, core, frames, fed) && OnlyControl(core.out) && core.h == Decode(env, fed).h
    ensures ControlOk(env, Job(env, core, lent).core, frames + Job(env, core, lent).emitted, fed + [lent])
  {
    hide Run, SendAll, WriteAll, Resolve, ClosedBy, Decode, ControlsOf, OnlyControl, ClosedIn, Controls;
    var r := env.recv(core.h, Pool.Chunk(lent));
    var out := Received(core.out, r, lent.rooms);
    assert (fed + [lent])[..|fed|] == fed;
    ControlsAdded(core.out, r, lent.rooms);
    ControlsOfControls(r.control);
    ControlsOfAdd(core.out.ready, Controls(r.control));
    var wanted, kept := ControlsOf(frames), ControlsOf(core.out.ready);
    assert wanted + (kept + r.control) == (wanted + kept) + r.control;
    if r.ok {
      var o := Run(env.sign, core.streams, Resolve(core.raws + r.raws, lent.buf));
      var sent := SendAll(out);
      SendControl(out);
      assert sent.out.bodies == [] by { NoBodies(out); }
      var w := WriteAll(env.services, sent.out, o.requests);
      WriteAllNoControl(env.services, sent.out, o.requests);
      ControlsOfAdd(frames, sent.frames + w.frames);
      ControlsOfAdd(sent.frames, w.frames);
      ControlsOfNone([]);
      assert ControlsOf(sent.frames) + [] == ControlsOf(sent.frames);
      assert (wanted + ControlsOf(sent.frames)) + [] == wanted + ControlsOf(sent.frames);
    } else {
      assert frames + [] == frames;
    }
  }

  lemma NoBodies(out: Out)
    requires OnlyControl(out)
    ensures out.bodies == []
  {
  }

  // ----- The room for responses

  /** The first response meets the given rooms, and each other one those the one before has left. */
  ghost predicate RoomsShared(posted: seq<Posted>, rooms: Rooms) {
    forall i :: 0 <= i < |posted| ==> posted[i].rooms == RoomsAfter(posted[..i], rooms)
  }

  /** The rooms that are left when some responses have been written. */
  function RoomsAfter(posted: seq<Posted>, rooms: Rooms): Rooms {
    if posted == [] then rooms
    else
      var last := posted[|posted| - 1];
      Drain(last.resp.msg.prefix + last.resp.msg.data, last.rooms).rooms
  }

  lemma RoomsOne(posted: seq<Posted>, rooms: Rooms, p: Posted)
    requires RoomsShared(posted, rooms) && p.rooms == RoomsAfter(posted, rooms)
    ensures RoomsShared(posted + [p], rooms)
  {
    hide RoomsAfter;
    var all := posted + [p];
    forall i | 0 <= i < |all|
      ensures all[i].rooms == RoomsAfter(all[..i], rooms)
    {
      if i < |posted| {
        assert all[..i] == posted[..i];
      } else {
        assert all[..i] == posted;
      }
    }
  }

  lemma {:induction false} WriteAllRooms(services: map<string, Handler>, out: Out, requests: seq<Req>)
    requires out.ready == [] && out.bodies == []
    ensures var w := WriteAll(services, out, requests);
            && w.out.ready == [] && w.out.bodies == []
            && RoomsShared(w.posted, out.rooms) && w.out.rooms == RoomsAfter(w.posted, out.rooms)
  {
    hide Process, WriteOne, Rendered, ClosedBy, Drain, RoomsShared;
    if requests == [] {
      assert RoomsShared([], out.rooms) by { NoRooms(out.rooms); }
    } else {
      var init := requests[..|requests| - 1];
      WriteAllRooms(services, out, init);
      var before, resp := WriteAll(services, out, init), Process(services, requests[|requests| - 1]);
      WriteOneFacts(before.out, resp);
      RoomsOne(before.posted, out.rooms, Posted(resp, before.out.rooms));
    }
  }

  lemma NoRooms(rooms: Rooms)
    ensures RoomsShared([], rooms)
  {
  }

  /** The responses a job writes meet the rooms the peer left for it, one after the other. */
  lemma JobRooms<H>(env: Env<H>, core: Core<H>, lent: Pool.Lent)
    requires OnlyControl(core.out)
    ensures var r := Job(env, core, lent).core;
            core.posted <= r.posted && RoomsShared(r.posted[|core.posted|..], lent.rooms)
  {
    hide Run, SendAll, WriteAll, Resolve, ClosedBy, RoomsShared, OnlyControl;
    var r := env.recv(core.h, Pool.Chunk(lent));
    var out := Received(core.out, r, lent.rooms);
    ControlsAdded(core.out, r, lent.rooms);
    if r.ok {
      SendControl(out);
      NoBodies(out);
      var o := Run(env.sign, core.streams, Resolve(core.raws + r.raws, lent.buf));
      var w := WriteAll(env.services, SendAll(out).out, o.requests);
      WriteAllRooms(env.services, SendAll(out).out, o.requests);
      assert (core.posted + w.posted)[|core.posted|..] == w.posted;
    } else {
      NoRooms(lent.rooms);
      assert core.posted[|core.posted|..] == [];
    }
  }
}
