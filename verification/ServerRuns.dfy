/** The server's promises over every run: any number of workers, any interleaving, any cutting into reads. */
module ServerRuns {
  import opened Base
  import opened Messages
  import opened Requests
  import opened Demux
  import opened Reassembly
  import opened Outbound
  import opened Server
  import Pool
  import Histories
  import Lifecycle

  /**
   * What the jobs on what they were lent amount to: they end the process exactly if some batch is doomed, and
   * as long as none has, the state and the frames are what they should be.
   */
  lemma {:induction false} JobsDone<H>(env: Env<H>, fed: seq<Pool.Lent>, id: int)
    ensures var d := Histories.JobsOver(Serve(env), fed);
            && (d.fatal <==> Doomed(Decode(env, fed).batches))
            && (!d.fatal ==> CoreOk(env, d.core, fed) && WireOk(d.emitted, d.core.posted, id))
  {
    hide CoreOk, WireOk, Job, Decode, Doomed, Histories.JobsOver, Serve;
    if fed == [] {
      NothingDone(env, id);
    } else {
      var init, last := fed[..|fed| - 1], fed[|fed| - 1];
      JobsDone(env, init, id);
      assert fed == init + [last];
      OneJobMore(env, init, last);
      var before := Histories.JobsOver(Serve(env), init);
      if !before.fatal {
        JobKeepsCore(env, before.core, init, last);
        assert OnlyControl(before.core.out) && before.core.batches == Decode(env, init).batches by {
          CoreKnown(env, before.core, init);
        }
        JobKeepsWire(env, before.core, last, before.emitted, id);
      }
      DoomSpreads(env, init, last);
    }
  }

  lemma CoreKnown<H>(env: Env<H>, core: Core<H>, fed: seq<Pool.Lent>)
    requires CoreOk(env, core, fed)
    ensures OnlyControl(core.out) && core.batches == Decode(env, fed).batches && core.h == Decode(env, fed).h
  {
  }

  lemma OneJobMore<H>(env: Env<H>, fed: seq<Pool.Lent>, lent: Pool.Lent)
    ensures var before := Histories.JobsOver(Serve(env), fed);
            var r := Job(env, before.core, lent);
            Histories.JobsOver(Serve(env), fed + [lent]) ==
            Histories.Done(r.core, before.emitted + r.emitted, before.fatal || r.fatal)
  {
    hide Job, Histories.JobsOver;
    Histories.JobsOne(Serve(env), fed, lent);
    var before := Histories.JobsOver(Serve(env), fed);
    assert Serve(env).job(before.core, lent) == Job(env, before.core, lent);
  }

  /** One more read dooms the process exactly if its batch does; a doomed process stays so. */
  lemma DoomSpreads<H>(env: Env<H>, fed: seq<Pool.Lent>, lent: Pool.Lent)
    ensures var b, b' := Decode(env, fed).batches, Decode(env, fed + [lent]).batches;
            && (b' == b || (|b'| == |b| + 1 && b'[..|b|] == b))
            && (Doomed(b') <==> Doomed(b) || (b' != b && DoomedAt(b', |b|)))
  {
    hide Decode, Resolve, Closings, Doomed, DoomedAt;
    DecodeOne(env, fed, lent);
    var d := Decode(env, fed);
    DoomedOne(d.batches, Resolve(d.raws + env.recv(d.h, Pool.Chunk(lent)).raws, lent.buf));
  }

  lemma NothingDone<H>(env: Env<H>, id: int)
    ensures CoreOk(env, Start(env), []) && WireOk([], [], id) && !Doomed(Decode(env, []).batches)
    ensures Histories.JobsOver(Serve(env), []) == Histories.Done(Start(env), [], false) && Start(env).posted == []
  {
  }

  /** What a connection has been shown by its session. */
  function Shows<H>(env: Env<H>, k: Pool.Conn<Core<H>>): seq<seq<Event>> {
    Decode(env, k.fed).batches
  }

  /**
   * In every reachable state of the pool, a connection's state and output are those of its jobs in order, and
   * one of them has ended the process exactly if the session has shown a doomed batch.
   */
  lemma ConnDone<H>(env: Env<H>, n: nat, s: Pool.State<Core<H>>, c: nat, id: int)
    requires Pool.Reachable(Serve(env), n, s) && c in s.conns
    ensures var k := s.conns[c];
            && (k.fatal <==> Doomed(Shows(env, k)))
            && (!k.fatal ==> CoreOk(env, k.core, k.fed) && WireOk(k.flushed + k.buffer, k.core.posted, id))
  {
    hide CoreOk, WireOk, Serve, Pool.Reachable, Decode, Doomed;
    Histories.OutboundConserved(Serve(env), n, s, c);
    JobsDone(env, s.conns[c].fed, id);
  }

  /**
   * On every run, the process is ended by a connection's jobs exactly if some batch of its events ends a stream
   * that is closed by then, as when the peer resets a stream right after ending it, or ends a stream twice.
   */
  lemma ProcessSurvives<H>(env: Env<H>, n: nat, s: Pool.State<Core<H>>)
    requires Pool.Reachable(Serve(env), n, s)
    ensures Pool.Ended(s) <==> exists c :: c in s.conns && Doomed(Shows(env, s.conns[c]))
  {
    hide Serve, Pool.Reachable, Doomed, Shows, CoreOk, WireOk;
    forall c | c in s.conns
      ensures s.conns[c].fatal <==> Doomed(Shows(env, s.conns[c]))
    {
      ConnDone(env, n, s, c, 0);
    }
  }

  // ----- One answer per ended stream

  /** Read by read, the streams that ended, latest first. */
  function EndsPerRead(batches: seq<seq<Event>>): seq<int> {
    if batches == [] then []
    else EndsPerRead(batches[..|batches| - 1]) + Reverse(EndedIds(batches[|batches| - 1]))
  }

  function ResponseIds(rs: seq<Resp>): (ids: seq<int>)
    ensures |ids| == |rs|
    ensures forall i :: 0 <= i < |ids| ==> ids[i] == rs[i].id
  {
    seq(|rs|, i requires 0 <= i < |rs| => rs[i].id)
  }

  lemma NoReads(sign: CharSign)
    ensures var all := ReadAll(sign, map[], []);
            RequestIds(Concat(all.requests)) == EndsPerRead([]) && WellKeyed(all.streams)
  {
  }

  lemma EndsOne(batches: seq<seq<Event>>, last: seq<Event>)
    ensures EndsPerRead(batches + [last]) == EndsPerRead(batches) + Reverse(EndedIds(last))
  {
    hide EndedIds, Reverse;
    assert (batches + [last])[..|batches|] == batches;
  }

  lemma {:induction false} EndsOfReads(sign: CharSign, batches: seq<seq<Event>>)
    ensures var all := ReadAll(sign, map[], batches);
            RequestIds(Concat(all.requests)) == EndsPerRead(batches) && WellKeyed(all.streams)
  {
    hide Run, EndedIds, ReadAll, Concat, RequestIds, Reverse, WellKeyed, EndsPerRead;
    if batches == [] {
      NoReads(sign);
    } else {
      var init, last := batches[..|batches| - 1], batches[|batches| - 1];
      EndsOfReads(sign, init);
      assert batches == init + [last];
      ReadOne(sign, init, last);
      var before := ReadAll(sign, map[], init);
      OneRequestPerEnd(sign, before.streams, last);
      RunKeys(sign, before.streams, last);
      RequestIdsAdd(Concat(before.requests), Run(sign, before.streams, last).requests);
      EndsOne(init, last);
    }
  }

  lemma RequestIdsAdd(a: seq<Req>, b: seq<Req>)
    ensures RequestIds(a + b) == RequestIds(a) + RequestIds(b)
  {
  }

  /**
   * On every run, unless a doomed batch ends the process, a connection's responses are, read by read, one per
   * end event on a real stream, latest first, and each is what `process` makes of the request that stream had
   * become.
   */
  lemma OneAnswerPerEnd<H>(env: Env<H>, n: nat, s: Pool.State<Core<H>>, c: nat)
    requires Pool.Reachable(Serve(env), n, s) && c in s.conns
    ensures var k := s.conns[c];
            var batches := Shows(env, k);
            && (k.fatal <==> Doomed(batches))
            && (!k.fatal ==>
                  && ResponseIds(Resps(k.core.posted)) == EndsPerRead(batches)
                  && Resps(k.core.posted) ==
                     Answers(env.services, Concat(ReadAll(env.sign, map[], batches).requests)))
  {
    hide Serve, Pool.Reachable, ReadAll, Decode, Process, WireOk, EndsPerRead, Resps, Doomed;
    ConnDone(env, n, s, c, 0);
    var batches := Shows(env, s.conns[c]);
    EndsOfReads(env.sign, batches);
    var requests := Concat(ReadAll(env.sign, map[], batches).requests);
    assert ResponseIds(Answers(env.services, requests)) == RequestIds(requests);
  }

  // ----- A stream, from its events to the frames of its answer

  lemma {:induction false} PostedToStream(
    services: map<string, Handler>, posted: seq<Posted>, requests: seq<Req>, id: int)
    requires Resps(posted) == Answers(services, requests)
    ensures Resps(PostedTo(posted, id)) == Answers(services, RequestsOf(requests, id))
  {
    hide Process, RequestsOf;
    assert |posted| == |Resps(posted)| == |requests|;
    if requests == [] {
      NoRequests(id);
    } else {
      var init, last := requests[..|requests| - 1], requests[|requests| - 1];
      assert requests == init + [last];
      assert Resps(posted)[|requests| - 1] == Process(services, last);
      assert Resps(posted[..|requests| - 1]) == Answers(services, init);
      PostedToStream(services, posted[..|requests| - 1], init, id);
      RequestsOfAdd(init, [last], id);
      RequestsOfLast(last, id);
    }
  }

  lemma NoRequests(id: int)
    ensures RequestsOf([], id) == []
  {
  }

  lemma RequestsOfLast(last: Req, id: int)
    ensures RequestsOf([last], id) == if last.id == id then [last] else []
  {
    assert [last][1..] == [];
  }

  /** The answer to a call that reached its handler. */
  ghost predicate AnswersCall(r: Resp, id: int, handler: Handler, hs: seq<Header>, rpc: string, payload: seq<byte>) {
    exists metadata ::
      && MetadataRecorded(metadata, hs)
      && (match handler(metadata, rpc, payload)
          case Returned(status, data) => r == Resp(id, status, FromPayload(data))
          case Threw => r == Resp(id, Status(13, ""), FRESH))
  }

  /** The payload a stream's data shows: nothing unless exactly as many bytes arrived as were announced. */
  function PayloadOf(sign: CharSign, chunks: seq<seq<byte>>): seq<byte> {
    var m := FeedAll(sign, FRESH, chunks);
    if m.Some? then MsgData(m.value) else []
  }

  /**
   * What a stream with these headers and this data is to be answered: refused if it cannot be dispatched (a
   * bad header, no path, an empty service name, or data past the announced length), refused if its service
   * is unknown, and otherwise whatever the handler says to the payload its data shows.
   */
  ghost predicate Verdict<H>(env: Env<H>, id: int, hs: seq<Header>, chunks: seq<seq<byte>>, r: Resp) {
    && ((forall service :: !Dispatchable(env.sign, hs, chunks, service)) ==> r == Resp(id, Status(3, ""), FRESH))
    && (forall service :: Dispatchable(env.sign, hs, chunks, service) && service !in env.services ==>
          r == Resp(id, Status(5, ""), FRESH))
    && (forall service, rpc ::
          Dispatchable(env.sign, hs, chunks, service) && CallHeaders(hs, service, rpc) && service in env.services ==>
            AnswersCall(r, id, env.services[service], hs, rpc, PayloadOf(env.sign, chunks)))
  }

  lemma AlikeProcessed(services: map<string, Handler>, a: Req, b: Req)
    requires Alike(a, b)
    ensures Process(services, a) == Process(services, b)
  {
    hide MsgData;
  }

  lemma BuiltProcessed<H>(env: Env<H>, id: int, hs: seq<Header>, chunks: seq<seq<byte>>)
    ensures Verdict(env, id, hs, chunks, Process(env.services, Built(env.sign, id, hs, chunks)))
  {
    hide Dispatchable, CallHeaders, Built, MetadataRecorded, MsgData, FeedAll;
    BuiltReady(env.sign, id, hs, chunks);
    var req := Built(env.sign, id, hs, chunks);
    var r := Process(env.services, req);
    forall service, rpc |
      Dispatchable(env.sign, hs, chunks, service) && CallHeaders(hs, service, rpc) && service in env.services
      ensures AnswersCall(r, id, env.services[service], hs, rpc, PayloadOf(env.sign, chunks))
    {
      assert FeedAll(env.sign, FRESH, chunks).Some? by { DispatchableFed(env.sign, hs, chunks, service); }
      assert MetadataRecorded(req.metadata, hs);
    }
  }

  lemma DispatchableFed(sign: CharSign, hs: seq<Header>, chunks: seq<seq<byte>>, service: string)
    requires Dispatchable(sign, hs, chunks, service)
    ensures FeedAll(sign, FRESH, chunks).Some? && service != ""
  {
  }

  /** The events of stream `id` that the connection has seen are `body`, its end, and closings. */
  ghost predicate HasEnded<H>(env: Env<H>, k: Pool.Conn<Core<H>>, id: int, body: seq<Event>, closes: nat) {
    id > 0 && IsBody(id, body) && Only(Concat(Shows(env, k)), id) == RequestEvents(id, body, closes)
  }

  /** The frames a connection has flushed or buffered for stream `id`. */
  function FramesFor<H>(k: Pool.Conn<Core<H>>, id: int): seq<Frame> {
    FramesOf(k.flushed + k.buffer, id)
  }

  /**
   * Every stream that has ended, whatever headers and data it sent, in whatever order, interleaved with any
   * other streams and cut into reads in any way, and served by any number of workers in any order, is
   * answered exactly once, as `Verdict` says, unless a doomed batch ends the process; and among the frames
   * flushed or buffered, those of the stream are that answer, whole exactly if the peer's windows covered it.
   */
  lemma StreamIsAnswered<H>(
    env: Env<H>, n: nat, s: Pool.State<Core<H>>, c: nat, id: int, body: seq<Event>, closes: nat)
    requires Pool.Reachable(Serve(env), n, s) && c in s.conns && HasEnded(env, s.conns[c], id, body, closes)
    ensures var k := s.conns[c];
            var mine := PostedTo(k.core.posted, id);
            && (k.fatal <==> Doomed(Shows(env, k)))
            && (!k.fatal ==>
                  && |mine| == 1
                  && Verdict(env, id, HeadersIn(body), ChunksIn(body), mine[0].resp)
                  && Reads(FramesFor(k, id), mine[0].resp)
                  && Rendered(FramesFor(k, id), mine[0]))
  {
    hide Serve, Pool.Reachable, ReadAll, Decode, RequestsOf, Only, RequestEvents, IsBody, PostedTo, FramesOf, Rendered,
      Verdict, Made, Built, Alike, Process, Doomed, Reads;
    var k := s.conns[c];
    ConnDone(env, n, s, c, id);
    if !k.fatal {
      var batches := Shows(env, k);
      StreamMakesOneRequest(env.sign, map[], batches, id, body, closes);
      var requests := Concat(ReadAll(env.sign, map[], batches).requests);
      PostedToStream(env.services, k.core.posted, requests, id);
      var made, built := Made(env.sign, id, body), Built(env.sign, id, HeadersIn(body), ChunksIn(body));
      var mine := PostedTo(k.core.posted, id);
      assert Resps(mine) == [Process(env.services, made)];
      assert |mine| == |Resps(mine)|;
      assert mine[0].resp == Resps(mine)[0];
      AlikeProcessed(env.services, made, built);
      BuiltProcessed(env, id, HeadersIn(body), ChunksIn(body));
      assert mine == [mine[0]];
      SingleRendered(FramesFor(k, id), mine[0]);
      RenderedReads(FramesFor(k, id), mine[0]);
    }
  }

  /** A stream that the peer resets so soon that its closing is in the batch that ends it ends the process. */
  lemma ResetIsFatal<H>(
    env: Env<H>, n: nat, s: Pool.State<Core<H>>, c: nat, id: int, i: nat)
    requires Pool.Reachable(Serve(env), n, s) && c in s.conns && i < |Shows(env, s.conns[c])|
    requires id in EndedIds(Shows(env, s.conns[c])[i]) && Close(id) in Shows(env, s.conns[c])[i]
    ensures s.conns[c].fatal && Pool.Ended(s)
  {
    hide Serve, Pool.Reachable, Shows, CoreOk, WireOk, EndedIds;
    ConnDone(env, n, s, c, id);
    var batches := Shows(env, s.conns[c]);
    var ids := EndedIds(batches[i]);
    var k :| 0 <= k < |ids| && ids[k] == id;
    assert batches[..i + 1][i] == batches[i];
    assert CloseSeen(batches[..i + 1], ids[k]);
    assert DoomedAt(batches, i);
  }

  /**
   * A well-formed call to a registered service, its message cut into non-empty pieces in any way, is
   * answered exactly once by the service's handler, unless a doomed batch ends the process. The handler gets
   * the call's metadata and method; it gets the payload if its length survives the codec and its pieces are
   * cut at the prefix, and the empty payload if not. Only messages of 2^32 bytes and more can be refused
   * instead, as invalid arguments.
   */
  lemma CallIsAnswered<H>(
    env: Env<H>, n: nat, s: Pool.State<Core<H>>, c: nat, id: int, body: seq<Event>, closes: nat,
    service: string, rpc: string, payload: seq<byte>)
    requires Pool.Reachable(Serve(env), n, s) && c in s.conns && HasEnded(env, s.conns[c], id, body, closes)
    requires CallHeaders(HeadersIn(body), service, rpc) && service != "" && service in env.services
    requires var chunks := ChunksIn(body);
             (forall i :: 0 <= i < |chunks| ==> chunks[i] != []) && Concat(chunks) == Encode(payload)
    ensures var k, hs, chunks := s.conns[c], HeadersIn(body), ChunksIn(body);
            var mine := PostedTo(k.core.posted, id);
            var accepted := FeedAll(env.sign, FRESH, chunks).Some?;
            var arrives := LengthDecodes(env.sign, |payload|) && CutAtPrefix(chunks);
            && (k.fatal <==> Doomed(Shows(env, k)))
            && (|payload| < UINT32_RANGE ==> accepted)
            && (!k.fatal ==>
                  && |mine| == 1
                  && (accepted ==>
                        AnswersCall(mine[0].resp, id, env.services[service], hs, rpc, if arrives then payload else []))
                  && (!accepted ==> mine[0].resp == Resp(id, Status(3, ""), FRESH))
                  && Reads(FramesFor(k, id), mine[0].resp)
                  && Rendered(FramesFor(k, id), mine[0]))
  {
    hide Serve, Pool.Reachable, HasEnded, PostedTo, FramesFor, Rendered, AnswersCall, Encode, CallHeaders, FeedAll,
      Shows, LengthDecodes, CutAtPrefix, MsgData, Doomed, Reads;
    StreamIsAnswered(env, n, s, c, id, body, closes);
    var chunks := ChunksIn(body);
    EncodedOutcome(env.sign, payload, chunks);
    if FeedAll(env.sign, FRESH, chunks).Some? {
      assert Dispatchable(env.sign, HeadersIn(body), chunks, service);
    }
  }

  /**
   * The calls that reach no handler: on every run, a stream that is not dispatchable is answered once with
   * INVALID_ARGUMENT, and a dispatchable one for a service that is not registered once with NOT_FOUND, unless
   * a doomed batch ends the process. They carry no message, so they leave whole however small the peer's
   * windows are.
   */
  lemma CallIsRefused<H>(
    env: Env<H>, n: nat, s: Pool.State<Core<H>>, c: nat, id: int, body: seq<Event>, closes: nat)
    requires Pool.Reachable(Serve(env), n, s) && c in s.conns && HasEnded(env, s.conns[c], id, body, closes)
    requires forall service :: Dispatchable(env.sign, HeadersIn(body), ChunksIn(body), service) ==>
               service !in env.services
    ensures var k, mine := s.conns[c], PostedTo(s.conns[c].core.posted, id);
            var found := exists service :: Dispatchable(env.sign, HeadersIn(body), ChunksIn(body), service);
            && (k.fatal <==> Doomed(Shows(env, k)))
            && (!k.fatal ==>
                  && |mine| == 1
                  && mine[0].resp == Resp(id, Status(if found then 5 else 3, ""), FRESH)
                  && RenderedWhole(FramesFor(k, id), mine[0].resp)
                  && IsRefusal(FramesFor(k, id), id, if found then "5" else "3"))
  {
    hide Serve, Pool.Reachable, HasEnded, PostedTo, FramesFor, Dispatchable, RenderedWhole, IsResponsePart, AnswersCall,
      CallHeaders, Covers, Doomed, Shows;
    StreamIsAnswered(env, n, s, c, id, body, closes);
    var mine := PostedTo(s.conns[c].core.posted, id);
    if !s.conns[c].fatal {
      CoversNone(mine[0].rooms);
      RefusalReads(FramesFor(s.conns[c], id), mine[0].resp);
    }
  }

  /** An answer on the wire that consists of headers, empty data frames and a status alone. */
  predicate IsRefusal(frames: seq<Frame>, id: int, status: string) {
    var last := |frames| - 1;
    && last >= 1
    && frames[0] == HeadersFrame(id, [Header(":status", "200"), Header("content-type", "application/grpc")])
    && (forall i :: 0 < i < last ==> frames[i] == DataFrame(id, []))
    && frames[last] == TrailersFrame(id, [Header("grpc-status", status)])
  }

  lemma RefusalReads(frames: seq<Frame>, r: Resp)
    requires RenderedWhole(frames, r) && r.msg == FRESH && r.status.details == "" && r.status.code in {3, 5}
    ensures IsRefusal(frames, r.id, if r.status.code == 3 then "3" else "5")
  {
    hide Spelled, Concat, Decimal;
    RefusalTexts();
    var status := Decimal(r.status.code);
    var parts: seq<seq<byte>> :| Concat(parts) == [] && frames == Spelled(r.id, parts, status, "");
    SpelledShape(r.id, parts, status, "");
    forall i | 0 < i < |frames| - 1
      ensures frames[i] == DataFrame(r.id, [])
    {
      PartOfSpelled(r.id, parts, status, i);
      EmptyParts(parts, i - 1);
    }
  }

  lemma PartOfSpelled(id: int, parts: seq<seq<byte>>, status: string, i: nat)
    requires 0 < i < |Spelled(id, parts, status, "")| - 1
    ensures i <= |parts| && Spelled(id, parts, status, "")[i] == DataFrame(id, parts[i - 1])
  {
    hide NonEmpty, ResponseHeaders, ResponseTrailers;
  }

  lemma {:induction false} EmptyParts(parts: seq<seq<byte>>, i: nat)
    requires i < |parts| && Concat(parts) == []
    ensures parts[i] == []
  {
    var n := |parts| - 1;
    assert |Concat(parts)| == |Concat(parts[..n])| + |parts[n]|;
    if i < n {
      EmptyParts(parts[..n], i);
    }
  }

  /**
   * When a connection waits for bytes or is over, and its last write has not failed, each stream that has ended
   * is answered by frames that have been written, not merely buffered.
   */
  lemma AnswerIsSent<H>(
    env: Env<H>, n: nat, s: Pool.State<Core<H>>, c: nat, id: int, body: seq<Event>, closes: nat)
    requires Pool.Reachable(Serve(env), n, s) && c in s.conns && HasEnded(env, s.conns[c], id, body, closes)
    requires s.conns[c].point.AtReader? || s.conns[c].point.Closed?
    requires Lifecycle.LastWrite(s.conns[c].inputs) != Some(false)
    ensures var k := s.conns[c];
            var mine := PostedTo(k.core.posted, id);
            !k.fatal ==>
              && |mine| == 1 && Verdict(env, id, HeadersIn(body), ChunksIn(body), mine[0].resp)
              && Reads(FramesOf(k.flushed, id), mine[0].resp) && Rendered(FramesOf(k.flushed, id), mine[0])
  {
    hide Serve, Pool.Reachable, HasEnded, PostedTo, FramesOf, Rendered, Verdict, Doomed, Reads, Shows,
      Lifecycle.LastWrite;
    StreamIsAnswered(env, n, s, c, id, body, closes);
    Lifecycle.OutputFlushed(Serve(env), n, s, c);
    var k := s.conns[c];
    assert k.flushed + [] == k.flushed;
  }

  // ----- Control frames

  lemma {:induction false} JobsControl<H>(env: Env<H>, fed: seq<Pool.Lent>)
    ensures var d := Histories.JobsOver(Serve(env), fed);
            !d.fatal ==> ControlOk(env, d.core, d.emitted, fed)
  {
    hide CoreOk, WireOk, Job, Decode, Doomed, Histories.JobsOver, Serve, ControlOk;
    if fed == [] {
      NothingDone(env, 0);
      NothingWanted(env);
    } else {
      var init, last := fed[..|fed| - 1], fed[|fed| - 1];
      JobsControl(env, init);
      assert fed == init + [last];
      OneJobMore(env, init, last);
      var before := Histories.JobsOver(Serve(env), init);
      if !before.fatal {
        JobsDone(env, init, 0);
        CoreKnown(env, before.core, init);
        JobKeepsControl(env, before.core, before.emitted, init, last);
      }
    }
  }

  lemma NothingWanted<H>(env: Env<H>)
    ensures ControlOk(env, Start(env), [], [])
  {
    var control := Control(env.settings);
    assert [control][..0] == [];
    assert [] + [env.settings] == [env.settings];
  }

  /**
   * On every run, unless a doomed batch ends the process, the control frames flushed or buffered are the
   * settings and those nghttp2 wanted sent read by read, in order, each once, but for those that wait in the
   * session since a failed read.
   */
  lemma ControlsSent<H>(env: Env<H>, n: nat, s: Pool.State<Core<H>>, c: nat)
    requires Pool.Reachable(Serve(env), n, s) && c in s.conns
    ensures var k := s.conns[c];
            !k.fatal ==>
              ControlsOf(k.flushed + k.buffer) + ControlsOf(k.core.out.ready) == ControlsWanted(env, k.fed)
  {
    hide Serve, Pool.Reachable, ControlsOf, ControlsWanted;
    Histories.OutboundConserved(Serve(env), n, s, c);
    JobsControl(env, s.conns[c].fed);
  }

  lemma SingleRendered(frames: seq<Frame>, p: Posted)
    requires RendersAll(frames, [p])
    ensures Rendered(frames, p)
  {
    hide Rendered;
    var cut :| 0 <= cut <= |frames| && RendersAll(frames[..cut], [p][..0]) && Rendered(frames[cut..], p);
    assert cut == 0 && frames[cut..] == frames;
  }
}
