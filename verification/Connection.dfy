/** The session, the connection and the reader as the objects whose fields the program updates in place. */
module Connection {
  import opened Base
  import opened Messages
  import opened Requests
  import opened Demux
  import opened Outbound
  import opened Server
  import Pool

  /** lib/grpcxx/h2/session.cpp, around the nghttp2 session `h` and its outbound queues. */
  class Session<H> {
    var h: H
    var raws: seq<Raw>
    var ready: seq<Frame>
    var bodies: seq<int>
    var data: seq<byte>
    var rooms: Rooms
    var closed: set<int>

    function Outgoing(): Out
      reads this
    {
      Out(ready, bodies, data, rooms, closed)
    }

    constructor (h: H, settings: seq<byte>)
      ensures this.h == h && raws == [] && Outgoing() == Out([Control(settings)], [], [], [], {})
    {
      this.h, raws, ready, bodies, data, rooms, closed := h, [], [Control(settings)], [], [], [], {};
    }

    method Emit(raw: Raw)
      modifies this`raws
      ensures raws == old(raws) + [raw]
    {
      raws := raws + [raw];
    }

    method FrameReceived(flags: nat, id: int, ghost buf: seq<byte>)
      modifies this`raws
      ensures raws == old(raws) + (if flags % 2 == 1 then [Whole(End(id))] else [])
      ensures Resolve(raws, buf) == Resolve(old(raws), buf) + FrameEvents(flags, id)
    {
      if flags % 2 == END_STREAM {
        Emit(Whole(End(id)));
      }
    }

    /**
     * nghttp2 calls back once per event, closes streams the peer has reset and moves its windows; on an error
     * the events stay for the next read, views and all.
     */
    method Read(env: Env<H>, bytes: seq<byte>, windows: Rooms) returns (batch: seq<Raw>, threw: bool)
      modifies this`h, this`raws, this`ready, this`rooms, this`closed
      ensures var r := env.recv(old(h), bytes);
              && h == r.h && threw == !r.ok && Outgoing() == Received(old(Outgoing()), r, windows)
              && (if threw then raws == old(raws) + r.raws && batch == []
                  else raws == [] && batch == old(raws) + r.raws)
    {
      hide ClosedIn, Controls;
      var r := env.recv(h, bytes);
      h, rooms := r.h, windows;
      var i := 0;
      assert r.raws[..0] == [];
      NoneClosed();
      while i < |r.raws|
        invariant i <= |r.raws|
        invariant h == r.h && raws == old(raws) + r.raws[..i] && ready == old(ready) && rooms == windows
        invariant closed == old(closed) + ClosedIn(r.raws[..i])
      {
        var raw := r.raws[i];
        ClosedInOne(r.raws[..i], raw);
        assert r.raws[..i + 1] == r.raws[..i] + [raw];
        if raw.Whole? && raw.event.Close? {
          closed := closed + {raw.event.id};
        }
        Emit(raw);
        i := i + 1;
      }
      assert r.raws[..|r.raws|] == r.raws;
      ready := ready + Controls(r.control);
      if !r.ok {
        return [], true;
      }
      batch, raws, threw := raws, [], false;
    }

    method Headers(id: int, fields: seq<Header>)
      modifies this`ready
      ensures ready == old(ready) + [HeadersFrame(id, NonEmpty(fields))]
    {
      var nv := Present(fields);
      ready := ready + [HeadersFrame(id, nv)];
    }

    method Trailers(id: int, fields: seq<Header>)
      modifies this`ready
      ensures ready == old(ready) + [TrailersFrame(id, NonEmpty(fields))]
    {
      var nv := Present(fields);
      ready := ready + [TrailersFrame(id, nv)];
    }

    /** The loop both header functions share: fields with an empty value are dropped, order is kept. */
    static method Present(fields: seq<Header>) returns (nv: seq<Header>)
      ensures nv == NonEmpty(fields)
      ensures forall h :: h in nv <==> h in fields && h.value != ""
    {
      nv := [];
      for i := 0 to |fields|
        invariant nv == NonEmpty(fields[..i])
        invariant forall h :: h in nv <==> h in fields[..i] && h.value != ""
      {
        assert fields[..i + 1][..i] == fields[..i];
        if fields[i].value != "" {
          nv := nv + [fields[i]];
        }
      }
      assert fields[..|fields|] == fields;
    }

    /** The data string is replaced first; nghttp2 refuses a body for a closed stream, and then it throws. */
    method SubmitData(id: int, bytes: seq<byte>) returns (threw: bool)
      modifies this`bodies, this`data
      ensures data == bytes && threw == (id in closed)
      ensures bodies == if threw then old(bodies) else old(bodies) + [id]
    {
      data := bytes;
      if id in closed {
        return true;
      }
      bodies := bodies + [id];
      return false;
    }

    method ReadCallback(length: nat) returns (piece: seq<byte>, eof: bool)
      modifies this`data
      ensures Piece(piece, eof, data) == ReadCb(old(data), length)
      ensures piece + data == old(data) && |piece| == (if length < |old(data)| then length else |old(data)|)
      ensures eof <==> |old(data)| <= length
    {
      var n := length;
      eof := false;
      if n >= |data| {
        n := |data|;
        eof := true;
      }
      piece := data[..n];
      data := data[n..];
    }

    /**
     * The next frame nghttp2 wants sent; empty when there is none, or when the peer's window is closed.
     * Trailers end their stream, and `stream_close_cb` emits its closing.
     */
    method Pending() returns (chunk: seq<Frame>)
      modifies this`ready, this`bodies, this`data, this`rooms, this`closed, this`raws
      ensures SendAll(old(Outgoing())) == Ahead(Outgoing(), chunk)
      ensures raws == old(raws) + ClosedBy(chunk)
      ensures chunk == [] ==> ready == old(ready) && bodies == old(bodies) && data == old(data)
      ensures chunk != [] ==>
                || |ready| < |old(ready)|
                || (|ready| == |old(ready)| && |bodies| < |old(bodies)|)
                || (|ready| == |old(ready)| && |bodies| == |old(bodies)| && |data| < |old(data)|)
    {
      hide Drain;
      if ready != [] {
        var frame := ready[0];
        ready := ready[1..];
        chunk := [frame];
        assert chunk[..0] == [];
        if frame.TrailersFrame? {
          bodies := Without(bodies, frame.id);
          closed := closed + {frame.id};
          Emit(Whole(Close(frame.id)));
        }
      } else if bodies == [] {
        chunk := [];
      } else {
        ghost var before := Outgoing();
        var room := Room(rooms);
        rooms := Later(rooms);
        if room == 0 {
          SendBlocked(before);
          return [];
        }
        var id := bodies[0];
        var piece, eof := ReadCallback(room);
        if eof {
          bodies := bodies[1..];
        }
        chunk := [DataFrame(id, piece)];
        assert chunk[..0] == [];
        SendBodyPiece(before);
      }
    }
  }

  lemma NoneClosed()
    ensures ClosedIn([]) == {}
  {
  }

  lemma ClosedInOne(raws: seq<Raw>, raw: Raw)
    ensures ClosedIn(raws + [raw]) ==
            ClosedIn(raws) + (if raw.Whole? && raw.event.Close? then {raw.event.id} else {})
  {
    var all := raws + [raw];
    forall id
      ensures id in ClosedIn(all) <==> id in ClosedIn(raws) || raw == Whole(Close(id))
    {
      ClosedInHas(all, id);
      ClosedInHas(raws, id);
    }
  }

  /** What a round of `pending()` comes to that has just given `chunk`: an empty chunk ends it. */
  function Ahead(o: Out, chunk: seq<Frame>): Sent {
    if chunk == [] then Sent(o, []) else Sent(SendAll(o).out, chunk + SendAll(o).frames)
  }

  lemma SendBlocked(o: Out)
    requires o.ready == [] && o.bodies != [] && Room(o.rooms) == 0
    ensures SendAll(o) == Sent(o.(rooms := Later(o.rooms)), [])
  {
    DrainStep(o.data, o.rooms);
  }

  /** What is left when a piece of the first body has left. */
  function PieceLeft(o: Out): Out
    requires o.bodies != [] && Room(o.rooms) > 0
  {
    var piece := ReadCb(o.data, o.rooms[0]);
    o.(bodies := if piece.eof then o.bodies[1..] else o.bodies, data := piece.rest, rooms := o.rooms[1..])
  }

  /** Drawing one piece of a body and then the rest is drawing all of it. */
  lemma SendBodyPiece(o: Out)
    requires o.ready == [] && o.bodies != [] && Room(o.rooms) > 0
    ensures SendAll(o) == Ahead(PieceLeft(o), [DataFrame(o.bodies[0], ReadCb(o.data, o.rooms[0]).bytes)])
  {
    hide Drain, SendAll;
    var piece, d := ReadCb(o.data, o.rooms[0]), Drain(o.data, o.rooms);
    var first := [DataFrame(o.bodies[0], piece.bytes)];
    DrainStep(o.data, o.rooms);
    SendBodies(o);
    if piece.eof {
      OnePieceBytes(piece);
      assert DataFrames(o.bodies[0], PieceBytes(d.pieces)) == first;
    } else {
      SendBodies(PieceLeft(o));
      FirstFrame(o.bodies[0], piece, Drain(piece.rest, o.rooms[1..]).pieces);
      hide DataFrames, PieceBytes;
      var more := DataFrames(o.bodies[0], PieceBytes(Drain(piece.rest, o.rooms[1..]).pieces));
      var last := SendAll(o.(bodies := o.bodies[1..], data := d.rest, rooms := d.rooms));
      assert first + (more + last.frames) == (first + more) + last.frames;
    }
  }

  lemma FirstFrame(id: int, piece: Piece, others: seq<Piece>)
    ensures DataFrames(id, PieceBytes([piece] + others)) ==
            [DataFrame(id, piece.bytes)] + DataFrames(id, PieceBytes(others))
  {
    FirstPieceBytes(piece, others);
  }

  lemma SendBodies(o: Out)
    requires o.ready == [] && o.bodies != []
    ensures var d := Drain(o.data, o.rooms);
            var frames := DataFrames(o.bodies[0], PieceBytes(d.pieces));
            var o1 := o.(data := d.rest, rooms := d.rooms);
            var last := SendAll(o1.(bodies := o.bodies[1..]));
            SendAll(o) == if d.done then Sent(last.out, frames + last.frames) else Sent(o1, frames)
  {
    hide Drain, PieceBytes, DataFrames;
  }

  /** One turn of the loop in `buffer`. */
  lemma BufferTurn(before: seq<Frame>, chunk: seq<Frame>, o: Out, chunk': seq<Frame>, o': Out)
    requires chunk != [] && SendAll(o) == Ahead(o', chunk')
    ensures Ahead(o, chunk).out == Ahead(o', chunk').out
    ensures before + Ahead(o, chunk).frames == (before + chunk) + Ahead(o', chunk').frames
  {
    hide SendAll;
  }

  /** lib/grpcxx/uv/conn.cpp. `batches` and `posted` record what `Core` records. */
  class Conn<H> {
    const session: Session<H>
    var streams: Streams
    var buffer: seq<Frame>
    ghost var batches: seq<seq<Event>>
    ghost var posted: seq<Posted>

    ghost function State(): Core<H>
      reads this, session
    {
      Core(session.h, session.raws, streams, session.Outgoing(), batches, posted)
    }

    constructor (env: Env<H>)
      ensures State() == Start(env) && buffer == [] && fresh(session)
    {
      session := new Session(env.h2, env.settings);
      streams, buffer, batches, posted := map[], [], [], [];
    }

    /** Append whatever is pending, until nothing is. */
    method Buffer()
      modifies this`buffer, session`ready, session`bodies, session`data, session`rooms, session`closed, session`raws
      ensures var s := SendAll(old(session.Outgoing()));
              && session.Outgoing() == s.out && buffer == old(buffer) + s.frames
              && session.raws == old(session.raws) + ClosedBy(s.frames)
    {
      hide SendAll, ClosedBy;
      ghost var all := SendAll(session.Outgoing());
      ghost var before := [];
      var chunk := session.Pending();
      assert [] + all.frames == all.frames && [] + chunk == chunk;
      while chunk != []
        invariant buffer == old(buffer) + before
        invariant all.out == Ahead(session.Outgoing(), chunk).out
        invariant all.frames == before + Ahead(session.Outgoing(), chunk).frames
        invariant session.raws == old(session.raws) + ClosedBy(before + chunk)
        decreases |session.ready|, |session.bodies|, |session.data|, |chunk|
      {
        ghost var last, o := chunk, session.Outgoing();
        buffer := buffer + chunk;
        chunk := session.Pending();
        BufferTurn(before, last, o, chunk, session.Outgoing());
        before := before + last;
        ClosedByAdd(before, chunk);
      }
      assert before + [] == before;
    }

    /** One event of the loop in `read`; `reqs` is the list built so far. */
    method Handle(sign: CharSign, ev: Event, reqs: seq<Req>) returns (reqs': seq<Req>)
      modifies this`streams
      ensures Outcome(streams, reqs') ==
              var o := Step(sign, old(streams), ev); Outcome(o.streams, o.requests + reqs)
      ensures ev.id > 0 ==> (ev.id in streams <==> !ev.End? && !ev.Close?)
      ensures streams.Keys - {ev.id} == old(streams.Keys) - {ev.id} && (ev.id <= 0 ==> streams == old(streams))
    {
      hide ApplyHeader, ApplyData;
      StepEntries(sign, streams, ev);
      reqs' := reqs;
      if ev.id <= 0 {
        return;
      }
      if ev.Close? {
        streams := streams - {ev.id};
        return;
      }
      if ev.id !in streams {
        streams := streams[ev.id := NewReq(ev.id)];
      }
      var req := new Request.Of(streams[ev.id]);
      match ev
      case Data(id, bytes) =>
        req.Read(sign, bytes);
        streams := streams[id := req.State()];
      case End(id) =>
        reqs' := [req.State()] + reqs;
        streams := streams - {id};
      case HeaderField(id, header) =>
        req.AddHeader(header.name, header.value);
        streams := streams[id := req.State()];
      case _ =>
    }

    /** The event loop over a batch, whose views show what the buffer holds now. */
    method Demultiplex(sign: CharSign, batch: seq<Raw>, buf: seq<byte>) returns (reqs: seq<Req>)
      modifies this`streams
      ensures Outcome(streams, reqs) == Run(sign, old(streams), Resolve(batch, buf))
    {
      hide Step, Shown;
      ghost var events := Resolve(batch, buf);
      reqs := [];
      var i := 0;
      while i < |batch|
        invariant i <= |batch|
        invariant Outcome(streams, reqs) == Run(sign, old(streams), events[..i])
      {
        reqs := Handle(sign, Shown(batch[i], buf), reqs);
        assert events[..i + 1][..i] == events[..i];
        i := i + 1;
      }
      assert events[..|batch|] == events;
    }

    /** `threw` is the exception of `session::read`: nothing is demultiplexed and nothing buffered. */
    method Read(env: Env<H>, lent: Pool.Lent) returns (reqs: seq<Req>, threw: bool)
      modifies this, session
      ensures var r := env.recv(old(session.h), Pool.Chunk(lent));
              var raws := old(session.raws) + r.raws;
              var out := Received(old(session.Outgoing()), r, lent.rooms);
              && session.h == r.h && threw == !r.ok && posted == old(posted)
              && (if threw
                  then && session.raws == raws && session.Outgoing() == out && reqs == []
                       && streams == old(streams) && buffer == old(buffer) && batches == old(batches)
                  else var batch, s := Resolve(raws, lent.buf), SendAll(out);
                       && batches == old(batches) + [batch]
                       && Outcome(streams, reqs) == Run(env.sign, old(streams), batch)
                       && session.Outgoing() == s.out && buffer == old(buffer) + s.frames
                       && session.raws == ClosedBy(s.frames))
    {
      hide Run, SendAll, Received, Resolve, ClosedBy;
      var batch;
      batch, threw := session.Read(env, Pool.Chunk(lent), lent.rooms);
      reqs := [];
      if threw {
        return;
      }
      batches := batches + [Resolve(batch, lent.buf)];
      reqs := Demultiplex(env.sign, batch, lent.buf);
      Buffer();
    }

    /**
     * Headers and data are submitted and drained together, trailers after them. `died` tells that
     * `session::data` threw, which leaves this `noexcept` function by ending the process.
     */
    method Write(resp: Resp) returns (died: bool)
      modifies this`buffer, this`posted
      modifies session`ready, session`bodies, session`data, session`rooms, session`closed, session`raws
      ensures died == (resp.id in old(session.closed))
      ensures died ==> buffer == old(buffer) && posted == old(posted)
      ensures !died ==>
                var s := WriteOne(old(session.Outgoing()), resp);
                && session.Outgoing() == s.out && buffer == old(buffer) + s.frames
                && session.raws == old(session.raws) + ClosedBy(s.frames)
                && posted == old(posted) + [Posted(resp, old(session.rooms))]
    {
      hide SendAll, NonEmpty, Decimal, ClosedBy;
      ghost var rooms := session.rooms;
      session.Headers(resp.id, ResponseHeaders());
      died := session.SubmitData(resp.id, MsgBytes(resp.msg));
      if died {
        return;
      }
      ghost var first := SendAll(session.Outgoing()).frames;
      Buffer();
      session.Trailers(resp.id, ResponseTrailers(Decimal(resp.status.code), resp.status.details));
      ghost var second := SendAll(session.Outgoing()).frames;
      Buffer();
      posted := posted + [Posted(resp, rooms)];
      ClosedByAdd(first, second);
    }

    /** The write of the whole buffer; cleared only if it succeeded. An empty buffer is not written. */
    method Flush(ok: bool) returns (written: seq<Frame>)
      modifies this`buffer
      ensures written == (if ok then old(buffer) else []) && buffer == (if ok then [] else old(buffer))
      ensures Pool.Flushed(written, buffer) == Pool.WholeBuffer(old(buffer), ok)
    {
      written := [];
      if buffer == [] {
        return;
      }
      if ok {
        written := buffer;
        buffer := [];
      }
    }

    /** The loop of the lambda: one answer per request, in list order, as far as the process lives. */
    method Answer(env: Env<H>, reqs: seq<Req>) returns (died: bool)
      modifies this`buffer, this`posted
      modifies session`ready, session`bodies, session`data, session`rooms, session`closed, session`raws
      ensures var w := WriteAll(env.services, old(session.Outgoing()), reqs);
              && died == w.died && buffer == old(buffer) + w.frames && posted == old(posted) + w.posted
              && (!died ==>
                    session.Outgoing() == w.out && session.raws == old(session.raws) + ClosedBy(w.frames))
    {
      hide Process, WriteOne, ClosedBy;
      ghost var out := session.Outgoing();
      died := false;
      var i := 0;
      ClosedByNone([]);
      while i < |reqs|
        invariant i <= |reqs|
        invariant var w := WriteAll(env.services, out, reqs[..i]);
                  && !w.died && session.Outgoing() == w.out
                  && buffer == old(buffer) + w.frames && posted == old(posted) + w.posted
                  && session.raws == old(session.raws) + ClosedBy(w.frames)
      {
        var resp := Process(env.services, reqs[i]);
        ghost var w := WriteAll(env.services, out, reqs[..i]);
        assert reqs[..i + 1][..i] == reqs[..i];
        died := Write(resp);
        if died {
          assert WriteAll(env.services, out, reqs[..i + 1]) == w.(died := true);
          DeadStaysDead(env.services, out, reqs, i + 1);
          return;
        }
        ClosedByAdd(w.frames, WriteOne(w.out, resp).frames);
        i := i + 1;
      }
      assert reqs[..|reqs|] == reqs;
    }

    /** The lambda of `server::conn`: it does what the job function says, exception and end of process included. */
    method RunJob(env: Env<H>, lent: Pool.Lent) returns (threw: bool, died: bool)
      modifies this, session
      ensures var r := Job(env, old(State()), lent);
              && threw == r.threw && died == r.fatal && buffer == old(buffer) + r.emitted
              && (!died ==> State() == r.core)
    {
      hide Run, SendAll, WriteAll, Received, Resolve, ClosedBy;
      ghost var r := env.recv(session.h, Pool.Chunk(lent));
      ghost var sent := SendAll(Received(session.Outgoing(), r, lent.rooms));
      died := false;
      var reqs;
      reqs, threw := Read(env, lent);
      if threw {
        return;
      }
      died := Answer(env, reqs);
      ClosedByAdd(sent.frames, WriteAll(env.services, sent.out, reqs).frames);
    }
  }

  lemma {:induction false} DeadStaysDead(services: map<string, Handler>, out: Out, requests: seq<Req>, i: nat)
    requires i <= |requests| && WriteAll(services, out, requests[..i]).died
    ensures WriteAll(services, out, requests) == WriteAll(services, out, requests[..i])
  {
    hide Process, WriteOne;
    if i == |requests| {
      assert requests[..i] == requests;
    } else {
      var init := requests[..|requests| - 1];
      assert init[..i] == requests[..i];
      DeadStaysDead(services, out, init, i);
    }
  }

  /** lib/grpcxx/uv/reader.cpp. */
  class StreamReader {
    const buf: array<byte>
    var nread: nat
    var eos: bool
    var failed: bool
    var waiting: bool
    var reading: bool

    function State(): Pool.Reader
      reads this, buf
    {
      Pool.Reader(buf[..], nread, eos, failed, waiting, reading)
    }

    constructor ()
      ensures fresh(buf) && buf.Length == 1024
      ensures State() == Pool.Reader(Pool.Zeros(), 0, false, false, false, false)
    {
      buf := new byte[Pool.CAPACITY](i => 0);
      nread, eos, failed, waiting, reading := 0, false, false, false, false;
      new;
      assert buf[..] == Pool.Zeros();
    }

    /** Start reading; `started` is libuv's answer. True means there is nothing to wait for. */
    method AwaitReady(started: bool) returns (ready: bool)
      modifies this
      ensures ready == !started
      ensures State() == old(State()).(reading := old(reading) || started, failed := old(failed) || !started)
    {
      if !started {
        failed := true;
        return true;
      }
      reading := true;
      return false;
    }

    method AwaitSuspend()
      modifies this
      ensures State() == old(State()).(waiting := true)
    {
      waiting := true;
    }

    /** The bytes read since the last call; `threw` rethrows a stored error. Reading stops only with bytes. */
    method AwaitResume() returns (view: seq<byte>, threw: bool)
      requires nread <= buf.Length
      modifies this
      ensures threw == old(failed)
      ensures view == if !old(failed) && !old(eos) then buf[..old(nread)] else []
      ensures !waiting && (!old(failed) && !old(eos) ==> nread == 0 && !reading)
      ensures State() == Pool.Taken(old(State()))
    {
      waiting := false;
      if failed {
        return [], true;
      }
      if eos {
        return [], false;
      }
      var size := nread;
      nread := 0;
      reading := false;
      return buf[..size], false;
    }

    /** libuv has put `d` into the buffer; `resume` tells whether a coroutine is woken. */
    method ReadCb(d: Pool.Delivery) returns (resume: bool)
      requires d.Bytes? ==> |d.data| <= buf.Length
      modifies this, buf
      ensures resume == waiting
      ensures State() == Pool.Filled(old(State()), d)
    {
      match d {
      case Bytes(data) =>
        ghost var before := buf[..];
        var i := 0;
        while i < |data|
          invariant i <= |data| <= buf.Length == |before|
          invariant forall x :: 0 <= x < i ==> buf[x] == data[x]
          invariant forall x :: i <= x < buf.Length ==> buf[x] == before[x]
          invariant nread == old(nread) && eos == old(eos) && failed == old(failed)
          invariant waiting == old(waiting) && reading == old(reading)
        {
          buf[i] := data[i];
          i := i + 1;
        }
        nread := |data|;
        assert buf[..] == data + before[|data|..];
      case Eof => eos := true;
      case Failure => failed := true;
      }
      resume := waiting;
    }

    /** The destructor stops reading; nobody waits any more. */
    method Destroy()
      modifies this
      ensures State() == old(State()).(reading := false, waiting := false)
    {
      reading, waiting := false, false;
    }
  }

  /**
   * One `co_await reader` of connection `k`, from its start over the callback to what it returns: the delivered
   * bytes, nothing at the end of the stream, or an exception, after which the coroutine ends and destroys the
   * reader. The reader goes through the states of the connection in the pool.
   */
  method ReadOnce<C>(
    ghost k: Pool.Conn<C>, reader: StreamReader, started: bool, d: Pool.Delivery, ghost rooms: Rooms)
    returns (view: seq<byte>, threw: bool)
    requires reader.State() == k.reader && Pool.Alive(k.reader) && k.reader.nread <= |k.reader.buf| == Pool.CAPACITY
    requires d.Bytes? ==> |d.data| <= Pool.CAPACITY
    modifies reader, reader.buf
    ensures threw == (!started || d.Failure?) && view == if started && d.Bytes? then d.data else []
    ensures var began := Pool.BeginRead(k, started);
            reader.State() == if started then Pool.TakeBytes(Pool.Deliver(began, d, rooms)).reader else began.reader
  {
    var ready := reader.AwaitReady(started);
    if !ready {
      reader.AwaitSuspend();
      var resumed := reader.ReadCb(d);
      assert resumed;
      assert d.Bytes? ==> reader.buf[..|d.data|] == d.data;
    }
    view, threw := reader.AwaitResume();
    if threw {
      reader.Destroy();
    }
  }

  /** The first `co_await reader` of a connection, from the construction of the reader on. */
  method FirstRead<C>(ghost p: Pool.Program<C>, started: bool, d: Pool.Delivery, ghost rooms: Rooms)
    returns (view: seq<byte>, threw: bool, reader: StreamReader)
    requires d.Bytes? ==> |d.data| <= Pool.CAPACITY
    ensures threw == (!started || d.Failure?) && view == if started && d.Bytes? then d.data else []
    ensures var began := Pool.BeginRead(Pool.NewConn(p), started);
            reader.State() == if started then Pool.TakeBytes(Pool.Deliver(began, d, rooms)).reader else began.reader
  {
    reader := new StreamReader();
    view, threw := ReadOnce(Pool.NewConn(p), reader, started, d, rooms);
  }
}
