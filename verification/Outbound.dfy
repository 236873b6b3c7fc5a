/**
 * lib/grpcxx/h2/session.cpp and lib/grpcxx/uv/conn.cpp, outbound: what is submitted to the HTTP/2
 * session, how the session draws it, and what ends up in the connection's buffer.
 *
 * nghttp2 itself is not part of the repository. It is taken to send control, header and trailer frames
 * at once and in the order of submission, to ask for body bytes only as far as the peer's flow-control
 * window is open (section 5.2 of RFC 9113: flow control applies to DATA frames only), to close a
 * stream, giving up what is left of its body, when its trailers have left, and to refuse a body for a
 * stream that is closed.
 */
module Outbound {
  import opened Base
  import opened Requests

  datatype Frame =
    | Control(bytes: seq<byte>)
    | HeadersFrame(id: int, fields: seq<Header>)
    | DataFrame(id: int, bytes: seq<byte>)
    | TrailersFrame(id: int, fields: seq<Header>)

  /**
   * The room for body bytes at the coming attempts of nghttp2 to send some: what the buffer offered to
   * the read callback and the peer's windows leave. Zero, or the end of the list, is a closed window.
   */
  type Rooms = seq<nat>

  function Room(rooms: Rooms): nat {
    if rooms == [] then 0 else rooms[0]
  }

  function Later(rooms: Rooms): Rooms {
    if rooms == [] then [] else rooms[1..]
  }

  // ----- The empty-value filter of `headers` and `trailers`

  function NonEmpty(fields: seq<Header>): seq<Header> {
    if fields == [] then []
    else
      var init, last := NonEmpty(fields[..|fields| - 1]), fields[|fields| - 1];
      if last.value == "" then init else init + [last]
  }

  // ----- The read callback

  datatype Piece = Piece(bytes: seq<byte>, eof: bool, rest: seq<byte>)

  function ReadCb(data: seq<byte>, length: nat): Piece {
    if length >= |data| then Piece(data, true, []) else Piece(data[..length], false, data[length..])
  }

  /** As much as fits is read, the rest stays, and the flag is set exactly if nothing needs to stay. */
  lemma ReadCbExact(data: seq<byte>, length: nat)
    ensures var piece := ReadCb(data, length);
            && piece.bytes + piece.rest == data
            && |piece.bytes| == (if length < |data| then length else |data|)
            && (piece.eof <==> |data| <= length)
  {
  }

  /**
   * What drawing a body comes to: the pieces read, the bytes left in the data string, whether the
   * end-of-file flag was set, and the rooms left.
   */
  datatype Drained = Drained(pieces: seq<Piece>, rest: seq<byte>, done: bool, rooms: Rooms)

  /** Draw from `data` until the end-of-file flag or a closed window. */
  function Drain(data: seq<byte>, rooms: Rooms): Drained
    decreases |rooms|
  {
    if Room(rooms) == 0 then Drained([], data, false, Later(rooms))
    else
      var piece := ReadCb(data, rooms[0]);
      if piece.eof then Drained([piece], [], true, rooms[1..])
      else
        var others := Drain(piece.rest, rooms[1..]);
        others.(pieces := [piece] + others.pieces)
  }

  function PieceBytes(pieces: seq<Piece>): (parts: seq<seq<byte>>)
    ensures |parts| == |pieces|
    ensures forall i :: 0 <= i < |parts| ==> parts[i] == pieces[i].bytes
  {
    seq(|pieces|, i requires 0 <= i < |pieces| => pieces[i].bytes)
  }

  // ----- How much the windows grant

  function Granted(rooms: Rooms): nat {
    if rooms == [] then 0 else rooms[0] + Granted(rooms[1..])
  }

  /** The window is open at the first `k` attempts, which grant at least `n` bytes. */
  ghost predicate GrantedBy(rooms: Rooms, k: nat, n: nat) {
    k <= |rooms| && (forall i :: 0 <= i < k ==> rooms[i] > 0) && Granted(rooms[..k]) >= n
  }

  /** The peer takes `n` bytes before its window closes. */
  ghost predicate Covers(rooms: Rooms, n: nat) {
    exists k: nat :: GrantedBy(rooms, k, n)
  }

  lemma CoversNone(rooms: Rooms)
    ensures Covers(rooms, 0)
  {
    assert GrantedBy(rooms, 0, 0);
  }

  lemma GrantedFirst(rooms: Rooms, k: nat)
    requires 0 < k <= |rooms|
    ensures Granted(rooms[..k]) == rooms[0] + Granted(rooms[1..][..k - 1])
  {
    assert rooms[..k][1..] == rooms[1..][..k - 1];
  }

  lemma CoversStep(rooms: Rooms, n: nat)
    requires n > 0
    ensures Covers(rooms, n) <==> Room(rooms) > 0 && (rooms[0] >= n || Covers(rooms[1..], n - rooms[0]))
  {
    if Covers(rooms, n) {
      var k: nat :| GrantedBy(rooms, k, n);
      assert rooms[..0] == [];
      GrantedFirst(rooms, k);
      if rooms[0] < n {
        assert GrantedBy(rooms[1..], k - 1, n - rooms[0]);
      }
    }
    if Room(rooms) > 0 {
      if rooms[0] >= n {
        GrantedFirst(rooms, 1);
        assert GrantedBy(rooms, 1, n);
      } else if Covers(rooms[1..], n - rooms[0]) {
        var k: nat :| GrantedBy(rooms[1..], k, n - rooms[0]);
        GrantedFirst(rooms, k + 1);
        assert forall i :: 0 <= i < k ==> rooms[1..][i] == rooms[i + 1];
        assert GrantedBy(rooms, k + 1, n);
      }
    }
  }

  /** A window that stays open at as many attempts as there are bytes covers them, however little it grants. */
  lemma {:induction false} StaysOpen(rooms: Rooms, n: nat)
    requires n <= |rooms| && forall i :: 0 <= i < |rooms| ==> rooms[i] > 0
    ensures Covers(rooms, n)
    decreases n
  {
    if n == 0 {
      CoversNone(rooms);
    } else {
      CoversStep(rooms, n);
      if rooms[0] < n {
        StaysOpen(rooms[1..], n - rooms[0]);
      }
    }
  }

  lemma DrainStep(data: seq<byte>, rooms: Rooms)
    ensures Room(rooms) == 0 ==> Drain(data, rooms) == Drained([], data, false, Later(rooms))
    ensures Room(rooms) > 0 && Room(rooms) >= |data| ==>
              Drain(data, rooms) == Drained([ReadCb(data, rooms[0])], [], true, rooms[1..])
    ensures 0 < Room(rooms) < |data| ==>
              var piece, d := ReadCb(data, rooms[0]), Drain(data, rooms);
              var others := Drain(piece.rest, rooms[1..]);
              d == others.(pieces := [piece] + others.pieces)
  {
  }

  lemma {:induction false} DrainAdds(data: seq<byte>, rooms: Rooms)
    ensures Concat(PieceBytes(Drain(data, rooms).pieces)) + Drain(data, rooms).rest == data
    decreases |rooms|
  {
    hide PieceBytes, Concat, Drain;
    DrainStep(data, rooms);
    if Room(rooms) == 0 {
      NoPieces();
    } else if rooms[0] >= |data| {
      LastPiece(ReadCb(data, rooms[0]));
    } else {
      var piece := ReadCb(data, rooms[0]);
      var others := Drain(piece.rest, rooms[1..]);
      DrainAdds(piece.rest, rooms[1..]);
      AddPiece(piece, others.pieces, others.rest);
      assert piece.bytes + piece.rest == data;
    }
  }

  lemma LastPiece(piece: Piece)
    ensures Concat(PieceBytes([piece])) + [] == piece.bytes
  {
    hide PieceBytes, Concat;
    OnePieceBytes(piece);
    ConcatSingle(piece.bytes);
  }

  lemma AddPiece(piece: Piece, others: seq<Piece>, rest: seq<byte>)
    ensures Concat(PieceBytes([piece] + others)) + rest == piece.bytes + (Concat(PieceBytes(others)) + rest)
  {
    hide PieceBytes, Concat;
    FirstPieceBytes(piece, others);
    ConcatFront(piece.bytes, PieceBytes(others));
  }

  lemma {:induction false} DrainLeaves(data: seq<byte>, rooms: Rooms)
    ensures Drain(data, rooms).rest == [] <==> Covers(rooms, |data|)
    decreases |rooms|
  {
    hide Covers, Drain;
    DrainStep(data, rooms);
    if data == [] {
      CoversNone(rooms);
    } else {
      CoversStep(rooms, |data|);
      if 0 < Room(rooms) < |data| {
        DrainLeaves(data[rooms[0]..], rooms[1..]);
      }
    }
  }

  /**
   * The pieces and what stays add up to the data, and nothing stays exactly if the windows cover it; in
   * particular if all rooms are positive and there are enough of them.
   */
  lemma DrainConserves(data: seq<byte>, rooms: Rooms)
    ensures var d := Drain(data, rooms);
            && Concat(PieceBytes(d.pieces)) + d.rest == data
            && (d.rest == [] <==> Covers(rooms, |data|))
            && ((forall i :: 0 <= i < |rooms| ==> rooms[i] > 0) && |data| <= |rooms| ==>
                  Concat(PieceBytes(d.pieces)) == data)
  {
    hide Drain, PieceBytes, Concat, Covers;
    DrainAdds(data, rooms);
    DrainLeaves(data, rooms);
    var d := Drain(data, rooms);
    if (forall i :: 0 <= i < |rooms| ==> rooms[i] > 0) && |data| <= |rooms| {
      StaysOpen(rooms, |data|);
      assert Concat(PieceBytes(d.pieces)) + [] == Concat(PieceBytes(d.pieces));
    }
  }

  lemma OnePieceBytes(piece: Piece)
    ensures PieceBytes([piece]) == [piece.bytes]
  {
  }

  lemma FirstPieceBytes(piece: Piece, others: seq<Piece>)
    ensures PieceBytes([piece] + others) == [piece.bytes] + PieceBytes(others)
  {
  }

  lemma NoPieces()
    ensures Concat(PieceBytes([])) == []
  {
  }

  /** At most one end-of-file flag, on the last piece; each piece fits its room. */
  ghost predicate FlagsOk(d: Drained, rooms: Rooms) {
    && |d.pieces| <= |rooms|
    && (forall i :: 0 <= i < |d.pieces| ==> (d.pieces[i].eof <==> d.done && i == |d.pieces| - 1))
    && (forall i :: 0 <= i < |d.pieces| ==> |d.pieces[i].bytes| <= rooms[i])
    && (if d.done then d.rest == [] && d.pieces != [] else Room(rooms[|d.pieces|..]) == 0)
  }

  lemma FlagsAdd(piece: Piece, d: Drained, rooms: Rooms)
    requires rooms != [] && !piece.eof && |piece.bytes| <= rooms[0] && FlagsOk(d, rooms[1..])
    ensures FlagsOk(d.(pieces := [piece] + d.pieces), rooms)
  {
    var pieces := [piece] + d.pieces;
    assert rooms[1..][|d.pieces|..] == rooms[|pieces|..];
    forall i | 0 <= i < |pieces|
      ensures pieces[i].eof <==> d.done && i == |pieces| - 1
      ensures |pieces[i].bytes| <= rooms[i]
    {
      if i > 0 {
        assert pieces[i] == d.pieces[i - 1] && rooms[i] == rooms[1..][i - 1];
      }
    }
  }

  /** The end-of-file flag comes at most once, with the last piece, and no piece exceeds its room. */
  lemma {:induction false} DrainFlags(data: seq<byte>, rooms: Rooms)
    ensures FlagsOk(Drain(data, rooms), rooms)
    decreases |rooms|
  {
    hide Drain;
    DrainStep(data, rooms);
    if 0 < Room(rooms) < |data| {
      var piece := ReadCb(data, rooms[0]);
      DrainFlags(piece.rest, rooms[1..]);
      FlagsAdd(piece, Drain(piece.rest, rooms[1..]), rooms);
    } else {
      assert rooms[0..] == rooms;
    }
  }

  // ----- The session's queues

  function DataFrames(id: int, parts: seq<seq<byte>>): (frames: seq<Frame>)
    ensures |frames| == |parts|
    ensures forall i :: 0 <= i < |frames| ==> frames[i] == DataFrame(id, parts[i])
  {
    seq(|parts|, i requires 0 <= i < |parts| => DataFrame(id, parts[i]))
  }

  /**
   * The outbound half of a session: frames submitted and not yet sent, streams whose body is still to be
   * drawn from the one data string, that string, the rooms at the coming attempts to send body bytes, and
   * the streams that are closed.
   */
  datatype Out = Out(ready: seq<Frame>, bodies: seq<int>, data: seq<byte>, rooms: Rooms, closed: set<int>)

  function Without(bodies: seq<int>, id: int): (r: seq<int>)
    ensures |r| <= |bodies|
    ensures forall b :: b in r <==> b in bodies && b != id
  {
    if bodies == [] then []
    else if bodies[0] == id then Without(bodies[1..], id)
    else [bodies[0]] + Without(bodies[1..], id)
  }

  /** What is left when the first frame has left: trailers end their stream. */
  function FrameLeft(o: Out): (o': Out)
    requires o.ready != []
    ensures |o'.ready| < |o.ready| && |o'.bodies| <= |o.bodies|
  {
    var frame, o1 := o.ready[0], o.(ready := o.ready[1..]);
    if frame.TrailersFrame? then o1.(bodies := Without(o.bodies, frame.id), closed := o.closed + {frame.id}) else o1
  }

  /** What a full round of `pending()` calls gives, and what it leaves. */
  datatype Sent = Sent(out: Out, frames: seq<Frame>)

  function SendAll(o: Out): (s: Sent)
    ensures s.out.ready == []
    decreases |o.ready|, |o.bodies|
  {
    if o.ready != [] then
      var s := SendAll(FrameLeft(o));
      Sent(s.out, [o.ready[0]] + s.frames)
    else if o.bodies == [] then Sent(o, [])
    else
      var d := Drain(o.data, o.rooms);
      var frames := DataFrames(o.bodies[0], PieceBytes(d.pieces));
      var o1 := o.(data := d.rest, rooms := d.rooms);
      if !d.done then Sent(o1, frames)
      else
        var s := SendAll(o1.(bodies := o.bodies[1..]));
        Sent(s.out, frames + s.frames)
  }

  // ----- Writing a response

  /** The response headers and trailers of `conn::write`, before the empty-value filter. */
  function ResponseHeaders(): seq<Header> {
    [Header(":status", "200"), Header("content-type", "application/grpc")]
  }

  function ResponseTrailers(status: string, details: string): seq<Header> {
    [Header("grpc-status", status), Header("grpc-status-details-bin", details)]
  }

  /** `conn::write` for a stream that is not closed. */
  function WriteResponse(o: Out, id: int, bytes: seq<byte>, status: string, details: string): Sent
  {
    var head := HeadersFrame(id, NonEmpty(ResponseHeaders()));
    var s1 := SendAll(o.(ready := o.ready + [head], bodies := o.bodies + [id], data := bytes));
    var tail := TrailersFrame(id, NonEmpty(ResponseTrailers(status, details)));
    var s2 := SendAll(s1.out.(ready := s1.out.ready + [tail]));
    Sent(s2.out, s1.frames + s2.frames)
  }

  /** One response with its body in pieces: headers, data frames, trailers with the status. */
  function Spelled(id: int, parts: seq<seq<byte>>, status: string, details: string): seq<Frame> {
    [HeadersFrame(id, ResponseHeaders())] + DataFrames(id, parts) +
    [TrailersFrame(id, NonEmpty(ResponseTrailers(status, details)))]
  }

  /** `frames` is one response whose body is `bytes`. */
  ghost predicate IsResponse(frames: seq<Frame>, id: int, bytes: seq<byte>, status: string, details: string) {
    exists parts: seq<seq<byte>> :: Concat(parts) == bytes && frames == Spelled(id, parts, status, details)
  }

  /** `frames` is one response whose body is a first part of `bytes`, cut off where the window closed. */
  ghost predicate IsResponsePart(frames: seq<Frame>, id: int, bytes: seq<byte>, status: string, details: string) {
    exists sent: seq<byte> :: sent <= bytes && IsResponse(frames, id, sent, status, details)
  }

  lemma TrailersKept(status: string, details: string)
    requires status != ""
    ensures NonEmpty(ResponseTrailers(status, details)) ==
            [Header("grpc-status", status)] +
            (if details == "" then [] else [Header("grpc-status-details-bin", details)])
    ensures NonEmpty(ResponseHeaders()) == ResponseHeaders()
  {
    var t := ResponseTrailers(status, details);
    assert t[..1] == [t[0]] && t[..1][..0] == [];
    var h := ResponseHeaders();
    assert h[..1] == [h[0]] && h[..1][..0] == [];
    assert NonEmpty([]) == [];
    assert NonEmpty(t[..1]) == [t[0]];
    assert NonEmpty(h[..1]) == [h[0]];
  }

  lemma SendHeadersAndBody(o: Out, id: int, head: Frame)
    requires head.HeadersFrame? && o.ready == [head] && o.bodies == [id]
    ensures var d := Drain(o.data, o.rooms);
            SendAll(o) ==
            Sent(o.(ready := [], bodies := if d.done then [] else [id], data := d.rest, rooms := d.rooms),
                 [head] + DataFrames(id, PieceBytes(d.pieces)))
  {
    hide Drain, PieceBytes, DataFrames;
    assert o.ready[1..] == [] && [id][1..] == [];
    var d := Drain(o.data, o.rooms);
    var o1 := o.(ready := [], bodies := [], data := d.rest, rooms := d.rooms);
    assert SendAll(o1) == Sent(o1, []);
    assert DataFrames(id, PieceBytes(d.pieces)) + [] == DataFrames(id, PieceBytes(d.pieces));
  }

  /** Trailers leave at once and end their stream, whatever is left of its body. */
  lemma SendTrailers(o: Out, tail: Frame)
    requires tail.TrailersFrame? && o.ready == [tail] && (o.bodies == [] || o.bodies == [tail.id])
    ensures SendAll(o) == Sent(o.(ready := [], bodies := [], closed := o.closed + {tail.id}), [tail])
  {
    hide Drain;
    assert [tail][1..] == [] && [tail.id][1..] == [];
    assert Without([], tail.id) == [] && Without([tail.id], tail.id) == [];
    var o1 := o.(ready := [], bodies := [], closed := o.closed + {tail.id});
    assert FrameLeft(o) == o1 && SendAll(o1) == Sent(o1, []);
    assert [tail] + [] == [tail];
  }

  /** The frames of a response, spelled out. */
  lemma ResponseFrames(o: Out, id: int, bytes: seq<byte>, status: string, details: string)
    requires o.ready == [] && o.bodies == []
    ensures var d := Drain(bytes, o.rooms);
            WriteResponse(o, id, bytes, status, details) ==
            Sent(Out([], [], d.rest, d.rooms, o.closed + {id}),
                 [HeadersFrame(id, NonEmpty(ResponseHeaders()))] + DataFrames(id, PieceBytes(d.pieces)) +
                 [TrailersFrame(id, NonEmpty(ResponseTrailers(status, details)))])
  {
    hide SendAll, NonEmpty, Drain, ResponseHeaders, ResponseTrailers, DataFrames, PieceBytes;
    var head := HeadersFrame(id, NonEmpty(ResponseHeaders()));
    var tail := TrailersFrame(id, NonEmpty(ResponseTrailers(status, details)));
    assert o.ready + [head] == [head] && o.bodies + [id] == [id];
    SendHeadersAndBody(o.(ready := [head], bodies := [id], data := bytes), id, head);
    var d := Drain(bytes, o.rooms);
    assert [] + [tail] == [tail];
    SendTrailers(o.(ready := [tail], bodies := if d.done then [] else [id], data := d.rest, rooms := d.rooms), tail);
  }

  /** The data frames of a response can be read off it. */
  lemma SpelledOnce(id: int, a: seq<seq<byte>>, b: seq<seq<byte>>, status: string, details: string)
    requires Spelled(id, a, status, details) == Spelled(id, b, status, details)
    ensures a == b
  {
    var s := Spelled(id, a, status, details);
    assert |a| == |s| - 2 == |b|;
    forall i | 0 <= i < |a|
      ensures a[i] == b[i]
    {
      assert s[i + 1] == DataFrame(id, a[i]) && s[i + 1] == DataFrame(id, b[i]);
    }
  }

  lemma SpelledExactly(
    frames: seq<Frame>, id: int, parts: seq<seq<byte>>, bytes: seq<byte>, status: string, details: string)
    requires frames == Spelled(id, parts, status, details)
    ensures IsResponse(frames, id, bytes, status, details) <==> Concat(parts) == bytes
  {
    hide Spelled;
    if IsResponse(frames, id, bytes, status, details) {
      var others: seq<seq<byte>> :| Concat(others) == bytes && frames == Spelled(id, others, status, details);
      SpelledOnce(id, parts, others, status, details);
    }
  }

  /**
   * Written to a drained session, a response leaves as headers, data and trailers, closes its stream and
   * leaves the session drained. Its data is a first part of its bytes, and all of them exactly if the peer's
   * windows cover them from the first attempt on: what is left when the window closes is lost.
   */
  lemma ResponseLeavesWhole(o: Out, id: int, bytes: seq<byte>, status: string, details: string)
    requires o.ready == [] && o.bodies == []
    requires status != ""
    ensures var s := WriteResponse(o, id, bytes, status, details);
            && s.out.ready == [] && s.out.bodies == [] && s.out.closed == o.closed + {id}
            && IsResponsePart(s.frames, id, bytes, status, details)
            && (IsResponse(s.frames, id, bytes, status, details) <==> Covers(o.rooms, |bytes|))
  {
    hide WriteResponse, NonEmpty, Drain, Concat, ResponseHeaders, ResponseTrailers, PieceBytes, DataFrames, Covers,
      IsResponse;
    TrailersKept(status, details);
    ResponseFrames(o, id, bytes, status, details);
    DrainConserves(bytes, o.rooms);
    var d := Drain(bytes, o.rooms);
    var parts := PieceBytes(d.pieces);
    var frames := WriteResponse(o, id, bytes, status, details).frames;
    assert frames == Spelled(id, parts, status, details);
    SpelledExactly(frames, id, parts, Concat(parts), status, details);
    SpelledExactly(frames, id, parts, bytes, status, details);
    assert Concat(parts) <= bytes;
    assert d.rest == [] ==> Concat(parts) + [] == Concat(parts);
  }

  /** A window that grants two bytes and then closes: a body of three bytes is cut off. */
  lemma ClosedWindowTruncates(id: int)
    ensures var s := WriteResponse(Out([], [], [], [2, 0], {}), id, [1, 2, 3], "0", "");
            !IsResponse(s.frames, id, [1, 2, 3], "0", "") && IsResponse(s.frames, id, [1, 2], "0", "")
  {
    hide WriteResponse, NonEmpty, Concat, ResponseHeaders, ResponseTrailers, PieceBytes, DataFrames, IsResponse, Drain;
    var o, bytes: seq<byte> := Out([], [], [], [2, 0], {}), [1, 2, 3];
    TrailersKept("0", "");
    ResponseFrames(o, id, bytes, "0", "");
    DrainStep(bytes, o.rooms);
    DrainStep([3], [0]);
    assert bytes[..2] == [1, 2] && bytes[2..] == [3] && o.rooms[1..] == [0];
    var piece := ReadCb(bytes, 2);
    var d := Drain(bytes, o.rooms);
    assert d.pieces == [piece] + [] == [piece];
    var parts := PieceBytes(d.pieces);
    assert parts == [[1, 2]] by { OnePieceBytes(piece); }
    ConcatSingle<byte>([1, 2]);
    var frames := WriteResponse(o, id, bytes, "0", "").frames;
    SpelledExactly(frames, id, parts, [1, 2], "0", "");
    SpelledExactly(frames, id, parts, bytes, "0", "");
  }
}
