/** lib/grpcxx/message.cpp: the length-prefixed message, its encoder and its incremental reader. */
module Messages {
  import opened Base

  // ----- The 32-bit length and its four bytes

  /** A 32-bit word, most significant byte first. */
  datatype Word = Word(b3: byte, b2: byte, b1: byte, b0: byte)

  function WordValue(w: Word): (n: nat)
    ensures n < UINT32_RANGE
  {
    w.b3 * 0x100_0000 + w.b2 * 0x1_0000 + w.b1 * 0x100 + w.b0
  }

  /** A `char` promoted to `int`: its bits, sign-extended when `char` is signed. */
  function Promote(sign: CharSign, b: byte): Word {
    var fill := if sign.Signed? && b >= 0x80 then 0xff else 0;
    Word(fill, fill, fill, b)
  }

  function ShiftLeft8(w: Word): Word {
    Word(w.b2, w.b1, w.b0, 0)
  }

  /** Bitwise or of two naturals. */
  function Or(a: nat, b: nat): nat {
    if a == 0 then b
    else if b == 0 then a
    else 2 * Or(a / 2, b / 2) + (if a % 2 == 1 || b % 2 == 1 then 1 else 0)
  }

  function Ones(width: nat): nat {
    if width == 0 then 0 else 2 * Ones(width - 1) + 1
  }

  lemma {:induction false} OrWithin(a: nat, b: nat, width: nat)
    requires a <= Ones(width) && b <= Ones(width)
    ensures Or(a, b) <= Ones(width)
    ensures Or(a, Ones(width)) == Or(Ones(width), a) == Ones(width)
  {
    if width > 0 {
      OrWithin(a / 2, b / 2, width - 1);
      assert Ones(width) / 2 == Ones(width - 1);
    }
  }

  lemma OnesOfByte()
    ensures Ones(8) == 0xff
  {
    assert Ones(4) == 15;
    assert Ones(6) == 63;
  }

  function OrByte(a: byte, b: byte): byte {
    OnesOfByte();
    OrWithin(a, b, 8);
    Or(a, b)
  }

  function OrWord(v: Word, w: Word): Word {
    Word(OrByte(v.b3, w.b3), OrByte(v.b2, w.b2), OrByte(v.b1, w.b1), OrByte(v.b0, w.b0))
  }

  /** The five bytes written in front of a message whose size, as a `uint32_t`, is `size`. */
  function LengthPrefix(size: nat): (p: seq<byte>)
    requires size < UINT32_RANGE
    ensures |p| == 5
  {
    [0, size / 0x100_0000 % 256, size / 0x1_0000 % 256, size / 0x100 % 256, size % 256]
  }

  /** The `uint32_t` that `parse` reads back; `& 0xff` leaves only the low byte of the last term. */
  function DecodeLength(sign: CharSign, p: seq<byte>): (n: nat)
    requires |p| >= 5
    ensures n < UINT32_RANGE
  {
    WordValue(
      OrWord(
        OrWord(
          OrWord(
            ShiftLeft8(ShiftLeft8(ShiftLeft8(Promote(sign, p[1])))),
            ShiftLeft8(ShiftLeft8(Promote(sign, p[2])))),
          ShiftLeft8(Promote(sign, p[3]))),
        Word(0, 0, 0, Promote(sign, p[4]).b0)))
  }

  lemma OrFacts(a: byte)
    ensures OrByte(a, 0) == a && OrByte(0, a) == a
    ensures OrByte(a, 0xff) == 0xff && OrByte(0xff, a) == 0xff
  {
    OnesOfByte();
    OrWithin(a, 0, 8);
  }

  lemma DecodedWord(sign: CharSign, p: seq<byte>)
    requires |p| >= 5
    ensures var neg2, neg3 := sign.Signed? && p[2] >= 0x80, sign.Signed? && p[3] >= 0x80;
            DecodeLength(sign, p) == WordValue(Word(
              if neg2 || neg3 then 0xff else p[1],
              if neg3 then 0xff else p[2],
              p[3],
              p[4]))
  {
    OrFacts(p[1]); OrFacts(p[2]); OrFacts(p[3]); OrFacts(p[4]);
    OrFacts(0); OrFacts(0xff);
  }

  /** The bytes the encoder writes for `n` survive the sign extension of the decoder. */
  predicate SignSafe(sign: CharSign, n: nat) {
    var b1, b2, b3 := n / 0x100_0000 % 256, n / 0x1_0000 % 256, n / 0x100 % 256;
    sign.Unsigned? || ((b3 < 0x80 || (b1 == 0xff && b2 == 0xff)) && (b2 < 0x80 || b1 == 0xff))
  }

  /** Decoding the prefix written for a message of `n` bytes gives `n` again. */
  predicate LengthDecodes(sign: CharSign, n: nat) {
    DecodeLength(sign, LengthPrefix(n % UINT32_RANGE)) == n
  }

  lemma Digits(n: nat)
    requires n < UINT32_RANGE
    ensures n == WordValue(Word(n / 0x100_0000 % 256, n / 0x1_0000 % 256, n / 0x100 % 256, n % 256))
  {
    var q1, q2, q3 := n / 0x100, n / 0x1_0000, n / 0x100_0000;
    assert n == q1 * 0x100 + n % 256;
    assert q1 == q2 * 0x100 + q1 % 256;
    assert q2 == q3 * 0x100 + q2 % 256;
    assert q3 % 256 == q3;
  }

  lemma WordInjective(v: Word, w: Word)
    requires v.b1 == w.b1 && v.b0 == w.b0
    ensures WordValue(v) == WordValue(w) <==> v == w
  {
    if WordValue(v) == WordValue(w) {
      assert (v.b3 - w.b3) * 0x100 + (v.b2 - w.b2) == 0;
    }
  }

  /** The exact set of lengths on which decoding inverts encoding. */
  lemma LengthCodec(sign: CharSign, n: nat)
    ensures LengthDecodes(sign, n) <==> n < UINT32_RANGE && SignSafe(sign, n)
    ensures n < 0x8000 ==> LengthDecodes(sign, n)
    ensures sign.Unsigned? && n < UINT32_RANGE ==> LengthDecodes(sign, n)
  {
    if n < UINT32_RANGE {
      assert n % UINT32_RANGE == n;
      var p := LengthPrefix(n);
      Digits(n);
      DecodedWord(sign, p);
      var neg2, neg3 := sign.Signed? && p[2] >= 0x80, sign.Signed? && p[3] >= 0x80;
      WordInjective(Word(p[1], p[2], p[3], p[4]),
                    Word(if neg2 || neg3 then 0xff else p[1], if neg3 then 0xff else p[2], p[3], p[4]));
    }
  }

  // ----- The message as a value

  /** `length` is the `uint32_t` announced by the prefix, once five prefix bytes are held. */
  datatype Msg = Msg(compressed: byte, length: Option<nat>, data: seq<byte>, prefix: seq<byte>)

  const FRESH := Msg(0, None, [], [])

  /** The message built from a payload; `std::optional<uint32_t>` keeps its size modulo 2^32. */
  function FromPayload(payload: seq<byte>): Msg {
    var size := |payload| % UINT32_RANGE;
    Msg(0, Some(size), payload, LengthPrefix(size))
  }

  function MsgBytes(m: Msg): seq<byte> {
    m.prefix + m.data
  }

  /** What travels on the wire for a payload. */
  function Encode(payload: seq<byte>): seq<byte> {
    MsgBytes(FromPayload(payload))
  }

  /** The payload, or nothing when fewer or more bytes than announced are held. */
  function MsgData(m: Msg): seq<byte> {
    if m.length.None? || |m.data| != m.length.value then [] else m.data
  }

  /** The announced number of bytes has arrived: one more chunk is an error. */
  predicate Full(m: Msg) {
    m.length.Some? && |m.data| >= m.length.value
  }

  function Parse(sign: CharSign, m: Msg): Msg {
    if m.length.Some? || |m.prefix| < 5 then m
    else m.(compressed := m.prefix[0], length := Some(DecodeLength(sign, m.prefix)))
  }

  /** How many bytes of a chunk the reader puts in the prefix: up to five, whatever is already held. */
  function HeadSize(m: Msg, chunk: seq<byte>): (n: nat)
    ensures n <= |chunk|
  {
    if |m.prefix| >= 5 then 0 else if |chunk| > 5 then 5 else |chunk|
  }

  /** One call of the reader; `None` is the exception. */
  function Feed(sign: CharSign, m: Msg, chunk: seq<byte>): Option<Msg> {
    if Full(m) then None
    else
      var n := HeadSize(m, chunk);
      var m1 := Parse(sign, m.(prefix := m.prefix + chunk[..n]));
      Some(m1.(data := m1.data + chunk[n..]))
  }

  function FeedAll(sign: CharSign, m: Msg, chunks: seq<seq<byte>>): Option<Msg> {
    if chunks == [] then Some(m)
    else
      var before := FeedAll(sign, m, chunks[..|chunks| - 1]);
      if before.None? then None else Feed(sign, before.value, chunks[|chunks| - 1])
  }

  // ----- Chunked framing

  /** The first `k` pieces are exactly the prefix. */
  predicate CutAfter(chunks: seq<seq<byte>>, k: nat) {
    k <= |chunks| && |Concat(chunks[..k])| == 5
  }

  /** The first piece covers the whole prefix, or some piece ends exactly where the prefix does. */
  ghost predicate CutAtPrefix(chunks: seq<seq<byte>>) {
    (chunks != [] && |chunks[0]| >= 5) || exists k :: CutAfter(chunks, k)
  }

  /** Every byte is kept, in order; nothing is data before the prefix is complete. */
  predicate ReaderInv(sign: CharSign, m: Msg, received: seq<byte>) {
    && MsgBytes(m) == received
    && (|m.prefix| < 5 ==> m.data == [])
    && m.length == (if |m.prefix| < 5 then None else Some(DecodeLength(sign, m.prefix)))
    && m.compressed == (if |m.prefix| < 5 then 0 else m.prefix[0])
  }

  lemma FeedKeeps(sign: CharSign, m: Msg, received: seq<byte>, chunk: seq<byte>)
    requires ReaderInv(sign, m, received)
    ensures Feed(sign, m, chunk).None? <==> Full(m)
    ensures Feed(sign, m, chunk).Some? ==> ReaderInv(sign, Feed(sign, m, chunk).value, received + chunk)
  {
    hide DecodeLength;
    if !Full(m) {
      var n := HeadSize(m, chunk);
      var r := Feed(sign, m, chunk).value;
      if |m.prefix| < 5 {
        calc {
          MsgBytes(r);
          (m.prefix + chunk[..n]) + chunk[n..];
          m.prefix + chunk;
        }
      } else {
        assert m.prefix + chunk[..n] == m.prefix;
        assert chunk[n..] == chunk;
      }
    }
  }

  /** For every chunking the reader accepts: no byte is lost, repeated or reordered. */
  lemma {:induction false} BytesConserved(sign: CharSign, chunks: seq<seq<byte>>)
    ensures var r := FeedAll(sign, FRESH, chunks);
            r.Some? ==> ReaderInv(sign, r.value, Concat(chunks))
  {
    hide DecodeLength;
    if chunks != [] {
      var init := chunks[..|chunks| - 1];
      BytesConserved(sign, init);
      var before := FeedAll(sign, FRESH, init);
      if before.Some? {
        FeedKeeps(sign, before.value, Concat(init), chunks[|chunks| - 1]);
      }
    }
  }

  lemma CutExtends(init: seq<seq<byte>>, last: seq<byte>)
    ensures CutAtPrefix(init + [last]) <==>
            CutAtPrefix(init) || (init == [] && |last| >= 5) || |Concat(init)| + |last| == 5
  {
    var chunks := init + [last];
    ConcatOne(init, last);
    forall k: nat
      ensures CutAfter(chunks, k) <==> CutAfter(init, k) || (k == |chunks| && |Concat(init)| + |last| == 5)
    {
      if k <= |init| {
        assert chunks[..k] == init[..k];
      } else if k == |chunks| {
        assert chunks[..k] == chunks;
      }
    }
    assert CutAfter(chunks, |chunks|) <==> |Concat(init)| + |last| == 5;
  }

  lemma NoCutYet(chunks: seq<seq<byte>>)
    requires |Concat(chunks)| < 5
    ensures !CutAtPrefix(chunks)
  {
    if chunks != [] {
      FirstPiece(chunks);
    }
    forall k: nat | k <= |chunks|
      ensures !CutAfter(chunks, k)
    {
      assert chunks == chunks[..k] + chunks[k..];
      ConcatAdd(chunks[..k], chunks[k..]);
    }
  }

  /** The prefix has five bytes or more once five have arrived, and exactly five if they were cut there. */
  ghost predicate PrefixInv(m: Msg, chunks: seq<seq<byte>>) {
    && (|m.prefix| < 5 ==> |Concat(chunks)| < 5)
    && (|m.prefix| == 5 ==> CutAtPrefix(chunks))
    && (|m.prefix| > 5 ==> !CutAtPrefix(chunks))
  }

  lemma PrefixStep(sign: CharSign, m: Msg, init: seq<seq<byte>>, last: seq<byte>)
    requires ReaderInv(sign, m, Concat(init)) && PrefixInv(m, init)
    requires last != [] && (init == [] <==> Concat(init) == []) && Feed(sign, m, last).Some?
    ensures PrefixInv(Feed(sign, m, last).value, init + [last])
  {
    hide DecodeLength, CutAtPrefix, Concat;
    CutExtends(init, last);
    ConcatOne(init, last);
    if |m.prefix| < 5 {
      assert Concat(init) == m.prefix;
      NoCutYet(init);
    }
  }

  /** How long the prefix got, and hence whether the data starts where it should. */
  lemma {:induction false} PrefixExact(sign: CharSign, chunks: seq<seq<byte>>)
    requires forall i :: 0 <= i < |chunks| ==> chunks[i] != []
    requires FeedAll(sign, FRESH, chunks).Some?
    ensures var m := FeedAll(sign, FRESH, chunks).value;
            && (|m.prefix| < 5 ==> |Concat(chunks)| < 5)
            && (|m.prefix| == 5 ==> CutAtPrefix(chunks))
            && (|m.prefix| > 5 ==> !CutAtPrefix(chunks))
  {
    hide Feed, CutAtPrefix, ReaderInv;
    if chunks != [] {
      var init, last := chunks[..|chunks| - 1], chunks[|chunks| - 1];
      PrefixExact(sign, init);
      BytesConserved(sign, init);
      if init != [] {
        FirstPiece(init);
      }
      assert chunks == init + [last];
      PrefixStep(sign, FeedAll(sign, FRESH, init).value, init, last);
    }
  }

  lemma FirstPiece(chunks: seq<seq<byte>>)
    requires chunks != []
    ensures |Concat(chunks)| >= |chunks[0]|
  {
    assert chunks == [chunks[0]] + chunks[1..];
    ConcatFront(chunks[0], chunks[1..]);
  }

  /** An announced length is never read back too small: sign extension only adds bits. */
  lemma DecodedAtLeast(sign: CharSign, n: nat)
    requires n < UINT32_RANGE
    ensures DecodeLength(sign, LengthPrefix(n)) >= n
  {
    hide DecodeLength;
    Digits(n);
    DecodedWord(sign, LengthPrefix(n));
  }

  lemma EncodedSize(payload: seq<byte>)
    ensures |Encode(payload)| == 5 + |payload|
  {
  }

  /** A reader that holds the start of an encoded message has read its length off the encoder's prefix. */
  lemma AnnouncedLength(sign: CharSign, payload: seq<byte>, m: Msg, received: seq<byte>, missing: seq<byte>)
    requires ReaderInv(sign, m, received) && received + missing == Encode(payload)
    requires m.length.Some?
    ensures m.length.value == DecodeLength(sign, LengthPrefix(|payload| % UINT32_RANGE))
    ensures m.prefix[..5] == LengthPrefix(|payload| % UINT32_RANGE)
  {
    var p := LengthPrefix(|payload| % UINT32_RANGE);
    assert m.prefix[..5] == received[..5] == Encode(payload)[..5] == p;
    assert forall i :: 0 <= i < 5 ==> m.prefix[i] == m.prefix[..5][i] == p[i];
    DecodedWord(sign, m.prefix);
    DecodedWord(sign, p);
  }

  /** A reader that still misses part of an encoded message has not reached the length it read. */
  lemma NotFullYet(sign: CharSign, payload: seq<byte>, m: Msg, received: seq<byte>, missing: seq<byte>)
    requires ReaderInv(sign, m, received) && received + missing == Encode(payload) && missing != []
    requires |payload| < UINT32_RANGE
    ensures !Full(m)
  {
    hide DecodeLength, LengthPrefix, Encode;
    EncodedSize(payload);
    if m.length.Some? {
      AnnouncedLength(sign, payload, m, received, missing);
      DecodedAtLeast(sign, |payload|);
    }
  }

  /** While part of an encoded message is missing, the reader takes the next chunk, however it decodes the length. */
  lemma {:induction false} NeverRejects(sign: CharSign, payload: seq<byte>, chunks: seq<seq<byte>>, k: nat)
    requires k <= |chunks|
    requires forall i :: 0 <= i < |chunks| ==> chunks[i] != []
    requires Concat(chunks) == Encode(payload)
    requires |payload| < UINT32_RANGE
    ensures FeedAll(sign, FRESH, chunks[..k]).Some?
  {
    hide Encode, ReaderInv, Full;
    if k == 0 {
      return;
    }
    NeverRejects(sign, payload, chunks, k - 1);
    assert chunks[..k][..k - 1] == chunks[..k - 1];
    BytesConserved(sign, chunks[..k - 1]);
    var m := FeedAll(sign, FRESH, chunks[..k - 1]).value;
    ConcatAdd(chunks[..k - 1], chunks[k - 1..]);
    assert chunks == chunks[..k - 1] + chunks[k - 1..];
    FirstPiece(chunks[k - 1..]);
    NotFullYet(sign, payload, m, Concat(chunks[..k - 1]), Concat(chunks[k - 1..]));
    FeedKeeps(sign, m, Concat(chunks[..k - 1]), chunks[k - 1]);
  }

  /** Feeding the pieces to a fresh reader ends without an exception and gives the payload back. */
  predicate Yields(sign: CharSign, chunks: seq<seq<byte>>, payload: seq<byte>) {
    var r := FeedAll(sign, FRESH, chunks);
    r.Some? && MsgData(r.value) == payload
  }

  /** The prefix never grows past nine bytes: at most four held, and five more. */
  lemma {:induction false} PrefixShort(sign: CharSign, chunks: seq<seq<byte>>)
    ensures FeedAll(sign, FRESH, chunks).Some? ==> |FeedAll(sign, FRESH, chunks).value.prefix| <= 9
  {
    hide DecodeLength;
    if chunks != [] {
      PrefixShort(sign, chunks[..|chunks| - 1]);
    }
  }

  /** Which announced lengths can meet the data held in the end. */
  lemma AnnouncedMeets(sign: CharSign, size: nat, prefix: nat)
    requires 5 <= prefix <= 9 && prefix <= 5 + size
    ensures DecodeLength(sign, LengthPrefix(size % UINT32_RANGE)) == 5 + size - prefix
            <==> prefix == 5 && LengthDecodes(sign, size)
  {
    hide DecodeLength, LengthPrefix;
    if size < UINT32_RANGE {
      assert size % UINT32_RANGE == size;
      DecodedAtLeast(sign, size);
    } else if size < UINT32_RANGE + 4 {
      SizeWraps(sign, size - UINT32_RANGE);
    }
  }

  /** A message a little over 2^32 bytes long announces what its size wraps to. */
  lemma SizeWraps(sign: CharSign, excess: nat)
    requires excess < 0x8000
    ensures DecodeLength(sign, LengthPrefix((UINT32_RANGE + excess) % UINT32_RANGE)) == excess
  {
    hide DecodeLength, LengthPrefix;
    assert (UINT32_RANGE + excess) % UINT32_RANGE == excess == excess % UINT32_RANGE;
    LengthCodec(sign, excess);
  }

  /**
   * What the reader makes of an encoded message cut into non-empty pieces, in every case. A message whose
   * size fits the prefix is never rejected; one that is accepted gives its payload when its length
   * survives the codec and its pieces are cut at the prefix, and otherwise the empty payload.
   */
  lemma EncodedOutcome(sign: CharSign, payload: seq<byte>, chunks: seq<seq<byte>>)
    requires forall i :: 0 <= i < |chunks| ==> chunks[i] != []
    requires Concat(chunks) == Encode(payload)
    ensures |payload| < UINT32_RANGE ==> FeedAll(sign, FRESH, chunks).Some?
    ensures FeedAll(sign, FRESH, chunks).Some? ==>
              MsgData(FeedAll(sign, FRESH, chunks).value) ==
              if LengthDecodes(sign, |payload|) && CutAtPrefix(chunks) then payload else []
  {
    hide DecodeLength, LengthDecodes, CutAtPrefix;
    assert chunks[..|chunks|] == chunks;
    if |payload| < UINT32_RANGE {
      NeverRejects(sign, payload, chunks, |chunks|);
    }
    var r := FeedAll(sign, FRESH, chunks);
    if r.Some? {
      var m := r.value;
      BytesConserved(sign, chunks);
      PrefixExact(sign, chunks);
      PrefixShort(sign, chunks);
      assert |Concat(chunks)| == 5 + |payload|;
      assert Concat(chunks) + [] == Encode(payload);
      AnnouncedLength(sign, payload, m, Concat(chunks), []);
      AnnouncedMeets(sign, |payload|, |m.prefix|);
      assert MsgBytes(m)[|m.prefix|..] == m.data;
      assert Encode(payload)[5..] == payload;
    }
  }

  /** Exactly which ways of cutting an encoded message into non-empty pieces the reader survives. */
  lemma ChunkedFraming(sign: CharSign, payload: seq<byte>, chunks: seq<seq<byte>>)
    requires forall i :: 0 <= i < |chunks| ==> chunks[i] != []
    requires Concat(chunks) == Encode(payload)
    ensures Yields(sign, chunks, payload) <==> LengthDecodes(sign, |payload|) && CutAtPrefix(chunks)
  {
    hide DecodeLength, LengthDecodes, FeedAll;
    EncodedOutcome(sign, payload, chunks);
    LengthCodec(sign, |payload|);
    if payload == [] {
      assert chunks[..|chunks|] == chunks;
      assert CutAfter(chunks, |chunks|);
    }
  }

  /** The smallest length that is lost with a signed `char`: 0x8000 comes back as 0xffff8000. */
  lemma SignedLengthLost()
    ensures DecodeLength(Signed, LengthPrefix(0x8000)) == 0xffff_8000
    ensures !LengthDecodes(Signed, 0x8000) && LengthDecodes(Unsigned, 0x8000)
  {
    hide DecodeLength;
    assert LengthPrefix(0x8000) == [0, 0, 0, 0x80, 0];
    DecodedWord(Signed, LengthPrefix(0x8000));
    LengthCodec(Unsigned, 0x8000);
  }

  /** A one-byte message cut after its second byte: the reader takes all of it for prefix and shows no payload. */
  lemma StraddlingCutLost(sign: CharSign)
    ensures var chunks := [[0, 0], [0, 0, 1, 7]];
            && Concat(chunks) == Encode([7]) && FeedAll(sign, FRESH, chunks).Some?
            && MsgData(FeedAll(sign, FRESH, chunks).value) == [] && !Yields(sign, chunks, [7])
  {
    hide DecodeLength, LengthPrefix, Encode, FeedAll, MsgData, Concat, LengthDecodes;
    var a: seq<byte>, b: seq<byte>, payload: seq<byte> := [0, 0], [0, 0, 1, 7], [7];
    ConcatSingle(a);
    ConcatOne([a], b);
    assert [a] + [b] == [a, b];
    assert a + b == Encode(payload) by { OneByteEncoded(7); }
    EncodedOutcome(sign, payload, [a, b]);
    assert !CutAtPrefix([a, b]) by {
      forall k: nat | k <= 2
        ensures !CutAfter([a, b], k)
      {
        assert [a, b][..0] == [] && [a, b][..1] == [a] && [a, b][..2] == [a, b];
        NothingCut();
      }
    }
  }

  lemma NothingCut()
    ensures Concat<byte>([]) == []
  {
  }

  lemma OneByteEncoded(b: byte)
    ensures Encode([b]) == [0, 0, 0, 0, 1, b]
  {
    assert |[b]| % UINT32_RANGE == 1;
    assert LengthPrefix(1) == [0, 0, 0, 0, 1];
  }

  // ----- What the reader makes of any chunks, in terms of the bytes alone

  /** How many of the bytes go into the prefix: up to five of each chunk, until at least five are there. */
  function PrefixSize(chunks: seq<seq<byte>>): nat {
    if chunks == [] then 0
    else
      var p, n := PrefixSize(chunks[..|chunks| - 1]), |chunks[|chunks| - 1]|;
      if p >= 5 then p else if n > 5 then p + 5 else p + n
  }

  /** As many bytes have arrived behind the prefix as bytes 1 to 4 announce, or more. */
  predicate AllArrived(sign: CharSign, chunks: seq<seq<byte>>) {
    var got, p := Concat(chunks), PrefixSize(chunks);
    p >= 5 && |got| >= p && |got| - p >= DecodeLength(sign, got)
  }

  /** The message that holds exactly these bytes, the first `p` of them as its prefix. */
  function Holding(sign: CharSign, got: seq<byte>, p: nat): Msg
    requires p <= |got|
  {
    if p < 5 then Msg(0, None, got[p..], got[..p])
    else Msg(got[0], Some(DecodeLength(sign, got)), got[p..], got[..p])
  }

  lemma SamePrefix(sign: CharSign, a: seq<byte>, b: seq<byte>)
    requires |a| >= 5 && |b| >= 5 && a[..5] == b[..5]
    ensures DecodeLength(sign, a) == DecodeLength(sign, b)
  {
    assert forall i :: 0 <= i < 5 ==> a[i] == a[..5][i] == b[..5][i] == b[i];
    DecodedWord(sign, a);
    DecodedWord(sign, b);
  }

  /** A message whose bytes and prefix size are known is known. */
  lemma HoldingAll(sign: CharSign, m: Msg, got: seq<byte>)
    requires ReaderInv(sign, m, got)
    ensures |m.prefix| <= |got| && m == Holding(sign, got, |m.prefix|)
  {
    hide DecodeLength;
    var p := |m.prefix|;
    assert got[..p] == m.prefix && got[p..] == m.data;
    if p >= 5 {
      assert m.prefix[..5] == got[..5];
      SamePrefix(sign, m.prefix, got);
      assert got[0] == m.prefix[0];
    }
  }

  lemma {:induction false} PrefixCounted(sign: CharSign, chunks: seq<seq<byte>>)
    requires FeedAll(sign, FRESH, chunks).Some?
    ensures |FeedAll(sign, FRESH, chunks).value.prefix| == PrefixSize(chunks)
  {
    hide DecodeLength;
    if chunks != [] {
      PrefixCounted(sign, chunks[..|chunks| - 1]);
    }
  }

  lemma HeldMessage(sign: CharSign, chunks: seq<seq<byte>>)
    requires FeedAll(sign, FRESH, chunks).Some?
    ensures PrefixSize(chunks) <= |Concat(chunks)|
    ensures FeedAll(sign, FRESH, chunks).value == Holding(sign, Concat(chunks), PrefixSize(chunks))
  {
    hide DecodeLength, FeedAll, Concat, PrefixSize, Holding;
    BytesConserved(sign, chunks);
    PrefixCounted(sign, chunks);
    HoldingAll(sign, FeedAll(sign, FRESH, chunks).value, Concat(chunks));
  }

  /** The next chunk, whatever it is, is refused exactly if all announced bytes have arrived. */
  lemma RefusedNext(sign: CharSign, chunks: seq<seq<byte>>, next: seq<byte>)
    requires FeedAll(sign, FRESH, chunks).Some?
    ensures FeedAll(sign, FRESH, chunks + [next]).None? <==> AllArrived(sign, chunks)
  {
    hide DecodeLength, Concat, PrefixSize;
    assert (chunks + [next])[..|chunks|] == chunks;
    HeldMessage(sign, chunks);
    BytesConserved(sign, chunks);
    FeedKeeps(sign, FeedAll(sign, FRESH, chunks).value, Concat(chunks), next);
  }

  /**
   * Any chunks whatsoever, empty ones included: they are refused exactly if one of them comes when all
   * announced bytes have arrived before it. Otherwise the message holds all bytes, and it shows those behind
   * the prefix exactly if they are as many as announced, and nothing if they are fewer or more.
   */
  lemma {:induction false} ReaderOutcome(sign: CharSign, chunks: seq<seq<byte>>)
    ensures FeedAll(sign, FRESH, chunks).Some? <==>
            forall i :: 0 <= i < |chunks| ==> !AllArrived(sign, chunks[..i])
    ensures FeedAll(sign, FRESH, chunks).Some? ==>
              var got, p := Concat(chunks), PrefixSize(chunks);
              && p <= |got| && FeedAll(sign, FRESH, chunks).value == Holding(sign, got, p)
              && MsgData(FeedAll(sign, FRESH, chunks).value) ==
                 if p >= 5 && |got| - p == DecodeLength(sign, got) then got[p..] else []
  {
    hide DecodeLength, AllArrived, Concat, PrefixSize;
    if FeedAll(sign, FRESH, chunks).Some? {
      HeldMessage(sign, chunks);
    }
    if chunks != [] {
      var n := |chunks| - 1;
      var init := chunks[..n];
      ReaderOutcome(sign, init);
      assert chunks == init + [chunks[n]];
      if FeedAll(sign, FRESH, init).Some? {
        RefusedNext(sign, init, chunks[n]);
      }
      forall i | 0 <= i < n
        ensures chunks[..i] == init[..i]
      {
      }
      assert (forall i :: 0 <= i < |chunks| ==> !AllArrived(sign, chunks[..i])) <==>
             (forall i :: 0 <= i < n ==> !AllArrived(sign, init[..i])) && !AllArrived(sign, init);
    }
  }

  /** A chunk behind a message that has arrived whole is refused. */
  lemma ExtraRefused(sign: CharSign, payload: seq<byte>, chunks: seq<seq<byte>>, extra: seq<byte>)
    requires forall i :: 0 <= i < |chunks| ==> chunks[i] != []
    requires Concat(chunks) == Encode(payload) && LengthDecodes(sign, |payload|) && CutAtPrefix(chunks)
    ensures FeedAll(sign, FRESH, chunks + [extra]).None?
  {
    hide DecodeLength, CutAtPrefix, Concat, LengthPrefix, Encode;
    LengthCodec(sign, |payload|);
    EncodedSize(payload);
    EncodedOutcome(sign, payload, chunks);
    BytesConserved(sign, chunks);
    PrefixExact(sign, chunks);
    var m := FeedAll(sign, FRESH, chunks).value;
    assert Concat(chunks) + [] == Encode(payload);
    AnnouncedLength(sign, payload, m, Concat(chunks), []);
    assert (chunks + [extra])[..|chunks|] == chunks;
    FeedKeeps(sign, m, Concat(chunks), extra);
  }

  /** One byte announced, one received, one more: refused. */
  lemma OneByteTooMany(sign: CharSign)
    ensures FeedAll(sign, FRESH, [[0, 0, 0, 0, 1, 7], [8]]).None?
  {
    hide FeedAll, DecodeLength, LengthDecodes;
    var message: seq<byte> := [0, 0, 0, 0, 1, 7];
    OneByteEncoded(7);
    ConcatSingle(message);
    LengthCodec(sign, 1);
    ExtraRefused(sign, [7], [message], [8]);
    assert [message] + [[8]] == [message, [8]];
  }

  /** The prefix of a message of `size` bytes: not compressed, and the size in four bytes, the highest first. */
  lemma PrefixShape(size: nat)
    requires size < UINT32_RANGE
    ensures var p := LengthPrefix(size);
            var a: int, b: int, c: int, d: int := p[1], p[2], p[3], p[4];
            p[0] == 0 && a * 0x100_0000 + b * 0x1_0000 + c * 0x100 + d == size
  {
    Digits(size);
  }

  /** A message built from a payload shows it, unless its size does not fit the length. */
  lemma OutgoingShows(payload: seq<byte>)
    ensures MsgData(FromPayload(payload)) == if |payload| < 0x1_0000_0000 then payload else []
  {
  }

  // ----- The message as the object the program mutates

  class Message {
    var compressed: byte
    var length: Option<nat>
    var data: seq<byte>
    var prefix: seq<byte>

    function State(): Msg
      reads this
    {
      Msg(compressed, length, data, prefix)
    }

    constructor ()
      ensures State() == FRESH
    {
      compressed, length, data, prefix := 0, None, [], [];
    }

    /** Members are initialised in declaration order, so the size is taken before the payload is moved. */
    constructor OfPayload(payload: seq<byte>)
      ensures State() == FromPayload(payload)
      ensures prefix + data == Encode(payload)
    {
      var size := |payload| % UINT32_RANGE;
      compressed, length, data := 0, Some(size), payload;
      prefix := [0, size / 0x100_0000 % 256, size / 0x1_0000 % 256, size / 0x100 % 256, size % 256];
    }

    /** The message held by a stored request. */
    constructor Of(m: Msg)
      ensures State() == m
    {
      compressed, length, data, prefix := m.compressed, m.length, m.data, m.prefix;
    }

    method ParsePrefix(sign: CharSign)
      modifies this
      ensures State() == Parse(sign, old(State()))
    {
      if length.Some? || |prefix| < 5 {
        return;
      }
      compressed := prefix[0];
      length := Some(DecodeLength(sign, prefix));
    }

    /** `ok` is false where the original throws, and then nothing has changed. */
    method Append(sign: CharSign, chunk: seq<byte>) returns (ok: bool)
      modifies this
      ensures ok <==> old(length).None? || |old(data)| < old(length).value
      ensures ok && (|old(prefix)| >= 5 || old(data) == []) ==> prefix + data == old(prefix + data) + chunk
      ensures if ok then Some(State()) == Feed(sign, old(State()), chunk) else State() == old(State())
    {
      hide DecodeLength;
      if length.Some? && |data| >= length.value {
        return false;
      }
      var head := 0;
      if |prefix| < 5 {
        var n := if |chunk| > 5 then 5 else |chunk|;
        prefix := prefix + chunk[..n];
        head := head + n;
      }
      assert prefix == old(prefix) + chunk[..head];
      ParsePrefix(sign);
      if |chunk| - head > 0 {
        data := data + chunk[head..];
      }
      assert data == old(data) + chunk[head..];
      assert chunk == chunk[..head] + chunk[head..];
      return true;
    }
  }
}
