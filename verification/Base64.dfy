/** examples/errors/main.cpp, `b64::encode`, against the decoding of section 4 of RFC 4648. */
module Base64 {
  import opened Base

  const UPPER := "ABCDEFGHIJKLMNOPQRSTUVWXYZ"
  const LOWER := "abcdefghijklmnopqrstuvwxyz"
  const DIGITS := "0123456789"
  const ALPHABET := UPPER + LOWER + DIGITS + "+/"

  function Letter(v: nat): char
    requires v < 64
  {
    ALPHABET[v]
  }

  // ----- The encoder's arithmetic

  /** A 32-bit `int` holding `v` modulo 2^32. */
  function Wrap(v: int): (i: int)
    ensures -0x8000_0000 <= i < 0x8000_0000
  {
    (v + 0x8000_0000) % 0x1_0000_0000 - 0x8000_0000
  }

  function Pow2(j: nat): (n: nat)
    ensures n > 0
  {
    if j == 0 then 1 else 2 * Pow2(j - 1)
  }

  /** `(i << 8) + c`. */
  function Shifted(sign: CharSign, i: int, b: byte): int {
    Wrap(Wrap(i * 256) + CharValue(sign, b))
  }

  /** `(i >> j) & 0x3f`, with an arithmetic shift. */
  function Sextet(i: int, j: nat): (v: nat)
    ensures v < 64
  {
    i / Pow2(j) % 64
  }

  /** The inner loop: sextets drawn while `j` is not negative. */
  function Drawn(i: int, j: int): (vs: seq<nat>)
    ensures forall k :: 0 <= k < |vs| ==> vs[k] < 64
    decreases j + 6
  {
    if j < 0 then [] else [Sextet(i, j)] + Drawn(i, j - 6)
  }

  function Settled(j: int): (k: int)
    ensures k < 0
    ensures j >= -6 ==> k >= -6
    decreases j + 6
  {
    if j < 0 then j else Settled(j - 6)
  }

  /** The sextets written for the rest of the input, from accumulator `i` and bit counter `j`. */
  function Sextets(sign: CharSign, i: int, j: int, input: seq<byte>): (vs: seq<nat>)
    requires -6 <= j < 0
    ensures forall k :: 0 <= k < |vs| ==> vs[k] < 64
    decreases |input|
  {
    if input != [] then
      var i' := Shifted(sign, i, input[0]);
      Drawn(i', j + 8) + Sextets(sign, i', Settled(j + 8), input[1..])
    else if j > -6 then [Sextet(Wrap(i * 256), j + 8)]
    else []
  }

  function Letters(vs: seq<nat>): (s: string)
    requires forall k :: 0 <= k < |vs| ==> vs[k] < 64
    ensures |s| == |vs|
    ensures forall k :: 0 <= k < |s| ==> s[k] == Letter(vs[k])
  {
    seq(|vs|, k requires 0 <= k < |vs| => Letter(vs[k]))
  }

  function Padded(s: string): (r: string)
    ensures |r| % 4 == 0
    decreases (4 - |s| % 4) % 4
  {
    if |s| % 4 == 0 then s else Padded(s + "=")
  }

  function EncodeFrom(sign: CharSign, i: int, input: seq<byte>): string {
    Padded(Letters(Sextets(sign, i, -6, input)))
  }

  lemma LettersAdd(a: seq<nat>, b: seq<nat>)
    requires forall k :: 0 <= k < |a| ==> a[k] < 64
    requires forall k :: 0 <= k < |b| ==> b[k] < 64
    ensures forall k :: 0 <= k < |a + b| ==> (a + b)[k] < 64
    ensures Letters(a + b) == Letters(a) + Letters(b)
  {
    hide Letter;
  }

  /** The inner loop. */
  method Draw(i: int, start: int, before: string) returns (j: int, out: string)
    requires -6 <= start
    ensures j == Settled(start) && out == before + Letters(Drawn(i, start))
  {
    hide Sextet, Letter;
    j, out := start, before;
    while j >= 0
      invariant -6 <= j <= start
      invariant out + Letters(Drawn(i, j)) == before + Letters(Drawn(i, start)) && Settled(j) == Settled(start)
    {
      var v := Sextet(i, j);
      LettersAdd([v], Drawn(i, j - 6));
      assert out + (Letters([v]) + Letters(Drawn(i, j - 6))) == (out + Letters([v])) + Letters(Drawn(i, j - 6));
      assert Letters([v]) == [Letter(v)];
      out := out + [Letter(v)];
      j := j - 6;
    }
    assert Drawn(i, j) == [];
  }

  method Pad(s: string) returns (out: string)
    ensures out == Padded(s)
  {
    out := s;
    while |out| % 4 != 0
      invariant Padded(out) == Padded(s)
      decreases (4 - |out| % 4) % 4
    {
      assert |out + "="| % 4 == (|out| % 4 + 1) % 4;
      out := out + "=";
    }
  }

  /** One round of the outer loop, and what is left after the last. */
  lemma RoundLetters(sign: CharSign, i: int, j: int, input: seq<byte>, out: string)
    requires -6 <= j < 0
    ensures if input == []
            then Letters(Sextets(sign, i, j, input)) == if j > -6 then [Letter(Sextet(Wrap(i * 256), j + 8))] else ""
            else var i', j' := Shifted(sign, i, input[0]), j + 8;
                 out + Letters(Sextets(sign, i, j, input)) ==
                 (out + Letters(Drawn(i', j'))) + Letters(Sextets(sign, i', Settled(j'), input[1..]))
  {
    hide Sextet, Shifted, Drawn, Settled, Letter, Wrap;
    if input != [] {
      var i', j' := Shifted(sign, i, input[0]), j + 8;
      LettersAdd(Drawn(i', j'), Sextets(sign, i', Settled(j'), input[1..]));
    }
  }

  /** The loops of the encoder. */
  method Encode(sign: CharSign, input: seq<byte>) returns (out: string)
    ensures out == EncodeFrom(sign, 0, input)
    ensures |out| == 4 * ((|input| + 2) / 3)
    ensures Decode(out) == Some(input) <==> Clean(sign, input)
  {
    hide Sextet, Shifted, Drawn, Settled, Letter, Wrap, Sextets, Letters, Padded, Decode, Clean;
    out := "";
    var i, j := 0, -6;
    assert input[0..] == input;
    for k := 0 to |input|
      invariant -6 <= j < 0
      invariant out + Letters(Sextets(sign, i, j, input[k..])) == Letters(Sextets(sign, 0, -6, input))
    {
      RoundLetters(sign, i, j, input[k..], out);
      assert input[k..][1..] == input[k + 1..];
      i := Shifted(sign, i, input[k]);
      j, out := Draw(i, j + 8, out);
    }
    assert input[|input|..] == [];
    RoundLetters(sign, i, j, [], out);
    if j > -6 {
      out := out + [Letter(Sextet(Wrap(i * 256), j + 8))];
    }
    assert out == Letters(Sextets(sign, 0, -6, input));
    out := Pad(out);
    RoundTrip(sign, 0, input);
  }

  // ----- The reference decoder

  /** The value of a letter in Table 1 of RFC 4648. */
  function Value(c: char): (v: Option<nat>)
    ensures v.Some? ==> v.value < 64
  {
    if 'A' <= c <= 'Z' then Some(c as int - 'A' as int)
    else if 'a' <= c <= 'z' then Some(c as int - 'a' as int + 26)
    else if '0' <= c <= '9' then Some(c as int - '0' as int + 52)
    else if c == '+' then Some(62)
    else if c == '/' then Some(63)
    else None
  }

  /** Three bytes from four sextets. */
  function Quantum(v0: nat, v1: nat, v2: nat, v3: nat): (bytes: seq<byte>)
    requires v0 < 64 && v1 < 64 && v2 < 64 && v3 < 64
    ensures |bytes| == 3
  {
    [v0 * 4 + v1 / 16, v1 % 16 * 16 + v2 / 4, v2 % 4 * 64 + v3]
  }

  /** The last four characters, at least one of them padding; pad bits must be zero. */
  function DecodeLast(s: string): Option<seq<byte>>
    requires |s| == 4 && s[3] == '='
  {
    var v0, v1, v2 := Value(s[0]), Value(s[1]), Value(s[2]);
    if v0.None? || v1.None? then None
    else if s[2] == '=' then
      if v1.value % 16 == 0 then Some(Quantum(v0.value, v1.value, 0, 0)[..1]) else None
    else if v2.None? || v2.value % 4 != 0 then None
    else Some(Quantum(v0.value, v1.value, v2.value, 0)[..2])
  }

  function Decode(s: string): Option<seq<byte>> {
    if s == "" then Some([])
    else if |s| < 4 then None
    else if |s| == 4 && s[3] == '=' then DecodeLast(s)
    else
      var v0, v1, v2, v3, rest := Value(s[0]), Value(s[1]), Value(s[2]), Value(s[3]), Decode(s[4..]);
      if v0.None? || v1.None? || v2.None? || v3.None? || rest.None? then None
      else Some(Quantum(v0.value, v1.value, v2.value, v3.value) + rest.value)
  }

  lemma UpperValue(v: nat)
    requires v < 26
    ensures UPPER[v] as int == 'A' as int + v
  {
  }

  lemma LowerValue(v: nat)
    requires v < 26
    ensures LOWER[v] as int == 'a' as int + v
  {
  }

  lemma DigitValue(v: nat)
    requires v < 10
    ensures DIGITS[v] as int == '0' as int + v
  {
  }

  lemma AlphabetAt(v: nat)
    requires v < 64
    ensures Letter(v) ==
            if v < 26 then UPPER[v] else if v < 52 then LOWER[v - 26]
            else if v < 62 then DIGITS[v - 52] else "+/"[v - 62]
  {
  }

  /** The encoder's table and Table 1 agree. */
  lemma LetterValue(v: nat)
    requires v < 64
    ensures Value(Letter(v)) == Some(v) && Letter(v) != '='
  {
    hide UPPER, LOWER, DIGITS, Letter;
    AlphabetAt(v);
    if v < 26 {
      UpperValue(v);
    } else if v < 52 {
      LowerValue(v - 26);
    } else if v < 62 {
      DigitValue(v - 52);
    }
  }

  // ----- What the accumulator holds

  /** A negative `char` borrows one from the bits already accumulated. */
  function Borrow(sign: CharSign, b: byte): (d: nat)
    ensures d <= 1
  {
    if sign.Signed? && b >= 0x80 then 1 else 0
  }

  lemma WrapBy(v: int) returns (q: int)
    ensures Wrap(v) == v + 0x1_0000_0000 * q
  {
    q := -((v + 0x8000_0000) / 0x1_0000_0000);
  }

  lemma ShiftedBy(sign: CharSign, i: int, b: byte) returns (m: int)
    ensures Shifted(sign, i, b) == 256 * (i - Borrow(sign, b) + 0x100_0000 * m) + b
  {
    hide Wrap;
    var q1 := WrapBy(i * 256);
    var q2 := WrapBy(Wrap(i * 256) + CharValue(sign, b));
    m := q1 + q2;
  }

  lemma Pow2Values()
    ensures Pow2(0) == 1 && Pow2(2) == 4 && Pow2(4) == 16 && Pow2(6) == 64
  {
  }

  lemma BitsAt2(m: int, r: nat)
    requires r < 256
    ensures Sextet(256 * m + r, 2) == r / 4
  {
    Pow2Values();
    var x := 256 * m + r;
    assert r == 4 * (r / 4) + r % 4;
    assert x / 4 == 64 * m + r / 4;
  }

  lemma BitsAt4(m: int, r: nat)
    requires r < 1024
    ensures Sextet(1024 * m + r, 4) == r / 16
  {
    Pow2Values();
    assert (1024 * m + r) / 16 == 64 * m + r / 16;
  }

  lemma BitsAt6(m: int, r: nat)
    requires r < 4096
    ensures Sextet(4096 * m + r, 6) == r / 64
  {
    Pow2Values();
    assert (4096 * m + r) / 64 == 64 * m + r / 64;
  }

  lemma BitsAt0(m: int, r: nat)
    requires r < 64
    ensures Sextet(64 * m + r, 0) == r
  {
    Pow2Values();
  }

  lemma LowByte(sign: CharSign, i: int, b: byte)
    ensures Shifted(sign, i, b) % 256 == b
  {
    hide Shifted, Wrap, Borrow;
    var m := ShiftedBy(sign, i, b);
  }

  /** The leftover bits, moved up to make a whole sextet. */
  lemma LeftoverAt4(i: int, b: byte)
    requires i % 256 == b
    ensures Sextet(Wrap(i * 256), 4) == b % 4 * 16
  {
    hide Wrap, Sextet;
    var q := WrapBy(i * 256);
    var a := i / 256;
    assert i == 256 * a + b;
    assert b == 4 * (b / 4) + b % 4;
    var high := 64 * a + b / 4 + 0x40_0000 * q;
    assert Wrap(i * 256) == 1024 * high + b % 4 * 256;
    BitsAt4(high, b % 4 * 256);
  }

  lemma LeftoverAt6(i: int, b: byte)
    requires i % 256 == b
    ensures Sextet(Wrap(i * 256), 6) == b % 16 * 4
  {
    hide Wrap, Sextet;
    var q := WrapBy(i * 256);
    var a := i / 256;
    assert i == 256 * a + b;
    assert b == 16 * (b / 16) + b % 16;
    var high := 16 * a + b / 16 + 0x10_0000 * q;
    assert Wrap(i * 256) == 4096 * high + b % 16 * 256;
    BitsAt6(high, b % 16 * 256);
  }

  /** After one byte: its upper six bits. */
  lemma FirstByte(sign: CharSign, i: int, b: byte)
    ensures Sextet(Shifted(sign, i, b), 2) == b / 4
  {
    hide Shifted, Wrap, Sextet, Borrow;
    var m := ShiftedBy(sign, i, b);
    BitsAt2(i - Borrow(sign, b) + 0x100_0000 * m, b);
  }

  /** After a second byte: the two bits left over, less a borrow, with its upper four. */
  lemma SecondByte(sign: CharSign, i: int, b0: byte, b: byte)
    requires i % 256 == b0
    ensures Sextet(Shifted(sign, i, b), 4) == (b0 - Borrow(sign, b)) % 4 * 16 + b / 16
  {
    hide Shifted, Wrap, Sextet, Borrow;
    var m := ShiftedBy(sign, i, b);
    var x := b0 - Borrow(sign, b);
    var a := i / 256;
    assert i == 256 * a + b0;
    assert x == 4 * (x / 4) + x % 4;
    var high := 64 * a + 0x40_0000 * m + x / 4;
    assert Shifted(sign, i, b) == 1024 * high + (x % 4 * 256 + b);
    BitsAt4(high, x % 4 * 256 + b);
  }

  /** After a third byte: the four bits left over, less a borrow, with its upper two, and then its lower six. */
  lemma ThirdByte(sign: CharSign, i: int, b1: byte, b: byte)
    requires i % 256 == b1
    ensures var i' := Shifted(sign, i, b);
            && Sextet(i', 6) == (b1 - Borrow(sign, b)) % 16 * 4 + b / 64 && Sextet(i', 0) == b % 64
  {
    hide Shifted, Wrap, Sextet;
    var m := ShiftedBy(sign, i, b);
    var i' := Shifted(sign, i, b);
    var x := b1 - Borrow(sign, b);
    var a := i / 256;
    assert i == 256 * a + b1;
    assert x == 16 * (x / 16) + x % 16;
    var high := 16 * a + 0x10_0000 * m + x / 16;
    assert i' == 4096 * high + (x % 16 * 256 + b);
    BitsAt6(high, x % 16 * 256 + b);
    var low := 64 * high + x % 16 * 4 + b / 64;
    assert b == 64 * (b / 64) + b % 64;
    assert i' == 64 * low + b % 64;
    BitsAt0(low, b % 64);
  }

  // ----- Three bytes at a time

  lemma DrawnOnce(i: int, j: int)
    requires 0 <= j < 6
    ensures Drawn(i, j) == [Sextet(i, j)] && Settled(j) == j - 6
  {
    assert Drawn(i, j - 6) == [];
  }

  lemma DrawnTwice(i: int)
    ensures Drawn(i, 6) == [Sextet(i, 6), Sextet(i, 0)] && Settled(6) == -6
  {
    DrawnOnce(i, 0);
    assert Settled(0) == -6;
  }

  lemma StepSextets(sign: CharSign, i: int, j: int, b: byte, rest: seq<byte>)
    requires -6 <= j < 0
    ensures var i' := Shifted(sign, i, b);
            Sextets(sign, i, j, [b] + rest) == Drawn(i', j + 8) + Sextets(sign, i', Settled(j + 8), rest)
  {
    assert ([b] + rest)[1..] == rest;
  }

  /** What four sextets a group of three bytes becomes, whatever came before it. */
  lemma GroupOfThree(sign: CharSign, i: int, b0: byte, b1: byte, b2: byte, rest: seq<byte>) returns (i': int)
    ensures Sextets(sign, i, -6, [b0, b1, b2] + rest) ==
            [b0 / 4, (b0 - Borrow(sign, b1)) % 4 * 16 + b1 / 16, (b1 - Borrow(sign, b2)) % 16 * 4 + b2 / 64, b2 % 64]
            + Sextets(sign, i', -6, rest)
  {
    hide Sextets, Shifted, Sextet, Drawn, Settled;
    var i1 := Shifted(sign, i, b0);
    var i2 := Shifted(sign, i1, b1);
    i' := Shifted(sign, i2, b2);
    assert [b0, b1, b2] + rest == [b0] + ([b1] + ([b2] + rest));
    StepSextets(sign, i, -6, b0, [b1] + ([b2] + rest));
    DrawnOnce(i1, 2);
    StepSextets(sign, i1, -4, b1, [b2] + rest);
    DrawnOnce(i2, 4);
    StepSextets(sign, i2, -2, b2, rest);
    DrawnTwice(i');
    FirstByte(sign, i, b0);
    LowByte(sign, i, b0);
    SecondByte(sign, i1, b0, b1);
    LowByte(sign, i1, b1);
    ThirdByte(sign, i2, b1, b2);
  }

  lemma GroupOfTwo(sign: CharSign, i: int, b0: byte, b1: byte)
    ensures Sextets(sign, i, -6, [b0, b1]) ==
            [b0 / 4, (b0 - Borrow(sign, b1)) % 4 * 16 + b1 / 16, b1 % 16 * 4]
  {
    hide Shifted, Sextet, Drawn, Settled;
    var i1 := Shifted(sign, i, b0);
    var i2 := Shifted(sign, i1, b1);
    assert [b0, b1] == [b0] + ([b1] + []);
    StepSextets(sign, i, -6, b0, [b1] + []);
    DrawnOnce(i1, 2);
    StepSextets(sign, i1, -4, b1, []);
    DrawnOnce(i2, 4);
    FirstByte(sign, i, b0);
    LowByte(sign, i, b0);
    SecondByte(sign, i1, b0, b1);
    LowByte(sign, i1, b1);
    LeftoverAt6(i2, b1);
  }

  lemma GroupOfOne(sign: CharSign, i: int, b0: byte)
    ensures Sextets(sign, i, -6, [b0]) == [b0 / 4, b0 % 4 * 16]
  {
    hide Shifted, Sextet, Drawn, Settled;
    var i1 := Shifted(sign, i, b0);
    assert [b0] == [b0] + [];
    StepSextets(sign, i, -6, b0, []);
    DrawnOnce(i1, 2);
    FirstByte(sign, i, b0);
    LowByte(sign, i, b0);
    LeftoverAt4(i1, b0);
  }

  // ----- The round trip

  /** No byte that would be negative as a `char` sits where it borrows from bits still to be written. */
  predicate Clean(sign: CharSign, input: seq<byte>) {
    sign.Signed? ==> forall k :: 0 <= k < |input| && k % 3 != 0 ==> input[k] < 0x80
  }

  /** Decoding a group gives the bytes back exactly when neither of the last two borrows. */
  lemma QuantumExact(d1: nat, d2: nat, b0: byte, b1: byte, b2: byte)
    requires d1 <= 1 && d2 <= 1
    ensures Quantum(b0 / 4, (b0 - d1) % 4 * 16 + b1 / 16, (b1 - d2) % 16 * 4 + b2 / 64, b2 % 64) == [b0, b1, b2]
            <==> d1 == 0 && d2 == 0
  {
    var v1, v2 := (b0 - d1) % 4 * 16 + b1 / 16, (b1 - d2) % 16 * 4 + b2 / 64;
    assert v1 / 16 == (b0 - d1) % 4 && v1 % 16 == b1 / 16;
    assert v2 / 4 == (b1 - d2) % 16 && v2 % 4 == b2 / 64;
    assert b0 == 4 * (b0 / 4) + b0 % 4 && b1 == 16 * (b1 / 16) + b1 % 16 && b2 == 64 * (b2 / 64) + b2 % 64;
    assert (b0 - 1) % 4 != b0 % 4 && (b1 - 1) % 16 != b1 % 16;
  }

  lemma {:induction false} PaddedAdd(a: string, b: string)
    requires |a| % 4 == 0
    ensures Padded(a + b) == a + Padded(b)
    decreases (4 - |b| % 4) % 4
  {
    assert |a + b| % 4 == |b| % 4;
    if |b| % 4 != 0 {
      PaddedAdd(a, b + "=");
      assert a + (b + "=") == (a + b) + "=";
    }
  }

  lemma EncodeThree(sign: CharSign, i: int, b0: byte, b1: byte, b2: byte, rest: seq<byte>) returns (i': int)
    ensures var v1 := (b0 - Borrow(sign, b1)) % 4 * 16 + b1 / 16;
            var v2 := (b1 - Borrow(sign, b2)) % 16 * 4 + b2 / 64;
            EncodeFrom(sign, i, [b0, b1, b2] + rest) ==
            [Letter(b0 / 4), Letter(v1), Letter(v2), Letter(b2 % 64)] + EncodeFrom(sign, i', rest)
  {
    hide Sextets, Letter, Padded;
    i' := GroupOfThree(sign, i, b0, b1, b2, rest);
    var v1, v2 := (b0 - Borrow(sign, b1)) % 4 * 16 + b1 / 16, (b1 - Borrow(sign, b2)) % 16 * 4 + b2 / 64;
    var group := [b0 / 4, v1, v2, b2 % 64];
    LettersAdd(group, Sextets(sign, i', -6, rest));
    PaddedAdd(Letters(group), Letters(Sextets(sign, i', -6, rest)));
  }

  lemma EncodeTwo(sign: CharSign, i: int, b0: byte, b1: byte)
    ensures EncodeFrom(sign, i, [b0, b1]) ==
            [Letter(b0 / 4), Letter((b0 - Borrow(sign, b1)) % 4 * 16 + b1 / 16), Letter(b1 % 16 * 4), '=']
  {
    hide Sextets, Letter;
    GroupOfTwo(sign, i, b0, b1);
    var s := Letters(Sextets(sign, i, -6, [b0, b1]));
    assert Padded(s) == s + "=";
  }

  lemma EncodeOne(sign: CharSign, i: int, b0: byte)
    ensures EncodeFrom(sign, i, [b0]) == [Letter(b0 / 4), Letter(b0 % 4 * 16), '=', '=']
  {
    hide Sextets, Letter;
    GroupOfOne(sign, i, b0);
    var s := Letters(Sextets(sign, i, -6, [b0]));
    assert Padded(s + "=") == s + "=" + "=";
  }

  /** Four letters in front of an encoding, decoded. */
  lemma DecodeFour(v0: nat, v1: nat, v2: nat, v3: nat, rest: string)
    requires v0 < 64 && v1 < 64 && v2 < 64 && v3 < 64
    ensures Decode([Letter(v0), Letter(v1), Letter(v2), Letter(v3)] + rest) ==
            if Decode(rest).None? then None else Some(Quantum(v0, v1, v2, v3) + Decode(rest).value)
  {
    hide Letter, Value, Quantum;
    LetterValue(v0); LetterValue(v1); LetterValue(v2); LetterValue(v3);
    var s := [Letter(v0), Letter(v1), Letter(v2), Letter(v3)] + rest;
    assert s[4..] == rest;
  }

  /** Four letters of a group in front of the encoding of the rest: exact if both are. */
  lemma DecodeGroup(sign: CharSign, b0: byte, b1: byte, b2: byte, rest: seq<byte>, tail: string)
    requires Decode(tail).Some? && |Decode(tail).value| == |rest|
    requires Decode(tail) == Some(rest) <==> Clean(sign, rest)
    ensures var v1, v2 := (b0 - Borrow(sign, b1)) % 4 * 16 + b1 / 16, (b1 - Borrow(sign, b2)) % 16 * 4 + b2 / 64;
            var r := Decode([Letter(b0 / 4), Letter(v1), Letter(v2), Letter(b2 % 64)] + tail);
            && r.Some? && |r.value| == 3 + |rest|
            && (r == Some([b0, b1, b2] + rest) <==> Clean(sign, [b0, b1, b2] + rest))
  {
    hide Letter, Quantum, Decode, Clean, Borrow;
    var v1, v2 := (b0 - Borrow(sign, b1)) % 4 * 16 + b1 / 16, (b1 - Borrow(sign, b2)) % 16 * 4 + b2 / 64;
    DecodeFour(b0 / 4, v1, v2, b2 % 64, tail);
    QuantumExact(Borrow(sign, b1), Borrow(sign, b2), b0, b1, b2);
    CleanGroup(sign, b0, b1, b2, rest);
    SameParts(Quantum(b0 / 4, v1, v2, b2 % 64), Decode(tail).value, [b0, b1, b2], rest);
  }

  /**
   * Despite the accumulator that keeps only the last 32 bits, the output is four characters per started
   * group of three bytes and decodes to the input, exactly for clean inputs; with an unsigned `char`
   * every input is clean.
   */
  lemma {:induction false} RoundTrip(sign: CharSign, i: int, input: seq<byte>)
    ensures |EncodeFrom(sign, i, input)| == 4 * ((|input| + 2) / 3)
    ensures Decode(EncodeFrom(sign, i, input)) == Some(input) <==> Clean(sign, input)
    ensures Decode(EncodeFrom(sign, i, input)).Some? && |Decode(EncodeFrom(sign, i, input)).value| == |input|
    decreases |input|
  {
    hide Letter, EncodeFrom, Decode, Clean, Borrow;
    if |input| == 0 {
      assert EncodeFrom(sign, i, input) == "" by { EncodeNone(sign, i, input); }
      CleanShort(sign, input);
      assert Decode("") == Some([]) by { DecodeNone(); }
    } else if |input| == 1 {
      assert input == [input[0]];
      EncodeOne(sign, i, input[0]);
      DecodePadTwo(input[0]);
      CleanShort(sign, input);
    } else if |input| == 2 {
      assert input == [input[0], input[1]];
      EncodeTwo(sign, i, input[0], input[1]);
      DecodePadOne(Borrow(sign, input[1]), input[0], input[1]);
      CleanShort(sign, input);
    } else {
      var b0, b1, b2, rest := input[0], input[1], input[2], input[3..];
      assert input == [b0, b1, b2] + rest;
      var i' := EncodeThree(sign, i, b0, b1, b2, rest);
      RoundTrip(sign, i', rest);
      DecodeGroup(sign, b0, b1, b2, rest, EncodeFrom(sign, i', rest));
    }
  }

  lemma SameParts(a: seq<byte>, b: seq<byte>, c: seq<byte>, d: seq<byte>)
    requires |a| == |c| && |b| == |d|
    ensures a + b == c + d <==> a == c && b == d
  {
    assert (a + b)[..|a|] == a && (a + b)[|a|..] == b;
    assert (c + d)[..|a|] == c && (c + d)[|a|..] == d;
  }

  lemma CleanGroup(sign: CharSign, b0: byte, b1: byte, b2: byte, rest: seq<byte>)
    ensures Clean(sign, [b0, b1, b2] + rest) <==> Borrow(sign, b1) == 0 && Borrow(sign, b2) == 0 && Clean(sign, rest)
  {
    var input := [b0, b1, b2] + rest;
    if Clean(sign, input) && sign.Signed? {
      assert input[1] == b1 && input[2] == b2;
      forall k | 0 <= k < |rest| && k % 3 != 0
        ensures rest[k] < 0x80
      {
        assert input[k + 3] == rest[k];
      }
    }
    if Borrow(sign, b1) == 0 && Borrow(sign, b2) == 0 && Clean(sign, rest) && sign.Signed? {
      forall k | 0 <= k < |input| && k % 3 != 0
        ensures input[k] < 0x80
      {
        assert k >= 3 ==> input[k] == rest[k - 3] && (k - 3) % 3 != 0;
      }
    }
  }

  lemma CleanShort(sign: CharSign, input: seq<byte>)
    requires |input| < 3
    ensures Clean(sign, input) <==> |input| < 2 || Borrow(sign, input[1]) == 0
  {
  }

  /** The bytes 0x00 and 0x80 do not come back from a signed `char`: the second borrows from the first. */
  lemma SignedByteLost(i: int)
    ensures Decode(EncodeFrom(Signed, i, [0, 0x80])) != Some([0, 0x80])
    ensures Decode(EncodeFrom(Unsigned, i, [0, 0x80])) == Some([0, 0x80])
  {
    hide EncodeFrom, Decode;
    assert !Clean(Signed, [0, 0x80]) by { CleanShort(Signed, [0, 0x80]); }
    RoundTrip(Signed, i, [0, 0x80]);
    RoundTrip(Unsigned, i, [0, 0x80]);
  }

  lemma EncodeNone(sign: CharSign, i: int, input: seq<byte>)
    requires input == []
    ensures EncodeFrom(sign, i, input) == ""
  {
  }

  lemma DecodeNone()
    ensures Decode("") == Some([])
  {
  }

  lemma DecodePadTwo(b0: byte)
    ensures Decode([Letter(b0 / 4), Letter(b0 % 4 * 16), '=', '=']) == Some([b0])
  {
    hide Letter, Value;
    LetterValue(b0 / 4);
    LetterValue(b0 % 4 * 16);
    assert b0 / 4 * 4 + b0 % 4 * 16 / 16 == b0;
    assert Quantum(b0 / 4, b0 % 4 * 16, 0, 0)[..1] == [b0];
  }

  lemma DecodePadOne(d: nat, b0: byte, b1: byte)
    requires d <= 1
    ensures var r := Decode([Letter(b0 / 4), Letter((b0 - d) % 4 * 16 + b1 / 16), Letter(b1 % 16 * 4), '=']);
            r.Some? && |r.value| == 2 && (r.value == [b0, b1] <==> d == 0)
  {
    hide Letter, Value;
    var v1, v2 := (b0 - d) % 4 * 16 + b1 / 16, b1 % 16 * 4;
    LetterValue(b0 / 4);
    LetterValue(v1);
    LetterValue(v2);
    assert v1 / 16 == (b0 - d) % 4 && v1 % 16 == b1 / 16 && v2 / 4 == b1 % 16 && v2 % 4 == 0;
    assert b0 == 4 * (b0 / 4) + b0 % 4 && b1 == 16 * (b1 / 16) + b1 % 16;
    assert (b0 - 1) % 4 != b0 % 4;
    assert Quantum(b0 / 4, v1, v2, 0)[..2] == [b0 / 4 * 4 + (b0 - d) % 4, b1];
  }
}
