/** Bytes, optional values and the sequence folds shared by every other module. */
module Base {

  type byte = b: int | 0 <= b < 256

  /** One past the largest `uint32_t`. */
  const UINT32_RANGE: nat := 0x1_0000_0000

  /** The signedness of plain `char`, which the C++ standard leaves to the implementation. */
  datatype CharSign = Signed | Unsigned

  datatype Option<+T> = None | Some(value: T)

  /** The value a plain `char` holding the bits of `b` has as an `int`. */
  function CharValue(sign: CharSign, b: byte): int {
    if sign.Signed? && b >= 0x80 then b - 256 else b
  }

  function Concat<T>(parts: seq<seq<T>>): seq<T> {
    if parts == [] then [] else Concat(parts[..|parts| - 1]) + parts[|parts| - 1]
  }

  lemma {:induction false} ConcatAdd<T>(a: seq<seq<T>>, b: seq<seq<T>>)
    ensures Concat(a + b) == Concat(a) + Concat(b)
    decreases |b|
  {
    if b == [] {
      assert a + b == a;
    } else {
      var init := b[..|b| - 1];
      assert (a + b)[..|a + b| - 1] == a + init;
      ConcatAdd(a, init);
      var last := b[|b| - 1];
      assert (a + b)[|a + b| - 1] == last;
      assert Concat(a) + (Concat(init) + last) == (Concat(a) + Concat(init)) + last;
    }
  }

  lemma ConcatOne<T>(a: seq<seq<T>>, x: seq<T>)
    ensures Concat(a + [x]) == Concat(a) + x
  {
    assert (a + [x])[..|a|] == a;
  }

  lemma ConcatFront<T>(x: seq<T>, rest: seq<seq<T>>)
    ensures Concat([x] + rest) == x + Concat(rest)
  {
    ConcatAdd([x], rest);
    ConcatOne([], x);
    assert [] + [x] == [x];
  }

  lemma ConcatSingle<T>(x: seq<T>)
    ensures Concat([x]) == x
  {
    ConcatFront(x, []);
    assert [x] + [] == [x];
  }

  function Reverse<T>(s: seq<T>): (r: seq<T>)
    ensures |r| == |s|
  {
    if s == [] then [] else Reverse(s[1..]) + [s[0]]
  }

  lemma {:induction false} ReverseAdd<T>(a: seq<T>, b: seq<T>)
    ensures Reverse(a + b) == Reverse(b) + Reverse(a)
  {
    if a == [] {
      assert a + b == b;
    } else {
      assert (a + b)[1..] == a[1..] + b;
      ReverseAdd(a[1..], b);
    }
  }
}
