/** src/protoc-gen-grpcxx/grpcxx.cpp: the scans over dotted package and type names. */
module Generator {
  import opened Base
  import opened Requests

  // ----- Splitting a name

  /** Each segment followed by the separator. */
  function Terminated(segs: seq<string>, sep: string): string {
    if segs == [] then "" else Terminated(segs[..|segs| - 1], sep) + segs[|segs| - 1] + sep
  }

  function Joined(segs: seq<string>, sep: string): string
    requires segs != []
  {
    Terminated(segs[..|segs| - 1], sep) + segs[|segs| - 1]
  }

  /** `segs` are the parts of `s` between separators; no part contains the separator's first character. */
  predicate IsSplit(s: string, segs: seq<string>, sep: string)
    requires sep != ""
  {
    && segs != [] && s == Joined(segs, sep)
    && forall k :: 0 <= k < |segs| ==> sep[0] !in segs[k]
  }

  lemma TerminatedOne(segs: seq<string>, seg: string, sep: string)
    ensures Terminated(segs + [seg], sep) == Terminated(segs, sep) + seg + sep
  {
    assert (segs + [seg])[..|segs|] == segs;
  }

  lemma {:induction false} TerminatedFront(seg: string, segs: seq<string>, sep: string)
    ensures Terminated([seg] + segs, sep) == seg + sep + Terminated(segs, sep)
  {
    if segs == [] {
      assert [seg] + segs == [] + [seg];
      TerminatedOne([], seg, sep);
    } else {
      var init, last := segs[..|segs| - 1], segs[|segs| - 1];
      TerminatedFront(seg, init, sep);
      assert [seg] + segs == ([seg] + init) + [last];
      TerminatedOne([seg] + init, last, sep);
      assert seg + sep + Terminated(init, sep) + last + sep == seg + sep + (Terminated(init, sep) + last + sep);
    }
  }

  lemma JoinedFront(seg: string, segs: seq<string>, sep: string)
    requires segs != []
    ensures Joined([seg] + segs, sep) == seg + sep + Joined(segs, sep)
  {
    var init, last := segs[..|segs| - 1], segs[|segs| - 1];
    assert ([seg] + segs)[..|segs|] == [seg] + init;
    TerminatedFront(seg, init, sep);
    assert seg + sep + Terminated(init, sep) + last == seg + sep + (Terminated(init, sep) + last);
  }

  /** A name splits in one way only. */
  lemma {:induction false} SplitUnique(s: string, a: seq<string>, b: seq<string>, sep: string)
    requires sep != "" && IsSplit(s, a, sep) && IsSplit(s, b, sep)
    ensures a == b
    decreases |a|
  {
    if |a| == 1 {
      ShortSplit(s, a, b, sep);
    } else if |b| == 1 {
      ShortSplit(s, b, a, sep);
    } else {
      assert a == [a[0]] + a[1..] && b == [b[0]] + b[1..];
      JoinedFront(a[0], a[1..], sep);
      JoinedFront(b[0], b[1..], sep);
      var ra, rb := Joined(a[1..], sep), Joined(b[1..], sep);
      FirstPart(a[0], ra, b[0], rb, sep);
      SplitUnique(ra, a[1..], b[1..], sep);
    }
  }

  lemma SeparatorShows(segs: seq<string>, sep: string)
    requires sep != "" && |segs| > 1
    ensures sep[0] in Joined(segs, sep)
  {
    assert segs == [segs[0]] + segs[1..];
    JoinedFront(segs[0], segs[1..], sep);
    assert Joined(segs, sep)[|segs[0]|] == sep[0];
  }

  lemma JoinedOne(seg: string, sep: string)
    ensures Joined([seg], sep) == seg
  {
    assert [seg][..0] == [];
    assert "" + seg == seg;
  }

  /** A name without separators is one segment. */
  lemma ShortSplit(s: string, a: seq<string>, b: seq<string>, sep: string)
    requires sep != "" && IsSplit(s, a, sep) && IsSplit(s, b, sep) && |a| == 1
    ensures a == b
  {
    assert a == [a[0]];
    JoinedOne(a[0], sep);
    if |b| > 1 {
      SeparatorShows(b, sep);
    }
    assert b == [b[0]];
    JoinedOne(b[0], sep);
  }

  lemma FirstPart(x: string, u: string, y: string, v: string, sep: string)
    requires sep != "" && sep[0] !in x && sep[0] !in y
    requires x + sep + u == y + sep + v
    ensures x == y && u == v
  {
    var s := x + sep + u;
    assert s[|x|] == sep[0] && s[|y|] == sep[0];
    assert forall i :: 0 <= i < |x| ==> s[i] == x[i];
    assert forall i :: 0 <= i < |y| ==> s[i] == y[i];
    assert |x| == |y|;
    assert x == s[..|x|] && y == s[..|y|];
    assert u == s[|x| + |sep|..] && v == s[|y| + |sep|..];
  }

  // ----- Opening namespaces: the forward scan

  /** The parts of `s` that the scan from `start` cuts out. */
  method OpenNamespaces(pkg: string) returns (names: seq<string>)
    ensures IsSplit(pkg, names, ".")
  {
    names := [];
    var start := 0;
    var end := FindFrom(pkg, '.', 0);
    while end.Some?
      invariant 0 <= start <= |pkg| && end == FindFrom(pkg, '.', start)
      invariant Terminated(names, ".") == pkg[..start]
      invariant forall k :: 0 <= k < |names| ==> '.' !in names[k]
      decreases |pkg| - start
    {
      var seg := pkg[start..end.value];
      TerminatedOne(names, seg, ".");
      assert pkg[..end.value + 1] == pkg[..start] + seg + ".";
      names := names + [seg];
      start := end.value + 1;
      end := FindFrom(pkg, '.', start);
    }
    var last := pkg[start..];
    assert (names + [last])[..|names|] == names;
    names := names + [last];
  }

  // ----- Closing namespaces: the backward scan

  /** `std::string::npos`, which is also what `0 - 1` gives. */
  const NPOS: nat := 0xFFFF_FFFF_FFFF_FFFF

  /** `rfind(c, pos)`: the last occurrence at or before `pos`. */
  function RFind(s: string, c: char, pos: nat): (r: Option<nat>)
    ensures r.Some? ==>
              && r.value < |s| && r.value <= pos && s[r.value] == c
              && forall i :: r.value < i <= pos && i < |s| ==> s[i] != c
    ensures r.None? ==> forall i :: 0 <= i <= pos && i < |s| ==> s[i] != c
  {
    if pos < |s| && s[pos] == c then Some(pos)
    else if pos == 0 then None
    else RFind(s, c, pos - 1)
  }

  /** `substr(start, count)`, which stops at the end of the string. */
  function Substr(s: string, start: nat, count: nat): string
    requires start <= |s|
  {
    if start + count <= |s| then s[start..start + count] else s[start..]
  }

  /** Subtraction of `size_t` values. */
  function Minus(a: nat, b: nat): nat {
    (a - b) % (NPOS + 1)
  }

  /** The closing scan from `end`, allowed `rounds` rounds of its loop: the names closed, or no end yet. */
  function CloseFrom(pkg: string, end: nat, rounds: nat): Option<seq<string>>
    decreases rounds
  {
    var pos := RFind(pkg, '.', end);
    if pos.None? then Some([Substr(pkg, 0, (end + 1) % (NPOS + 1))])
    else if rounds == 0 then None
    else
      var others := CloseFrom(pkg, Minus(pos.value, 1), rounds - 1);
      if others.None? then None else Some([Substr(pkg, pos.value + 1, Minus(end, pos.value))] + others.value)
  }

  /** How much of the package is still open when the scan stands at `end`. */
  predicate StillOpen(pkg: string, end: nat, h: nat) {
    h <= |pkg| < NPOS && (end == |pkg| == h || (end + 1 == h <= |pkg|))
  }

  lemma LastDot(pkg: string, h: nat, segs: seq<string>)
    requires h <= |pkg| && IsSplit(pkg[..h], segs, ".")
    ensures |segs| == 1 ==> '.' !in pkg[..h] && segs[0] == pkg[..h]
    ensures |segs| > 1 ==>
              var pos := h - 1 - |segs[|segs| - 1]|;
              && 0 <= pos < h && pkg[pos] == '.' && '.' !in pkg[pos + 1..h]
              && pkg[pos + 1..h] == segs[|segs| - 1]
              && IsSplit(pkg[..pos], segs[..|segs| - 1], ".")
  {
    if |segs| == 1 {
      assert segs[..0] == [];
    } else {
      var init, last := segs[..|segs| - 1], segs[|segs| - 1];
      var head := Joined(init, ".");
      assert Terminated(init, ".") == head + ".";
      assert pkg[..h] == head + "." + last;
      var pos := |head|;
      assert pkg[..h][pos] == '.';
      assert pkg[pos + 1..h] == pkg[..h][pos + 1..] == last;
      assert pkg[..pos] == pkg[..h][..pos] == head;
    }
  }

  /** Where the scan finds its dot, and the segment it cuts out there. */
  lemma Located(pkg: string, end: nat, h: nat, segs: seq<string>)
    requires StillOpen(pkg, end, h) && IsSplit(pkg[..h], segs, ".") && pkg != "" && pkg[0] != '.' && h > 0
    ensures |segs| == 1 <==> RFind(pkg, '.', end).None?
    ensures |segs| == 1 ==> Substr(pkg, 0, end + 1) == segs[0]
    ensures |segs| > 1 ==>
              var last := segs[|segs| - 1];
              var pos := h - 1 - |last|;
              && pos > 0 && RFind(pkg, '.', end) == Some(pos) && pos <= end
              && Substr(pkg, pos + 1, Minus(end, pos)) == last
  {
    assert segs != [];
    hide IsSplit, Minus, RFind;
    LastDot(pkg, h, segs);
    if |segs| == 1 {
      assert forall i :: 0 <= i < h ==> pkg[i] == pkg[..h][i];
    } else {
      var last := segs[|segs| - 1];
      var pos := h - 1 - |last|;
      NoBorrow(end, pos);
      assert forall i :: pos < i < h ==> pkg[i] == pkg[pos + 1..h][i - pos - 1];
    }
  }

  /** From a well-placed end, the scan closes what is open, innermost first. */
  lemma {:induction false} ClosesHead(pkg: string, end: nat, h: nat, segs: seq<string>, rounds: nat)
    requires StillOpen(pkg, end, h) && IsSplit(pkg[..h], segs, ".") && pkg != "" && pkg[0] != '.' && h > 0
    ensures CloseFrom(pkg, end, rounds) == if rounds >= |segs| - 1 then Some(Reverse(segs)) else None
    decreases |segs|
  {
    hide Substr, Minus, RFind, Joined;
    LastDot(pkg, h, segs);
    Located(pkg, end, h, segs);
    assert (end + 1) % (NPOS + 1) == end + 1;
    if |segs| == 1 {
      assert segs == [segs[0]] && segs[1..] == [];
      assert Reverse(segs) == [] + [segs[0]] == [Substr(pkg, 0, end + 1)];
      assert CloseFrom(pkg, end, rounds) == Some([Substr(pkg, 0, end + 1)]);
    } else if rounds > 0 {
      var init, last := segs[..|segs| - 1], segs[|segs| - 1];
      var pos := h - 1 - |last|;
      NoBorrow(pos, 1);
      ClosesHead(pkg, pos - 1, pos, init, rounds - 1);
      assert segs == init + [last];
      ReverseAdd(init, [last]);
      assert Reverse([last]) == [last];
      assert Reverse(segs) == [last] + Reverse(init);
    }
  }

  lemma NoBorrow(a: nat, b: nat)
    requires b <= a <= NPOS
    ensures Minus(a, b) == a - b
  {
  }

  /** A leading dot sends the scan round for ever: there is always another dot to find. */
  lemma {:induction false} LeadingDotNeverCloses(pkg: string, end: nat, rounds: nat)
    requires "." <= pkg
    ensures CloseFrom(pkg, end, rounds).None?
    decreases rounds
  {
    assert pkg[0] == '.';
    if rounds > 0 {
      LeadingDotNeverCloses(pkg, Minus(RFind(pkg, '.', end).value, 1), rounds - 1);
    }
  }

  /**
   * The closing scan comes to an end exactly for packages that do not start with a dot, and then it
   * closes, in reverse, the namespaces that were opened.
   */
  lemma ClosingScan(pkg: string, segs: seq<string>)
    requires pkg != "" && |pkg| < NPOS && IsSplit(pkg, segs, ".")
    ensures (exists rounds :: CloseFrom(pkg, |pkg|, rounds).Some?) <==> !("." <= pkg)
    ensures forall rounds ::
              CloseFrom(pkg, |pkg|, rounds).Some? ==> CloseFrom(pkg, |pkg|, rounds).value == Reverse(segs)
  {
    hide CloseFrom;
    if "." <= pkg {
      forall rounds: nat
        ensures CloseFrom(pkg, |pkg|, rounds).None?
      {
        LeadingDotNeverCloses(pkg, |pkg|, rounds);
      }
    } else {
      assert pkg[..|pkg|] == pkg;
      forall rounds: nat
        ensures CloseFrom(pkg, |pkg|, rounds).Some? ==> CloseFrom(pkg, |pkg|, rounds).value == Reverse(segs)
      {
        ClosesHead(pkg, |pkg|, |pkg|, segs, rounds);
      }
      ClosesHead(pkg, |pkg|, |pkg|, segs, |segs|);
      assert CloseFrom(pkg, |pkg|, |segs|).Some?;
    }
  }

  /** The loop itself, for the packages on which it ends. */
  method CloseNamespaces(pkg: string) returns (closed: seq<string>)
    requires pkg != "" && |pkg| < NPOS && !("." <= pkg)
    ensures IsSplit(pkg, Reverse(closed), ".")
  {
    hide Substr, Minus, RFind, Joined;
    ghost var segs := SplitOf(pkg);
    closed := [];
    var end: nat := |pkg|;
    ghost var h, k := |pkg|, |segs|;
    assert pkg[..h] == pkg && segs[..k] == segs && segs[k..] == [];
    var pos := RFind(pkg, '.', end);
    while pos.Some?
      invariant 0 < h && StillOpen(pkg, end, h) && pos == RFind(pkg, '.', end)
      invariant 0 < k <= |segs| && IsSplit(pkg[..h], segs[..k], ".")
      invariant closed == Reverse(segs[k..])
      decreases end
    {
      LastDot(pkg, h, segs[..k]);
      Located(pkg, end, h, segs[..k]);
      var seg := Substr(pkg, pos.value + 1, Minus(end, pos.value));
      assert segs[k - 1..] == [segs[k - 1]] + segs[k..];
      assert segs[..k][..k - 1] == segs[..k - 1];
      closed := closed + [seg];
      end := pos.value - 1;
      h, k := pos.value, k - 1;
      pos := RFind(pkg, '.', end);
    }
    LastDot(pkg, h, segs[..k]);
    Located(pkg, end, h, segs[..k]);
    assert k == 1;
    assert segs == [segs[0]] + segs[1..];
    closed := closed + [Substr(pkg, 0, end + 1)];
    assert closed == Reverse(segs);
    ReverseTwice(segs);
  }

  lemma {:induction false} ReverseTwice(s: seq<string>)
    ensures Reverse(Reverse(s)) == s
  {
    if s != [] {
      ReverseTwice(s[1..]);
      ReverseAdd(Reverse(s[1..]), [s[0]]);
      assert Reverse([s[0]]) == [s[0]];
    }
  }

  /** Every name splits. */
  lemma {:induction false} SplitOf(s: string) returns (segs: seq<string>)
    ensures IsSplit(s, segs, ".")
    decreases |s|
  {
    var n := FindFrom(s, '.', 0);
    if n.None? {
      segs := [s];
      assert segs[..0] == [];
    } else {
      var others := SplitOf(s[n.value + 1..]);
      segs := [s[..n.value]] + others;
      JoinedFront(s[..n.value], others, ".");
      assert s == s[..n.value] + "." + s[n.value + 1..];
    }
  }

  // ----- Mapping type names

  /** `OutOfRange` is the exception of `string_view::substr`. */
  datatype Mapped = Name(text: string) | OutOfRange

  /** The loop that turns dots into `::`. */
  method Scoped(name: string) returns (result: string, ghost segs: seq<string>)
    ensures IsSplit(name, segs, ".") && result == Joined(segs, "::")
  {
    result := "";
    segs := [];
    var start := 0;
    var end := FindFrom(name, '.', 0);
    while end.Some?
      invariant 0 <= start <= |name| && end == FindFrom(name, '.', start)
      invariant Terminated(segs, ".") == name[..start] && result == Terminated(segs, "::")
      invariant forall k :: 0 <= k < |segs| ==> '.' !in segs[k]
      decreases |name| - start
    {
      ghost var seg := name[start..end.value];
      TerminatedOne(segs, seg, ".");
      TerminatedOne(segs, seg, "::");
      assert name[..end.value + 1] == name[..start] + seg + ".";
      result := result + name[start..end.value];
      result := result + "::";
      segs := segs + [seg];
      start := end.value + 1;
      end := FindFrom(name, '.', start);
    }
    ghost var last := name[start..];
    assert (segs + [last])[..|segs|] == segs;
    segs := segs + [last];
    result := result + name[start..];
  }

  /** The mapper of the generator, on the name of a type and the package of the file. */
  method MapType(pkg: string, name: string) returns (mapped: Mapped, ghost segs: seq<string>)
    ensures mapped.OutOfRange? <==> pkg != "" && pkg == name
    ensures mapped.Name? ==> IsSplit(Stripped(pkg, name), segs, ".") && mapped.text == Joined(segs, "::")
  {
    segs := [];
    var rest := name;
    if pkg != "" && pkg <= name {
      if |pkg| + 1 > |name| {
        assert name == pkg;
        return OutOfRange, segs;
      }
      rest := name[|pkg| + 1..];
    }
    var text;
    text, segs := Scoped(rest);
    mapped := Name(text);
  }

  /** What the mapper keeps of a name: one character more than the package's text is dropped, whatever it is. */
  function Stripped(pkg: string, name: string): string {
    if pkg != "" && pkg <= name && |pkg| < |name| then name[|pkg| + 1..] else name
  }

  /** What it is meant to keep: the name relative to the package when the type is in it. */
  function Relative(pkg: string, name: string): string {
    if pkg != "" && pkg + "." <= name then name[|pkg| + 1..] else name
  }

  /** The type's name starts with the package's text, but the type is not in the package. */
  predicate Misleading(pkg: string, name: string) {
    pkg != "" && pkg <= name && !(pkg + "." <= name)
  }

  lemma {:induction false} JoinedLength(segs: seq<string>)
    requires segs != []
    ensures |Joined(segs, "::")| == |Joined(segs, ".")| + |segs| - 1
  {
    if |segs| == 1 {
      assert segs[..0] == [];
    } else {
      assert segs == [segs[0]] + segs[1..];
      JoinedFront(segs[0], segs[1..], "::");
      JoinedFront(segs[0], segs[1..], ".");
      JoinedLength(segs[1..]);
    }
  }

  /** Cutting characters off the front of a name does not add segments. */
  lemma {:induction false} FewerSegments(s: string, segs: seq<string>, n: nat, others: seq<string>)
    requires IsSplit(s, segs, ".") && n <= |s| && IsSplit(s[n..], others, ".")
    ensures |others| <= |segs|
    decreases |segs|
  {
    if |segs| == 1 {
      JoinedOne(segs[0], ".");
      assert segs == [segs[0]];
      if |others| > 1 {
        SeparatorShows(others, ".");
      }
    } else {
      var first, rest := segs[0], segs[1..];
      assert segs == [first] + rest;
      JoinedFront(first, rest, ".");
      var tail := Joined(rest, ".");
      assert s == first + "." + tail;
      if n <= |first| {
        var cut := first[n..];
        assert s[n..] == cut + "." + tail;
        var again := [cut] + rest;
        JoinedFront(cut, rest, ".");
        assert IsSplit(s[n..], again, ".") by {
          assert forall k :: 0 <= k < |again| ==> again[k] == if k == 0 then cut else rest[k - 1];
        }
        SplitUnique(s[n..], again, others, ".");
      } else {
        assert s[n..] == tail[n - |first| - 1..];
        FewerSegments(tail, rest, n - |first| - 1, others);
      }
    }
  }

  /**
   * The mapper writes the type's name relative to the package, with `::` for dots, exactly when the name
   * does not merely begin with the package's text; in the other cases it throws or drops too much.
   */
  lemma MapperExact(pkg: string, name: string, kept: seq<string>, meant: seq<string>)
    requires IsSplit(Stripped(pkg, name), kept, ".") && IsSplit(Relative(pkg, name), meant, ".")
    ensures (!(pkg != "" && pkg == name) && Joined(kept, "::") == Joined(meant, "::")) <==> !Misleading(pkg, name)
  {
    if Misleading(pkg, name) {
      if pkg != name {
        assert |pkg| < |name|;
        FewerSegments(name, meant, |pkg| + 1, kept);
        JoinedLength(kept);
        JoinedLength(meant);
      }
    } else {
      assert Stripped(pkg, name) == Relative(pkg, name);
      SplitUnique(Relative(pkg, name), kept, meant, ".");
    }
  }

  /** Package `a` and type `ab.C`, which is not in it: the mapper writes `.C`, hence `::C`. */
  lemma MapperMisled()
    ensures Misleading("a", "ab.C") && Stripped("a", "ab.C") == ".C" && Relative("a", "ab.C") == "ab.C"
    ensures IsSplit(".C", ["", "C"], ".") && Joined(["", "C"], "::") == "::C"
  {
    hide Joined;
    assert ("a" + ".")[1] != "ab.C"[1];
    assert ["", "C"] == [""] + ["C"];
    JoinedFront("", ["C"], ".");
    JoinedFront("", ["C"], "::");
    JoinedOne("C", ".");
    JoinedOne("C", "::");
  }

  /** The mapped text splits at `::` into the same segments, and into no others, if no segment has a colon. */
  lemma ScopedSplitsBack(name: string, segs: seq<string>, back: seq<string>)
    requires IsSplit(name, segs, ".") && ':' !in name
    requires IsSplit(Joined(segs, "::"), back, "::")
    ensures back == segs
  {
    forall k | 0 <= k < |segs|
      ensures ':' !in segs[k]
    {
      SegmentInside(segs, k);
    }
    SplitUnique(Joined(segs, "::"), segs, back, "::");
  }

  lemma {:induction false} SegmentInside(segs: seq<string>, k: nat)
    requires k < |segs|
    ensures forall c :: c in segs[k] ==> c in Joined(segs, ".")
    decreases |segs|
  {
    if |segs| == 1 {
      assert segs == [segs[0]];
      JoinedOne(segs[0], ".");
    } else {
      assert segs == [segs[0]] + segs[1..];
      JoinedFront(segs[0], segs[1..], ".");
      if k > 0 {
        SegmentInside(segs[1..], k - 1);
      }
    }
  }
}
