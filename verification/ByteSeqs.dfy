/** Byte strings: the order of keys, little-endian numbers, and places in a buffer. */
module ByteSeqs {
  import opened Entries

  // ---- order ---------------------------------------------------------------------------

  /** Byte-wise lexicographic order, as Rust compares str. */
  predicate Less(a: Bytes, b: Bytes) {
    if b == [] then false
    else if a == [] then true
    else a[0] < b[0] || (a[0] == b[0] && Less(a[1..], b[1..]))
  }

  predicate AtMost(a: Bytes, b: Bytes) { a == b || Less(a, b) }

  lemma {:induction false} LessTotal(a: Bytes, b: Bytes)
    ensures Less(a, b) || a == b || Less(b, a)
    ensures !(Less(a, b) && Less(b, a)) && !Less(a, a)
  {
    if a != [] && b != [] {
      LessTotal(a[1..], b[1..]);
      assert a == [a[0]] + a[1..] && b == [b[0]] + b[1..];
    }
    if a != [] {
      LessTotal(a[1..], a[1..]);
    }
  }

  lemma {:induction false} LessTrans(a: Bytes, b: Bytes, c: Bytes)
    requires Less(a, b) && Less(b, c)
    ensures Less(a, c)
  {
    if a != [] && a[0] == b[0] && b[0] == c[0] {
      LessTrans(a[1..], b[1..], c[1..]);
    }
  }

  // ---- little-endian numbers ---------------------------------------------------------------

  const U32: nat := 0x1_0000_0000
  const U64: nat := 0x1_0000_0000_0000_0000

  function Pow256(n: nat): nat { if n == 0 then 1 else 256 * Pow256(n - 1) }

  /** to_le_bytes of a number that is width bytes wide. */
  function Le(n: nat, width: nat): (b: Bytes)
    ensures |b| == width
    decreases width, 1, n
  {
    if width == 0 then [] else LeFrom(n, width)
  }

  function LeFrom(n: nat, width: nat): (b: Bytes)
    requires width > 0
    ensures |b| == width
    decreases width, 0, n
  {
    [n % 256] + Le(n / 256, width - 1)
  }

  /** from_le_bytes of the width bytes at pos. */
  function From(b: Bytes, pos: nat, width: nat): nat
    requires pos + width <= |b|
    decreases width, 1, b
  {
    if width == 0 then 0 else LowestFirst(b, pos, width)
  }

  function LowestFirst(b: Bytes, pos: nat, width: nat): nat
    requires width > 0 && pos + width <= |b|
    decreases width, 0, b
  {
    b[pos] + 256 * From(b, pos + 1, width - 1)
  }

  function Le32(n: nat): (b: Bytes)
    ensures |b| == 4
  {
    Le(n, 4)
  }

  function Le64(n: nat): (b: Bytes)
    ensures |b| == 8
  {
    Le(n, 8)
  }

  function U32At(b: Bytes, pos: nat): (n: nat)
    requires pos + 4 <= |b|
  {
    From(b, pos, 4)
  }

  function U64At(b: Bytes, pos: nat): (n: nat)
    requires pos + 8 <= |b|
  {
    From(b, pos, 8)
  }

  lemma Widths()
    ensures Pow256(4) == U32 && Pow256(8) == U64
  {
    assert Pow256(1) == 256;
    assert Pow256(2) == 256 * Pow256(1);
    assert Pow256(3) == 256 * Pow256(2);
    assert Pow256(4) == 256 * Pow256(3);
    assert Pow256(5) == 256 * Pow256(4);
    assert Pow256(6) == 256 * Pow256(5);
    assert Pow256(7) == 256 * Pow256(6);
  }

  lemma {:induction false} LeReads(b: Bytes, pos: nat, n: nat, width: nat)
    requires n < Pow256(width) && At(b, pos, Le(n, width))
    ensures pos + width <= |b| && From(b, pos, width) == n
    decreases width
  {
    if width > 0 {
      assert Le(n, width) == LeFrom(n, width) && From(b, pos, width) == LowestFirst(b, pos, width);
      AtConcat(b, pos, [n % 256], Le(n / 256, width - 1));
      AtByte(b, pos, n % 256);
      LeReads(b, pos + 1, n / 256, width - 1);
    }
  }

  /** Any bytes are the encoding of the number they read as. */
  lemma {:induction false} LeStands(b: Bytes, pos: nat, width: nat)
    requires pos + width <= |b|
    ensures At(b, pos, Le(From(b, pos, width), width)) && From(b, pos, width) < Pow256(width)
    decreases width
  {
    if width > 0 {
      LeStands(b, pos + 1, width - 1);
      var rest := From(b, pos + 1, width - 1);
      assert From(b, pos, width) == LowestFirst(b, pos, width);
      assert From(b, pos, width) % 256 == b[pos] && From(b, pos, width) / 256 == rest;
      assert b[pos..pos + 1] == [b[pos]];
      AtConcat(b, pos, [b[pos]], Le(rest, width - 1));
    }
  }

  lemma Number32(b: Bytes, pos: nat, n: nat)
    requires n < U32 && At(b, pos, Le32(n))
    ensures pos + 4 <= |b| && U32At(b, pos) == n
  {
    Widths();
    LeReads(b, pos, n, 4);
  }

  lemma Number64(b: Bytes, pos: nat, n: nat)
    requires n < U64 && At(b, pos, Le64(n))
    ensures pos + 8 <= |b| && U64At(b, pos) == n
  {
    Widths();
    LeReads(b, pos, n, 8);
  }

  lemma Standing32(b: Bytes, pos: nat)
    requires pos + 4 <= |b|
    ensures At(b, pos, Le32(U32At(b, pos))) && U32At(b, pos) < U32
  {
    Widths();
    LeStands(b, pos, 4);
  }

  lemma Standing64(b: Bytes, pos: nat)
    requires pos + 8 <= |b|
    ensures At(b, pos, Le64(U64At(b, pos))) && U64At(b, pos) < U64
  {
    Widths();
    LeStands(b, pos, 8);
  }

  // ---- places in a buffer ------------------------------------------------------------------

  /** The bytes e stand at position pos of buf. */
  ghost predicate At(buf: Bytes, pos: nat, e: Bytes) {
    pos + |e| <= |buf| && buf[pos..pos + |e|] == e
  }

  lemma AtConcat(buf: Bytes, pos: nat, a: Bytes, b: Bytes)
    ensures At(buf, pos, a + b) <==> At(buf, pos, a) && At(buf, pos + |a|, b)
  {
    if pos + |a| + |b| <= |buf| {
      var whole := buf[pos..pos + |a| + |b|];
      assert whole[..|a|] == buf[pos..pos + |a|];
      assert whole[|a|..] == buf[pos + |a|..pos + |a| + |b|];
      assert whole == whole[..|a|] + whole[|a|..];
      assert (a + b)[..|a|] == a && (a + b)[|a|..] == b;
    }
  }

  lemma SnocByIndex<T>(a: seq<T>, b: seq<T>, x: T)
    requires |a| == |b| + 1 && a[|b|] == x && forall i :: 0 <= i < |b| ==> a[i] == b[i]
    ensures a == b + [x]
  {
  }

  lemma HeadAt<T>(s: seq<T>, i: nat)
    requires i < |s|
    ensures s[i..] == [s[i]] + s[i + 1..]
  {
  }

  lemma AtSelf(a: Bytes, e: Bytes, b: Bytes)
    ensures At(a + e + b, |a|, e)
  {
  }

  lemma AtEnd(a: Bytes, e: Bytes)
    ensures At(a + e, |a|, e)
  {
  }

  lemma AtPrefix(buf: Bytes, more: Bytes, pos: nat, e: Bytes)
    requires At(buf, pos, e)
    ensures At(buf + more, pos, e)
  {
  }

  /** The first byte of a buffer place. */
  lemma AtByte(buf: Bytes, pos: nat, x: Byte)
    requires At(buf, pos, [x])
    ensures pos < |buf| && buf[pos] == x
  {
    assert buf[pos..pos + 1][0] == x;
  }

  lemma TakeOneMore<T>(xs: seq<T>, i: nat)
    requires i < |xs|
    ensures xs[..i + 1] == xs[..i] + [xs[i]]
  {
  }

  // ---- byte strings laid end to end -----------------------------------------------------------

  function Joined(ps: seq<Bytes>, n: nat): Bytes
    requires n <= |ps|
  {
    if n == 0 then [] else Joined(ps, n - 1) + ps[n - 1]
  }

  lemma {:induction false} JoinedPlace(ps: seq<Bytes>, n: nat, i: nat)
    requires i < n <= |ps|
    ensures At(Joined(ps, n), |Joined(ps, i)|, ps[i])
    ensures |Joined(ps, i)| + |ps[i]| == |Joined(ps, i + 1)| <= |Joined(ps, n)|
  {
    if i < n - 1 {
      JoinedPlace(ps, n - 1, i);
      AtPrefix(Joined(ps, n - 1), ps[n - 1], |Joined(ps, i)|, ps[i]);
    }
  }

  lemma {:induction false} JoinedGrows(ps: seq<Bytes>, b: nat, c: nat)
    requires b < c <= |ps| && forall i :: 0 <= i < |ps| ==> ps[i] != []
    ensures |Joined(ps, b)| < |Joined(ps, c)|
  {
    if b < c - 1 {
      JoinedGrows(ps, b, c - 1);
    }
  }

  lemma {:induction false} JoinedFront(ps: seq<Bytes>, p: Bytes, n: nat)
    requires n <= |ps|
    ensures Joined(ps + [p], n) == Joined(ps, n)
  {
    if n > 0 {
      JoinedFront(ps, p, n - 1);
    }
  }

  lemma {:induction false} QuotientOf(n: nat, q: nat, d: nat, r: nat)
    requires d >= 1 && r < d && n == q * d + r
    ensures n % d == r
    decreases q
  {
    var k := n / d - q;
    assert n % d - r == -(k * d);
  }
}
