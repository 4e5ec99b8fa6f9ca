/** Where each number stands on disk, byte by byte: the formats said once more, without their
    writers and readers. */
module Layouts {
  import opened Entries
  import opened ByteSeqs
  import opened SortedLists
  import opened Sealing
  import opened Blooms
  import opened Formats
  import opened Varints
  import B = Blocks
  import W = Wals

  // ---- numbers --------------------------------------------------------------------------------------

  /** Lowest byte first. */
  lemma NumberLayout(b: Bytes, pos: nat)
    requires pos + 8 <= |b|
    ensures U32At(b, pos) == (b[pos] as int) + 0x100 * (b[pos + 1] as int) + 0x1_0000 * (b[pos + 2] as int)
                              + 0x100_0000 * (b[pos + 3] as int)
    ensures U64At(b, pos) == U32At(b, pos) + 0x1_0000_0000 * U32At(b, pos + 4)
  {
    FromFour(b, pos, 4);
    FromFour(b, pos, 0);
    FromFour(b, pos + 4, 0);
  }

  lemma FromFour(b: Bytes, pos: nat, more: nat)
    requires pos + 4 + more <= |b|
    ensures From(b, pos, 4 + more) == b[pos] + 0x100 * b[pos + 1] + 0x1_0000 * b[pos + 2] + 0x100_0000 * b[pos + 3]
                                      + 0x1_0000_0000 * From(b, pos + 4, more)
  {
    FromOne(b, pos, 3 + more);
    FromOne(b, pos + 1, 2 + more);
    FromOne(b, pos + 2, 1 + more);
    FromOne(b, pos + 3, more);
  }

  lemma FromOne(b: Bytes, pos: nat, width: nat)
    requires pos + 1 + width <= |b|
    ensures From(b, pos, 1 + width) == b[pos] + 256 * From(b, pos + 1, width)
  {
  }

  /** Seven bits a byte, the lowest first; the top bit is set on all bytes but the last. */
  lemma {:induction false} VarintLayout(n: nat, i: nat)
    requires i < |Varint(n)|
    ensures Varint(n)[i] % 128 == n / Pow128(i) % 128
    ensures Varint(n)[i] >= 128 <==> i < |Varint(n)| - 1
    ensures i < |Varint(n)| - 1 ==> n / Pow128(i) >= 128
    decreases i
  {
    if i > 0 {
      assert Varint(n) == Continued(n) == [128 + n % 128] + Varint(n / 128);
      VarintLayout(n / 128, i - 1);
      DivTwice(n, 128, Pow128(i - 1));
    }
  }

  lemma DivTwice(n: nat, a: nat, b: nat)
    requires a > 0 && b > 0
    ensures a * b > 0 && n / a / b == n / (a * b)
  {
    Below(a, b, 0, 0);
    Nested(n, a, b, n / a, n % a, n / a / b, n / a % b);
  }

  lemma Nested(n: nat, a: nat, b: nat, m: nat, t: nat, q: nat, s: nat)
    requires n == a * m + t && t < a && m == b * q + s && s < b
    ensures a * b > 0 && n / (a * b) == q
  {
    Regroup(a, b, q, s, t);
    Below(a, b, s, t);
    QuotientIs(n, q, a * b, a * s + t);
  }

  lemma Regroup(a: nat, b: nat, q: nat, s: nat, t: nat)
    ensures a * (b * q + s) + t == a * b * q + (a * s + t)
  {
  }

  lemma Below(a: nat, b: nat, s: nat, t: nat)
    requires s < b && t < a
    ensures a * s + t < a * b && a * b > 0
  {
    assert a * s <= a * (b - 1);
    assert a * (b - 1) == a * b - a;
  }

  lemma QuotientIs(n: nat, q: nat, d: nat, r: nat)
    requires d > 0 && n == d * q + r && r < d
    ensures n / d == q
  {
    QuotientOf(n, q, d, r);
  }

  // ---- tables ---------------------------------------------------------------------------------------

  /** Four bytes of checksum behind the block. */
  lemma SealLayout(h: Hashing, body: Bytes)
    ensures var b := Seal(h, body); b[..|body|] == body && U32At(b, |body|) == h.sum(body) % U32
  {
    var check := Le32(Checksum(h, body));
    AtEnd(body, check);
    Number32(body + check, |body|, Checksum(h, body));
  }

  /** The footer is the last 72 bytes: version 1, three zeroes, seven numbers, a checksum over those,
      and the letters LSMSSTB1. */
  lemma FooterLayout(h: Hashing, front: Bytes, f: Footer)
    requires FooterFits(f)
    ensures var file, at := front + FooterBytes(h, f), |front|;
            && |file| == at + 72 && file[at..at + 4] == [1, 0, 0, 0]
            && U64At(file, at + 4) == f.indexOffset && U64At(file, at + 12) == f.indexSize
            && U64At(file, at + 20) == f.filterOffset && U64At(file, at + 28) == f.filterSize
            && U64At(file, at + 36) == f.numEntries && U64At(file, at + 44) == f.minSeqNo
            && U64At(file, at + 52) == f.maxSeqNo && U32At(file, at + 60) == h.sum(file[at..at + 60]) % U32
            && file[at + 64..] == [0x4C, 0x53, 0x4D, 0x53, 0x53, 0x54, 0x42, 0x31]
  {
    var file, at, body := front + FooterBytes(h, f), |front|, FooterBody(f);
    AtEnd(front, FooterBytes(h, f));
    AtConcat(file, at, Seal(h, body), MAGIC);
    AtConcat(file, at, body, Le32(Checksum(h, body)));
    Number32(file, at + 60, Checksum(h, body));
    FooterNumbers(file, at, f);
  }

  lemma FooterNumbers(file: Bytes, at: nat, f: Footer)
    requires FooterFits(f) && At(file, at, FooterBody(f))
    ensures file[at..at + 4] == [1, 0, 0, 0]
            && U64At(file, at + 4) == f.indexOffset && U64At(file, at + 12) == f.indexSize
            && U64At(file, at + 20) == f.filterOffset && U64At(file, at + 28) == f.filterSize
            && U64At(file, at + 36) == f.numEntries && U64At(file, at + 44) == f.minSeqNo
            && U64At(file, at + 52) == f.maxSeqNo
  {
    var hd: Bytes := [FOOTER_VERSION, 0, 0, 0];
    var p1 := hd + Le64(f.indexOffset);
    var p2 := p1 + Le64(f.indexSize);
    var p3 := p2 + Le64(f.filterOffset);
    var p4 := p3 + Le64(f.filterSize);
    var p5 := p4 + Le64(f.numEntries);
    var p6 := p5 + Le64(f.minSeqNo);
    AtConcat(file, at, p6, Le64(f.maxSeqNo));
    AtConcat(file, at, p5, Le64(f.minSeqNo));
    AtConcat(file, at, p4, Le64(f.numEntries));
    AtConcat(file, at, p3, Le64(f.filterSize));
    AtConcat(file, at, p2, Le64(f.filterOffset));
    AtConcat(file, at, p1, Le64(f.indexSize));
    AtConcat(file, at, hd, Le64(f.indexOffset));
    Number64(file, at + 4, f.indexOffset);
    Number64(file, at + 12, f.indexSize);
    Number64(file, at + 20, f.filterOffset);
    Number64(file, at + 28, f.filterSize);
    Number64(file, at + 36, f.numEntries);
    Number64(file, at + 44, f.minSeqNo);
    Number64(file, at + 52, f.maxSeqNo);
  }

  /** The reader accepts exactly the footers that are written, but that it does not look at the three
      zeroes. */
  lemma FooterExactly(h: Hashing, file: Bytes, f: Footer)
    ensures ReadFooter(h, file) == Ok(f) && file[|file| - 71..|file| - 68] == [0, 0, 0] <==>
            |file| >= 72 && FooterFits(f) && At(file, |file| - 72, FooterBytes(h, f))
  {
    if |file| >= 72 {
      var at := |file| - 72;
      if FooterFits(f) && At(file, at, FooterBytes(h, f)) {
        assert file == file[..at] + FooterBytes(h, f);
        FooterRoundTrip(h, file[..at], f);
        FooterLayout(h, file[..at], f);
        assert file[at + 1..at + 4] == file[at..at + 4][1..];
      } else if ReadFooter(h, file) == Ok(f) && file[at + 1..at + 4] == [0, 0, 0] {
        FooterAccepted(h, file, f);
        assert false;
      }
    }
  }

  lemma FooterAccepted(h: Hashing, file: Bytes, f: Footer)
    requires ReadFooter(h, file) == Ok(f) && file[|file| - 71..|file| - 68] == [0, 0, 0]
    ensures FooterFits(f) && At(file, |file| - 72, FooterBytes(h, f))
  {
    var at := |file| - 72;
    var body := file[at..at + 60];
    assert body[0] == 1 && body[1..4] == file[at + 1..at + 4] == [0, 0, 0];
    FieldsBack(body, f);
    Standing32(file, at + 60);
    AtConcat(file, at, body, Le32(Checksum(h, body)));
    AtConcat(file, at, Seal(h, body), MAGIC);
  }

  /** The fields determine the body. */
  lemma FieldsBack(b: Bytes, f: Footer)
    requires |b| == 60 && b[0] == 1 && b[1..4] == [0, 0, 0] && FooterFields(b) == f
    ensures FooterFits(f) && b == FooterBody(f)
  {
    var hd: Bytes := [FOOTER_VERSION, 0, 0, 0];
    assert b[..4] == [b[0]] + b[1..4] == hd;
    Standing64(b, 4);
    Standing64(b, 12);
    Standing64(b, 20);
    Standing64(b, 28);
    Standing64(b, 36);
    Standing64(b, 44);
    Standing64(b, 52);
    SevenParts(b, hd, Le64(f.indexOffset), Le64(f.indexSize), Le64(f.filterOffset), Le64(f.filterSize),
               Le64(f.numEntries), Le64(f.minSeqNo), Le64(f.maxSeqNo));
  }

  lemma SevenParts(b: Bytes, hd: Bytes, p: Bytes, q: Bytes, r: Bytes, s: Bytes, t: Bytes, u: Bytes, v: Bytes)
    requires |b| == 60 && |hd| == 4 && |p| == |q| == |r| == |s| == |t| == |u| == |v| == 8
    requires At(b, 0, hd) && At(b, 4, p) && At(b, 12, q) && At(b, 20, r) && At(b, 28, s) && At(b, 36, t)
    requires At(b, 44, u) && At(b, 52, v)
    ensures b == hd + p + q + r + s + t + u + v
  {
    AtConcat(b, 0, hd, p);
    AtConcat(b, 0, hd + p, q);
    AtConcat(b, 0, hd + p + q, r);
    AtConcat(b, 0, hd + p + q + r, s);
    AtConcat(b, 0, hd + p + q + r + s, t);
    AtConcat(b, 0, hd + p + q + r + s + t, u);
    AtConcat(b, 0, hd + p + q + r + s + t + u, v);
    assert b[0..60] == b;
  }

  /** A row of the index: length of the first key, that key, offset and length of the block. */
  lemma RowLayout(body: Bytes, pos: nat, ix: IndexEntry)
    requires RowFits(ix) && At(body, pos, Row(ix))
    ensures var n := |ix.firstKey|;
            && pos + 20 + n <= |body| && U32At(body, pos) == n && body[pos + 4..pos + 4 + n] == ix.firstKey
            && U64At(body, pos + 4 + n) == ix.offset && U64At(body, pos + 12 + n) == ix.length
  {
    var a, b, c, d := Le32(|ix.firstKey|), ix.firstKey, Le64(ix.offset), Le64(ix.length);
    AtConcat(body, pos, a + b + c, d);
    AtConcat(body, pos, a + b, c);
    AtConcat(body, pos, a, b);
    Number32(body, pos, |b|);
    Number64(body, pos + 4 + |b|, ix.offset);
    Number64(body, pos + 12 + |b|, ix.length);
  }

  /** The filter: number of bits, number of hashes, and the bits, eight to a byte, the lowest first. */
  lemma FilterLayout(f: Filter)
    requires WellFormed(f)
    ensures var b := FilterBody(f);
            U64At(b, 0) == f.numBits && U32At(b, 8) == f.numHashes && b[12..] == f.bits
    ensures forall idx :: 0 <= idx < f.numBits ==>
      (TestBit(f.bits, idx) <==> ((f.bits[idx / 8] as bv8) >> (idx % 8)) & 1 == 1)
  {
    var b, x, y := FilterBody(f), Le64(f.numBits), Le32(f.numHashes);
    AtEnd([], b);
    assert [] + b == b;
    AtConcat(b, 0, x + y, f.bits);
    AtConcat(b, 0, x, y);
    Number64(b, 0, f.numBits);
    Number32(b, 8, f.numHashes);
  }

  /** At pos stand, as varints, shared and own; at p2 the kind and len as a varint, up to p3. */
  ghost predicate LengthsStand(b: Bytes, pos: nat, p1: nat, p2: nat, p3: nat, shared: nat, own: nat, kind: Byte,
                               len: nat) {
    && Parse(b, pos) == Ok((shared, p1)) && Parse(b, p1) == Ok((own, p2))
    && p2 < |b| && b[p2] == kind && Parse(b, p2 + 1) == Ok((len, p3))
  }

  /** At pos stand the sequence number, own and value. */
  ghost predicate TextsStand(b: Bytes, pos: nat, seqNo: nat, own: Bytes, value: Bytes) {
    pos + 8 <= |b| && U64At(b, pos) == seqNo && At(b, pos + 8, own) && At(b, pos + 8 + |own|, value)
  }

  /** An entry stores how much of its key it shares with the one before and the rest of the key; kind 1
      and no value is a tombstone. */
  lemma {:induction false} EntryLayout(buf: Bytes, pos: nat, e: Entry, shared: nat, own: Bytes, p1: nat, p2: nat,
                                       p3: nat)
    requires B.Fits(e) && shared <= |e.key| && own == e.key[shared..] && At(buf, pos, B.EntryBytes(e, shared))
    requires p1 == pos + |Varint(shared)| && p2 == p1 + |Varint(|own|)|
    requires p3 == p2 + 1 + |Varint(if e.value.Some? then |e.value.value| else 0)|
    ensures e.value.None? ==> LengthsStand(buf, pos, p1, p2, p3, shared, |own|, 1, 0)
                              && TextsStand(buf, p3, e.seqNo, own, [])
    ensures e.value.Some? ==> LengthsStand(buf, pos, p1, p2, p3, shared, |own|, 0, |e.value.value|)
                              && TextsStand(buf, p3, e.seqNo, own, e.value.value)
  {
    EntryStands(buf, pos, e, shared, p1, p2, p3);
  }

  lemma {:induction false} EntryStands(buf: Bytes, pos: nat, e: Entry, shared: nat, p1: nat, p2: nat, p3: nat)
    requires B.Fits(e) && shared <= |e.key| && At(buf, pos, B.EntryBytes(e, shared))
    requires p1 == pos + |Varint(shared)| && p2 == p1 + |Varint(|e.key| - shared)|
    requires p3 == p2 + 1 + |Varint(|B.ValueBytes(e)|)|
    ensures LengthsStand(buf, pos, p1, p2, p3, shared, |e.key| - shared, B.Kind(e), |B.ValueBytes(e)|)
    ensures TextsStand(buf, p3, e.seqNo, e.key[shared..], B.ValueBytes(e))
  {
    InParts(buf, pos, B.Header(e, shared), e.key[shared..], B.ValueBytes(e));
    EntryNumbers(buf, pos, e, shared, p1, p2, p3);
    LengthsAt(buf, pos, p1, p2, p3, shared, |e.key| - shared, B.Kind(e), |B.ValueBytes(e)|);
    Number64(buf, p3, e.seqNo);
  }

  lemma {:induction false} EntryNumbers(buf: Bytes, pos: nat, e: Entry, shared: nat, p1: nat, p2: nat, p3: nat)
    requires shared <= |e.key| && At(buf, pos, B.Header(e, shared))
    requires p1 == pos + |Varint(shared)| && p2 == p1 + |Varint(|e.key| - shared)|
    requires p3 == p2 + 1 + |Varint(|B.ValueBytes(e)|)|
    ensures At(buf, pos, Varint(shared)) && At(buf, p1, Varint(|e.key| - shared))
    ensures p2 < |buf| && buf[p2] == B.Kind(e) && At(buf, p2 + 1, Varint(|B.ValueBytes(e)|))
    ensures At(buf, p3, Le64(e.seqNo)) && |B.Header(e, shared)| == p3 + 8 - pos
  {
    B.HeaderAt(buf, pos, Varint(shared), Varint(|e.key| - shared), B.Kind(e), Varint(|B.ValueBytes(e)|), Le64(e.seqNo));
  }

  lemma {:induction false} LengthsAt(buf: Bytes, pos: nat, p1: nat, p2: nat, p3: nat, shared: nat, own: nat,
                                     kind: Byte, len: nat)
    requires shared < U64 && own < U64 && len < U64
    requires At(buf, pos, Varint(shared)) && p1 == pos + |Varint(shared)|
    requires At(buf, p1, Varint(own)) && p2 == p1 + |Varint(own)|
    requires p2 < |buf| && buf[p2] == kind && At(buf, p2 + 1, Varint(len)) && p3 == p2 + 1 + |Varint(len)|
    ensures LengthsStand(buf, pos, p1, p2, p3, shared, own, kind, len)
  {
    B.TwoNumbers(buf, pos, shared, own, p1);
    RoundTrip(buf, p2 + 1, len);
  }

  lemma InParts(buf: Bytes, pos: nat, a: Bytes, b: Bytes, c: Bytes)
    requires At(buf, pos, a + b + c)
    ensures At(buf, pos, a) && At(buf, pos + |a|, b) && At(buf, pos + |a| + |b|, c)
  {
    AtConcat(buf, pos, a + b, c);
    AtConcat(buf, pos, a, b);
  }

  /** Behind the entries stand the offsets of every interval-th of them, and how many these are. */
  lemma BlockLayout(b: Bytes, es: seq<Entry>, interval: nat)
    requires interval >= 1 && B.IsBlock(b, es, interval)
    ensures At(b, 0, B.Encoded(es, interval))
    ensures TableStands(b, |B.Encoded(es, interval)|, GroupCount(|es|, interval))
  {
    B.ParseBuilt(b, es, interval);
    EveryInterval(|es|, interval);
    Parsed(b, B.Encoded(es, interval), B.Restarts(es, interval));
  }

  /** b ends in n numbers of four bytes, the first at start, and n itself. */
  ghost predicate TableStands(b: Bytes, start: nat, n: nat) {
    |b| == start + 4 * n + 4 && U32At(b, |b| - 4) == n
  }

  lemma {:induction false} Parsed(b: Bytes, buf: Bytes, rs: seq<nat>)
    requires B.ParseBlock(b) == Ok(B.ParsedBlock(buf, rs))
    ensures At(b, 0, buf) && TableStands(b, |buf|, |rs|)
    ensures forall j :: 0 <= j < |rs| ==> U32At(b, |buf| + 4 * j) == rs[j]
  {
    TableEntries(b, |b| - 4 - 4 * U32At(b, |b| - 4), U32At(b, |b| - 4));
  }

  /** At the j-th of these offsets stands the whole entry, which shares nothing. */
  lemma RestartStands(b: Bytes, es: seq<Entry>, interval: nat, j: nat, i: nat)
    requires interval >= 1 && B.IsBlock(b, es, interval) && Begins(i, j, interval) && i < |es|
    ensures Points(b, |B.Encoded(es, interval)| + 4 * j, B.EntryBytes(es[i], 0))
  {
    B.ParseBuilt(b, es, interval);
    RestartNumber(b, es, interval, j, i);
    PieceStands(b, es, interval, i);
  }

  lemma RestartNumber(b: Bytes, es: seq<Entry>, interval: nat, j: nat, i: nat)
    requires interval >= 1 && Begins(i, j, interval) && i < |es|
    requires B.ParseBlock(b) == Ok(B.ParsedBlock(B.Encoded(es, interval), B.Restarts(es, interval)))
    ensures At(b, 0, B.Encoded(es, interval)) && |B.Encoded(es, interval)| + 4 * j + 4 <= |b|
    ensures U32At(b, |B.Encoded(es, interval)| + 4 * j) == B.Offset(es, interval, i)
    ensures B.Piece(es, interval, i) == B.EntryBytes(es[i], 0)
  {
    Parsed(b, B.Encoded(es, interval), B.Restarts(es, interval));
    NthRestart(es, interval, j, i);
  }

  lemma NthRestart(es: seq<Entry>, interval: nat, j: nat, i: nat)
    requires interval >= 1 && Begins(i, j, interval) && i < |es|
    ensures j < |B.Restarts(es, interval)| && B.Restarts(es, interval)[j] == B.Offset(es, interval, i)
    ensures B.Piece(es, interval, i) == B.EntryBytes(es[i], 0)
  {
    EveryInterval(|es|, interval);
    EnoughFor(|es|, interval, j);
    B.RestartEvery(i, interval);
    QuotientOf(i, j, interval, 0);
  }

  /** How many groups of d make up n, the last perhaps a smaller one. */
  function GroupCount(n: nat, d: nat): nat
    requires d >= 1
  {
    (n + d - 1) / d
  }

  /** Group j of d begins with i. */
  ghost predicate Begins(i: nat, j: nat, d: nat) { i == j * d }

  /** The number at at is where e stands. */
  ghost predicate Points(b: Bytes, at: nat, e: Bytes) {
    at + 4 <= |b| && At(b, U32At(b, at), e)
  }

  lemma PieceStands(b: Bytes, es: seq<Entry>, interval: nat, i: nat)
    requires interval >= 1 && i < |es|
    requires At(b, 0, B.Encoded(es, interval))
    ensures At(b, B.Offset(es, interval, i), B.Piece(es, interval, i))
  {
    var buf := B.Encoded(es, interval);
    JoinedPlace(B.Pieces(es, interval), |es|, i);
    AtPrefix(buf, b[|buf|..], B.Offset(es, interval, i), B.Piece(es, interval, i));
    assert b == buf + b[|buf|..];
  }

  lemma {:induction false} TableEntries(b: Bytes, start: nat, n: nat)
    requires start + 4 * n <= |b|
    ensures var t := B.OffsetTable(b, start, n); |t| == n && forall j :: 0 <= j < n ==> t[j] == U32At(b, start + 4 * j)
  {
    if n > 0 {
      TableEntries(b, start, n - 1);
    }
  }

  lemma EnoughFor(n: nat, d: nat, j: nat)
    requires d >= 1 && j * d < n
    ensures (n + d - 1) / d > j
  {
    Scaled(j + 1, (n + d - 1) / d, d);
    Scaled((n + d - 1) / d, j, d);
  }

  lemma Scaled(p: nat, q: nat, d: nat)
    ensures p <= q ==> p * d <= q * d
  {
  }

  lemma {:induction false} EveryInterval(n: nat, interval: nat)
    requires interval >= 1
    ensures var r := B.RestartIndices(n, interval);
            |r| == (n + interval - 1) / interval && forall j :: 0 <= j < |r| ==> r[j] == j * interval
  {
    if n > 0 {
      EveryInterval(n - 1, interval);
      B.RestartEvery(n - 1, interval);
      CeilStep(n - 1, interval);
    }
  }

  lemma CeilStep(n: nat, d: nat)
    requires d >= 1
    ensures (n + 1 + d - 1) / d == (n + d - 1) / d + (if n % d == 0 then 1 else 0)
    ensures n % d == 0 ==> (n + d - 1) / d * d == n
  {
    var q, r := n / d, n % d;
    if r == 0 {
      DivIs(n + d, q + 1, d, 0);
      DivIs(n + d - 1, q, d, d - 1);
    } else {
      DivIs(n + d, q + 1, d, r);
      DivIs(n + d - 1, q + 1, d, r - 1);
    }
  }

  lemma DivIs(n: nat, q: nat, d: nat, r: nat)
    requires d >= 1 && r < d && n == q * d + r
    ensures n / d == q
  {
    QuotientOf(n, q, d, r);
    SameQuotient(n / d, q, d);
  }

  lemma SameQuotient(p: nat, q: nat, d: nat)
    requires d >= 1 && p * d == q * d
    ensures p == q
  {
    Scaled(p + 1, q, d);
    Scaled(q + 1, p, d);
  }

  // ---- the log --------------------------------------------------------------------------------------

  /** A segment begins with the letters LSMW, version 1 and three zeroes. */
  lemma SegmentLayout(h: Hashing, rs: seq<Record>)
    ensures var b := W.SegmentBytes(h, rs); |b| >= 8 && b[..8] == [0x4C, 0x53, 0x4D, 0x57, 1, 0, 0, 0]
  {
  }

  /** A record: its length, its kind, 1 for a delete, its sequence number, the lengths of key and
      value, these two, and a checksum over all but the first. */
  lemma RecordLayout(h: Hashing, file: Bytes, pos: nat, r: Record)
    requires W.RecordFits(r) && At(file, pos, W.RecordBytes(h, r))
    ensures var v := if r.value.Some? then r.value.value else []; var n := 17 + |r.key| + |v|;
            && pos + n + 8 <= |file| && U32At(file, pos) == n
            && file[pos + 4] == (if r.value.None? then 1 else 0) && U64At(file, pos + 5) == r.seqNo
            && U32At(file, pos + 13) == |r.key| && U32At(file, pos + 17) == |v|
            && file[pos + 21..pos + 21 + |r.key|] == r.key && file[pos + 21 + |r.key|..pos + 4 + n] == v
            && U32At(file, pos + 4 + n) == h.sum(file[pos + 4..pos + 4 + n]) % U32
  {
    var p := W.Payload(r);
    W.RecordPlaces(file, pos, Le32(|p|), p, Le32(Checksum(h, p)));
    Number32(file, pos, |p|);
    Number32(file, pos + 4 + |p|, Checksum(h, p));
    PayloadLayout(file, pos + 4, r);
  }

  lemma PayloadLayout(file: Bytes, pos: nat, r: Record)
    requires W.RecordFits(r) && At(file, pos, W.Payload(r))
    ensures var v := W.ValueOf(r);
            && file[pos] == W.KindOf(r) && U64At(file, pos + 1) == r.seqNo
            && U32At(file, pos + 9) == |r.key| && U32At(file, pos + 13) == |v|
            && file[pos + 17..pos + 17 + |r.key|] == r.key
            && file[pos + 17 + |r.key|..pos + 17 + |r.key| + |v|] == v
  {
    var v := W.ValueOf(r);
    var a: Bytes := [W.KindOf(r)];
    var b := a + Le64(r.seqNo);
    var c := b + Le32(|r.key|);
    var d := c + Le32(|v|);
    AtConcat(file, pos, d + r.key, v);
    AtConcat(file, pos, d, r.key);
    AtConcat(file, pos, c, Le32(|v|));
    AtConcat(file, pos, b, Le32(|r.key|));
    AtConcat(file, pos, a, Le64(r.seqNo));
    AtByte(file, pos, W.KindOf(r));
    Number64(file, pos + 1, r.seqNo);
    Number32(file, pos + 9, |r.key|);
    Number32(file, pos + 13, |v|);
  }

  /** From pos to next stand a length of at most 10,485,760, so many bytes, and their checksum. */
  ghost predicate Framed(h: Hashing, file: Bytes, pos: nat, next: nat) {
    && pos + 8 <= next <= |file| && U32At(file, pos) == next - pos - 8 <= 10_485_760
    && U32At(file, next - 4) == h.sum(file[pos + 4..next - 4]) % U32
  }

  /** p names r: the kind, of which only zero is a put, the number, the lengths, the texts. */
  ghost predicate Names(p: Bytes, r: Record) {
    && |p| >= 17 && U64At(p, 1) == r.seqNo && U32At(p, 9) == |r.key| && At(p, 17, r.key)
    && (r.value.None? <==> p[0] != 0)
    && (r.value.Some? ==> U32At(p, 13) == |r.value.value| && At(p, 17 + |r.key|, r.value.value))
  }

  /** Recovery takes a record from the log exactly where a frame stands that names it. */
  lemma RecordExactly(h: Hashing, file: Bytes, pos: nat, r: Record, next: nat)
    requires pos <= |file|
    ensures W.ReadRecord(h, file, pos) == W.Good(r, next) <==>
            Framed(h, file, pos, next) && Names(file[pos + 4..next - 4], r)
  {
    if Framed(h, file, pos, next) {
      PayloadExactly(file[pos + 4..next - 4], r, next);
    } else if W.ReadRecord(h, file, pos).Good? {
      ReadFrame(h, file, pos);
    }
  }

  lemma ReadFrame(h: Hashing, file: Bytes, pos: nat)
    requires pos <= |file| && W.ReadRecord(h, file, pos).Good?
    ensures Framed(h, file, pos, W.ReadRecord(h, file, pos).next)
  {
  }

  lemma PayloadExactly(p: Bytes, r: Record, next: nat)
    ensures W.ReadPayload(p, next) == W.Good(r, next) <==> Names(p, r)
  {
  }
}
