/** The index block and the footer of a table file. */
module Formats {
  import opened Entries
  import opened ByteSeqs
  import opened Sealing

  // ---- index block ------------------------------------------------------------------------

  /** Where a data block lies, and the first key in it. */
  datatype IndexEntry = IndexEntry(firstKey: Key, offset: nat, length: nat)

  ghost predicate RowFits(ix: IndexEntry) {
    |ix.firstKey| < U32 && ix.offset < U64 && ix.length < U64
  }

  ghost predicate RowsFit(ixs: seq<IndexEntry>) {
    |ixs| < U32 && forall i :: 0 <= i < |ixs| ==> RowFits(ixs[i])
  }

  function Row(ix: IndexEntry): Bytes {
    Le32(|ix.firstKey|) + ix.firstKey + Le64(ix.offset) + Le64(ix.length)
  }

  function Rows(ixs: seq<IndexEntry>): (b: Bytes) {
    if ixs == [] then [] else Rows(ixs[..|ixs| - 1]) + Row(ixs[|ixs| - 1])
  }

  function IndexBody(ixs: seq<IndexEntry>): Bytes { Le32(|ixs|) + Rows(ixs) }

  method SerializeIndexBlock(h: Hashing, ixs: seq<IndexEntry>) returns (b: Bytes)
    ensures b == Seal(h, IndexBody(ixs))
  {
    var buf := Le32(|ixs|);
    for i := 0 to |ixs|
      invariant buf == Le32(|ixs|) + Rows(ixs[..i])
    {
      assert ixs[..i + 1][..i] == ixs[..i];
      assert Rows(ixs[..i + 1]) == Rows(ixs[..i]) + Row(ixs[i]);
      buf := buf + Row(ixs[i]);
    }
    assert ixs[..|ixs|] == ixs;
    b := buf + Le32(Checksum(h, buf));
  }

  /** One row at cursor and the place behind it. */
  function ParseRow(body: Bytes, cursor: nat): (r: Result<(IndexEntry, nat)>)
    ensures r.Ok? ==> cursor < r.value.1 <= |body|
  {
    if cursor + 4 > |body| then Err
    else
      var keyLen := U32At(body, cursor);
      var keyAt := cursor + 4;
      var at := keyAt + keyLen;
      if at + 16 > |body| then Err
      else Ok((IndexEntry(body[keyAt..at], U64At(body, at), U64At(body, at + 8)), at + 16))
  }

  /** n rows from cursor on; bytes behind them are ignored. */
  function ParseRows(body: Bytes, cursor: nat, n: nat): Result<seq<IndexEntry>>
    decreases n
  {
    if n == 0 then Ok([])
    else
      match ParseRow(body, cursor)
      case Err => Err
      case Ok((ix, next)) => WithRows([ix], ParseRows(body, next, n - 1))
  }

  function WithRows(front: seq<IndexEntry>, r: Result<seq<IndexEntry>>): Result<seq<IndexEntry>> {
    match r
    case Err => Err
    case Ok(rest) => Ok(front + rest)
  }

  function ParseIndex(body: Bytes): Result<seq<IndexEntry>> {
    if |body| < 4 then Err else ParseRows(body, 4, U32At(body, 0))
  }

  lemma RowsStep(body: Bytes, cursor: nat, n: nat, front: seq<IndexEntry>, ix: IndexEntry, next: nat)
    requires n > 0 && ParseRow(body, cursor) == Ok((ix, next))
    ensures WithRows(front, ParseRows(body, cursor, n)) == WithRows(front + [ix], ParseRows(body, next, n - 1))
  {
    var rest := ParseRows(body, next, n - 1);
    if rest.Ok? {
      assert front + ([ix] + rest.value) == front + [ix] + rest.value;
    }
  }

  method ParseIndexBlock(body: Bytes) returns (r: Result<seq<IndexEntry>>)
    ensures r == ParseIndex(body)
  {
    if |body| < 4 {
      return Err;
    }
    var count := U32At(body, 0);
    Standing32(body, 0);
    var cursor, ixs, i := 4, [], 0;
    NothingInFront(ParseRows(body, 4, count));
    while i < count
      invariant 0 <= i <= count
      invariant ParseIndex(body) == WithRows(ixs, ParseRows(body, cursor, count - i))
    {
      var row := ParseRow(body, cursor);
      if row.Err? {
        return Err;
      }
      var (ix, next) := row.value;
      RowsStep(body, cursor, count - i, ixs, ix, next);
      ixs := ixs + [ix];
      cursor := next;
      i := i + 1;
    }
    assert ixs + [] == ixs;
    r := Ok(ixs);
  }

  lemma NothingInFront(r: Result<seq<IndexEntry>>)
    ensures WithRows([], r) == r
  {
    if r.Ok? {
      assert [] + r.value == r.value;
    }
  }

  lemma RowReads(body: Bytes, cursor: nat, ix: IndexEntry)
    requires RowFits(ix) && At(body, cursor, Row(ix))
    ensures ParseRow(body, cursor) == Ok((ix, cursor + |Row(ix)|))
  {
    var a, b, c, d := Le32(|ix.firstKey|), ix.firstKey, Le64(ix.offset), Le64(ix.length);
    AtConcat(body, cursor, a + b + c, d);
    AtConcat(body, cursor, a + b, c);
    AtConcat(body, cursor, a, b);
    Number32(body, cursor, |ix.firstKey|);
    Number64(body, cursor + 4 + |b|, ix.offset);
    Number64(body, cursor + 4 + |b| + 8, ix.length);
  }

  lemma {:induction false} RowsFrom(ixs: seq<IndexEntry>)
    requires ixs != []
    ensures Rows(ixs) == Row(ixs[0]) + Rows(ixs[1..])
  {
    assert ixs == [ixs[0]] + ixs[1..];
    RowsConcat([ixs[0]], ixs[1..]);
    assert Rows([ixs[0]]) == Row(ixs[0]) by {
      assert [ixs[0]][..0] == [];
    }
  }

  lemma {:induction false} RowsConcat(a: seq<IndexEntry>, b: seq<IndexEntry>)
    ensures Rows(a + b) == Rows(a) + Rows(b)
  {
    if b == [] {
      assert a + b == a;
    } else {
      assert (a + b)[..|a + b| - 1] == a + b[..|b| - 1];
      RowsConcat(a, b[..|b| - 1]);
    }
  }

  lemma {:induction false} OneRowMore(body: Bytes, cursor: nat, ix: IndexEntry, next: nat, rest: seq<IndexEntry>)
    requires ParseRow(body, cursor) == Ok((ix, next)) && ParseRows(body, next, |rest|) == Ok(rest)
    ensures ParseRows(body, cursor, |rest| + 1) == Ok([ix] + rest)
  {
  }

  lemma {:induction false} RowsRead(body: Bytes, cursor: nat, ixs: seq<IndexEntry>)
    requires RowsFit(ixs) && At(body, cursor, Rows(ixs))
    ensures ParseRows(body, cursor, |ixs|) == Ok(ixs)
    decreases |ixs|
  {
    if ixs != [] {
      var ix, rest := ixs[0], ixs[1..];
      var next := cursor + |Row(ix)|;
      RowsFrom(ixs);
      AtConcat(body, cursor, Row(ix), Rows(rest));
      assert RowFits(ix);
      RowReads(body, cursor, ix);
      RowsRead(body, next, rest);
      OneRowMore(body, cursor, ix, next, rest);
      assert [ix] + rest == ixs;
    }
  }

  lemma IndexRoundTrip(ixs: seq<IndexEntry>)
    requires RowsFit(ixs)
    ensures ParseIndex(IndexBody(ixs)) == Ok(ixs)
  {
    var body := IndexBody(ixs);
    AtEnd(Le32(|ixs|), Rows(ixs));
    AtEnd([], body);
    assert [] + body == body;
    AtConcat(body, 0, Le32(|ixs|), Rows(ixs));
    Number32(body, 0, |ixs|);
    RowsRead(body, 4, ixs);
  }

  // ---- footer -------------------------------------------------------------------------------

  datatype Footer = Footer(indexOffset: nat, indexSize: nat, filterOffset: nat, filterSize: nat,
                           numEntries: nat, minSeqNo: nat, maxSeqNo: nat)

  const FOOTER_SIZE: nat := 72
  const FOOTER_VERSION: Byte := 1

  /** "LSMSSTB1" */
  const MAGIC: Bytes := [0x4C, 0x53, 0x4D, 0x53, 0x53, 0x54, 0x42, 0x31]

  ghost predicate FooterFits(f: Footer) {
    && f.indexOffset < U64 && f.indexSize < U64 && f.filterOffset < U64 && f.filterSize < U64
    && f.numEntries < U64 && f.minSeqNo < U64 && f.maxSeqNo < U64
  }

  function FooterBody(f: Footer): (b: Bytes)
    ensures |b| == 60
  {
    [FOOTER_VERSION, 0, 0, 0] + Le64(f.indexOffset) + Le64(f.indexSize) + Le64(f.filterOffset) + Le64(f.filterSize)
    + Le64(f.numEntries) + Le64(f.minSeqNo) + Le64(f.maxSeqNo)
  }

  /** Footer::serialize. */
  function FooterBytes(h: Hashing, f: Footer): (b: Bytes)
    ensures |b| == FOOTER_SIZE
  {
    Seal(h, FooterBody(f)) + MAGIC
  }

  function FooterFields(body: Bytes): Footer
    requires |body| == 60
  {
    Footer(U64At(body, 4), U64At(body, 12), U64At(body, 20), U64At(body, 28),
           U64At(body, 36), U64At(body, 44), U64At(body, 52))
  }

  /** read_footer_at. */
  function ReadFooter(h: Hashing, file: Bytes): Result<Footer> {
    if |file| < FOOTER_SIZE then Err
    else
      var at := |file| - FOOTER_SIZE;
      var body := file[at..at + 60];
      if file[|file| - 8..] != MAGIC then Err
      else if Checksum(h, body) != U32At(file, at + 60) then Err
      else if body[0] != FOOTER_VERSION then Err
      else Ok(FooterFields(body))
  }

  lemma FieldsRead(f: Footer)
    requires FooterFits(f)
    ensures FooterFields(FooterBody(f)) == f
  {
    var b := FooterBody(f);
    var hd: Bytes := [FOOTER_VERSION, 0, 0, 0];
    var p1 := hd + Le64(f.indexOffset);
    var p2 := p1 + Le64(f.indexSize);
    var p3 := p2 + Le64(f.filterOffset);
    var p4 := p3 + Le64(f.filterSize);
    var p5 := p4 + Le64(f.numEntries);
    var p6 := p5 + Le64(f.minSeqNo);
    AtEnd([], b);
    assert [] + b == b;
    AtConcat(b, 0, p6, Le64(f.maxSeqNo));
    AtConcat(b, 0, p5, Le64(f.minSeqNo));
    AtConcat(b, 0, p4, Le64(f.numEntries));
    AtConcat(b, 0, p3, Le64(f.filterSize));
    AtConcat(b, 0, p2, Le64(f.filterOffset));
    AtConcat(b, 0, p1, Le64(f.indexSize));
    AtConcat(b, 0, hd, Le64(f.indexOffset));
    Number64(b, 4, f.indexOffset);
    Number64(b, 12, f.indexSize);
    Number64(b, 20, f.filterOffset);
    Number64(b, 28, f.filterSize);
    Number64(b, 36, f.numEntries);
    Number64(b, 44, f.minSeqNo);
    Number64(b, 52, f.maxSeqNo);
  }

  /** The footer reads back from the end of any file that ends with it. */
  lemma FooterRoundTrip(h: Hashing, front: Bytes, f: Footer)
    requires FooterFits(f)
    ensures ReadFooter(h, front + FooterBytes(h, f)) == Ok(f)
  {
    var file := front + FooterBytes(h, f);
    var body := FooterBody(f);
    var at := |front|;
    AtEnd(front, FooterBytes(h, f));
    AtConcat(file, at, Seal(h, body), MAGIC);
    AtConcat(file, at, body, Le32(Checksum(h, body)));
    Number32(file, at + 60, Checksum(h, body));
    assert file[at..at + 60] == body;
    assert file[|file| - 8..] == MAGIC;
    FieldsRead(f);
  }
}
