/** Data blocks: prefix-compressed entries with restart points, built and read. */
module Blocks {
  import opened Entries
  import opened ByteSeqs
  import opened SortedLists
  import opened Sealing
  import opened Varints

  // ---- one entry ------------------------------------------------------------------------

  /** The lengths and numbers of an entry fit the sixty-four bits they are written in. */
  predicate Fits(e: Entry) {
    e.seqNo < U64 && |e.key| < U64 && |ValueBytes(e)| < U64
  }

  ghost predicate AllFit(es: seq<Entry>) { forall i :: 0 <= i < |es| ==> Fits(es[i]) }

  function ValueBytes(e: Entry): Bytes { if e.value.Some? then e.value.value else [] }

  /** common_prefix_len. */
  function CommonPrefix(a: Bytes, b: Bytes): (n: nat)
    ensures n <= |a| && n <= |b| && a[..n] == b[..n]
    ensures n < |a| && n < |b| ==> a[n] != b[n]
  {
    if a == [] || b == [] || a[0] != b[0] then 0
    else
      assert a == [a[0]] + a[1..] && b == [b[0]] + b[1..];
      1 + CommonPrefix(a[1..], b[1..])
  }

  function Kind(e: Entry): Byte { if e.value.None? then 1 else 0 }

  /** The lengths, kind and sequence number in front of an entry's key and value. */
  function Header(e: Entry, shared: nat): Bytes
    requires shared <= |e.key|
  {
    Varint(shared) + Varint(|e.key| - shared) + [Kind(e)] + Varint(|ValueBytes(e)|) + Le64(e.seqNo)
  }

  /** An entry as the block stores it: of the key only what follows the shared bytes. */
  function EntryBytes(e: Entry, shared: nat): (b: Bytes)
    requires shared <= |e.key|
    ensures |b| >= 12 && |b| == |Header(e, shared)| + |e.key| - shared + |ValueBytes(e)|
  {
    Header(e, shared) + e.key[shared..] + ValueBytes(e)
  }

  /** The numbers in front of an entry's key, and where the sequence number stands. */
  datatype Fields = Fields(shared: nat, nonShared: nat, kind: Byte, valueLen: nat, seqAt: nat)

  function ReadFields(buf: Bytes, pos: nat): (r: Result<Fields>)
    ensures r.Ok? ==> pos < r.value.seqAt <= |buf|
  {
    match Parse(buf, pos)
    case Err => Err
    case Ok((shared, p1)) =>
      match Parse(buf, p1)
      case Err => Err
      case Ok((nonShared, p2)) =>
        if p2 >= |buf| then Err
        else
          match Parse(buf, p2 + 1)
          case Err => Err
          case Ok((valueLen, p3)) => Ok(Fields(shared, nonShared, buf[p2], valueLen, p3))
  }

  /** The entry behind its numbers, and the place behind the entry. */
  function Rebuild(buf: Bytes, f: Fields, lastKey: Key): (r: Result<(Entry, nat)>)
    ensures r.Ok? ==> f.seqAt < r.value.1 <= |buf|
  {
    var keyAt := f.seqAt + 8;
    var valueAt := keyAt + f.nonShared;
    if keyAt > |buf| || f.shared > |lastKey| || valueAt + f.valueLen > |buf| then Err
    else
      var key := lastKey[..f.shared] + buf[keyAt..valueAt];
      var value := if f.kind == 1 then None else Some(buf[valueAt..valueAt + f.valueLen]);
      Ok((Entry(key, U64At(buf, f.seqAt), value), valueAt + f.valueLen))
  }

  /** decode_entry_at: the entry at pos and the place behind it. */
  function DecodeAt(buf: Bytes, pos: nat, lastKey: Key): (r: Result<(Entry, nat)>)
    ensures r.Ok? ==> pos < r.value.1 <= |buf|
  {
    match ReadFields(buf, pos)
    case Err => Err
    case Ok(f) => Rebuild(buf, f, lastKey)
  }

  lemma FieldsOf(buf: Bytes, pos: nat, shared: nat, p1: nat, nonShared: nat, p2: nat, valueLen: nat, p3: nat)
    requires Parse(buf, pos) == Ok((shared, p1)) && Parse(buf, p1) == Ok((nonShared, p2))
    requires p2 < |buf| && Parse(buf, p2 + 1) == Ok((valueLen, p3))
    ensures ReadFields(buf, pos) == Ok(Fields(shared, nonShared, buf[p2], valueLen, p3))
  {
  }

  lemma HeaderAt(buf: Bytes, pos: nat, a: Bytes, b: Bytes, kind: Byte, c: Bytes, d: Bytes)
    requires At(buf, pos, a + b + [kind] + c + d)
    ensures At(buf, pos, a) && At(buf, pos + |a|, b) && At(buf, pos + |a| + |b| + 1, c)
    ensures pos + |a| + |b| < |buf| && buf[pos + |a| + |b|] == kind
    ensures At(buf, pos + |a| + |b| + 1 + |c|, d)
  {
    AtConcat(buf, pos, a + b + [kind] + c, d);
    AtConcat(buf, pos, a + b + [kind], c);
    AtConcat(buf, pos, a + b, [kind]);
    AtConcat(buf, pos, a, b);
    AtByte(buf, pos + |a| + |b|, kind);
  }

  lemma {:induction false} TwoNumbers(buf: Bytes, pos: nat, m: nat, n: nat, p1: nat)
    requires m < U64 && n < U64 && At(buf, pos, Varint(m)) && p1 == pos + |Varint(m)| && At(buf, p1, Varint(n))
    ensures Parse(buf, pos) == Ok((m, p1)) && Parse(buf, p1) == Ok((n, p1 + |Varint(n)|))
  {
    RoundTrip(buf, pos, m);
    RoundTrip(buf, p1, n);
  }

  lemma {:induction false} FieldsAt(buf: Bytes, pos: nat, shared: nat, own: nat, kind: Byte, len: nat, p1: nat, p2: nat,
                                    p3: nat)
    requires shared < U64 && own < U64 && len < U64
    requires At(buf, pos, Varint(shared)) && p1 == pos + |Varint(shared)|
    requires At(buf, p1, Varint(own)) && p2 == p1 + |Varint(own)|
    requires p2 < |buf| && buf[p2] == kind && At(buf, p2 + 1, Varint(len)) && p3 == p2 + 1 + |Varint(len)|
    ensures ReadFields(buf, pos) == Ok(Fields(shared, own, kind, len, p3))
  {
    TwoNumbers(buf, pos, shared, own, p1);
    RoundTrip(buf, p2 + 1, len);
    FieldsOf(buf, pos, shared, p1, own, p2, len, p3);
  }

  lemma HeaderReads(buf: Bytes, pos: nat, e: Entry, shared: nat)
    requires Fits(e) && shared <= |e.key| && At(buf, pos, Header(e, shared))
    ensures var f := Fields(shared, |e.key| - shared, Kind(e), |ValueBytes(e)|, pos + |Header(e, shared)| - 8);
            ReadFields(buf, pos) == Ok(f) && At(buf, f.seqAt, Le64(e.seqNo))
  {
    HeaderAt(buf, pos, Varint(shared), Varint(|e.key| - shared), Kind(e), Varint(|ValueBytes(e)|), Le64(e.seqNo));
    HeaderFields(buf, pos, e, shared);
  }

  lemma HeaderFields(buf: Bytes, pos: nat, e: Entry, shared: nat)
    requires Fits(e) && shared <= |e.key|
    requires At(buf, pos, Varint(shared)) && At(buf, pos + |Varint(shared)|, Varint(|e.key| - shared))
    requires var p2 := pos + |Varint(shared)| + |Varint(|e.key| - shared)|;
             p2 < |buf| && buf[p2] == Kind(e) && At(buf, p2 + 1, Varint(|ValueBytes(e)|))
    ensures var f := Fields(shared, |e.key| - shared, Kind(e), |ValueBytes(e)|, pos + |Header(e, shared)| - 8);
            ReadFields(buf, pos) == Ok(f)
  {
    var own, len := |e.key| - shared, |ValueBytes(e)|;
    var p1 := pos + |Varint(shared)|;
    var p2 := p1 + |Varint(own)|;
    FieldsAt(buf, pos, shared, own, Kind(e), len, p1, p2, p2 + 1 + |Varint(len)|);
  }

  lemma RebuildEntry(buf: Bytes, f: Fields, e: Entry, lastKey: Key)
    requires Fits(e) && f.shared <= |e.key| && f.shared <= |lastKey| && lastKey[..f.shared] == e.key[..f.shared]
    requires f.nonShared == |e.key| - f.shared && f.kind == Kind(e) && f.valueLen == |ValueBytes(e)|
    requires At(buf, f.seqAt, Le64(e.seqNo)) && At(buf, f.seqAt + 8, e.key[f.shared..])
    requires At(buf, f.seqAt + 8 + f.nonShared, ValueBytes(e))
    ensures Rebuild(buf, f, lastKey) == Ok((e, f.seqAt + 8 + f.nonShared + f.valueLen))
  {
    Number64(buf, f.seqAt, e.seqNo);
    assert e.key == e.key[..f.shared] + e.key[f.shared..];
  }

  lemma AtThree(buf: Bytes, pos: nat, a: Bytes, b: Bytes, c: Bytes)
    requires At(buf, pos, a + b + c)
    ensures At(buf, pos, a) && At(buf, pos + |a|, b) && At(buf, pos + |a| + |b|, c)
  {
    AtConcat(buf, pos, a + b, c);
    AtConcat(buf, pos, a, b);
  }

  /** The header, the rest of the key and the value of e lie one after the other, up to next. */
  ghost predicate Lies(buf: Bytes, pos: nat, e: Entry, shared: nat, next: nat) {
    && shared <= |e.key| && At(buf, pos, Header(e, shared))
    && At(buf, pos + |Header(e, shared)|, e.key[shared..])
    && At(buf, pos + |Header(e, shared)| + |e.key| - shared, ValueBytes(e))
    && next == pos + |Header(e, shared)| + |e.key| - shared + |ValueBytes(e)|
  }

  lemma DecodeParts(buf: Bytes, pos: nat, e: Entry, shared: nat, lastKey: Key, next: nat)
    requires Fits(e) && Lies(buf, pos, e, shared, next)
    requires shared <= |lastKey| && lastKey[..shared] == e.key[..shared]
    ensures DecodeAt(buf, pos, lastKey) == Ok((e, next))
  {
    HeaderReads(buf, pos, e, shared);
    RebuildEntry(buf, ReadFields(buf, pos).value, e, lastKey);
  }

  lemma EntryParts(buf: Bytes, pos: nat, e: Entry, shared: nat)
    requires shared <= |e.key| && At(buf, pos, EntryBytes(e, shared))
    ensures Lies(buf, pos, e, shared, pos + |EntryBytes(e, shared)|)
  {
    AtThree(buf, pos, Header(e, shared), e.key[shared..], ValueBytes(e));
  }

  /** An entry reads back from any last key that agrees on the shared bytes. */
  lemma DecodeEncoded(buf: Bytes, pos: nat, e: Entry, shared: nat, lastKey: Key, next: nat)
    requires Fits(e) && shared <= |e.key|
    requires At(buf, pos, EntryBytes(e, shared)) && next == pos + |EntryBytes(e, shared)|
    requires shared <= |lastKey| && lastKey[..shared] == e.key[..shared]
    ensures DecodeAt(buf, pos, lastKey) == Ok((e, next))
  {
    EntryParts(buf, pos, e, shared);
    DecodeParts(buf, pos, e, shared, lastKey, next);
  }

  // ---- a whole block --------------------------------------------------------------------

  /** How many entries the builder has counted since the restart point before entry n. */
  function SinceRestart(n: nat, interval: nat): (c: nat)
    requires interval >= 1
    ensures c == 0 <==> n == 0
  {
    if n == 0 then 0
    else if SinceRestart(n - 1, interval) >= interval then 1
    else SinceRestart(n - 1, interval) + 1
  }

  /** Entry n is a restart point, by the builder's counter. */
  predicate IsRestart(n: nat, interval: nat)
    requires interval >= 1
  {
    n == 0 || SinceRestart(n, interval) >= interval
  }

  /** The counter makes every interval-th entry a restart point. */
  lemma {:induction false} RestartEvery(n: nat, interval: nat)
    requires interval >= 1
    ensures IsRestart(n, interval) <==> n % interval == 0
    ensures n > 0 ==> SinceRestart(n, interval) == (n - 1) % interval + 1
  {
    if n > 1 {
      RestartEvery(n - 1, interval);
      StepMod(n - 2, interval);
    }
    if n > 0 {
      StepMod(n - 1, interval);
    }
  }

  lemma StepMod(n: nat, d: nat)
    requires d >= 1
    ensures (n + 1) % d == if n % d + 1 == d then 0 else n % d + 1
  {
    var q, r := n / d, n % d;
    if r + 1 == d {
      QuotientOf(n + 1, q + 1, d, 0);
    } else {
      QuotientOf(n + 1, q, d, r + 1);
    }
  }

  /** How much of its key entry i shares with the one before: nothing at a restart point. */
  function Shared(es: seq<Entry>, interval: nat, i: nat): (n: nat)
    requires interval >= 1 && i < |es|
    ensures n <= |es[i].key|
  {
    if IsRestart(i, interval) then 0 else CommonPrefix(es[i - 1].key, es[i].key)
  }

  /** Entry i as the block stores it. */
  function Piece(es: seq<Entry>, interval: nat, i: nat): (b: Bytes)
    requires interval >= 1 && i < |es|
    ensures |b| >= 12
  {
    EntryBytes(es[i], Shared(es, interval, i))
  }

  function Pieces(es: seq<Entry>, interval: nat): (ps: seq<Bytes>)
    requires interval >= 1
    ensures |ps| == |es| && forall i :: 0 <= i < |es| ==> ps[i] == Piece(es, interval, i)
  {
    seq(|es|, i requires 0 <= i < |es| => Piece(es, interval, i))
  }

  function Encoded(es: seq<Entry>, interval: nat): Bytes
    requires interval >= 1
  {
    Joined(Pieces(es, interval), |es|)
  }

  /** Where entry i starts. */
  function Offset(es: seq<Entry>, interval: nat, i: nat): nat
    requires interval >= 1 && i <= |es|
  {
    |Joined(Pieces(es, interval), i)|
  }

  /** The entries that are restart points. */
  function RestartIndices(n: nat, interval: nat): (r: seq<nat>)
    requires interval >= 1
    ensures forall j :: 0 <= j < |r| ==> r[j] < n && IsRestart(r[j], interval)
    ensures n > 0 ==> |r| > 0 && r[0] == 0
    ensures |r| <= n
  {
    if n == 0 then []
    else if IsRestart(n - 1, interval) then RestartIndices(n - 1, interval) + [n - 1]
    else RestartIndices(n - 1, interval)
  }

  /** Where the restart points lie in the buffer. */
  function Restarts(es: seq<Entry>, interval: nat): (r: seq<nat>)
    requires interval >= 1
    ensures var idx := RestartIndices(|es|, interval);
            |r| == |idx| && forall j :: 0 <= j < |r| ==> r[j] == Offset(es, interval, idx[j])
  {
    var idx := RestartIndices(|es|, interval);
    seq(|idx|, j requires 0 <= j < |idx| => Offset(es, interval, idx[j]))
  }

  function LeAll(ns: seq<nat>): (b: Bytes)
    ensures |b| == 4 * |ns|
  {
    if ns == [] then [] else LeAll(ns[..|ns| - 1]) + Le32(ns[|ns| - 1])
  }

  /** A block without its checksum: entries, restart offsets, their number. */
  function BlockBody(es: seq<Entry>, interval: nat): Bytes
    requires interval >= 1
  {
    var rs := Restarts(es, interval);
    Encoded(es, interval) + LeAll(rs) + Le32(|rs|)
  }

  /** lastKey lets a reader go on at entry i: the key before it, or anything at a restart. */
  predicate CanResume(es: seq<Entry>, interval: nat, i: nat, lastKey: Key)
    requires interval >= 1 && i <= |es|
  {
    i < |es| ==> IsRestart(i, interval) || lastKey == es[i - 1].key
  }

  lemma DecodePiece(buf: Bytes, pos: nat, es: seq<Entry>, interval: nat, i: nat, lastKey: Key, next: nat)
    requires interval >= 1 && i < |es| && Fits(es[i]) && CanResume(es, interval, i, lastKey)
    requires At(buf, pos, Piece(es, interval, i)) && next == pos + |Piece(es, interval, i)|
    ensures DecodeAt(buf, pos, lastKey) == Ok((es[i], next))
  {
    SharedFront(es, interval, i, lastKey);
    DecodeEncoded(buf, pos, es[i], Shared(es, interval, i), lastKey, next);
  }

  /** Whoever may resume at entry i knows the bytes it shares. */
  lemma SharedFront(es: seq<Entry>, interval: nat, i: nat, lastKey: Key)
    requires interval >= 1 && i < |es| && CanResume(es, interval, i, lastKey)
    ensures var shared := Shared(es, interval, i);
            shared <= |es[i].key| && shared <= |lastKey| && lastKey[..shared] == es[i].key[..shared]
  {
  }

  /** All entries from pos on, or an error: decode_all_entries. */
  function DecodeFrom(buf: Bytes, pos: nat, lastKey: Key): Result<seq<Entry>>
    decreases |buf| - pos
  {
    if pos >= |buf| then Ok([])
    else
      match DecodeAt(buf, pos, lastKey)
      case Err => Err
      case Ok((e, next)) =>
        Prepend([e], DecodeFrom(buf, next, e.key))
  }

  function Prepend(front: seq<Entry>, r: Result<seq<Entry>>): Result<seq<Entry>> {
    match r
    case Err => Err
    case Ok(rest) => Ok(front + rest)
  }

  lemma PrependNothing(r: Result<seq<Entry>>)
    ensures Prepend([], r) == r
  {
    if r.Ok? {
      assert [] + r.value == r.value;
    }
  }

  lemma {:induction false} DecodeFromStep(buf: Bytes, pos: nat, lastKey: Key, front: seq<Entry>, e: Entry, next: nat)
    requires pos < |buf| && DecodeAt(buf, pos, lastKey) == Ok((e, next))
    ensures Prepend(front, DecodeFrom(buf, pos, lastKey)) == Prepend(front + [e], DecodeFrom(buf, next, e.key))
  {
    var rest := DecodeFrom(buf, next, e.key);
    if rest.Ok? {
      assert front + ([e] + rest.value) == front + [e] + rest.value;
    }
  }

  /** Entry i of es stands at offs[i] of buf, readable by whoever may go on there. */
  ghost predicate ReadsAt(buf: Bytes, es: seq<Entry>, offs: seq<nat>, interval: nat, i: nat)
    requires interval >= 1 && i < |es| && |offs| == |es| + 1
  {
    && offs[i] < offs[i + 1] <= |buf|
    && forall lastKey :: CanResume(es, interval, i, lastKey) ==>
      DecodeAt(buf, offs[i], lastKey) == Ok((es[i], offs[i + 1]))
  }

  /** buf holds exactly the entries of es, one after the other. */
  ghost predicate Laid(buf: Bytes, es: seq<Entry>, offs: seq<nat>, interval: nat) {
    && interval >= 1 && |offs| == |es| + 1 && offs[0] == 0 && offs[|es|] == |buf|
    && forall i :: 0 <= i < |es| ==> ReadsAt(buf, es, offs, interval, i)
  }

  function Offsets(es: seq<Entry>, interval: nat): (r: seq<nat>)
    requires interval >= 1
    ensures |r| == |es| + 1 && forall i :: 0 <= i <= |es| ==> r[i] == Offset(es, interval, i)
  {
    seq(|es| + 1, i requires 0 <= i <= |es| => Offset(es, interval, i))
  }

  lemma EncodedLaid(es: seq<Entry>, interval: nat)
    requires interval >= 1 && AllFit(es)
    ensures Laid(Encoded(es, interval), es, Offsets(es, interval), interval)
  {
    forall i | 0 <= i < |es|
      ensures ReadsAt(Encoded(es, interval), es, Offsets(es, interval), interval, i)
    {
      JoinedPlace(Pieces(es, interval), |es|, i);
      PieceReads(Encoded(es, interval), es, Offsets(es, interval), interval, i);
    }
  }

  lemma PieceReads(buf: Bytes, es: seq<Entry>, offs: seq<nat>, interval: nat, i: nat)
    requires interval >= 1 && i < |es| && AllFit(es) && |offs| == |es| + 1
    requires At(buf, offs[i], Piece(es, interval, i)) && offs[i + 1] == offs[i] + |Piece(es, interval, i)|
    ensures ReadsAt(buf, es, offs, interval, i)
  {
    forall lastKey | CanResume(es, interval, i, lastKey)
      ensures DecodeAt(buf, offs[i], lastKey) == Ok((es[i], offs[i + 1]))
    {
      DecodePiece(buf, offs[i], es, interval, i, lastKey, offs[i + 1]);
    }
  }

  lemma ReadsOn(buf: Bytes, es: seq<Entry>, offs: seq<nat>, interval: nat, i: nat, lastKey: Key)
    requires Laid(buf, es, offs, interval) && i < |es| && CanResume(es, interval, i, lastKey)
    ensures offs[i] < |buf| && DecodeAt(buf, offs[i], lastKey) == Ok((es[i], offs[i + 1]))
    ensures CanResume(es, interval, i + 1, es[i].key)
  {
    assert ReadsAt(buf, es, offs, interval, i);
  }

  lemma {:induction false} DecodeOneMore(buf: Bytes, pos: nat, lastKey: Key, e: Entry, next: nat, rest: seq<Entry>)
    requires pos < |buf| && DecodeAt(buf, pos, lastKey) == Ok((e, next)) && DecodeFrom(buf, next, e.key) == Ok(rest)
    ensures DecodeFrom(buf, pos, lastKey) == Ok([e] + rest)
  {
  }

  lemma {:induction false} DecodeSuffix(buf: Bytes, es: seq<Entry>, offs: seq<nat>, interval: nat, i: nat, lastKey: Key)
    requires Laid(buf, es, offs, interval) && i <= |es| && CanResume(es, interval, i, lastKey)
    ensures DecodeFrom(buf, offs[i], lastKey) == Ok(es[i..])
    decreases |es| - i
  {
    if i == |es| {
      SuffixEnd(buf, es, offs, interval, lastKey);
    } else {
      DecodeSuffix(buf, es, offs, interval, i + 1, es[i].key);
      SuffixStep(buf, es, offs, interval, i, lastKey);
    }
  }

  lemma {:induction false} SuffixEnd(buf: Bytes, es: seq<Entry>, offs: seq<nat>, interval: nat, lastKey: Key)
    requires Laid(buf, es, offs, interval)
    ensures DecodeFrom(buf, offs[|es|], lastKey) == Ok(es[|es|..])
  {
    assert es[|es|..] == [];
  }

  lemma {:induction false} SuffixStep(buf: Bytes, es: seq<Entry>, offs: seq<nat>, interval: nat, i: nat, lastKey: Key)
    requires Laid(buf, es, offs, interval) && i < |es| && CanResume(es, interval, i, lastKey)
    requires DecodeFrom(buf, offs[i + 1], es[i].key) == Ok(es[i + 1..])
    ensures DecodeFrom(buf, offs[i], lastKey) == Ok(es[i..])
  {
    ReadsOn(buf, es, offs, interval, i, lastKey);
    DecodeOneMore(buf, offs[i], lastKey, es[i], offs[i + 1], es[i + 1..]);
    HeadAt(es, i);
  }

  /** Block round trip: decoding what was encoded yields exactly the entries added. */
  lemma BlockRoundTrip(es: seq<Entry>, interval: nat)
    requires interval >= 1 && AllFit(es)
    ensures DecodeFrom(Encoded(es, interval), 0, []) == Ok(es)
  {
    EncodedLaid(es, interval);
    DecodeSuffix(Encoded(es, interval), es, Offsets(es, interval), interval, 0, []);
  }

  // ---- BlockBuilder ---------------------------------------------------------------------

  class BlockBuilder {
    var buffer: Bytes
    var restarts: seq<nat>
    const restartInterval: nat
    var entriesSinceRestart: nat
    var lastKey: Key
    /** The entries added so far, in order. */
    ghost var added: seq<Entry>

    ghost predicate Valid()
      reads this
    {
      && restartInterval >= 1
      && Built(buffer, restarts, added, restartInterval)
      && (added != [] ==> lastKey == added[|added| - 1].key)
      && entriesSinceRestart == SinceRestart(|added|, restartInterval)
    }

    constructor (interval: nat)
      ensures Valid() && added == [] && restartInterval == if interval < 1 then 1 else interval
    {
      buffer, restarts, entriesSinceRestart, lastKey, added := [], [], 0, [], [];
      restartInterval := if interval < 1 then 1 else interval;
    }

    method IsEmpty() returns (empty: bool)
      requires Valid()
      ensures empty <==> added == []
    {
      empty := buffer == [];
    }

    method EstimatedSize() returns (n: nat)
      requires Valid()
      ensures n == |BlockBody(added, restartInterval)| + 4
    {
      n := |buffer| + |restarts| * 4 + 4 + 4;
    }

    method Add(e: Entry)
      requires Valid()
      modifies this
      ensures Valid() && added == old(added) + [e]
    {
      var isRestart := entriesSinceRestart == 0 || entriesSinceRestart >= restartInterval;
      assert isRestart == IsRestart(|added|, restartInterval);
      var shared := if isRestart then 0 else CommonPrefix(lastKey, e.key);
      AddedEntry(buffer, restarts, added, restartInterval, e, shared);
      var longer := AppendEntry(buffer, e, shared);
      Store(e, longer, isRestart);
    }

    method Store(e: Entry, longer: Bytes, isRestart: bool)
      requires restartInterval >= 1 && entriesSinceRestart == SinceRestart(|added|, restartInterval)
      requires isRestart == IsRestart(|added|, restartInterval)
      requires Built(longer, if isRestart then restarts + [|buffer|] else restarts, added + [e], restartInterval)
      modifies this
      ensures Valid() && added == old(added) + [e]
    {
      if isRestart {
        restarts := restarts + [|buffer|];
        entriesSinceRestart := 0;
      }
      buffer := longer;
      lastKey := e.key;
      entriesSinceRestart := entriesSinceRestart + 1;
      added := added + [e];
    }

    method Finish(h: Hashing) returns (block: Bytes)
      requires Valid()
      ensures block == Seal(h, BlockBody(added, restartInterval))
    {
      var buf := AppendOffsets(buffer, restarts);
      buf := buf + Le32(|restarts|);
      block := buf + Le32(Checksum(h, buf));
    }

    /** mem::replace with a new builder. */
    method Renew()
      requires Valid()
      modifies this
      ensures Valid() && added == []
    {
      buffer, restarts, entriesSinceRestart, lastKey, added := [], [], 0, [], [];
    }
  }

  lemma PiecesFront(es: seq<Entry>, interval: nat, e: Entry)
    requires interval >= 1
    ensures Pieces(es + [e], interval) == Pieces(es, interval) + [Piece(es + [e], interval, |es|)]
  {
    forall i | 0 <= i < |es| ensures Piece(es + [e], interval, i) == Piece(es, interval, i) {
      assert Shared(es + [e], interval, i) == Shared(es, interval, i);
    }
  }

  /** What the builder's buffer and restart list hold once es were added. */
  ghost predicate Built(buffer: Bytes, restarts: seq<nat>, es: seq<Entry>, interval: nat)
    requires interval >= 1
  {
    buffer == Encoded(es, interval) && restarts == Restarts(es, interval)
  }

  lemma OffsetFront(es: seq<Entry>, interval: nat, e: Entry, i: nat)
    requires interval >= 1 && i <= |es|
    ensures Offset(es + [e], interval, i) == Offset(es, interval, i)
  {
    PiecesFront(es, interval, e);
    JoinedFront(Pieces(es, interval), Piece(es + [e], interval, |es|), i);
  }

  lemma RestartsFront(es: seq<Entry>, interval: nat, e: Entry)
    requires interval >= 1
    ensures Restarts(es + [e], interval) ==
            if IsRestart(|es|, interval) then Restarts(es, interval) + [Offset(es, interval, |es|)]
            else Restarts(es, interval)
  {
    OldRestarts(es, interval, e);
    if IsRestart(|es|, interval) {
      OffsetFront(es, interval, e, |es|);
      SnocByIndex(Restarts(es + [e], interval), Restarts(es, interval), Offset(es, interval, |es|));
    }
  }

  lemma OldRestarts(es: seq<Entry>, interval: nat, e: Entry)
    requires interval >= 1
    ensures |Restarts(es, interval)| <= |Restarts(es + [e], interval)|
    ensures forall j :: 0 <= j < |Restarts(es, interval)| ==>
              Restarts(es + [e], interval)[j] == Restarts(es, interval)[j]
  {
    var idx := RestartIndices(|es|, interval);
    forall j | 0 <= j < |idx| ensures Restarts(es + [e], interval)[j] == Restarts(es, interval)[j] {
      OffsetFront(es, interval, e, idx[j]);
    }
  }

  lemma AddedEntry(buffer: Bytes, restarts: seq<nat>, es: seq<Entry>, interval: nat, e: Entry, shared: nat)
    requires interval >= 1 && Built(buffer, restarts, es, interval) && shared <= |e.key|
    requires shared == if IsRestart(|es|, interval) then 0 else CommonPrefix(es[|es| - 1].key, e.key)
    ensures Built(buffer + EntryBytes(e, shared),
                  if IsRestart(|es|, interval) then restarts + [|buffer|] else restarts, es + [e], interval)
  {
    PiecesFront(es, interval, e);
    JoinedFront(Pieces(es, interval), Piece(es + [e], interval, |es|), |es|);
    RestartsFront(es, interval, e);
  }

  /** The restart table that BlockBuilder::finish appends. */
  method AppendOffsets(buffer: Bytes, restarts: seq<nat>) returns (buf: Bytes)
    ensures buf == buffer + LeAll(restarts)
  {
    buf := buffer;
    for i := 0 to |restarts|
      invariant buf == buffer + LeAll(restarts[..i])
    {
      assert restarts[..i + 1][..i] == restarts[..i];
      buf := buf + Le32(restarts[i]);
    }
    assert restarts[..|restarts|] == restarts;
  }

  /** The bytes BlockBuilder::add appends. */
  method AppendEntry(buf: Bytes, e: Entry, shared: nat) returns (out: Bytes)
    requires shared <= |e.key|
    ensures out == buf + EntryBytes(e, shared)
  {
    out := WriteVarint(buf, shared);
    out := WriteVarint(out, |e.key| - shared);
    out := out + [Kind(e)];
    out := WriteVarint(out, |ValueBytes(e)|);
    out := out + Le64(e.seqNo);
    assert out == buf + Header(e, shared);
    out := out + e.key[shared..];
    out := out + ValueBytes(e);
  }

  // ---- reading a block ------------------------------------------------------------------

  datatype ParsedBlock = ParsedBlock(entriesBuf: Bytes, restarts: seq<nat>)

  /** The layout parse_data_block reads back from the end. */
  function ParseBlock(body: Bytes): Result<ParsedBlock> {
    if |body| < 4 then Err
    else
      var n := U32At(body, |body| - 4);
      if 4 * n > |body| - 4 then Err
      else
        var start := |body| - 4 - 4 * n;
        Ok(ParsedBlock(body[..start], OffsetTable(body, start, n)))
  }

  function OffsetTable(body: Bytes, start: nat, n: nat): (r: seq<nat>)
    requires start + 4 * n <= |body|
  {
    if n == 0 then [] else OffsetTable(body, start, n - 1) + [U32At(body, start + 4 * (n - 1))]
  }

  method ParseDataBlock(body: Bytes) returns (r: Result<ParsedBlock>)
    ensures r == ParseBlock(body)
  {
    if |body| < 4 {
      return Err;
    }
    var countOff := |body| - 4;
    var count := U32At(body, countOff);
    if count * 4 > countOff {
      return Err;
    }
    var start := countOff - count * 4;
    var restarts := [];
    for i := 0 to count
      invariant restarts == OffsetTable(body, start, i)
    {
      restarts := restarts + [U32At(body, start + i * 4)];
    }
    r := Ok(ParsedBlock(body[..start], restarts));
  }

  /** A built block small enough for its 32-bit offsets. */
  ghost predicate IsBlock(body: Bytes, es: seq<Entry>, interval: nat) {
    interval >= 1 && AllFit(es) && body == BlockBody(es, interval) && |body| < U32
  }

  lemma ParseBuilt(body: Bytes, es: seq<Entry>, interval: nat)
    requires IsBlock(body, es, interval)
    ensures ParseBlock(body) == Ok(ParsedBlock(Encoded(es, interval), Restarts(es, interval)))
  {
    var buf, rs := Encoded(es, interval), Restarts(es, interval);
    assert AllU32(rs) by {
      forall i | 0 <= i < |rs| ensures rs[i] < U32 {
        JoinedPlace(Pieces(es, interval), |es|, RestartIndices(|es|, interval)[i]);
      }
    }
    ParseJoined(body, buf, rs);
  }

  lemma {:induction false} ParseJoined(body: Bytes, buf: Bytes, rs: seq<nat>)
    requires body == buf + LeAll(rs) + Le32(|rs|) && AllU32(rs) && |body| < U32
    ensures ParseBlock(body) == Ok(ParsedBlock(buf, rs))
  {
    JoinedTable(body, buf, rs, Le32(|rs|));
    TableReads(body, |buf|, rs);
    CountReads(body, buf + LeAll(rs), |rs|);
    ParseLayout(body, buf, rs);
  }

  lemma {:induction false} JoinedTable(body: Bytes, buf: Bytes, rs: seq<nat>, count: Bytes)
    requires body == buf + LeAll(rs) + count && AllU32(rs)
    ensures TableAt(body, |buf|, rs) && body[..|buf|] == buf && |body| == |buf| + 4 * |rs| + |count|
  {
    JoinedAt(body, buf, LeAll(rs), count);
  }

  lemma JoinedAt(body: Bytes, x: Bytes, y: Bytes, z: Bytes)
    requires body == x + y + z
    ensures At(body, |x|, y) && body[..|x|] == x && |body| == |x| + |y| + |z|
  {
  }

  lemma CountReads(body: Bytes, front: Bytes, n: nat)
    requires body == front + Le32(n) && n < U32
    ensures |body| >= 4 && U32At(body, |body| - 4) == n
  {
    AtEnd(front, Le32(n));
    Number32(body, |front|, n);
  }

  ghost predicate AllU32(ns: seq<nat>) { forall i :: 0 <= i < |ns| ==> ns[i] < U32 }

  /** The body holds the restart offsets rs at start. */
  ghost predicate TableAt(body: Bytes, start: nat, rs: seq<nat>) {
    At(body, start, LeAll(rs)) && AllU32(rs)
  }

  lemma {:induction false} TableReads(body: Bytes, start: nat, rs: seq<nat>)
    requires TableAt(body, start, rs)
    ensures start + 4 * |rs| <= |body| && OffsetTable(body, start, |rs|) == rs
  {
    if rs != [] {
      var n := |rs| - 1;
      AtConcat(body, start, LeAll(rs[..n]), Le32(rs[n]));
      Number32(body, start + 4 * n, rs[n]);
      TableReads(body, start, rs[..n]);
      assert rs == rs[..n] + [rs[n]];
    }
  }

  lemma {:induction false} ParseLayout(body: Bytes, buf: Bytes, rs: seq<nat>)
    requires |body| == |buf| + 4 * |rs| + 4 && U32At(body, |body| - 4) == |rs|
    requires OffsetTable(body, |buf|, |rs|) == rs && body[..|buf|] == buf
    ensures ParseBlock(body) == Ok(ParsedBlock(buf, rs))
  {
  }

  method DecodeAll(parsed: ParsedBlock) returns (r: Result<seq<Entry>>)
    ensures r == DecodeFrom(parsed.entriesBuf, 0, [])
  {
    var out: seq<Entry>, lastKey: Key, pos := [], [], 0;
    PrependNothing(DecodeFrom(parsed.entriesBuf, 0, []));
    while pos < |parsed.entriesBuf|
      invariant DecodeFrom(parsed.entriesBuf, 0, []) == Prepend(out, DecodeFrom(parsed.entriesBuf, pos, lastKey))
      decreases |parsed.entriesBuf| - pos
    {
      var at := DecodeAt(parsed.entriesBuf, pos, lastKey);
      if at.Err? {
        return Err;
      }
      var (e, next) := at.value;
      DecodeFromStep(parsed.entriesBuf, pos, lastKey, out, e, next);
      lastKey := e.key;
      pos := next;
      out := out + [e];
    }
    assert out + [] == out;
    r := Ok(out);
  }

  /** Every entry in front of restart point lo has a smaller key. */
  ghost predicate StartsBefore(es: seq<Entry>, interval: nat, lo: nat, key: Key)
    requires interval >= 1 && lo < |RestartIndices(|es|, interval)|
  {
    forall i :: 0 <= i < RestartIndices(|es|, interval)[lo] ==> Less(es[i].key, key)
  }

  lemma {:induction false} BeforeRestart(es: seq<Entry>, interval: nat, j: nat, key: Key)
    requires interval >= 1 && j < |RestartIndices(|es|, interval)| && Sorted(es)
    requires AtMost(es[RestartIndices(|es|, interval)[j]].key, key)
    ensures StartsBefore(es, interval, j, key)
  {
    var r := RestartIndices(|es|, interval)[j];
    forall i | 0 <= i < r ensures Less(es[i].key, key) {
      BelowAtMost(es[i].key, es[r].key, key);
    }
  }

  lemma {:induction false} BelowAtMost(a: Key, b: Key, c: Key)
    requires Less(a, b) && AtMost(b, c)
    ensures Less(a, c)
  {
    if b != c {
      LessTrans(a, b, c);
    }
  }

  /** A parsed block holds es, its restart table pointing where it should. */
  ghost predicate Indexed(p: ParsedBlock, es: seq<Entry>, offs: seq<nat>, interval: nat) {
    && Laid(p.entriesBuf, es, offs, interval) && Sorted(es)
    && |p.restarts| == |RestartIndices(|es|, interval)|
    && forall j :: 0 <= j < |p.restarts| ==> p.restarts[j] == offs[RestartIndices(|es|, interval)[j]]
  }

  lemma {:induction false} RestartReads(p: ParsedBlock, es: seq<Entry>, offs: seq<nat>, interval: nat, j: nat)
    requires Indexed(p, es, offs, interval) && j < |p.restarts|
    ensures var i := RestartIndices(|es|, interval)[j];
            DecodeAt(p.entriesBuf, p.restarts[j], []) == Ok((es[i], offs[i + 1]))
  {
    var i := RestartIndices(|es|, interval)[j];
    assert ReadsAt(p.entriesBuf, es, offs, interval, i) && CanResume(es, interval, i, []);
  }

  /** The binary search of search_data_block, over restart points; with a built block the
      scan may start there. */
  method FindRestart(p: ParsedBlock, key: Key, ghost built: bool, ghost es: seq<Entry>, ghost offs: seq<nat>,
                     ghost interval: nat)
    returns (r: Result<nat>)
    requires p.restarts != []
    requires built ==> Indexed(p, es, offs, interval)
    ensures r.Ok? ==> r.value < |p.restarts|
    ensures built ==> r.Ok? && StartsBefore(es, interval, r.value, key)
  {
    var lo, hi := 0, |p.restarts|;
    while lo + 1 < hi
      invariant lo < hi <= |p.restarts|
      invariant built ==> StartsBefore(es, interval, lo, key)
      decreases hi - lo
    {
      var mid := lo + (hi - lo) / 2;
      if built {
        RestartReads(p, es, offs, interval, mid);
      }
      var at := DecodeAt(p.entriesBuf, p.restarts[mid], []);
      if at.Err? {
        return Err;
      }
      if AtMost(at.value.0.key, key) {
        if built {
          BeforeRestart(es, interval, mid, key);
        }
        lo := mid;
      } else {
        hi := mid;
      }
    }
    r := Ok(lo);
  }

  /** The scan has passed the first i entries, all too small. */
  ghost predicate Passed(buf: Bytes, es: seq<Entry>, offs: seq<nat>, interval: nat, i: nat, pos: nat, lastKey: Key,
                         key: Key) {
    && Laid(buf, es, offs, interval) && Sorted(es) && i <= |es| && pos == offs[i] && CanResume(es, interval, i, lastKey)
    && forall j :: 0 <= j < i ==> Less(es[j].key, key)
  }

  lemma {:induction false} PassOne(buf: Bytes, es: seq<Entry>, offs: seq<nat>, interval: nat, i: nat, pos: nat,
                                   lastKey: Key, key: Key)
    requires Passed(buf, es, offs, interval, i, pos, lastKey, key)
    ensures pos < |buf| <==> i < |es|
    ensures i < |es| ==> DecodeAt(buf, pos, lastKey) == Ok((es[i], offs[i + 1]))
    ensures i < |es| && Less(es[i].key, key) ==> Passed(buf, es, offs, interval, i + 1, offs[i + 1], es[i].key, key)
    ensures i < |es| && es[i].key == key ==> Find(es, key) == Some(es[i])
    ensures i == |es| || Less(key, es[i].key) ==> Find(es, key) == None
  {
    if i < |es| {
      assert ReadsAt(buf, es, offs, interval, i);
      if es[i].key == key {
        FindAt(es, key, i);
      }
    }
    if i == |es| || Less(key, es[i].key) {
      FindPassed(es, key, i);
    }
  }

  /** The linear part of search_data_block: decode until the key is met or passed. */
  method ScanFrom(buf: Bytes, start: nat, key: Key, ghost built: bool, ghost es: seq<Entry>, ghost offs: seq<nat>,
                  ghost interval: nat, ghost first: nat)
    returns (r: Result<Option<Entry>>)
    requires built ==> Passed(buf, es, offs, interval, first, start, [], key)
    ensures built ==> r == Ok(Find(es, key))
  {
    var pos, lastKey: Key := start, [];
    ghost var i: nat := first;
    while pos < |buf|
      invariant built ==> Passed(buf, es, offs, interval, i, pos, lastKey, key)
      decreases |buf| - pos
    {
      if built {
        PassOne(buf, es, offs, interval, i, pos, lastKey, key);
      }
      var at := DecodeAt(buf, pos, lastKey);
      if at.Err? {
        return Err;
      }
      var (e, next) := at.value;
      if e.key == key {
        return Ok(Some(e));
      }
      if Less(key, e.key) {
        return Ok(None);
      }
      LessTotal(e.key, key);
      lastKey := e.key;
      pos := next;
      i := i + 1;
    }
    if built {
      PassOne(buf, es, offs, interval, i, pos, lastKey, key);
    }
    r := Ok(None);
  }

  lemma {:induction false} FindAt(es: seq<Entry>, key: Key, i: nat)
    requires Sorted(es) && i < |es| && es[i].key == key
    ensures Find(es, key) == Some(es[i])
  {
    var j := FindIndex(es, key);
    KeyOnce(es, i, j);
  }

  /** Smaller keys up to i, a larger one at i: the key is nowhere. */
  lemma {:induction false} FindPassed(es: seq<Entry>, key: Key, i: nat)
    requires Sorted(es) && i <= |es| && (forall j :: 0 <= j < i ==> Less(es[j].key, key))
    requires i < |es| ==> Less(key, es[i].key)
    ensures Find(es, key) == None
  {
    var j := FindIndex(es, key);
    if j < |es| {
      LessTotal(key, key);
      if i < j {
        LessTrans(key, es[i].key, es[j].key);
      }
    }
  }

  lemma BlockHoldsOneList(body: Bytes, es: seq<Entry>, n: nat, es': seq<Entry>, n': nat)
    requires IsBlock(body, es, n) && IsBlock(body, es', n')
    ensures es == es'
  {
    ParseBuilt(body, es, n);
    ParseBuilt(body, es', n');
    BlockRoundTrip(es, n);
    BlockRoundTrip(es', n');
  }

  /** What follows parse_data_block in search_data_block. */
  method SearchParsed(p: ParsedBlock, key: Key, ghost built: bool, ghost es: seq<Entry>, ghost offs: seq<nat>,
                      ghost interval: nat)
    returns (r: Result<Option<Entry>>)
    requires p.restarts != []
    requires built ==> Indexed(p, es, offs, interval)
    ensures built ==> r == Ok(Find(es, key))
  {
    var start := FindRestart(p, key, built, es, offs, interval);
    if start.Err? {
      return Err;
    }
    ghost var first: nat := 0;
    if built {
      first := RestartIndices(|es|, interval)[start.value];
    }
    r := ScanFrom(p.entriesBuf, p.restarts[start.value], key, built, es, offs, interval, first);
  }

  /** The sorted list whose block the body is, if there is one; there is no second. */
  lemma TheList(body: Bytes) returns (built: bool, es: seq<Entry>, n: nat)
    ensures built ==> IsBlock(body, es, n) && Sorted(es)
    ensures forall es', n' :: IsBlock(body, es', n') && Sorted(es') ==> built && es' == es
  {
    built, es, n := exists es, n :: IsBlock(body, es, n) && Sorted(es), [], 1;
    if built {
      es, n :| IsBlock(body, es, n) && Sorted(es);
    }
    forall es', n' | IsBlock(body, es', n') && Sorted(es') ensures built && es' == es {
      BlockHoldsOneList(body, es, n, es', n');
    }
  }

  lemma {:induction false} BuiltIndexed(body: Bytes, es: seq<Entry>, n: nat)
    requires IsBlock(body, es, n) && Sorted(es)
    ensures var p := ParseBlock(body);
            p.Ok? && Indexed(p.value, es, Offsets(es, n), n) && (p.value.restarts == [] <==> es == [])
  {
    ParseBuilt(body, es, n);
    EncodedLaid(es, n);
  }

  /** search_data_block: binary search over the restart points, then a scan. It ends on any
      bytes, and on a built block it finds what a search of the entries finds. */
  method SearchDataBlock(body: Bytes, key: Key) returns (r: Result<Option<Entry>>)
    ensures forall es, n :: IsBlock(body, es, n) && Sorted(es) ==> r == Ok(Find(es, key))
  {
    ghost var built, es, n := TheList(body);
    if built {
      BuiltIndexed(body, es, n);
    }
    var parsed := ParseDataBlock(body);
    if parsed.Err? {
      return Err;
    }
    if parsed.value.restarts == [] {
      return Ok(None);
    }
    r := SearchParsed(parsed.value, key, built, es, if built then Offsets(es, n) else [], n);
  }
}
