/** The write-ahead log: records on disk, tail recovery, segments. */
module Wals {
  import opened Entries
  import opened ByteSeqs
  import opened Sealing

  // ---- one record -------------------------------------------------------------------------

  /** The largest payload that recovery accepts. append does not check it. */
  const MAX_PAYLOAD: nat := 10_485_760

  function ValueOf(r: Record): Bytes { if r.value.Some? then r.value.value else [] }

  function KindOf(r: Record): Byte { if r.value.Some? then 0 else 1 }

  function Payload(r: Record): (b: Bytes)
    ensures |b| == 17 + |r.key| + |ValueOf(r)|
  {
    [KindOf(r)] + Le64(r.seqNo) + Le32(|r.key|) + Le32(|ValueOf(r)|) + r.key + ValueOf(r)
  }

  /** WalRecord::serialize. */
  function RecordBytes(h: Hashing, r: Record): (b: Bytes)
    ensures |b| == |Payload(r)| + 8
  {
    Le32(|Payload(r)|) + Payload(r) + Le32(Checksum(h, Payload(r)))
  }

  /** The record's numbers fit the fields they are written in. */
  predicate RecordFits(r: Record) { r.seqNo < U64 && |Payload(r)| < U32 }

  /** The record is one that recovery accepts. */
  predicate Accepted(r: Record) { |Payload(r)| <= MAX_PAYLOAD }

  ghost predicate AllFit(rs: seq<Record>) { forall i :: 0 <= i < |rs| ==> RecordFits(rs[i]) }

  ghost predicate AllAccepted(rs: seq<Record>) { forall i :: 0 <= i < |rs| ==> Accepted(rs[i]) }

  function RecordsBytes(h: Hashing, rs: seq<Record>): Bytes {
    if rs == [] then [] else RecordBytes(h, rs[0]) + RecordsBytes(h, rs[1..])
  }

  /** "LSMW", version 1, three bytes of padding. */
  const HEADER: Bytes := [0x4C, 0x53, 0x4D, 0x57, 1, 0, 0, 0]

  function SegmentBytes(h: Hashing, rs: seq<Record>): Bytes { HEADER + RecordsBytes(h, rs) }

  // ---- reading one record ---------------------------------------------------------------------

  /** seen: the sequence number of a record that was given up only for its lengths. */
  datatype Step = End | Bad(seen: nat) | Good(rec: Record, next: nat)

  /** What a payload with a good checksum holds. */
  function ReadPayload(p: Bytes, next: nat): Step {
    if |p| < 17 then Bad(0)
    else
      var seqNo := U64At(p, 1);
      var keyEnd := 17 + U32At(p, 9);
      var valueEnd := keyEnd + U32At(p, 13);
      if |p| < keyEnd || (p[0] == 0 && |p| < valueEnd) then Bad(seqNo)
      else Good(Record(seqNo, p[17..keyEnd], if p[0] == 0 then Some(p[keyEnd..valueEnd]) else None), next)
  }

  /** One turn of the loop in recover. The reader hands out whatever bytes are left. */
  function ReadRecord(h: Hashing, file: Bytes, pos: nat): (s: Step)
    requires pos <= |file|
    ensures s.Good? ==> pos + 8 <= s.next <= |file|
  {
    if pos == |file| then End
    else if pos + 4 > |file| then Bad(0)
    else
      var len := U32At(file, pos);
      var checkAt := pos + 4 + len;
      if len > MAX_PAYLOAD || checkAt > |file| || checkAt + 4 > |file| then Bad(0)
      else
        var payload := file[pos + 4..checkAt];
        if Checksum(h, payload) != U32At(file, checkAt) then Bad(0) else ReadPayload(payload, checkAt + 4)
  }

  /** What recover makes of a segment from pos on. */
  datatype Parsed = Parsed(records: seq<Record>, maxSeqNo: nat, validBytes: nat, corrupt: bool)

  function ParseLog(h: Hashing, file: Bytes, pos: nat): (p: Parsed)
    requires pos <= |file|
    ensures pos <= p.validBytes <= |file|
    decreases |file| - pos, 1
  {
    ParseAfter(h, file, pos, ReadRecord(h, file, pos))
  }

  /** The rest of the loop, once the record at pos was looked at. */
  function ParseAfter(h: Hashing, file: Bytes, pos: nat, s: Step): (p: Parsed)
    requires pos <= |file| && (s.Good? ==> pos < s.next <= |file|)
    ensures pos <= p.validBytes <= |file|
    decreases |file| - pos, 0
  {
    match s
    case End => Parsed([], 0, pos, false)
    case Bad(seen) => Parsed([], seen, pos, true)
    case Good(r, next) => WithRecord(r, ParseLog(h, file, next))
  }

  function WithRecord(r: Record, p: Parsed): Parsed {
    p.(records := [r] + p.records, maxSeqNo := Max(r.seqNo, p.maxSeqNo))
  }

  function WithRecords(front: seq<Record>, seen: nat, p: Parsed): Parsed {
    p.(records := front + p.records, maxSeqNo := Max(seen, p.maxSeqNo))
  }

  /** The parsing loop of recover. */
  method ParseRecords(h: Hashing, file: Bytes) returns (p: Parsed)
    requires 8 <= |file|
    ensures p == ParseLog(h, file, 8)
  {
    var records: seq<Record>, maxSeqNo: nat, validBytes: nat := [], 0, 8;
    while true
      invariant 8 <= validBytes <= |file|
      invariant ParseLog(h, file, 8) == WithRecords(records, maxSeqNo, ParseLog(h, file, validBytes))
      decreases |file| - validBytes
    {
      var s := ReadRecord(h, file, validBytes);
      if s.Good? {
        GoodStep(h, file, validBytes, s.rec, s.next);
        FrontGrows(records, maxSeqNo, s.rec, ParseLog(h, file, s.next));
        records := records + [s.rec];
        maxSeqNo := Max(maxSeqNo, s.rec.seqNo);
        validBytes := s.next;
      } else {
        LastStep(h, file, validBytes, s);
        assert records + [] == records;
        return Parsed(records, if s.End? then maxSeqNo else Max(maxSeqNo, s.seen), validBytes, !s.End?);
      }
    }
  }

  lemma FrontGrows(front: seq<Record>, seen: nat, r: Record, p: Parsed)
    ensures WithRecords(front, seen, WithRecord(r, p)) == WithRecords(front + [r], Max(seen, r.seqNo), p)
  {
    assert front + ([r] + p.records) == front + [r] + p.records;
  }

  // ---- written records read back ----------------------------------------------------------------

  lemma PayloadPlaces(p: Bytes, kind: Byte, seqNo: Bytes, keyLen: Bytes, valueLen: Bytes, key: Bytes, value: Bytes)
    requires p == [kind] + seqNo + keyLen + valueLen + key + value && |seqNo| == 8 && |keyLen| == 4 && |valueLen| == 4
    ensures p[0] == kind && At(p, 1, seqNo) && At(p, 9, keyLen) && At(p, 13, valueLen)
    ensures p[17..17 + |key|] == key && p[17 + |key|..17 + |key| + |value|] == value
  {
  }

  lemma PayloadReads(r: Record, next: nat)
    requires RecordFits(r)
    ensures ReadPayload(Payload(r), next) == Good(r, next)
  {
    var p := Payload(r);
    PayloadPlaces(p, KindOf(r), Le64(r.seqNo), Le32(|r.key|), Le32(|ValueOf(r)|), r.key, ValueOf(r));
    Number64(p, 1, r.seqNo);
    Number32(p, 9, |r.key|);
    Number32(p, 13, |ValueOf(r)|);
  }

  lemma RecordPlaces(file: Bytes, pos: nat, len: Bytes, payload: Bytes, check: Bytes)
    requires At(file, pos, len + payload + check)
    ensures At(file, pos, len) && At(file, pos + |len|, payload) && At(file, pos + |len| + |payload|, check)
  {
    AtConcat(file, pos, len + payload, check);
    AtConcat(file, pos, len, payload);
  }

  lemma FrameReads(h: Hashing, file: Bytes, pos: nat, p: Bytes)
    requires pos <= |file| && |p| <= MAX_PAYLOAD && At(file, pos, Le32(|p|) + p + Le32(Checksum(h, p)))
    ensures ReadRecord(h, file, pos) == ReadPayload(p, pos + |p| + 8)
  {
    RecordPlaces(file, pos, Le32(|p|), p, Le32(Checksum(h, p)));
    Number32(file, pos, |p|);
    Number32(file, pos + 4 + |p|, Checksum(h, p));
  }

  lemma RecordReads(h: Hashing, file: Bytes, pos: nat, r: Record)
    requires pos <= |file| && RecordFits(r) && Accepted(r) && At(file, pos, RecordBytes(h, r))
    ensures ReadRecord(h, file, pos) == Good(r, pos + |RecordBytes(h, r)|)
  {
    FrameReads(h, file, pos, Payload(r));
    PayloadReads(r, pos + |Payload(r)| + 8);
  }

  lemma OversizeStops(h: Hashing, file: Bytes, pos: nat, r: Record)
    requires pos <= |file| && RecordFits(r) && !Accepted(r) && At(file, pos, RecordBytes(h, r))
    ensures ReadRecord(h, file, pos) == Bad(0)
  {
    var p := Payload(r);
    RecordPlaces(file, pos, Le32(|p|), p, Le32(Checksum(h, p)));
    Number32(file, pos, |p|);
  }

  /** A record cut short is corrupt. */
  lemma CutRecordStops(h: Hashing, file: Bytes, pos: nat, r: Record)
    requires pos < |file| && RecordFits(r) && |file| - pos < |RecordBytes(h, r)|
    requires file[pos..] == RecordBytes(h, r)[..|file| - pos]
    ensures ReadRecord(h, file, pos) == Bad(0)
  {
    if pos + 4 <= |file| {
      var p := Payload(r);
      assert file[pos..pos + 4] == file[pos..][..4] == RecordBytes(h, r)[..4] == Le32(|p|);
      Number32(file, pos, |p|);
    }
  }

  // ---- the tail of a segment --------------------------------------------------------------------

  /** How many of rs lie wholly within the first m bytes. */
  function Contained(h: Hashing, rs: seq<Record>, m: nat): (k: nat)
    ensures k <= |rs|
  {
    if rs == [] || |RecordBytes(h, rs[0])| > m then 0
    else 1 + Contained(h, rs[1..], m - |RecordBytes(h, rs[0])|)
  }

  lemma {:induction false} ContainedBytes(h: Hashing, rs: seq<Record>, m: nat)
    requires m <= |RecordsBytes(h, rs)|
    ensures var k := Contained(h, rs, m);
            |RecordsBytes(h, rs[..k])| <= m && (k < |rs| ==> m < |RecordsBytes(h, rs[..k + 1])|)
    ensures RecordsBytes(h, rs[..Contained(h, rs, m)]) <= RecordsBytes(h, rs)
  {
    if rs != [] && |RecordBytes(h, rs[0])| <= m {
      var k := Contained(h, rs, m);
      ContainedBytes(h, rs[1..], m - |RecordBytes(h, rs[0])|);
      assert rs[..k][1..] == rs[1..][..k - 1];
      if k < |rs| {
        assert rs[..k + 1][1..] == rs[1..][..k];
      }
    } else if rs != [] {
      assert rs[..1][1..] == [];
    }
  }

  /** The file holds, from pos on, the first m bytes of rs, and nothing behind them. */
  ghost predicate HoldsFront(h: Hashing, file: Bytes, pos: nat, rs: seq<Record>, m: nat)
    decreases |rs|, 1
  {
    if rs == [] then pos == |file| && m == 0 else HoldsRecord(h, file, pos, rs, m)
  }

  ghost predicate HoldsRecord(h: Hashing, file: Bytes, pos: nat, rs: seq<Record>, m: nat)
    requires rs != []
    decreases |rs|, 0
  {
    var b := RecordBytes(h, rs[0]);
    if m < |b| then pos + m == |file| && file[pos..] == b[..m]
    else At(file, pos, b) && HoldsFront(h, file, pos + |b|, rs[1..], m - |b|)
  }

  lemma {:induction false} FrontHolds(h: Hashing, file: Bytes, pos: nat, rs: seq<Record>, m: nat)
    requires pos <= |file| && m <= |RecordsBytes(h, rs)| && file[pos..] == RecordsBytes(h, rs)[..m]
    ensures HoldsFront(h, file, pos, rs, m)
    decreases |rs|
  {
    if rs == [] {
      assert |file[pos..]| == 0;
    } else {
      var b := RecordBytes(h, rs[0]);
      CutFront(file, pos, b, RecordsBytes(h, rs[1..]), m);
      if |b| <= m {
        FrontHolds(h, file, pos + |b|, rs[1..], m - |b|);
      }
      assert HoldsRecord(h, file, pos, rs, m);
    }
  }

  lemma CutFront(file: Bytes, pos: nat, b: Bytes, rest: Bytes, m: nat)
    requires pos <= |file| && m <= |b| + |rest| && file[pos..] == (b + rest)[..m]
    ensures |b| <= m ==> At(file, pos, b) && file[pos + |b|..] == rest[..m - |b|]
    ensures m < |b| ==> file[pos..] == b[..m]
  {
    if |b| <= m {
      assert file[pos..pos + |b|] == file[pos..][..|b|] == b;
      assert file[pos + |b|..] == file[pos..][|b|..];
    } else {
      assert (b + rest)[..m] == b[..m];
    }
  }

  lemma FrontCut(h: Hashing, file: Bytes, pos: nat, rs: seq<Record>, m: nat)
    requires HoldsFront(h, file, pos, rs, m) && rs != []
    ensures |RecordBytes(h, rs[0])| <= m ==>
              At(file, pos, RecordBytes(h, rs[0]))
              && HoldsFront(h, file, pos + |RecordBytes(h, rs[0])|, rs[1..], m - |RecordBytes(h, rs[0])|)
    ensures m < |RecordBytes(h, rs[0])| ==> pos + m == |file| && file[pos..] == RecordBytes(h, rs[0])[..m]
  {
    assert HoldsRecord(h, file, pos, rs, m);
  }

  lemma {:induction false} GoodStep(h: Hashing, file: Bytes, pos: nat, r: Record, next: nat)
    requires pos <= |file| && ReadRecord(h, file, pos) == Good(r, next)
    ensures next <= |file| && ParseLog(h, file, pos) == WithRecord(r, ParseLog(h, file, next))
  {
    assert ParseLog(h, file, pos) == ParseAfter(h, file, pos, Good(r, next));
  }

  lemma {:induction false} LastStep(h: Hashing, file: Bytes, pos: nat, s: Step)
    requires pos <= |file| && ReadRecord(h, file, pos) == s && !s.Good?
    ensures ParseLog(h, file, pos) == if s.End? then Parsed([], 0, pos, false) else Parsed([], s.seen, pos, true)
  {
    assert ParseLog(h, file, pos) == ParseAfter(h, file, pos, s);
  }

  lemma {:induction false} FrontBytes(h: Hashing, rs: seq<Record>, k: nat)
    requires 0 < k <= |rs|
    ensures rs[..k] == [rs[0]] + rs[1..][..k - 1]
    ensures |RecordsBytes(h, rs[..k])| == |RecordBytes(h, rs[0])| + |RecordsBytes(h, rs[1..][..k - 1])|
  {
    assert rs[..k][1..] == rs[1..][..k - 1];
  }

  /** What recovery should make of the first m bytes of rs, standing at pos. */
  function Expected(h: Hashing, rs: seq<Record>, pos: nat, m: nat): Parsed {
    if rs == [] || |RecordBytes(h, rs[0])| > m then Parsed([], 0, pos, m != 0)
    else
      var n := |RecordBytes(h, rs[0])|;
      WithRecord(rs[0], Expected(h, rs[1..], pos + n, m - n))
  }

  lemma ExpectedStep(h: Hashing, rs: seq<Record>, pos: nat, m: nat, n: nat)
    requires rs != [] && n == |RecordBytes(h, rs[0])| <= m
    ensures Expected(h, rs, pos, m) == WithRecord(rs[0], Expected(h, rs[1..], pos + n, m - n))
  {
  }

  /** It is exactly the records that lie wholly in those bytes, up to where they end. */
  lemma {:induction false} ExpectedIs(h: Hashing, rs: seq<Record>, pos: nat, m: nat)
    requires m <= |RecordsBytes(h, rs)|
    ensures var k := Contained(h, rs, m); var p := Expected(h, rs, pos, m);
            && p.records == rs[..k] && p.validBytes == pos + |RecordsBytes(h, rs[..k])|
            && (p.corrupt <==> m != |RecordsBytes(h, rs[..k])|)
  {
    if rs != [] && |RecordBytes(h, rs[0])| <= m {
      var n, k := |RecordBytes(h, rs[0])|, Contained(h, rs, m);
      ExpectedIs(h, rs[1..], pos + n, m - n);
      FrontBytes(h, rs, k);
    }
  }

  /** n is the largest sequence number in rs; 0 if there is none. */
  ghost predicate IsMaxOf(n: nat, rs: seq<Record>) {
    (forall i :: 0 <= i < |rs| ==> rs[i].seqNo <= n) && (n > 0 ==> exists i :: 0 <= i < |rs| && rs[i].seqNo == n)
  }

  lemma MaxOfBoth(a: seq<Record>, m: nat, b: seq<Record>, n: nat)
    requires IsMaxOf(m, a) && IsMaxOf(n, b)
    ensures IsMaxOf(Max(m, n), a + b)
  {
    if m >= n && m > 0 {
      var i :| 0 <= i < |a| && a[i].seqNo == m;
      assert (a + b)[i].seqNo == m;
    } else if n > 0 {
      var i :| 0 <= i < |b| && b[i].seqNo == n;
      assert (a + b)[|a| + i].seqNo == n;
    }
  }

  lemma MaxOfOne(r: Record)
    ensures IsMaxOf(r.seqNo, [r])
  {
    assert [r][0] == r;
  }

  lemma {:induction false} ExpectedMax(h: Hashing, rs: seq<Record>, pos: nat, m: nat)
    ensures IsMaxOf(Expected(h, rs, pos, m).maxSeqNo, rs[..Contained(h, rs, m)])
  {
    if rs != [] && |RecordBytes(h, rs[0])| <= m {
      var n, k := |RecordBytes(h, rs[0])|, Contained(h, rs, m);
      ExpectedMax(h, rs[1..], pos + n, m - n);
      MaxOfOne(rs[0]);
      MaxOfBoth([rs[0]], rs[0].seqNo, rs[1..][..k - 1], Expected(h, rs[1..], pos + n, m - n).maxSeqNo);
      assert rs[..k] == [rs[0]] + rs[1..][..k - 1];
    }
  }

  lemma {:induction false} NothingContained(h: Hashing, file: Bytes, pos: nat, rs: seq<Record>, m: nat)
    requires pos <= |file| && HoldsFront(h, file, pos, rs, m) && AllFit(rs)
             && (rs != [] ==> |RecordBytes(h, rs[0])| > m)
    ensures ParseLog(h, file, pos) == Parsed([], 0, pos, m != 0)
  {
    if rs != [] {
      FrontCut(h, file, pos, rs, m);
    }
    if m == 0 {
      LastStep(h, file, pos, End);
    } else {
      assert RecordFits(rs[0]);
      CutRecordStops(h, file, pos, rs[0]);
      LastStep(h, file, pos, Bad(0));
    }
  }

  /** A whole record at the front is read, and the rest follows. */
  lemma FrontReads(h: Hashing, file: Bytes, pos: nat, rs: seq<Record>, m: nat, n: nat)
    requires pos <= |file| && HoldsFront(h, file, pos, rs, m) && rs != [] && n == |RecordBytes(h, rs[0])| <= m
    requires RecordFits(rs[0]) && Accepted(rs[0])
    ensures pos + n <= |file| && HoldsFront(h, file, pos + n, rs[1..], m - n)
    ensures ParseLog(h, file, pos) == WithRecord(rs[0], ParseLog(h, file, pos + n))
  {
    FrontCut(h, file, pos, rs, m);
    FirstReads(h, file, pos, rs[0], n);
  }

  lemma FirstReads(h: Hashing, file: Bytes, pos: nat, r: Record, n: nat)
    requires pos <= |file| && n == |RecordBytes(h, r)|
    requires RecordFits(r) && Accepted(r) && At(file, pos, RecordBytes(h, r))
    ensures pos + n <= |file| && ParseLog(h, file, pos) == WithRecord(r, ParseLog(h, file, pos + n))
  {
    RecordReads(h, file, pos, r);
    GoodStep(h, file, pos, r, pos + n);
  }

  lemma {:induction false} PrefixParses(h: Hashing, file: Bytes, pos: nat, rs: seq<Record>, m: nat)
    requires pos <= |file| && HoldsFront(h, file, pos, rs, m) && AllFit(rs) && AllAccepted(rs)
    ensures ParseLog(h, file, pos) == Expected(h, rs, pos, m)
    decreases |rs|
  {
    if rs == [] || |RecordBytes(h, rs[0])| > m {
      NothingContained(h, file, pos, rs, m);
    } else {
      var n := |RecordBytes(h, rs[0])|;
      assert RecordFits(rs[0]) && Accepted(rs[0]);
      FrontReads(h, file, pos, rs, m, n);
      PrefixParses(h, file, pos + n, rs[1..], m - n);
      ExpectedStep(h, rs, pos, m, n);
    }
  }

  /** WAL tail recovery: from any byte prefix of a well-formed segment recovery yields exactly
      the records that lie wholly in it, and truncates to where they end. */
  lemma {:induction false} PrefixRecovers(h: Hashing, rs: seq<Record>, n: nat)
    requires AllFit(rs) && AllAccepted(rs) && 8 <= n <= |SegmentBytes(h, rs)|
    ensures var k := Contained(h, rs, n - 8); var p := ParseLog(h, SegmentBytes(h, rs)[..n], 8);
            && p.records == rs[..k] && p.validBytes == |SegmentBytes(h, rs[..k])|
            && (p.corrupt <==> n != |SegmentBytes(h, rs[..k])|)
            && SegmentBytes(h, rs)[..n][..p.validBytes] == SegmentBytes(h, rs[..k])
            && IsMaxOf(p.maxSeqNo, rs[..k])
  {
    var file := SegmentBytes(h, rs)[..n];
    assert file[8..] == RecordsBytes(h, rs)[..n - 8];
    FrontHolds(h, file, 8, rs, n - 8);
    PrefixParses(h, file, 8, rs, n - 8);
    ExpectedIs(h, rs, 8, n - 8);
    PrefixOfSegment(h, rs, n);
    ExpectedMax(h, rs, 8, n - 8);
  }

  lemma {:induction false} PrefixOfSegment(h: Hashing, rs: seq<Record>, n: nat)
    requires 8 <= n <= |SegmentBytes(h, rs)|
    ensures var front := SegmentBytes(h, rs[..Contained(h, rs, n - 8)]);
            |front| <= n && SegmentBytes(h, rs)[..n][..|front|] == front
  {
    ContainedBytes(h, rs, n - 8);
  }

  /** Reading depends only on the bytes up to the end of the record. */
  lemma ReadPrefix(h: Hashing, file: Bytes, pos: nat, n: nat)
    requires pos <= n <= |file| && ReadRecord(h, file, pos).Good? && ReadRecord(h, file, pos).next <= n
    ensures ReadRecord(h, file[..n], pos) == ReadRecord(h, file, pos)
  {
    var len := U32At(file, pos);
    SameNumber(file, n, pos);
    SameNumber(file, n, pos + 4 + len);
    assert file[..n][pos + 4..pos + 4 + len] == file[pos + 4..pos + 4 + len];
  }

  lemma SameNumber(file: Bytes, n: nat, pos: nat)
    requires pos + 4 <= n <= |file|
    ensures U32At(file[..n], pos) == U32At(file, pos)
  {
    Standing32(file, pos);
    assert file[..n][pos..pos + 4] == file[pos..pos + 4];
    Number32(file[..n], pos, U32At(file, pos));
  }

  /** Truncation is idempotent: on any bytes, the truncated segment parses to the same records
      and needs no further truncation. */
  lemma {:induction false} TruncationIsFinal(h: Hashing, file: Bytes, pos: nat)
    requires pos <= |file|
    ensures var p := ParseLog(h, file, pos);
            var q := ParseLog(h, file[..p.validBytes], pos);
            q.records == p.records && q.validBytes == p.validBytes && !q.corrupt
    decreases |file| - pos
  {
    var p := ParseLog(h, file, pos);
    var s := ReadRecord(h, file, pos);
    if s.Good? {
      GoodStep(h, file, pos, s.rec, s.next);
      TruncationIsFinal(h, file, s.next);
      ReadPrefix(h, file, pos, p.validBytes);
      GoodStep(h, file[..p.validBytes], pos, s.rec, s.next);
    } else {
      LastStep(h, file, pos, s);
      LastStep(h, file[..pos], pos, End);
    }
  }

  /** The first record that recovery refuses. */
  function FirstOversize(rs: seq<Record>): (k: nat)
    ensures k <= |rs|
    ensures k == |rs| <==> forall i :: 0 <= i < |rs| ==> Accepted(rs[i])
  {
    if rs == [] || !Accepted(rs[0]) then 0 else 1 + FirstOversize(rs[1..])
  }

  /** What recovery should make of all of rs when some may be too large. */
  function ExpectedAll(h: Hashing, rs: seq<Record>, pos: nat): Parsed {
    if rs == [] then Parsed([], 0, pos, false)
    else if !Accepted(rs[0]) then Parsed([], 0, pos, true)
    else WithRecord(rs[0], ExpectedAll(h, rs[1..], pos + |RecordBytes(h, rs[0])|))
  }

  lemma ConsFront<T>(xs: seq<T>, n: nat)
    requires n < |xs|
    ensures xs[..n + 1] == [xs[0]] + xs[1..][..n]
  {
  }

  lemma {:induction false} ExpectedAllIs(h: Hashing, rs: seq<Record>, pos: nat)
    ensures var p := ExpectedAll(h, rs, pos);
            p.records == rs[..FirstOversize(rs)] && (p.corrupt <==> FirstOversize(rs) < |rs|)
  {
    if rs != [] && Accepted(rs[0]) {
      ExpectedAllIs(h, rs[1..], pos + |RecordBytes(h, rs[0])|);
      ConsFront(rs, FirstOversize(rs[1..]));
    }
  }

  lemma {:induction false} ExpectedAllMax(h: Hashing, rs: seq<Record>, pos: nat)
    ensures IsMaxOf(ExpectedAll(h, rs, pos).maxSeqNo, ExpectedAll(h, rs, pos).records)
  {
    if rs != [] && Accepted(rs[0]) {
      var rest := ExpectedAll(h, rs[1..], pos + |RecordBytes(h, rs[0])|);
      ExpectedAllMax(h, rs[1..], pos + |RecordBytes(h, rs[0])|);
      MaxOfOne(rs[0]);
      MaxOfBoth([rs[0]], rs[0].seqNo, rest.records, rest.maxSeqNo);
    }
  }

  lemma {:induction false} OversizeParses(h: Hashing, file: Bytes, pos: nat, rs: seq<Record>)
    requires pos <= |file| && HoldsFront(h, file, pos, rs, |RecordsBytes(h, rs)|) && rs != []
    requires RecordFits(rs[0]) && !Accepted(rs[0])
    ensures ParseLog(h, file, pos) == Parsed([], 0, pos, true)
  {
    FrontCut(h, file, pos, rs, |RecordsBytes(h, rs)|);
    OversizeStops(h, file, pos, rs[0]);
    LastStep(h, file, pos, Bad(0));
  }

  lemma {:induction false} WholeLog(h: Hashing, file: Bytes, pos: nat, rs: seq<Record>)
    requires pos <= |file| && HoldsFront(h, file, pos, rs, |RecordsBytes(h, rs)|) && AllFit(rs)
    ensures ParseLog(h, file, pos) == ExpectedAll(h, rs, pos)
    decreases |rs|
  {
    if rs == [] {
      LastStep(h, file, pos, End);
    } else {
      assert RecordFits(rs[0]);
      if Accepted(rs[0]) {
        var n := |RecordBytes(h, rs[0])|;
        FrontReads(h, file, pos, rs, |RecordsBytes(h, rs)|, n);
        WholeLog(h, file, pos + n, rs[1..]);
      } else {
        OversizeParses(h, file, pos, rs);
      }
    }
  }

  /** append accepts records that recovery does not: a log comes back whole exactly if no
      payload exceeds the limit. Otherwise the first that does takes all later ones with it. */
  lemma {:induction false} LogReturnsExactly(h: Hashing, rs: seq<Record>)
    requires AllFit(rs)
    ensures ParseLog(h, SegmentBytes(h, rs), 8).records == rs <==> AllAccepted(rs)
    ensures AllAccepted(rs) <==> forall i :: 0 <= i < |rs| ==> 17 + |rs[i].key| + |ValueOf(rs[i])| <= 10_485_760
    ensures ParseLog(h, SegmentBytes(h, rs), 8).records == rs[..FirstOversize(rs)]
  {
    assert SegmentBytes(h, rs)[8..] == RecordsBytes(h, rs);
    assert RecordsBytes(h, rs)[..|RecordsBytes(h, rs)|] == RecordsBytes(h, rs);
    FrontHolds(h, SegmentBytes(h, rs), 8, rs, |RecordsBytes(h, rs)|);
    WholeLog(h, SegmentBytes(h, rs), 8, rs);
    ExpectedAllIs(h, rs, 8);
  }

  // ---- a directory of segments ----------------------------------------------------------------

  datatype SegmentFile = SegmentFile(id: nat, bytes: Bytes)

  /** The files in the order of their names, which for ids below 10^6 is the order of ids. */
  ghost predicate InNameOrder(dir: seq<SegmentFile>) {
    forall i, j :: 0 <= i < j < |dir| ==> dir[i].id < dir[j].id
  }

  predicate HasMagic(file: Bytes) { |file| >= 8 && file[..4] == HEADER[..4] }

  /** What Wal::recover returns, and the directory it leaves. */
  datatype Recovery = Recovery(lastId: nat, maxSeqNo: nat, forceNew: bool, records: seq<Record>, dir: seq<SegmentFile>)

  /** One file: removed without a good header, left alone with another version, else parsed and
      cut back to its valid part. */
  function RecoverFile(h: Hashing, f: SegmentFile, r: Recovery): Recovery {
    var lastId := Max(r.lastId, f.id);
    if !HasMagic(f.bytes) then r.(lastId := lastId, forceNew := true)
    else if f.bytes[4] != HEADER[4] then r.(lastId := lastId, forceNew := true, dir := r.dir + [f])
    else
      var p := ParseLog(h, f.bytes, 8);
      var kept := if p.corrupt then f.bytes[..p.validBytes] else f.bytes;
      Recovery(lastId, Max(r.maxSeqNo, p.maxSeqNo), false, r.records + p.records, r.dir + [SegmentFile(f.id, kept)])
  }

  function RecoverAll(h: Hashing, dir: seq<SegmentFile>): Recovery {
    if dir == [] then Recovery(0, 0, true, [], [])
    else RecoverFile(h, dir[|dir| - 1], RecoverAll(h, dir[..|dir| - 1]))
  }

  /** Wal::recover. */
  method Recover(h: Hashing, dir: seq<SegmentFile>) returns (r: Recovery)
    ensures r == RecoverAll(h, dir)
  {
    var maxSeqNo, lastId, forceNew, records, kept := 0, 0, true, [], [];
    for i := 0 to |dir|
      invariant Recovery(lastId, maxSeqNo, forceNew, records, kept) == RecoverAll(h, dir[..i])
    {
      var f := dir[i];
      assert dir[..i + 1][..i] == dir[..i];
      lastId := Max(lastId, f.id);
      if !HasMagic(f.bytes) {
        forceNew := true;
        continue;
      }
      if f.bytes[4] != HEADER[4] {
        forceNew := true;
        kept := kept + [f];
        continue;
      }
      forceNew := false;
      var p := ParseRecords(h, f.bytes);
      maxSeqNo := Max(maxSeqNo, p.maxSeqNo);
      records := records + p.records;
      kept := kept + [SegmentFile(f.id, if p.corrupt then f.bytes[..p.validBytes] else f.bytes)];
    }
    assert dir[..|dir|] == dir;
    r := Recovery(lastId, maxSeqNo, forceNew, records, kept);
  }

  function AllRecords(logs: seq<seq<Record>>): seq<Record> {
    if logs == [] then [] else AllRecords(logs[..|logs| - 1]) + logs[|logs| - 1]
  }

  ghost predicate GoodLogs(logs: seq<seq<Record>>) {
    forall i :: 0 <= i < |logs| ==> AllFit(logs[i]) && AllAccepted(logs[i])
  }

  /** Segment i holds exactly the records logs[i]. */
  ghost predicate HoldsLogs(h: Hashing, dir: seq<SegmentFile>, logs: seq<seq<Record>>) {
    |dir| == |logs| && forall i :: 0 <= i < |dir| ==> dir[i].bytes == SegmentBytes(h, logs[i])
  }

  lemma {:induction false} WholeSegment(h: Hashing, rs: seq<Record>)
    requires AllFit(rs) && AllAccepted(rs)
    ensures var file := SegmentBytes(h, rs); var p := ParseLog(h, file, 8);
            && HasMagic(file) && file[4] == HEADER[4] && p.records == rs && !p.corrupt
            && IsMaxOf(p.maxSeqNo, rs)
  {
    assert SegmentBytes(h, rs)[..4] == HEADER[..4] && SegmentBytes(h, rs)[4] == HEADER[4];
    LogReturnsExactly(h, rs);
    assert SegmentBytes(h, rs)[8..] == RecordsBytes(h, rs);
    assert RecordsBytes(h, rs)[..|RecordsBytes(h, rs)|] == RecordsBytes(h, rs);
    FrontHolds(h, SegmentBytes(h, rs), 8, rs, |RecordsBytes(h, rs)|);
    WholeLog(h, SegmentBytes(h, rs), 8, rs);
    ExpectedAllIs(h, rs, 8);
    ExpectedAllMax(h, rs, 8);
  }

  lemma WholeFile(h: Hashing, f: SegmentFile, rs: seq<Record>, r: Recovery)
    requires f.bytes == SegmentBytes(h, rs) && AllFit(rs) && AllAccepted(rs)
    ensures var q := RecoverFile(h, f, r);
            && q.records == r.records + rs && q.dir == r.dir + [f] && !q.forceNew && q.lastId == Max(r.lastId, f.id)
            && (IsMaxOf(r.maxSeqNo, r.records) ==> IsMaxOf(q.maxSeqNo, q.records))
  {
    WholeSegment(h, rs);
    if IsMaxOf(r.maxSeqNo, r.records) {
      MaxOfBoth(r.records, r.maxSeqNo, rs, ParseLog(h, f.bytes, 8).maxSeqNo);
    }
  }

  lemma {:induction false} RecoverOneMore(h: Hashing, dir: seq<SegmentFile>, f: SegmentFile)
    ensures RecoverAll(h, dir + [f]) == RecoverFile(h, f, RecoverAll(h, dir))
  {
    assert (dir + [f])[..|dir|] == dir;
  }

  function LastIdOf(dir: seq<SegmentFile>): nat { if dir == [] then 0 else dir[|dir| - 1].id }

  lemma LastSegment(h: Hashing, dir: seq<SegmentFile>, logs: seq<seq<Record>>)
    requires dir != [] && InNameOrder(dir) && GoodLogs(logs) && HoldsLogs(h, dir, logs)
    ensures var n := |dir| - 1;
            && InNameOrder(dir[..n]) && GoodLogs(logs[..n]) && HoldsLogs(h, dir[..n], logs[..n])
            && LastIdOf(dir[..n]) <= dir[n].id
            && dir[n].bytes == SegmentBytes(h, logs[n]) && AllFit(logs[n]) && AllAccepted(logs[n])
  {
  }

  /** The recovery of a whole directory, described. */
  ghost predicate IsWhole(r: Recovery, dir: seq<SegmentFile>, logs: seq<seq<Record>>) {
    && r.records == AllRecords(logs) && r.dir == dir && r.forceNew == (dir == []) && r.lastId == LastIdOf(dir)
    && IsMaxOf(r.maxSeqNo, r.records)
  }

  lemma WholeAndOne(h: Hashing, dir: seq<SegmentFile>, logs: seq<seq<Record>>, f: SegmentFile, rs: seq<Record>,
                    r: Recovery)
    requires IsWhole(r, dir, logs) && LastIdOf(dir) <= f.id
    requires f.bytes == SegmentBytes(h, rs) && AllFit(rs) && AllAccepted(rs)
    ensures IsWhole(RecoverFile(h, f, r), dir + [f], logs + [rs])
  {
    WholeFile(h, f, rs, r);
    LastLog(logs, rs);
  }

  /** A closed directory comes back whole and is left as it was. */
  lemma {:induction false} WholeDirectory(h: Hashing, dir: seq<SegmentFile>, logs: seq<seq<Record>>)
    requires InNameOrder(dir) && GoodLogs(logs) && HoldsLogs(h, dir, logs)
    ensures IsWhole(RecoverAll(h, dir), dir, logs)
  {
    if dir != [] {
      var n := |dir| - 1;
      LastSegment(h, dir, logs);
      WholeDirectory(h, dir[..n], logs[..n]);
      WholeAndOne(h, dir[..n], logs[..n], dir[n], logs[n], RecoverAll(h, dir[..n]));
      assert dir == dir[..n] + [dir[n]] && logs == logs[..n] + [logs[n]];
      RecoverOneMore(h, dir[..n], dir[n]);
    }
  }

  /** A crash cut the last segment to any of its prefixes. The directory comes back with every
      record that is wholly on disk, in order; without a whole header the last file goes and a
      new segment is forced. */
  lemma {:induction false} CutDirectory(h: Hashing, dir: seq<SegmentFile>, logs: seq<seq<Record>>, last: SegmentFile,
                                        rs: seq<Record>, n: nat)
    requires InNameOrder(dir) && LastIdOf(dir) < last.id && GoodLogs(logs) && HoldsLogs(h, dir, logs)
    requires AllFit(rs) && AllAccepted(rs) && n <= |SegmentBytes(h, rs)| && last.bytes == SegmentBytes(h, rs)[..n]
    ensures var r := RecoverAll(h, dir + [last]);
            var k := if n < 8 then 0 else Contained(h, rs, n - 8);
            && r.records == AllRecords(logs) + rs[..k] && r.lastId == last.id && r.forceNew == (n < 8)
            && IsMaxOf(r.maxSeqNo, r.records)
            && r.dir == if n < 8 then dir else dir + [SegmentFile(last.id, SegmentBytes(h, rs[..k]))]
  {
    WholeDirectory(h, dir, logs);
    RecoverOneMore(h, dir, last);
    if n >= 8 {
      CutSegment(h, rs, n);
      var r := RecoverAll(h, dir);
      MaxOfBoth(r.records, r.maxSeqNo, rs[..Contained(h, rs, n - 8)], ParseLog(h, last.bytes, 8).maxSeqNo);
    } else {
      assert AllRecords(logs) + [] == AllRecords(logs);
    }
  }

  lemma {:induction false} CutSegment(h: Hashing, rs: seq<Record>, n: nat)
    requires AllFit(rs) && AllAccepted(rs) && 8 <= n <= |SegmentBytes(h, rs)|
    ensures var file := SegmentBytes(h, rs)[..n]; var p := ParseLog(h, file, 8); var k := Contained(h, rs, n - 8);
            && HasMagic(file) && file[4] == HEADER[4] && p.records == rs[..k] && IsMaxOf(p.maxSeqNo, rs[..k])
            && SegmentBytes(h, rs[..k]) == if p.corrupt then file[..p.validBytes] else file
  {
    var file := SegmentBytes(h, rs)[..n];
    assert file[..4] == HEADER[..4] && file[4] == HEADER[4];
    PrefixRecovers(h, rs, n);
    var p := ParseLog(h, file, 8);
    if !p.corrupt {
      assert file[..p.validBytes] == file;
    }
  }

  // ---- cleanup ------------------------------------------------------------------------------------

  /** The loop of max_seq_no_in_segment: it reads on where recover would stop only for a
      record's inner lengths. */
  function MaxFrom(h: Hashing, file: Bytes, pos: nat): (n: nat)
    requires pos <= |file|
    decreases |file| - pos
  {
    match SkipRecord(h, file, pos)
    case None => 0
    case Some((seqNo, next)) => Max(seqNo, MaxFrom(h, file, next))
  }

  function SkipRecord(h: Hashing, file: Bytes, pos: nat): (r: Option<(nat, nat)>)
    requires pos <= |file|
    ensures r.Some? ==> pos < r.value.1 <= |file|
  {
    if pos + 4 > |file| then None
    else
      var len := U32At(file, pos);
      var checkAt := pos + 4 + len;
      if len > MAX_PAYLOAD || len < 17 || checkAt > |file| || checkAt + 4 > |file| then None
      else
        var payload := file[pos + 4..checkAt];
        if Checksum(h, payload) != U32At(file, checkAt) then None else Some((U64At(payload, 1), checkAt + 4))
  }

  function MaxSeqNoInSegment(h: Hashing, file: Bytes): nat {
    if HasMagic(file) then MaxFrom(h, file, 8) else 0
  }

  method ScanMaxSeqNo(h: Hashing, file: Bytes) returns (n: nat)
    ensures n == MaxSeqNoInSegment(h, file)
  {
    n := 0;
    if !HasMagic(file) {
      return;
    }
    var pos: nat := 8;
    while true
      invariant pos <= |file| && Max(n, MaxFrom(h, file, pos)) == MaxFrom(h, file, 8)
      decreases |file| - pos
    {
      var r := SkipRecord(h, file, pos);
      if r.None? {
        return;
      }
      n := Max(n, r.value.0);
      pos := r.value.1;
    }
  }

  lemma SkipFollows(h: Hashing, file: Bytes, pos: nat)
    requires pos <= |file|
    ensures var s := ReadRecord(h, file, pos);
            && (s.Good? ==> SkipRecord(h, file, pos) == Some((s.rec.seqNo, s.next)))
            && (s.Bad? && s.seen > 0 ==> SkipRecord(h, file, pos).Some? && SkipRecord(h, file, pos).value.0 == s.seen)
  {
  }

  /** Cleanup never underrates a segment: the number it compares with the watermark is at
      least every sequence number recovery sees there, on any bytes. */
  lemma {:induction false} CleanupIsConservative(h: Hashing, file: Bytes, pos: nat)
    requires pos <= |file|
    ensures ParseLog(h, file, pos).maxSeqNo <= MaxFrom(h, file, pos)
    ensures forall i :: 0 <= i < |ParseLog(h, file, pos).records| ==>
              ParseLog(h, file, pos).records[i].seqNo <= MaxFrom(h, file, pos)
    decreases |file| - pos
  {
    SkipFollows(h, file, pos);
    var s := ReadRecord(h, file, pos);
    if s.Good? {
      GoodStep(h, file, pos, s.rec, s.next);
      CleanupIsConservative(h, file, s.next);
    } else {
      LastStep(h, file, pos, s);
    }
  }

  lemma CutRecordSkipsNothing(h: Hashing, file: Bytes, pos: nat, r: Record)
    requires pos < |file| && RecordFits(r) && |file| - pos < |RecordBytes(h, r)|
    requires file[pos..] == RecordBytes(h, r)[..|file| - pos]
    ensures SkipRecord(h, file, pos) == None
  {
    if pos + 4 <= |file| {
      var p := Payload(r);
      assert file[pos..pos + 4] == file[pos..][..4] == RecordBytes(h, r)[..4] == Le32(|p|);
      Number32(file, pos, |p|);
    }
  }

  lemma FrontSkips(h: Hashing, file: Bytes, pos: nat, rs: seq<Record>, m: nat, n: nat)
    requires pos <= |file| && HoldsFront(h, file, pos, rs, m) && rs != [] && n == |RecordBytes(h, rs[0])| <= m
    requires RecordFits(rs[0]) && Accepted(rs[0])
    ensures pos + n <= |file| && HoldsFront(h, file, pos + n, rs[1..], m - n)
    ensures MaxFrom(h, file, pos) == Max(rs[0].seqNo, MaxFrom(h, file, pos + n))
  {
    FrontCut(h, file, pos, rs, m);
    RecordReads(h, file, pos, rs[0]);
    SkipFollows(h, file, pos);
  }

  lemma {:induction false} FrontMax(h: Hashing, file: Bytes, pos: nat, rs: seq<Record>, m: nat)
    requires pos <= |file| && HoldsFront(h, file, pos, rs, m) && AllFit(rs) && AllAccepted(rs)
    ensures MaxFrom(h, file, pos) == Expected(h, rs, pos, m).maxSeqNo
    decreases |rs|
  {
    if rs == [] || |RecordBytes(h, rs[0])| > m {
      NothingThere(h, file, pos, rs, m);
    } else {
      var n := |RecordBytes(h, rs[0])|;
      assert RecordFits(rs[0]) && Accepted(rs[0]);
      FrontSkips(h, file, pos, rs, m, n);
      FrontMax(h, file, pos + n, rs[1..], m - n);
      ExpectedStep(h, rs, pos, m, n);
    }
  }

  lemma {:induction false} NothingThere(h: Hashing, file: Bytes, pos: nat, rs: seq<Record>, m: nat)
    requires pos <= |file| && HoldsFront(h, file, pos, rs, m) && AllFit(rs)
             && (rs != [] ==> |RecordBytes(h, rs[0])| > m)
    ensures MaxFrom(h, file, pos) == 0
  {
    if rs != [] {
      FrontCut(h, file, pos, rs, m);
      assert RecordFits(rs[0]);
      if m > 0 {
        CutRecordSkipsNothing(h, file, pos, rs[0]);
      }
    }
  }

  /** Nor does it overrate one: for a segment, whole or cut short, the number is the largest
      sequence number of the records that are wholly there. */
  lemma {:induction false} CleanupIsExact(h: Hashing, rs: seq<Record>, n: nat)
    requires AllFit(rs) && AllAccepted(rs) && 8 <= n <= |SegmentBytes(h, rs)|
    ensures IsMaxOf(MaxSeqNoInSegment(h, SegmentBytes(h, rs)[..n]), rs[..Contained(h, rs, n - 8)])
  {
    var file := SegmentBytes(h, rs)[..n];
    assert file[..4] == HEADER[..4] && file[8..] == RecordsBytes(h, rs)[..n - 8];
    FrontHolds(h, file, 8, rs, n - 8);
    FrontMax(h, file, 8, rs, n - 8);
    ExpectedMax(h, rs, 8, n - 8);
  }

  /** delete_segments_below_watermark: a file stays if it is current or holds something newer. */
  predicate Stays(h: Hashing, f: SegmentFile, current: nat, watermark: nat) {
    f.id == current || MaxSeqNoInSegment(h, f.bytes) > watermark
  }

  function Staying(h: Hashing, dir: seq<SegmentFile>, current: nat, watermark: nat): (r: seq<SegmentFile>)
    ensures forall f :: f in r <==> f in dir && Stays(h, f, current, watermark)
  {
    if dir == [] then []
    else
      var f, init := dir[|dir| - 1], Staying(h, dir[..|dir| - 1], current, watermark);
      assert dir == dir[..|dir| - 1] + [f];
      if Stays(h, f, current, watermark) then init + [f] else init
  }

  method DeleteSegmentsBelowWatermark(h: Hashing, dir: seq<SegmentFile>, current: nat, watermark: nat)
    returns (kept: seq<SegmentFile>)
    ensures kept == Staying(h, dir, current, watermark)
  {
    kept := [];
    for i := 0 to |dir|
      invariant kept == Staying(h, dir[..i], current, watermark)
    {
      assert dir[..i + 1][..i] == dir[..i];
      if dir[i].id == current {
        kept := kept + [dir[i]];
        continue;
      }
      var n := ScanMaxSeqNo(h, dir[i].bytes);
      if n > watermark {
        kept := kept + [dir[i]];
      }
    }
    assert dir[..|dir|] == dir;
  }

  /** No record above the watermark is ever in a deleted file. */
  lemma {:induction false} CleanupKeepsUnflushed(h: Hashing, dir: seq<SegmentFile>, current: nat, watermark: nat,
                                                 f: SegmentFile, r: Record)
    requires f in dir && HasMagic(f.bytes) && r in ParseLog(h, f.bytes, 8).records && r.seqNo > watermark
    ensures f in Staying(h, dir, current, watermark)
  {
    CleanupIsConservative(h, f.bytes, 8);
  }

  /** A segment goes exactly if it is not the current one and none of its records is above the
      watermark. */
  lemma {:induction false} CleanupExact(h: Hashing, dir: seq<SegmentFile>, current: nat, watermark: nat,
                                        f: SegmentFile, rs: seq<Record>)
    requires f in dir && f.bytes == SegmentBytes(h, rs) && AllFit(rs) && AllAccepted(rs)
    ensures f in Staying(h, dir, current, watermark) <==>
            f.id == current || exists i :: 0 <= i < |rs| && rs[i].seqNo > watermark
  {
    WholeSegment(h, rs);
    CleanupIsConservative(h, f.bytes, 8);
    WholeMax(h, rs);
  }

  lemma {:induction false} WholeMax(h: Hashing, rs: seq<Record>)
    requires AllFit(rs) && AllAccepted(rs)
    ensures IsMaxOf(MaxSeqNoInSegment(h, SegmentBytes(h, rs)), rs)
  {
    var file, n := SegmentBytes(h, rs), |SegmentBytes(h, rs)|;
    CleanupIsExact(h, rs, n);
    PrefixRecovers(h, rs, n);
    WholeSegment(h, rs);
    assert file[..n] == file;
    assert rs[..Contained(h, rs, n - 8)] == rs;
  }

  // ---- Wal ------------------------------------------------------------------------------------------

  /** The logs once the current segment was closed, if it was full. */
  ghost function Rolled(logs: seq<seq<Record>>, full: bool): seq<seq<Record>> {
    if full then logs + [[]] else logs
  }

  /** The logs with one more record in the current segment. */
  ghost function Extended(logs: seq<seq<Record>>, r: Record): seq<seq<Record>> {
    if logs == [] then [[r]] else logs[..|logs| - 1] + [logs[|logs| - 1] + [r]]
  }

  class Wal {
    const h: Hashing
    const rollBytes: nat
    /** Every segment, the current one last, with whatever still sits in the write buffer. */
    var dir: seq<SegmentFile>
    var currentSegmentId: nat
    var currentSizeBytes: nat
    var unsyncedWrites: nat
    /** How much of the current segment is surely on disk. */
    var syncedBytes: nat
    /** The records of each segment. */
    ghost var logs: seq<seq<Record>>

    ghost predicate Valid()
      reads this
    {
      && dir != [] && InNameOrder(dir) && HoldsLogs(h, dir, logs)
      && currentSegmentId == dir[|dir| - 1].id && currentSizeBytes == |dir[|dir| - 1].bytes|
      && syncedBytes <= currentSizeBytes
    }

    /** Wal::new on what recover left behind: go on in the last segment, or start a new one. */
    constructor (hashing: Hashing, r: Recovery, roll: nat, ghost recovered: seq<seq<Record>>)
      requires InNameOrder(r.dir) && HoldsLogs(hashing, r.dir, recovered)
      requires r.dir != [] ==> r.dir[|r.dir| - 1].id <= r.lastId
      requires !r.forceNew ==> r.dir != [] && r.dir[|r.dir| - 1].id == r.lastId
      ensures Valid() && h == hashing && rollBytes == roll && unsyncedWrites == 0
      ensures currentSegmentId == if r.forceNew then r.lastId + 1 else r.lastId
      ensures dir == if r.forceNew then r.dir + [SegmentFile(r.lastId + 1, HEADER)] else r.dir
      ensures AllRecords(logs) == AllRecords(recovered)
    {
      h, rollBytes, unsyncedWrites, syncedBytes := hashing, roll, 0, 0;
      currentSegmentId := if r.forceNew then r.lastId + 1 else r.lastId;
      dir := if r.forceNew then r.dir + [SegmentFile(r.lastId + 1, HEADER)] else r.dir;
      currentSizeBytes := if r.forceNew then 8 else |r.dir[|r.dir| - 1].bytes|;
      logs := if r.forceNew then recovered + [[]] else recovered;
      if r.forceNew {
        EmptySegment(hashing, r.dir, recovered, r.lastId + 1);
      }
    }

    /** roll_segment: the current segment is synced and closed, an empty one follows it. */
    method RollSegment()
      requires Valid()
      modifies this
      ensures Valid() && unsyncedWrites == 0 && syncedBytes == 0
      ensures currentSegmentId == old(currentSegmentId) + 1 && currentSizeBytes == 8
      ensures dir == old(dir) + [SegmentFile(currentSegmentId, HEADER)]
      ensures logs == old(logs) + [[]] && AllRecords(logs) == AllRecords(old(logs))
    {
      EmptySegment(h, dir, logs, currentSegmentId + 1);
      currentSegmentId := currentSegmentId + 1;
      dir := dir + [SegmentFile(currentSegmentId, HEADER)];
      logs := logs + [[]];
      currentSizeBytes, unsyncedWrites, syncedBytes := 8, 0, 0;
    }

    method RollIfFull()
      requires Valid()
      modifies this
      ensures Valid() && AllRecords(logs) == AllRecords(old(logs))
      ensures currentSegmentId == old(currentSegmentId) + (if old(currentSizeBytes) >= rollBytes then 1 else 0)
      ensures logs == Rolled(old(logs), old(currentSizeBytes) >= rollBytes)
      ensures |old(dir)| <= |dir| && forall i :: 0 <= i < |old(dir)| ==> dir[i].id == old(dir)[i].id
      ensures if old(currentSizeBytes) >= rollBytes then unsyncedWrites == 0 && syncedBytes == 0
              else unsyncedWrites == old(unsyncedWrites) && syncedBytes == old(syncedBytes)
    {
      if currentSizeBytes >= rollBytes {
        RollSegment();
      }
    }

    method Append(r: Record, syncEveryN: nat)
      requires Valid()
      modifies this
      ensures Valid()
      ensures AllRecords(logs) == AllRecords(old(logs)) + [r]
      ensures currentSegmentId == old(currentSegmentId) + (if old(currentSizeBytes) >= rollBytes then 1 else 0)
      ensures logs == Extended(Rolled(old(logs), old(currentSizeBytes) >= rollBytes), r)
      ensures |old(dir)| <= |dir| && forall i :: 0 <= i < |old(dir)| ==> dir[i].id == old(dir)[i].id
      ensures var n := if old(currentSizeBytes) >= rollBytes then 1 else old(unsyncedWrites) + 1;
              if n >= syncEveryN then unsyncedWrites == 0 && syncedBytes == currentSizeBytes
              else unsyncedWrites == n
                   && syncedBytes == if old(currentSizeBytes) >= rollBytes then 0 else old(syncedBytes)
    {
      RollIfFull();
      Write(r);
      SyncIfDue(syncEveryN);
    }

    method SyncIfDue(syncEveryN: nat)
      requires Valid()
      modifies this`syncedBytes, this`unsyncedWrites
      ensures Valid()
      ensures if old(unsyncedWrites) >= syncEveryN then unsyncedWrites == 0 && syncedBytes == currentSizeBytes
              else unsyncedWrites == old(unsyncedWrites) && syncedBytes == old(syncedBytes)
    {
      if unsyncedWrites >= syncEveryN {
        syncedBytes := currentSizeBytes;
        unsyncedWrites := 0;
      }
    }

    /** The serialized record, at the end of the current segment. */
    method Write(r: Record)
      requires Valid()
      modifies this`dir, this`logs, this`currentSizeBytes, this`unsyncedWrites
      ensures Valid() && unsyncedWrites == old(unsyncedWrites) + 1
      ensures AllRecords(logs) == AllRecords(old(logs)) + [r]
      ensures logs == Extended(old(logs), r)
      ensures |dir| == |old(dir)| && forall i :: 0 <= i < |dir| ==> dir[i].id == old(dir)[i].id
    {
      var last := dir[|dir| - 1];
      var bytes := RecordBytes(h, r);
      AppendToLast(h, dir, logs, r);
      dir := dir[..|dir| - 1] + [SegmentFile(last.id, last.bytes + bytes)];
      logs := logs[..|logs| - 1] + [logs[|logs| - 1] + [r]];
      currentSizeBytes := currentSizeBytes + |bytes|;
      unsyncedWrites := unsyncedWrites + 1;
    }
  }

  lemma {:induction false} AddEmptyLog(logs: seq<seq<Record>>)
    ensures AllRecords(logs + [[]]) == AllRecords(logs)
  {
    LastLog(logs, []);
  }

  lemma {:induction false} EmptySegment(h: Hashing, dir: seq<SegmentFile>, logs: seq<seq<Record>>, id: nat)
    requires InNameOrder(dir) && HoldsLogs(h, dir, logs) && (dir != [] ==> dir[|dir| - 1].id < id)
    ensures InNameOrder(dir + [SegmentFile(id, HEADER)]) && HoldsLogs(h, dir + [SegmentFile(id, HEADER)], logs + [[]])
    ensures AllRecords(logs + [[]]) == AllRecords(logs)
  {
    AddEmptyLog(logs);
    assert HEADER + [] == HEADER;
    var more := dir + [SegmentFile(id, HEADER)];
    forall i, j | 0 <= i < j < |more| ensures more[i].id < more[j].id {
      if j == |dir| && i < |dir| - 1 {
        assert dir[i].id < dir[|dir| - 1].id;
      }
    }
  }

  lemma {:induction false} RecordsSnoc(h: Hashing, rs: seq<Record>, r: Record)
    ensures RecordsBytes(h, rs + [r]) == RecordsBytes(h, rs) + RecordBytes(h, r)
  {
    if rs == [] {
      assert [r][1..] == [];
      assert RecordsBytes(h, [r]) == RecordBytes(h, r) + [];
    } else {
      assert (rs + [r])[1..] == rs[1..] + [r];
      RecordsSnoc(h, rs[1..], r);
    }
  }

  lemma {:induction false} LastLog(front: seq<seq<Record>>, last: seq<Record>)
    ensures AllRecords(front + [last]) == AllRecords(front) + last
  {
    assert (front + [last])[..|front|] == front;
  }

  lemma {:induction false} LogGrows(front: seq<seq<Record>>, last: seq<Record>, r: Record)
    ensures AllRecords(front + [last + [r]]) == AllRecords(front + [last]) + [r]
  {
    LastLog(front, last);
    LastLog(front, last + [r]);
  }

  lemma AppendToLast(h: Hashing, dir: seq<SegmentFile>, logs: seq<seq<Record>>, r: Record)
    requires dir != [] && InNameOrder(dir) && HoldsLogs(h, dir, logs)
    ensures var n := |dir| - 1;
            var dir' := dir[..n] + [SegmentFile(dir[n].id, dir[n].bytes + RecordBytes(h, r))];
            var logs' := logs[..n] + [logs[n] + [r]];
            InNameOrder(dir') && HoldsLogs(h, dir', logs') && AllRecords(logs') == AllRecords(logs) + [r]
  {
    var n := |dir| - 1;
    LogGrows(logs[..n], logs[n], r);
    assert logs[..n] + [logs[n]] == logs;
    RecordsSnoc(h, logs[n], r);
    assert dir[n].bytes + RecordBytes(h, r) == SegmentBytes(h, logs[n] + [r]);
  }

  /** What was synced survives any crash: a prefix that covers the first j records contains
      them. With a sync after every append that is the whole log. */
  lemma {:induction false} SyncedSurvives(h: Hashing, rs: seq<Record>, j: nat, m: nat)
    requires j <= |rs| && |RecordsBytes(h, rs[..j])| <= m
    ensures j <= Contained(h, rs, m)
    decreases j
  {
    if j > 0 {
      FrontBytes(h, rs, j);
      SyncedSurvives(h, rs[1..], j - 1, m - |RecordBytes(h, rs[0])|);
    }
  }
}
