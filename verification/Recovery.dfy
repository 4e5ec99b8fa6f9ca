/** Crash recovery: what LsmEngine::new rebuilds from the disk, over any number of crashes. */
module Recovery {
  import opened Entries
  import opened Levels
  import opened Engine
  import opened Catalog
  import opened Jobs
  import opened EngineView
  import opened Files
  import opened Durable
  import opened Reads

  /** All that holds in every reachable state. */
  ghost predicate Sound(s: State) { Good(s) && FilesOk(s) && DurableOk(s) }

  lemma SoundStep(s: State, s': State)
    requires Sound(s) && Step(s, s')
    ensures Sound(s')
  {
    var a :| Enabled(a, s) && Benign(a, s) && s' == Apply(a, s);
    CatalogStep(a, s);
    JobsStep(a, s);
    ViewStep(a, s);
    FilesStep(a, s);
    DurableStep(a, s);
  }

  // ---- replay -----------------------------------------------------------------------------

  ghost predicate PieceOk(b: Rebuilt, recs: seq<Record>, i: int) {
    0 <= i < |b.immutables| ==>
      i + 1 < |b.starts| && b.starts[i] < b.starts[i + 1] <= |recs|
      && b.immutables[i] == Fold(recs[b.starts[i]..b.starts[i + 1]])
  }

  /** The memtables replay has built hold consecutive stretches of the records it used. */
  ghost predicate RebuiltOk(b: Rebuilt, recs: seq<Record>, max: nat) {
    && b.used <= |recs| && (!b.blocked ==> b.used == |recs|)
    && |b.starts| == |b.immutables| + 1 && b.starts[0] == 0
    && (forall i :: 0 <= i < |b.immutables| ==> PieceOk(b, recs, i))
    && b.starts[|b.immutables|] <= b.used
    && b.active == Fold(recs[b.starts[|b.immutables|]..b.used])
    && |b.immutables| <= max && (b.blocked ==> |b.immutables| >= max)
  }

  lemma {:induction false} ReplayBuilds(recs: seq<Record>, fulls: seq<bool>, max: nat)
    requires |fulls| == |recs|
    ensures RebuiltOk(Replay(recs, fulls, max), recs, max)
  {
    if recs != [] {
      var n := |recs| - 1;
      ReplayBuilds(recs[..n], fulls[..n], max);
      ReplayOneBuilds(Replay(recs[..n], fulls[..n], max), recs, fulls[n], max);
    }
  }

  lemma ReplayOneBuilds(b: Rebuilt, recs: seq<Record>, full: bool, max: nat)
    requires recs != [] && RebuiltOk(b, recs[..|recs| - 1], max)
    ensures RebuiltOk(ReplayOne(b, recs[|recs| - 1], full, max), recs, max)
  {
    var n := |recs| - 1;
    var b' := ReplayOne(b, recs[n], full, max);
    var last := b.starts[|b.immutables|];
    assert recs == recs[..n] + [recs[n]];
    forall i | 0 <= i < |b.immutables| ensures PieceOk(b', recs, i) {
      assert PieceOk(b, recs[..n], i);
      SameSlice(recs[..n], recs, b.starts[i], b.starts[i + 1]);
    }
    if b.blocked {
      SameSlice(recs[..n], recs, last, b.used);
    } else {
      FoldOneMore(recs, last);
    }
  }

  lemma FoldOneMore(recs: seq<Record>, a: nat)
    requires recs != [] && a < |recs|
    ensures var n := |recs| - 1;
            Fold(recs[a..]) == Fold(recs[..n][a..n])[recs[n].key := Cell(recs[n].seqNo, recs[n].value)]
            && recs[a..] == recs[a..n + 1]
  {
    var n := |recs| - 1;
    assert recs[a..][..n - a] == recs[..n][a..n];
  }

  ghost predicate IsPiece(recs: seq<Record>, m: Mem, a: nat, b: nat) {
    a <= b <= |recs| && m == Fold(recs[a..b])
  }

  ghost predicate ArePieces(recs: seq<Record>, ms: seq<Mem>, starts: seq<nat>) {
    |starts| == |ms| + 1 && starts[0] <= |recs| && forall i :: 0 <= i < |ms| ==>
      IsPiece(recs, ms[i], starts[i], starts[i + 1])
  }

  /** Memtables over consecutive stretches answer like the whole stretch. */
  lemma {:induction false} PiecesAnswer(recs: seq<Record>, ms: seq<Mem>, starts: seq<nat>, k: Key)
    requires ArePieces(recs, ms, starts)
    ensures starts[0] <= starts[|ms|] <= |recs|
    ensures FirstHit(Reversed(ms), k) == Get(Fold(recs[starts[0]..starts[|ms|]]), k)
  {
    if ms == [] {
      assert recs[starts[0]..starts[0]] == [];
    } else {
      var n := |ms| - 1;
      PiecesAnswer(recs, ms[..n], starts[..n + 1], k);
      assert IsPiece(recs, ms[n], starts[n], starts[n + 1]);
      assert Reversed(ms) == [ms[n]] + Reversed(ms[..n]);
      FoldCut(recs, starts[0], starts[n], starts[n + 1], k);
    }
  }

  /** A replay answers like the records it used. */
  lemma {:induction false} RebuiltAnswers(b: Rebuilt, recs: seq<Record>, max: nat, k: Key)
    requires RebuiltOk(b, recs, max)
    ensures FirstHit([b.active] + Reversed(b.immutables), k) == Get(Fold(recs[..b.used]), k)
  {
    var n := |b.immutables|;
    forall i | 0 <= i < n ensures IsPiece(recs, b.immutables[i], b.starts[i], b.starts[i + 1]) {
      assert PieceOk(b, recs, i);
    }
    PiecesAnswer(recs, b.immutables, b.starts, k);
    FoldCut(recs, 0, b.starts[n], b.used, k);
    assert recs[0..b.used] == recs[..b.used];
    assert ([b.active] + Reversed(b.immutables))[1..] == Reversed(b.immutables);
  }

  /** How often the memtable was full. */
  function Trues(fulls: seq<bool>): nat {
    if fulls == [] then 0 else Trues(fulls[..|fulls| - 1]) + (if fulls[|fulls| - 1] then 1 else 0)
  }

  /** How many records replay gets to before a memtable is full for the m-th time, that one
      included; all of them if that does not happen. */
  function UsedBy(fulls: seq<bool>, m: nat): (n: nat)
    ensures n <= |fulls|
  {
    if fulls == [] then 0
    else if Trues(fulls[..|fulls| - 1]) >= m then UsedBy(fulls[..|fulls| - 1], m)
    else |fulls|
  }

  /** Replay blocks, and ignores the rest, when a memtable is full for the (max + 2)-th time:
      max of them fill the queue, one spends the grace, the next one blocks. */
  lemma {:induction false} ReplayStops(recs: seq<Record>, fulls: seq<bool>, max: nat)
    requires |fulls| == |recs|
    ensures var b := Replay(recs, fulls, max); var t := Trues(fulls);
            && b.used == UsedBy(fulls, max + 2) && (b.blocked <==> t >= max + 2)
            && |b.immutables| == (if t < max then t else max) && (t <= max ==> !b.grace) && (t > max ==> b.grace)
  {
    if recs != [] {
      var n := |recs| - 1;
      ReplayStops(recs[..n], fulls[..n], max);
    }
  }

  /** Replay gets to the end exactly when, before the last record, no more memtables were full
      than the queue and the grace period can take. */
  lemma {:induction false} CompleteExactly(recs: seq<Record>, fulls: seq<bool>, max: nat)
    requires |fulls| == |recs| && recs != []
    ensures Complete(Replay(recs, fulls, max), recs) <==> Trues(fulls[..|fulls| - 1]) <= max + 1
  {
    ReplayStops(recs, fulls, max);
    var n := |recs| - 1;
    if Trues(fulls[..n]) >= max + 2 {
      assert UsedBy(fulls[..n], max + 2) <= n;
    }
  }

  // ---- one crash --------------------------------------------------------------------------

  function ReplayOf(s: State, fulls: seq<bool>): Rebuilt
    requires |fulls| == |LogOf(s.wal)|
  {
    Replay(LogOf(s.wal), fulls, s.cfg.maxImmutables)
  }

  lemma ReopenedTables(s: State, kept: map<nat, Mem>)
    requires FilesOk(s) && CatalogOk(s) && CleansOrphans(s, kept)
    ensures OpenTables(s.manifest.tables, kept) == s.sstables
  {
    FilesOutliveReferences(s);
    forall i | 0 <= i < |s.sstables| ensures OpenTables(s.manifest.tables, kept)[i] == s.sstables[i] {
      assert s.manifest.tables[i] in s.manifest.tables;
    }
  }

  /** The records that replay got to. */
  function Replayed(s: State, fulls: seq<bool>): seq<Record>
    requires |fulls| == |LogOf(s.wal)|
  {
    LogOf(s.wal)[..Min(ReplayOf(s, fulls).used, |LogOf(s.wal)|)]
  }

  /** What a restart answers for k: the replayed records, over the catalogued tables. */
  lemma {:induction false} RestartHit(s: State, fulls: seq<bool>, kept: map<nat, Mem>, k: Key)
    requires Good(s) && FilesOk(s) && |fulls| == |LogOf(s.wal)| && CleansOrphans(s, kept)
    ensures var recs := Replayed(s, fulls);
            FirstHit(View(Restart(s, fulls, kept)), k) ==
            if k in Fold(recs) then Get(Fold(recs), k) else FirstHit(Contents(s.sstables), k)
  {
    var b := ReplayOf(s, fulls);
    ReplayBuilds(LogOf(s.wal), fulls, s.cfg.maxImmutables);
    RebuiltAnswers(b, LogOf(s.wal), s.cfg.maxImmutables, k);
    ReopenedTables(s, kept);
    assert View(Restart(s, fulls, kept)) == [b.active] + Reversed(b.immutables) + Contents(s.sstables);
    FirstHitConcat([b.active] + Reversed(b.immutables), Contents(s.sstables), k);
  }

  /** The replayed records, over the fold of everything flushed. */
  function RecoveredAnswer(s: State, fulls: seq<bool>, k: Key): Option<Cell>
    requires |fulls| == |LogOf(s.wal)| && s.manifest.watermark <= |s.hist|
  {
    var recs := Fold(Replayed(s, fulls));
    if k in recs then Get(recs, k) else Get(Fold(s.hist[..s.manifest.watermark]), k)
  }

  lemma {:induction false} RecoveredHit(s: State, fulls: seq<bool>, kept: map<nat, Mem>, k: Key)
    requires Sound(s) && |fulls| == |LogOf(s.wal)| && CleansOrphans(s, kept)
    ensures FirstHit(View(Restart(s, fulls, kept)), k) == RecoveredAnswer(s, fulls, k)
  {
    RestartHit(s, fulls, kept, k);
    assert AnswersAt(s.hist[..s.manifest.watermark], Contents(s.sstables), k);
  }

  function Min(a: nat, b: nat): nat { if a < b then a else b }

  /** A log suffix over tables that cover everything the suffix lacks. */
  lemma {:induction false} SuffixOverTables(h: seq<Record>, base: nat, w: nat, k: Key)
    requires base <= w <= |h|
    ensures Get(Fold(h), k) == if k in Fold(h[base..]) then Get(Fold(h[base..]), k) else Get(Fold(h[..w]), k)
  {
    var n := |h|;
    assert h[0..n] == h && h[base..n] == h[base..] && h[0..w] == h[..w];
    FoldCut(h, 0, base, n, k);
    FoldCut(h, 0, base, w, k);
    FoldCut(h, base, w, n, k);
  }

  /** Crash recovery: cut a run anywhere, replay the log to the end, and every key reads as
      the fold of the acknowledged writes plus the one that was in flight. */
  lemma CrashRecovery(s: State, fulls: seq<bool>, kept: map<nat, Mem>)
    requires Sound(s) && |fulls| == |LogOf(s.wal)| && CleansOrphans(s, kept)
    requires Complete(ReplayOf(s, fulls), LogOf(s.wal))
    ensures Answers(Accepted(s), View(Restart(s, fulls, kept)))
  {
    var h, w := Accepted(s), s.manifest.watermark;
    assert Replayed(s, fulls) == LogOf(s.wal);
    assert h[..w] == s.hist[..w];
    forall k ensures AnswersAt(h, View(Restart(s, fulls, kept)), k) {
      RecoveredHit(s, fulls, kept, k);
      SuffixOverTables(h, LogBase(s), w, k);
    }
  }

  /** No key has a record both among the first u and among the rest. */
  ghost predicate KeysApart(log: seq<Record>, u: nat) {
    forall i: nat, j: nat :: i < u <= j < |log| ==> log[i].key != log[j].key
  }

  /** Recovery is right exactly when replay gets to the end of the log, or everything was
      flushed and no key is both in the part that was replayed and in the part that was
      dropped: a replayed record would hide the newer one in the tables. */
  lemma {:induction false} RecoveryExact(s: State, fulls: seq<bool>, kept: map<nat, Mem>)
    requires Sound(s) && |fulls| == |LogOf(s.wal)| && CleansOrphans(s, kept)
    ensures var u := UsedBy(fulls, s.cfg.maxImmutables + 2);
            Answers(Accepted(s), View(Restart(s, fulls, kept))) <==>
            u == |LogOf(s.wal)| || (s.manifest.watermark == |Accepted(s)| && KeysApart(LogOf(s.wal), u))
  {
    var u, log := UsedBy(fulls, s.cfg.maxImmutables + 2), LogOf(s.wal);
    if u == |log| || (s.manifest.watermark == |Accepted(s)| && KeysApart(log, u)) {
      RecoveryHolds(s, fulls, kept, u);
    } else {
      RecoveryFails(s, fulls, kept, u);
    }
  }

  lemma {:induction false} RecoveryHolds(s: State, fulls: seq<bool>, kept: map<nat, Mem>, u: nat)
    requires Sound(s) && |fulls| == |LogOf(s.wal)|
    requires CleansOrphans(s, kept) && u == UsedBy(fulls, s.cfg.maxImmutables + 2)
    requires u == |LogOf(s.wal)| || (s.manifest.watermark == |Accepted(s)| && KeysApart(LogOf(s.wal), u))
    ensures Answers(Accepted(s), View(Restart(s, fulls, kept)))
  {
    ReplayStops(LogOf(s.wal), fulls, s.cfg.maxImmutables);
    if u == |LogOf(s.wal)| {
      CrashRecovery(s, fulls, kept);
    } else {
      ApartRecovers(s, fulls, kept, u);
    }
  }

  lemma {:induction false} RecoveryFails(s: State, fulls: seq<bool>, kept: map<nat, Mem>, u: nat)
    requires Sound(s) && |fulls| == |LogOf(s.wal)|
    requires CleansOrphans(s, kept) && u == UsedBy(fulls, s.cfg.maxImmutables + 2)
    requires u < |LogOf(s.wal)| && (s.manifest.watermark < |Accepted(s)| || !KeysApart(LogOf(s.wal), u))
    ensures !Answers(Accepted(s), View(Restart(s, fulls, kept)))
  {
    ReplayStops(LogOf(s.wal), fulls, s.cfg.maxImmutables);
    if s.manifest.watermark < |Accepted(s)| {
      LostWrite(s, fulls, kept);
    } else {
      HiddenLoses(s, fulls, kept, u);
    }
  }

  lemma ApartRecovers(s: State, fulls: seq<bool>, kept: map<nat, Mem>, u: nat)
    requires Sound(s) && |fulls| == |LogOf(s.wal)| && CleansOrphans(s, kept)
    requires u == ReplayOf(s, fulls).used < |LogOf(s.wal)| && s.manifest.watermark == |Accepted(s)|
    requires KeysApart(LogOf(s.wal), u)
    ensures Answers(Accepted(s), View(Restart(s, fulls, kept)))
  {
    forall k ensures AnswersAt(Accepted(s), View(Restart(s, fulls, kept)), k) {
      RecoveredHit(s, fulls, kept, k);
      ApartAnswers(s, fulls, u, k);
    }
  }

  lemma HiddenLoses(s: State, fulls: seq<bool>, kept: map<nat, Mem>, u: nat)
    requires Sound(s) && |fulls| == |LogOf(s.wal)| && CleansOrphans(s, kept)
    requires u == ReplayOf(s, fulls).used && !KeysApart(LogOf(s.wal), u)
    ensures !Answers(Accepted(s), View(Restart(s, fulls, kept)))
  {
    var log := LogOf(s.wal);
    var i: nat, j: nat :| i < u <= j < |log| && log[i].key == log[j].key;
    RecoveredHit(s, fulls, kept, log[j].key);
    HiddenWrite(s, fulls, u, i, j);
    assert !AnswersAt(Accepted(s), View(Restart(s, fulls, kept)), log[j].key);
  }

  /** The dropped records are all in tables, and nothing replayed hides them. */
  lemma {:induction false} ApartAnswers(s: State, fulls: seq<bool>, u: nat, k: Key)
    requires HistoryOk(s) && LogOk(s) && |fulls| == |LogOf(s.wal)| && u == ReplayOf(s, fulls).used < |LogOf(s.wal)|
    requires s.manifest.watermark == |Accepted(s)| && KeysApart(LogOf(s.wal), u)
    ensures RecoveredAnswer(s, fulls, k) == Get(Fold(Accepted(s)), k)
  {
    ReplayedPart(s, fulls);
    assert Accepted(s)[..|Accepted(s)|] == Accepted(s);
    ApartFold(Accepted(s), LogBase(s), LogBase(s) + u, LogOf(s.wal), k);
  }

  lemma {:induction false} ApartFold(h: seq<Record>, base: nat, end: nat, log: seq<Record>, k: Key)
    requires base <= end <= |h| && log == h[base..] && KeysApart(log, end - base)
    ensures k in Fold(h[base..end]) ==> Get(Fold(h), k) == Get(Fold(h[base..end]), k)
  {
    if k in Fold(h[base..end]) {
      if k in Fold(h[end..]) {
        SharedKey(h, base, end, log, k);
      }
      assert h[0..|h|] == h && h[end..|h|] == h[end..];
      FoldCut(h, 0, end, |h|, k);
      FoldCut(h, 0, base, end, k);
    }
  }

  lemma SharedKey(h: seq<Record>, base: nat, end: nat, log: seq<Record>, k: Key)
    requires base <= end <= |h| && log == h[base..] && k in Fold(h[base..end]) && k in Fold(h[end..])
    ensures !KeysApart(log, end - base)
  {
    var i := KeyWritten(h[base..end], k);
    var j := KeyWritten(h[end..], k);
    assert log[i] == h[base..end][i] && log[end - base + j] == h[end..][j];
  }

  lemma {:induction false} KeyWritten(h: seq<Record>, k: Key) returns (i: nat)
    requires k in Fold(h)
    ensures i < |h| && h[i].key == k
  {
    var n := |h| - 1;
    if h[n].key == k {
      i := n;
    } else {
      i := KeyWritten(h[..n], k);
    }
  }

  /** A replayed record hides the newer one, which only the tables have. */
  lemma {:induction false} HiddenWrite(s: State, fulls: seq<bool>, u: nat, i: nat, j: nat)
    requires HistoryOk(s) && LogOk(s) && |fulls| == |LogOf(s.wal)| && u == ReplayOf(s, fulls).used
    requires i < u <= j < |LogOf(s.wal)| && LogOf(s.wal)[i].key == LogOf(s.wal)[j].key
    ensures var k := LogOf(s.wal)[j].key; RecoveredAnswer(s, fulls, k) != Get(Fold(Accepted(s)), k)
  {
    AcceptedNumbered(s);
    ReplayedPart(s, fulls);
    HiddenInLog(Accepted(s), LogBase(s), LogOf(s.wal), u, i, j);
  }

  lemma {:induction false} HiddenInLog(h: seq<Record>, base: nat, log: seq<Record>, u: nat, i: nat, j: nat)
    requires Numbered(h) && base <= |h| && log == h[base..] && i < u <= j < |log| && log[i].key == log[j].key
    ensures var k, seen := log[j].key, Fold(h[base..base + u]); k in seen && Get(seen, k) != Get(Fold(h), k)
  {
    SuffixKeys(h, base, i);
    SuffixKeys(h, base, j);
    HiddenFold(h, base, base + u, base + i, base + j);
  }

  lemma SuffixKeys<T>(h: seq<T>, base: nat, i: nat)
    requires base + i < |h|
    ensures h[base..][i] == h[base + i]
  {
  }

  lemma {:induction false} HiddenFold(h: seq<Record>, base: nat, end: nat, i: nat, j: nat)
    requires Numbered(h) && base <= i < end <= j < |h| && h[i].key == h[j].key
    ensures var k := h[j].key; k in Fold(h[base..end]) && Get(Fold(h[base..end]), k) != Get(Fold(h), k)
  {
    var k := h[j].key;
    FoldRange(h, base, end);
    FoldRange(h, 0, |h|);
    assert h[0..|h|] == h;
  }

  /** A replay that breaks off loses the newest write. */
  lemma LostWrite(s: State, fulls: seq<bool>, kept: map<nat, Mem>)
    requires Sound(s) && |fulls| == |LogOf(s.wal)| && CleansOrphans(s, kept)
    requires s.manifest.watermark < |Accepted(s)| && ReplayOf(s, fulls).used < |LogOf(s.wal)|
    ensures !AnswersAt(Accepted(s), View(Restart(s, fulls, kept)), Accepted(s)[|Accepted(s)| - 1].key)
  {
    RecoveredHit(s, fulls, kept, Accepted(s)[|Accepted(s)| - 1].key);
    LostAnswer(s, fulls);
  }

  lemma LostAnswer(s: State, fulls: seq<bool>)
    requires HistoryOk(s) && LogOk(s) && |fulls| == |LogOf(s.wal)|
    requires s.manifest.watermark < |Accepted(s)| && ReplayOf(s, fulls).used < |LogOf(s.wal)|
    ensures var k := Accepted(s)[|Accepted(s)| - 1].key; RecoveredAnswer(s, fulls, k) != Get(Fold(Accepted(s)), k)
  {
    AcceptedNumbered(s);
    ReplayedPart(s, fulls);
    NewestLost(Accepted(s), LogBase(s), LogBase(s) + ReplayOf(s, fulls).used, s.manifest.watermark);
  }

  lemma ReplayedPart(s: State, fulls: seq<bool>)
    requires HistoryOk(s) && LogOk(s) && |fulls| == |LogOf(s.wal)| && ReplayOf(s, fulls).used < |LogOf(s.wal)|
    ensures s.hist[..s.manifest.watermark] == Accepted(s)[..s.manifest.watermark]
    ensures Replayed(s, fulls) == Accepted(s)[LogBase(s)..LogBase(s) + ReplayOf(s, fulls).used]
  {
    FrontOfPair(s.hist, InFlight(s), s.manifest.watermark);
    FrontOfSuffix(Accepted(s), LogBase(s), ReplayOf(s, fulls).used);
  }

  lemma FrontOfPair<T>(a: seq<T>, b: seq<T>, n: nat)
    requires n <= |a|
    ensures (a + b)[..n] == a[..n]
  {
  }

  lemma FrontOfSuffix<T>(h: seq<T>, base: nat, n: nat)
    requires base + n <= |h|
    ensures h[base..][..n] == h[base..base + n]
  {
  }

  /** Neither a log that ends too early nor the tables hold the newest write. */
  lemma {:induction false} NewestLost(h: seq<Record>, base: nat, end: nat, w: nat)
    requires Numbered(h) && w < |h| && base <= end < |h|
    ensures var k, log := h[|h| - 1].key, Fold(h[base..end]);
            Get(Fold(h), k) != if k in log then Get(log, k) else Get(Fold(h[..w]), k)
  {
    var k := h[|h| - 1].key;
    NewestOfFold(h);
    if k in Fold(h[base..end]) {
      FoldBound(h, base, end, k);
    } else if k in Fold(h[..w]) {
      assert h[..w] == h[0..w];
      FoldBound(h, 0, w, k);
    }
  }

  lemma {:induction false} NewestOfFold(h: seq<Record>)
    requires Numbered(h) && h != []
    ensures Get(Fold(h), h[|h| - 1].key) == Some(Cell(|h|, h[|h| - 1].value))
  {
    assert h[0..|h|] == h;
    FoldRange(h, 0, |h|);
  }

  /** Sequence numbers go on from the history exactly when some record survives in the log,
      or nothing was ever written: recovery reads them from the log alone. */
  lemma SequenceNumbersResume(s: State, fulls: seq<bool>, kept: map<nat, Mem>)
    requires HistoryOk(s) && LogOk(s) && |fulls| == |LogOf(s.wal)| && CleansOrphans(s, kept)
    ensures Restart(s, fulls, kept).seqNo == |Accepted(s)| <==> (LogOf(s.wal) != [] || Accepted(s) == [])
  {
    var recs := LogOf(s.wal);
    if recs != [] {
      LogNumbers(s, |recs| - 1);
      var n := MaxSeqNo(recs);
      var i :| 0 <= i < |recs| && recs[i].seqNo == n;
      LogNumbers(s, i);
    }
  }

  // ---- many crashes -----------------------------------------------------------------------

  /** A restart that replays its whole log and finds a record to resume numbering from. */
  ghost predicate FullRestart(s: State, fulls: seq<bool>, kept: map<nat, Mem>, s': State) {
    && |fulls| == |LogOf(s.wal)| && CleansOrphans(s, kept)
    && s' == Restart(s, fulls, kept)
    && Complete(ReplayOf(s, fulls), LogOf(s.wal))
    && (LogOf(s.wal) != [] || Accepted(s) == [])
  }

  /** No replayed record is at or below the watermark. */
  ghost predicate ReplaysOnlyUnflushed(s: State) {
    forall i :: 0 <= i < |LogOf(s.wal)| ==> LogOf(s.wal)[i].seqNo > s.manifest.watermark
  }

  /** Any restart, whatever the replay gets to. */
  lemma RestartCatalog(s: State, fulls: seq<bool>, kept: map<nat, Mem>, s': State)
    requires CatalogOk(s) && FilesOk(s) && |fulls| == |LogOf(s.wal)| && CleansOrphans(s, kept)
    requires s' == Restart(s, fulls, kept)
    ensures CatalogOk(s') && JobsOk(s') && FilesOk(s')
  {
    ReopenedTables(s, kept);
    assert SlotHolders(s'.jobs) == {};
    FilesOutliveReferences(s);
    forall t | t in s'.sstables ensures Readable(s', t) {
      var i :| 0 <= i < |s.sstables| && s.sstables[i] == t;
      assert s.manifest.tables[i] == t.id && t.id in s.manifest.tables;
    }
  }

  lemma RestartView(s: State, fulls: seq<bool>, kept: map<nat, Mem>, s': State)
    requires Good(s) && FilesOk(s) && LogOk(s) && FullRestart(s, fulls, kept, s') && Answers(Accepted(s), View(s'))
    ensures ViewOk(s')
  {
    SequenceNumbersResume(s, fulls, kept);
    AcceptedNumbered(s);
    RestartGenuine(s, fulls, kept, s');
  }

  lemma RestartGenuine(s: State, fulls: seq<bool>, kept: map<nat, Mem>, s': State)
    requires Good(s) && FilesOk(s) && LogOk(s) && FullRestart(s, fulls, kept, s')
    ensures GenuineLevels(s'.hist, View(s'))
  {
    var b := ReplayOf(s, fulls);
    RebuiltMemsGenuine(s, fulls);
    ReopenedTables(s, kept);
    LiveGenuine(s);
    GenuineConcat(Accepted(s), [b.active] + Reversed(b.immutables), Contents(s.sstables));
    assert View(s') == [b.active] + Reversed(b.immutables) + Contents(s.sstables);
  }

  lemma RebuiltMemsGenuine(s: State, fulls: seq<bool>)
    requires HistoryOk(s) && LogOk(s) && |fulls| == |LogOf(s.wal)|
    ensures var b := ReplayOf(s, fulls); GenuineLevels(Accepted(s), [b.active] + Reversed(b.immutables))
  {
    var b, recs, max := ReplayOf(s, fulls), LogOf(s.wal), s.cfg.maxImmutables;
    AcceptedNumbered(s);
    ReplayBuilds(recs, fulls, max);
    RebuiltGenuine(b, recs, max, Accepted(s), LogBase(s));
  }

  lemma GenuineConcat(h: seq<Record>, a: seq<Mem>, b: seq<Mem>)
    requires GenuineLevels(h, a) && GenuineLevels(h, b)
    ensures GenuineLevels(h, a + b)
  {
    forall i | 0 <= i < |a + b| ensures GenuineMem(h, (a + b)[i]) {
      assert (a + b)[i] == if i < |a| then a[i] else b[i - |a|];
    }
  }

  lemma RebuiltGenuine(b: Rebuilt, recs: seq<Record>, max: nat, h: seq<Record>, base: nat)
    requires RebuiltOk(b, recs, max) && Numbered(h) && base <= |h| && recs == h[base..]
    ensures GenuineLevels(h, [b.active] + Reversed(b.immutables))
  {
    var n := |b.immutables|;
    StretchGenuine(h, base, recs, b.starts[n], b.used);
    forall i | 0 <= i < n ensures GenuineMem(h, Reversed(b.immutables)[i]) {
      assert PieceOk(b, recs, n - 1 - i);
      StretchGenuine(h, base, recs, b.starts[n - 1 - i], b.starts[n - i]);
    }
    GenuineConcat(h, [b.active], Reversed(b.immutables));
  }

  lemma TablesGenuine(s: State)
    requires DurableOk(s)
    ensures GenuineLevels(Accepted(s), Contents(s.sstables))
  {
    var h, w := Accepted(s), s.manifest.watermark;
    GenuineExtends(s.hist[..w], h[w..], Contents(s.sstables));
    assert s.hist[..w] + h[w..] == h;
  }

  lemma LiveGenuine(s: State)
    requires HistoryOk(s)
    ensures GenuineLevels(Accepted(s), Contents(s.sstables))
  {
    var n := 1 + |s.immutables|;
    forall i | 0 <= i < |s.sstables| ensures GenuineMem(s.hist, Contents(s.sstables)[i]) {
      assert View(s)[n + i] == Contents(s.sstables)[i];
    }
    GenuineExtends(s.hist, InFlight(s), Contents(s.sstables));
  }

  lemma StretchGenuine(h: seq<Record>, base: nat, recs: seq<Record>, a: nat, b: nat)
    requires Numbered(h) && base <= |h| && recs == h[base..] && a <= b <= |recs|
    ensures GenuineMem(h, Fold(recs[a..b]))
  {
    assert recs[a..b] == h[base + a..base + b];
    FoldRange(h, base + a, base + b);
  }

  /** After any full restart the store is again the map of everything accepted, so the run
      theorems hold for what follows. */
  lemma RestartGood(s: State, fulls: seq<bool>, kept: map<nat, Mem>, s': State)
    requires Sound(s) && FullRestart(s, fulls, kept, s')
    ensures Good(s') && FilesOk(s') && s'.hist == Accepted(s)
  {
    CrashRecovery(s, fulls, kept);
    RestartCatalog(s, fulls, kept, s');
    RestartView(s, fulls, kept, s');
  }

  lemma {:induction false} FirstSegmentIsNew(wal: seq<Segment>, w: nat)
    requires wal != [] && wal[0].records != []
    requires forall i :: 0 <= i < |LogOf(wal)| ==> LogOf(wal)[i].seqNo > w
    ensures MaxSeqNo(wal[0].records) > w
  {
    LogConcat(wal[..1], wal[1..]);
    assert wal == wal[..1] + wal[1..];
    LogUpTo(wal, 0);
    assert LogOf(wal)[0] == wal[0].records[0];
  }

  lemma {:induction false} KeptOldLog(wal: seq<Segment>, w: nat)
    requires forall i :: 0 <= i < |LogOf(wal)| ==> LogOf(wal)[i].seqNo > w
    ensures LogOf(KeptOld(wal, w)) == LogOf(wal)
  {
    if wal != [] {
      LogConcat(wal[..1], wal[1..]);
      assert wal == wal[..1] + wal[1..];
      LogUpTo(wal, 0);
      var rest := LogOf(wal[1..]);
      forall i | 0 <= i < |rest| ensures rest[i].seqNo > w {
        assert LogOf(wal)[|wal[0].records| + i] == rest[i];
      }
      KeptOldLog(wal[1..], w);
      if wal[0].records != [] {
        FirstSegmentIsNew(wal, w);
      }
      if MaxSeqNo(wal[0].records) > w {
        LogConcat([wal[0]], KeptOld(wal[1..], w));
        assert wal[..1] == [wal[0]];
      }
    }
  }

  /** Startup cleanup drops only empty segments when every record is above the watermark. */
  lemma {:induction false} KeptLog(wal: seq<Segment>, w: nat)
    requires wal != [] && forall i :: 0 <= i < |LogOf(wal)| ==> LogOf(wal)[i].seqNo > w
    ensures Kept(wal, w) != [] && LogOf(Kept(wal, w)) == LogOf(wal)
  {
    var n := |wal| - 1;
    forall i | 0 <= i < |LogOf(wal[..n])| ensures LogOf(wal[..n])[i].seqNo > w {
      assert LogOf(wal)[i] == LogOf(wal[..n])[i];
    }
    KeptOldLog(wal[..n], w);
    assert Kept(wal, w)[..|Kept(wal, w)| - 1] == KeptOld(wal[..n], w);
  }

  lemma BaseIsWatermark(s: State)
    requires Sound(s) && ReplaysOnlyUnflushed(s)
    ensures LogBase(s) == s.manifest.watermark
  {
    if LogOf(s.wal) != [] {
      LogNumbers(s, 0);
    }
  }

  lemma RestartMemtables(s: State, fulls: seq<bool>, kept: map<nat, Mem>, s': State)
    requires Sound(s) && FullRestart(s, fulls, kept, s') && LogBase(s) == s.manifest.watermark
    ensures MemtablesOk(s')
  {
    var w, b := s.manifest.watermark, ReplayOf(s, fulls);
    ReplayBuilds(LogOf(s.wal), fulls, s.cfg.maxImmutables);
    assert s'.starts == Shifted(b.starts, w);
    RestartedMemtables(b, LogOf(s.wal), s.cfg.maxImmutables, w, s');
  }

  /** Rebuilt memtables, moved to where the log begins in the history. */
  lemma RestartedMemtables(b: Rebuilt, recs: seq<Record>, max: nat, w: nat, s': State)
    requires RebuiltOk(b, recs, max) && b.used == |recs|
    requires w <= |s'.hist| && recs == s'.hist[w..] && s'.manifest.watermark == w && s'.writer.Idle?
    requires s'.immutables == b.immutables && s'.active == b.active && s'.starts == Shifted(b.starts, w)
    ensures MemtablesOk(s')
  {
    forall i | 0 <= i < |s'.immutables| ensures StretchOk(s', i) {
      assert PieceOk(b, recs, i);
      DropSlice(s'.hist, w, b.starts[i], b.starts[i + 1]);
    }
    DropSlice(s'.hist, w, b.starts[|b.immutables|], b.used);
    assert s'.hist[w + b.starts[|b.immutables|]..|s'.hist|] == s'.hist[w + b.starts[|b.immutables|]..];
  }

  lemma DropSlice<T>(h: seq<T>, w: nat, a: nat, b: nat)
    requires a <= b && w + b <= |h|
    ensures h[w..][a..b] == h[w + a..w + b]
  {
  }

  lemma RestartDurable(s: State, fulls: seq<bool>, kept: map<nat, Mem>, s': State)
    requires Sound(s) && FullRestart(s, fulls, kept, s') && ReplaysOnlyUnflushed(s)
    ensures DurableOk(s')
  {
    BaseIsWatermark(s);
    RestartKeepsLog(s, fulls, kept, s');
    RestartMemtables(s, fulls, kept, s');
    ReopenedTables(s, kept);
    TablesFrame(s, s');
  }

  lemma RestartKeepsLog(s: State, fulls: seq<bool>, kept: map<nat, Mem>, s': State)
    requires LogOk(s) && FullRestart(s, fulls, kept, s') && ReplaysOnlyUnflushed(s)
    ensures LogOk(s')
  {
    KeptLog(s.wal, s.manifest.watermark);
  }

  /** One step of the store's life: a step of a run, or a crash and a clean restart. */
  ghost predicate LifeStep(s: State, s': State) {
    Step(s, s') || exists fulls, kept :: FullRestart(s, fulls, kept, s') && ReplaysOnlyUnflushed(s)
  }

  ghost predicate LifeAt(life: seq<State>, i: int)
    requires 0 < i < |life|
  {
    LifeStep(life[i - 1], life[i])
  }

  ghost predicate IsLife(life: seq<State>) {
    |life| > 0 && Init(life[0]) && forall i :: 0 < i < |life| ==> LifeAt(life, i)
  }

  lemma InitSound(s: State)
    requires Init(s)
    ensures Sound(s)
  {
    InitGood(s);
    assert LogOf(s.wal) == [] by { assert LogOf([]) == []; }
    assert s.hist[..0] == [];
    forall k ensures AnswersAt([], Contents(s.sstables), k) {}
  }

  /** Every state of every life, with any number of crashes, is sound. */
  lemma {:induction false} LifeSound(life: seq<State>, i: nat)
    requires IsLife(life) && i < |life|
    ensures Sound(life[i])
  {
    if i == 0 {
      InitSound(life[0]);
    } else {
      LifeSound(life, i - 1);
      assert LifeAt(life, i);
      var s, s' := life[i - 1], life[i];
      if Step(s, s') {
        SoundStep(s, s');
      } else {
        var fulls, kept :| FullRestart(s, fulls, kept, s') && ReplaysOnlyUnflushed(s);
        RestartGood(s, fulls, kept, s');
        RestartDurable(s, fulls, kept, s');
      }
    }
  }

  /** The durability theorem: from the empty store, through any number of clean restarts,
      each key always reads as the fold of the accepted writes, and one more crash at that
      point loses none of them. */
  lemma LifeKeepsEveryWrite(life: seq<State>, i: nat, fulls: seq<bool>, kept: map<nat, Mem>)
    requires IsLife(life) && i < |life|
    requires |fulls| == |LogOf(life[i].wal)| && CleansOrphans(life[i], kept)
    requires Complete(ReplayOf(life[i], fulls), LogOf(life[i].wal))
    ensures Answers(life[i].hist, View(life[i]))
    ensures Answers(Accepted(life[i]), View(Restart(life[i], fulls, kept)))
  {
    LifeSound(life, i);
    CrashRecovery(life[i], fulls, kept);
  }
}
