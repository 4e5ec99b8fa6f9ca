/** Where the recovery guarantees end: exact conditions and concrete losses. */
module Hazards {
  import opened Entries
  import opened Levels
  import opened Engine
  import opened Frames
  import opened Catalog
  import opened Jobs
  import opened EngineView
  import opened Files
  import opened Durable
  import opened Reads
  import opened Recovery
  import opened Reaching
  import opened Cycles

  // ---- the log that startup cleanup leaves -----------------------------------------------------

  ghost predicate NumberedFrom(log: seq<Record>, base: nat) {
    forall i :: 0 <= i < |log| ==> log[i].seqNo == base + i + 1
  }

  lemma {:induction false} NumberedParts(recs: seq<Record>, rest: seq<Record>, base: nat)
    requires NumberedFrom(recs + rest, base)
    ensures NumberedFrom(recs, base) && NumberedFrom(rest, base + |recs|)
    ensures MaxSeqNo(recs) == if recs == [] then 0 else base + |recs|
  {
    forall i | 0 <= i < |recs| ensures recs[i].seqNo == base + i + 1 {
      assert (recs + rest)[i] == recs[i];
    }
    forall i | 0 <= i < |rest| ensures rest[i].seqNo == base + |recs| + i + 1 {
      assert (recs + rest)[|recs| + i] == rest[i];
    }
    if recs != [] {
      var i :| 0 <= i < |recs| && recs[i].seqNo == MaxSeqNo(recs);
    }
  }

  /** Startup cleanup leaves a suffix of the log that lost only records the tables cover. */
  lemma {:induction false} KeptOldSuffix(wal: seq<Segment>, w: nat, base: nat) returns (n: nat)
    requires base <= w && NumberedFrom(LogOf(wal), base)
    ensures n <= |LogOf(wal)| && base + n <= w && LogOf(KeptOld(wal, w)) == LogOf(wal)[n..]
  {
    if wal == [] {
      n := 0;
    } else {
      var recs, rest := wal[0].records, LogOf(wal[1..]);
      LogHead(wal);
      NumberedParts(recs, rest, base);
      if MaxSeqNo(recs) <= w {
        var m := KeptOldSuffix(wal[1..], w, base + |recs|);
        n := |recs| + m;
        assert (recs + rest)[n..] == rest[m..];
      } else {
        KeptOldLog(wal[1..], w);
        LogHead([wal[0]] + KeptOld(wal[1..], w));
        assert ([wal[0]] + KeptOld(wal[1..], w))[1..] == KeptOld(wal[1..], w);
        n := 0;
      }
    }
  }

  lemma KeptSuffix(s: State) returns (n: nat)
    requires HistoryOk(s) && LogOk(s)
    ensures LogBase(s) <= n <= s.manifest.watermark
    ensures LogOf(Kept(s.wal, s.manifest.watermark)) == Accepted(s)[n..]
  {
    LogIsNumbered(s);
    var m := KeptIsSuffix(s.wal, s.manifest.watermark, LogBase(s));
    n := LogBase(s) + m;
    DropDrop(Accepted(s), LogBase(s), m);
  }

  lemma KeptIsSuffix(wal: seq<Segment>, w: nat, base: nat) returns (n: nat)
    requires wal != [] && base <= w && NumberedFrom(LogOf(wal), base)
    ensures n <= |LogOf(wal)| && base + n <= w && LogOf(Kept(wal, w)) == LogOf(wal)[n..]
  {
    var front, last := wal[..|wal| - 1], wal[|wal| - 1];
    NumberedParts(LogOf(front), last.records, base);
    n := KeptOldSuffix(front, w, base);
    LogSnoc(KeptOld(front, w), last);
    DropConcat(LogOf(front), last.records, n);
  }

  lemma DropConcat<T>(a: seq<T>, b: seq<T>, n: nat)
    requires n <= |a|
    ensures (a + b)[n..] == a[n..] + b
  {
  }

  lemma LogIsNumbered(s: State)
    requires HistoryOk(s) && LogOk(s)
    ensures NumberedFrom(LogOf(s.wal), LogBase(s))
  {
    AcceptedNumbered(s);
  }

  // ---- a second crash, after any run --------------------------------------------------------------

  /** What holds in every state after a restart, even one that replayed flushed records. */
  ghost predicate Resumed(s: State) { Good(s) && FilesOk(s) && LogOk(s) }

  /** A flush moves the watermark to a sequence number that was given out. */
  lemma FlushLog(a: Action, s: State)
    requires ViewOk(s) && LogOk(s) && a.PublishFlush? && Enabled(a, s)
    ensures LogOk(Apply(a, s))
  {
    var m := s.immutables[0];
    assert View(s)[|s.immutables|] == m;
    assert GenuineMem(s.hist, m);
    var k :| k in m && m[k].seqNo == a.maxSeqNo;
    assert Genuine(s.hist, k, m[k]);
  }

  lemma LogFrame(s: State, s': State)
    requires LogOk(s) && s'.wal == s.wal && s'.hist == s.hist && InFlight(s') == InFlight(s)
    requires s'.manifest.watermark == s.manifest.watermark
    ensures LogOk(s')
  {
  }

  lemma QuietLog(a: Action, s: State)
    requires LogOk(s) && Enabled(a, s) && !a.LogWrite? && !a.RollSegment? && !a.InsertWrite?
    requires !a.PublishFlush? && !a.DeleteSegment?
    ensures LogOk(Apply(a, s))
  {
    if IsJobAction(a) {
      JobFrame(a, s);
    }
    LogFrame(s, Apply(a, s));
  }

  lemma LogStep(a: Action, s: State)
    requires ViewOk(s) && LogOk(s) && Enabled(a, s)
    ensures LogOk(Apply(a, s))
  {
    if a.LogWrite? || a.RollSegment? || a.InsertWrite? {
      WriterLog(a, s);
    } else if a.PublishFlush? {
      FlushLog(a, s);
    } else if a.DeleteSegment? {
      DeleteSegmentLog(a, s);
    } else {
      QuietLog(a, s);
    }
  }

  lemma ResumedStep(s: State, s': State)
    requires Resumed(s) && Step(s, s')
    ensures Resumed(s')
  {
    var a :| Enabled(a, s) && Benign(a, s) && s' == Apply(a, s);
    CatalogStep(a, s);
    JobsStep(a, s);
    ViewStep(a, s);
    FilesStep(a, s);
    LogStep(a, s);
  }

  lemma {:induction false} RunResumed(run: seq<State>, i: nat)
    requires IsRun(run) && Resumed(run[0]) && i < |run|
    ensures Resumed(run[i])
  {
    if i > 0 {
      RunResumed(run, i - 1);
      ResumedNext(run, i);
    }
  }

  lemma ResumedNext(run: seq<State>, i: nat)
    requires IsRun(run) && 0 < i < |run| && Resumed(run[i - 1])
    ensures Resumed(run[i])
  {
    assert StepAt(run, i);
    ResumedStep(run[i - 1], run[i]);
  }

  lemma ReachesResumed(s: State, t: State)
    requires Reaches(s, t) && Resumed(s)
    ensures Resumed(t)
  {
    var run :| RunBetween(run, s, t);
    RunResumed(run, |run| - 1);
  }

  lemma RestartResumed(s: State, fulls: seq<bool>, kept: map<nat, Mem>, s1: State)
    requires Sound(s) && FullRestart(s, fulls, kept, s1)
    ensures Resumed(s1)
  {
    RestartGood(s, fulls, kept, s1);
    RestartLog(s, fulls, kept, s1);
  }

  lemma RestartLog(s: State, fulls: seq<bool>, kept: map<nat, Mem>, s1: State)
    requires HistoryOk(s) && LogOk(s) && FullRestart(s, fulls, kept, s1)
    ensures LogOk(s1)
  {
    var n := KeptSuffix(s);
    assert Accepted(s1) == Accepted(s) && LogOf(s1.wal) == Accepted(s)[n..];
  }

  function Memtables(s: State): seq<Mem> { [s.active] + Reversed(s.immutables) }

  /** What memory holds for k is also in the log, or in the tables. */
  ghost predicate Backed(s: State, k: Key) {
    FirstHit(Memtables(s), k).Some? ==>
      k in Fold(LogOf(s.wal)) || FirstHit(Memtables(s), k) == FirstHit(Contents(s.sstables), k)
  }

  /** A crash in any state of a run, and a full replay: every key reads right exactly if what
      memory held was backed. While no flushed record was ever replayed that is always so;
      otherwise an old record that was flushed again may stand in front of a newer one. */
  lemma SecondCrashExact(d: State, fulls: seq<bool>, kept: map<nat, Mem>)
    requires Resumed(d) && |fulls| == |LogOf(d.wal)| && CleansOrphans(d, kept)
    requires Complete(ReplayOf(d, fulls), LogOf(d.wal))
    ensures Answers(Accepted(d), View(Restart(d, fulls, kept))) <==> forall k :: Backed(d, k)
  {
    var levels := View(Restart(d, fulls, kept));
    forall k ensures AnswersAt(Accepted(d), levels, k) <==> Backed(d, k) {
      RestartHit(d, fulls, kept, k);
      assert Replayed(d, fulls) == LogOf(d.wal);
      BackedExactly(d, k);
    }
    if forall k :: Backed(d, k) {
      forall k ensures AnswersAt(Accepted(d), levels, k) { assert Backed(d, k); }
    } else {
      var k :| !Backed(d, k);
      assert !AnswersAt(Accepted(d), levels, k);
    }
  }

  lemma {:induction false} BackedExactly(d: State, k: Key)
    requires Good(d) && LogOk(d)
    ensures var log := Fold(LogOf(d.wal));
            (if k in log then Get(log, k) else FirstHit(Contents(d.sstables), k)) == Get(Fold(Accepted(d)), k) <==>
              Backed(d, k)
  {
    var h := Accepted(d);
    assert h[0..|h|] == h && h[LogBase(d)..|h|] == LogOf(d.wal);
    FoldCut(h, 0, LogBase(d), |h|, k);
    assert AnswersAt(d.hist, View(d), k);
    assert View(d) == Memtables(d) + Contents(d.sstables);
    FirstHitConcat(Memtables(d), Contents(d.sstables), k);
    if k !in Fold(LogOf(d.wal)) {
      VisibleFold(d, k);
    }
  }

  /** A key the log does not have was not just being written. */
  lemma {:induction false} VisibleFold(d: State, k: Key)
    requires LogOk(d) && k !in Fold(LogOf(d.wal))
    ensures Get(Fold(Accepted(d)), k) == Get(Fold(d.hist), k)
  {
    if d.writer.Logged? {
      var r := d.writer.rec;
      assert Accepted(d) == d.hist + [r];
      assert Accepted(d)[..|d.hist|] == d.hist && Accepted(d)[|d.hist|] == r;
      assert LogOf(d.wal)[|LogOf(d.wal)| - 1] == r && r.key in Fold(LogOf(d.wal));
    } else {
      assert Accepted(d) == d.hist;
    }
  }

  /** Restart on whatever was left, run on as you like, crash again. */
  lemma SecondCrashAfterRun(s: State, fulls: seq<bool>, kept: map<nat, Mem>, s1: State, d: State,
                            fulls2: seq<bool>, kept2: map<nat, Mem>)
    requires Sound(s) && FullRestart(s, fulls, kept, s1) && Reaches(s1, d)
    requires |fulls2| == |LogOf(d.wal)| && CleansOrphans(d, kept2) && Complete(ReplayOf(d, fulls2), LogOf(d.wal))
    ensures Answers(Accepted(d), View(Restart(d, fulls2, kept2))) <==> forall k :: Backed(d, k)
  {
    RestartResumed(s, fulls, kept, s1);
    ReachesResumed(s1, d);
    SecondCrashExact(d, fulls2, kept2);
  }

  // ---- any number of crashes ------------------------------------------------------------------------

  /** A full restart that keeps every read right, on flushed records or not. */
  lemma ResumedRestart(d: State, fulls: seq<bool>, kept: map<nat, Mem>, s': State)
    requires Resumed(d) && FullRestart(d, fulls, kept, s') && forall k :: Backed(d, k)
    ensures Resumed(s') && s'.hist == Accepted(d)
  {
    SecondCrashExact(d, fulls, kept);
    RestartCatalog(d, fulls, kept, s');
    RestartView(d, fulls, kept, s');
    RestartLog(d, fulls, kept, s');
  }

  /** A step of a run, or a full restart in a state where all that memory held was backed. */
  ghost predicate BackedStep(s: State, s': State) {
    Step(s, s') || exists fulls, kept :: FullRestart(s, fulls, kept, s') && forall k :: Backed(s, k)
  }

  ghost predicate BackedAt(life: seq<State>, i: int)
    requires 0 < i < |life|
  {
    BackedStep(life[i - 1], life[i])
  }

  ghost predicate IsBackedLife(life: seq<State>) {
    |life| > 0 && Init(life[0]) && forall i :: 0 < i < |life| ==> BackedAt(life, i)
  }

  lemma {:induction false} BackedLifeResumed(life: seq<State>, i: nat)
    requires IsBackedLife(life) && i < |life|
    ensures Resumed(life[i])
  {
    if i == 0 {
      InitSound(life[0]);
    } else {
      BackedLifeResumed(life, i - 1);
      assert BackedAt(life, i);
      var s, s' := life[i - 1], life[i];
      if Step(s, s') {
        ResumedStep(s, s');
      } else {
        var fulls, kept :| FullRestart(s, fulls, kept, s') && forall k :: Backed(s, k);
        ResumedRestart(s, fulls, kept, s');
      }
    }
  }

  /** The exact condition for any number of crashes: as long as every crash so far met a state
      where all that memory held was backed, each key reads as the fold of the accepted writes,
      and one more full restart is right if and only if this state is such a one too. */
  lemma BackedLifeExact(life: seq<State>, i: nat, fulls: seq<bool>, kept: map<nat, Mem>)
    requires IsBackedLife(life) && i < |life|
    requires |fulls| == |LogOf(life[i].wal)| && CleansOrphans(life[i], kept)
    requires Complete(ReplayOf(life[i], fulls), LogOf(life[i].wal))
    ensures Answers(life[i].hist, View(life[i]))
    ensures Answers(Accepted(life[i]), View(Restart(life[i], fulls, kept))) <==> forall k :: Backed(life[i], k)
  {
    BackedLifeResumed(life, i);
    SecondCrashExact(life[i], fulls, kept);
  }

  /** In a sound state everything is backed: the lives whose restarts replay only unflushed
      records are all among these. */
  lemma {:induction false} SoundIsBacked(s: State, k: Key)
    requires Sound(s)
    ensures Backed(s, k)
  {
    var h, w := Accepted(s), s.manifest.watermark;
    BackedExactly(s, k);
    SuffixOverTables(h, LogBase(s), w, k);
    assert h[..w] == s.hist[..w];
    assert AnswersAt(s.hist[..w], Contents(s.sstables), k);
  }

  lemma {:induction false} LifeIsBacked(life: seq<State>)
    requires IsLife(life)
    ensures IsBackedLife(life)
  {
    forall i | 0 < i < |life| ensures BackedAt(life, i) {
      assert LifeAt(life, i);
      var s := life[i - 1];
      LifeSound(life, i - 1);
      forall k ensures Backed(s, k) { SoundIsBacked(s, k); }
    }
  }

  // ---- a reached state that loses an acknowledged, flushed write ----------------------------------

  function Fresh(maxImmutables: nat): State {
    State(Config(maxImmutables, 1), Idle, 0, false, false, map[], [], [], Version(1, [], []), 2, 0,
          NoFlush, map[], {}, 0, map[], [], None, Manifest(0, 0, [], 0), map[], [Segment(1, [])], [], [0])
  }

  lemma FreshSound(maxImmutables: nat)
    ensures Init(Fresh(maxImmutables)) && Sound(Fresh(maxImmutables))
  {
    InitSound(Fresh(maxImmutables));
  }

  /** Two writes of k, each rotated and flushed; then the segment was full. */
  function TwiceWritten(k: Key): State {
    var once := Cycled(Fresh(2), k, Some([1]));
    Rolled(Cycled(once, k, Some([2])))
  }

  lemma TwiceReached(k: Key)
    ensures Reaches(Fresh(2), TwiceWritten(k)) && Sound(TwiceWritten(k))
  {
    var a := Cycled(Fresh(2), k, Some([1]));
    var b := Cycled(a, k, Some([2]));
    CycledReaches(Fresh(2), k, Some([1]));
    CycledReaches(a, k, Some([2]));
    RolledReaches(b);
    ReachesOver(Fresh(2), a, b);
    ReachesOver(Fresh(2), b, TwiceWritten(k));
    FreshSound(2);
    ReachesSound(Fresh(2), TwiceWritten(k));
  }

  function First(k: Key): Record { Record(1, k, Some([1])) }

  function Second(k: Key): Record { Record(2, k, Some([2])) }

  /** What a cycle does to the fields that a restart looks at. */
  lemma CycledFields(s: State, k: Key, v: Option<Value>)
    requires Quiet(s) && |s.wal| == 1
    ensures var t, r := Cycled(s, k, v), NextRecord(s, k, v);
            && t.hist == s.hist + [r] && t.wal == [Segment(s.wal[0].id, s.wal[0].records + [r])]
            && t.sstables == [Table(s.nextId, OneKey(r))] + s.sstables && t.nextId == s.nextId + 1
            && t.seqNo == s.seqNo + 1 && t.manifest.watermark == Max(s.manifest.watermark, s.seqNo + 1)
            && t.cfg == s.cfg && t.writer.Idle?
  {
    assert s.wal[..0] == [];
  }

  lemma TwiceFields(k: Key)
    ensures var s := TwiceWritten(k);
            && s.hist == [First(k), Second(k)] && s.wal == [Segment(1, [First(k), Second(k)]), Segment(2, [])]
            && s.manifest.watermark == 2 && s.cfg.maxImmutables == 2 && s.writer.Idle?
            && s.sstables == [Table(1, OneKey(Second(k))), Table(0, OneKey(First(k)))]
  {
    OnceCycled(k);
    TwiceFrom(Cycled(Fresh(2), k, Some([1])), k);
  }

  lemma OnceCycled(k: Key)
    ensures OnceWritten(Cycled(Fresh(2), k, Some([1])), k)
  {
    CycledReaches(Fresh(2), k, Some([1]));
    CycledFields(Fresh(2), k, Some([1]));
  }

  ghost predicate OnceWritten(a: State, k: Key) {
    && Quiet(a) && a.hist == [First(k)] && a.wal == [Segment(1, [First(k)])] && a.seqNo == 1 && a.nextId == 1
    && a.manifest.watermark == 1 && a.cfg.maxImmutables == 2 && a.sstables == [Table(0, OneKey(First(k)))]
  }

  lemma TwiceFrom(a: State, k: Key)
    requires OnceWritten(a, k)
    ensures var s := Rolled(Cycled(a, k, Some([2])));
            && s.hist == [First(k), Second(k)] && s.wal == [Segment(1, [First(k), Second(k)]), Segment(2, [])]
            && s.manifest.watermark == 2 && s.cfg == a.cfg && s.writer.Idle?
            && s.sstables == [Table(1, OneKey(Second(k))), Table(0, OneKey(First(k)))]
  {
    CycledFields(a, k, Some([2]));
    assert [First(k)] + [Second(k)] == [First(k), Second(k)];
  }

  lemma {:induction false} TwoRecordLog(wal: seq<Segment>, r1: Record, r2: Record)
    requires wal == [Segment(1, [r1, r2]), Segment(2, [])] && r1.seqNo == 1 && r2.seqNo == 2
    ensures LogOf(wal) == [r1, r2] && Kept(wal, 2) == [Segment(2, [])]
  {
    LogSnoc([], wal[0]);
    LogSnoc([wal[0]], wal[1]);
    assert [] + [wal[0]] == [wal[0]] && [wal[0]] + [wal[1]] == wal && wal[..1] == [wal[0]];
    NumberedParts([r1, r2], [], 0);
    assert KeptOld([], 2) == [] && [wal[0]][1..] == [];
  }

  lemma {:induction false} EmptyLog(seg: Segment)
    requires seg.records == []
    ensures LogOf([seg]) == []
  {
    LogSnoc([], seg);
    assert [] + [seg] == [seg];
  }

  lemma {:induction false} ReplaySnoc(recs: seq<Record>, fulls: seq<bool>, r: Record, full: bool, max: nat)
    requires |fulls| == |recs|
    ensures Replay(recs + [r], fulls + [full], max) == ReplayOne(Replay(recs, fulls, max), r, full, max)
  {
    assert (recs + [r])[..|recs|] == recs && (fulls + [full])[..|recs|] == fulls;
  }

  lemma {:induction false} TwiceReplay(k: Key)
    ensures var b := Replay([First(k), Second(k)], [true, true], 2);
            b.used == 2 && b.immutables == [OneKey(First(k)), OneKey(Second(k))] && b.active == map[]
  {
    ReplaySnoc([], [], First(k), true, 2);
    assert [] + [First(k)] == [First(k)] && [] + [true] == [true];
    ReplaySnoc([First(k)], [true], Second(k), true, 2);
    assert [First(k)] + [Second(k)] == [First(k), Second(k)] && [true] + [true] == [true, true];
  }

  lemma TwiceRestarted(k: Key) returns (s1: State)
    ensures FullRestart(TwiceWritten(k), [true, true], TwiceWritten(k).files, s1)
    ensures s1.immutables == [OneKey(First(k)), OneKey(Second(k))] && s1.active == map[]
    ensures CanFlush(s1, 1) && s1.wal == [Segment(2, [])]
  {
    var s := TwiceWritten(k);
    TwiceFields(k);
    TwoRecordLog(s.wal, First(k), Second(k));
    TwiceReplay(k);
    s1 := Restart(s, [true, true], s.files);
    assert k in OneKey(First(k)) && OneKey(First(k))[k].seqNo == 1;
  }

  /** The loss, from an empty store on: two writes of k, both flushed; a crash, whose restart
      replays them; a flush of the first replayed memtable; a second crash. Then k reads as its
      first value. */
  lemma SecondCrashLoses(k: Key) returns (s1: State, d: State)
    ensures Init(Fresh(2)) && Reaches(Fresh(2), TwiceWritten(k)) && TwiceWritten(k).hist == [First(k), Second(k)]
    ensures FullRestart(TwiceWritten(k), [true, true], TwiceWritten(k).files, s1) && Reaches(s1, d)
    ensures LogOf(d.wal) == [] && CleansOrphans(d, d.files)
    ensures FirstHit(View(Restart(d, [], d.files)), k) == Some(Cell(1, Some([1])))
  {
    TwiceReached(k);
    TwiceFields(k);
    FreshSound(2);
    s1 := TwiceRestarted(k);
    d := Flushed(s1, 1);
    FlushedReaches(s1, 1);
    EmptyLog(s1.wal[0]);
    RestartResumed(TwiceWritten(k), [true, true], TwiceWritten(k).files, s1);
    ReachesResumed(s1, d);
    RestartHit(d, [], d.files, k);
    assert Replayed(d, []) == [] && Contents(d.sstables)[0] == OneKey(First(k));
  }

  // ---- version epochs over a crash ------------------------------------------------------------------

  /** One write that rotates, then a crash: the version published before it has epoch 2, the one
      that the restart publishes epoch 1. */
  lemma EpochFallsBack(k: Key)
    ensures var s := Rotated(Fresh(2), k, Some([1]));
            && Init(Fresh(2)) && Reaches(Fresh(2), s) && |LogOf(s.wal)| == 1 && CleansOrphans(s, s.files)
            && s.version.epoch == 2 && Restart(s, [true], s.files).version.epoch == 1
  {
    FreshSound(2);
    RotatedReaches(Fresh(2), k, Some([1]));
    OneSegmentLog(Rotated(Fresh(2), k, Some([1])).wal[0]);
  }

  // ---- a replay that breaks off -------------------------------------------------------------------

  /** Four writes of k under a queue of one: three flushed, the last one waiting to be. All four
      are still in the current segment. */
  function FourWritten(k: Key): State {
    var a := Cycled(Fresh(1), k, Some([1]));
    var b := Cycled(a, k, Some([2]));
    Rotated(Cycled(b, k, Some([3])), k, Some([4]))
  }

  lemma FourReached(k: Key)
    ensures Reaches(Fresh(1), FourWritten(k)) && Sound(FourWritten(k))
  {
    var a := Cycled(Fresh(1), k, Some([1]));
    var b := Cycled(a, k, Some([2]));
    var c := Cycled(b, k, Some([3]));
    CycledReaches(Fresh(1), k, Some([1]));
    CycledReaches(a, k, Some([2]));
    CycledReaches(b, k, Some([3]));
    RotatedReaches(c, k, Some([4]));
    ReachesOver(Fresh(1), a, b);
    ReachesOver(Fresh(1), b, c);
    ReachesOver(Fresh(1), c, FourWritten(k));
    FreshSound(1);
    ReachesSound(Fresh(1), FourWritten(k));
  }

  lemma FourFields(k: Key)
    ensures var s := FourWritten(k);
            && |s.hist| == 4 && s.hist[3] == Record(4, k, Some([4])) && s.writer.Idle?
            && s.wal == [Segment(1, s.hist)] && s.manifest.watermark == 3 && s.cfg.maxImmutables == 1
  {
    var a := Cycled(Fresh(1), k, Some([1]));
    assert a.wal == [Segment(1, [First(k)])] && a.hist == [First(k)];
    var b := Cycled(a, k, Some([2]));
    assert b.wal == [Segment(1, [First(k), Second(k)])] && b.hist == [First(k), Second(k)];
    var c := Cycled(b, k, Some([3]));
    assert c.wal == [Segment(1, c.hist)] && c.hist == [First(k), Second(k), Record(3, k, Some([3]))];
    assert c.manifest.watermark == 3;
  }

  lemma {:induction false} OneSegmentLog(seg: Segment)
    ensures LogOf([seg]) == seg.records
  {
    LogSnoc([], seg);
    assert [] + [seg] == [seg];
  }

  lemma {:induction false} FourTrues()
    ensures UsedBy([true, true, true, true], 3) == 3
  {
    assert [true][..0] == [] && [true, true][..1] == [true] && [true, true, true][..2] == [true, true];
    assert [true, true, true, true][..3] == [true, true, true];
    assert Trues([true]) == 1 && Trues([true, true]) == 2 && Trues([true, true, true]) == 3;
    assert UsedBy([true, true, true], 3) == 3;
  }

  /** Replay breaks off after three records, although the log is whole: the fourth write was
      acknowledged, is in no table, and is gone after the restart. */
  lemma ReplayDropsWrite(k: Key)
    ensures var s := FourWritten(k); var fulls := [true, true, true, true];
            && Init(Fresh(1)) && Reaches(Fresh(1), s) && Accepted(s)[3] == Record(4, k, Some([4]))
            && LogOf(s.wal) == Accepted(s) && !Answers(Accepted(s), View(Restart(s, fulls, s.files)))
  {
    var s := FourWritten(k);
    FourReached(k);
    FourFields(k);
    FreshSound(1);
    OneSegmentLog(s.wal[0]);
    FourTrues();
    assert Accepted(s) == s.hist;
    RecoveryExact(s, [true, true, true, true], s.files);
  }
}
