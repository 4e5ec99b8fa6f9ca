/** What the disk guarantees: the watermark, the retained log, and recovery after a crash. */
module Durable {
  import opened Entries
  import opened Levels
  import opened Engine
  import opened Frames
  import opened Catalog
  import opened Jobs
  import opened EngineView

  /** Everything that reached the log: the visible history and the write in flight. */
  function Accepted(s: State): seq<Record> { s.hist + InFlight(s) }

  /** How much of the history's front the log has lost to cleanup. */
  function LogBase(s: State): int { |Accepted(s)| - |LogOf(s.wal)| }

  /** The log is a suffix of the history, and what it lost is at or below the watermark. */
  ghost predicate LogOk(s: State) {
    && s.wal != []
    && 0 <= LogBase(s) <= s.manifest.watermark <= |s.hist|
    && LogOf(s.wal) == Accepted(s)[LogBase(s)..]
  }

  ghost predicate StretchOk(s: State, i: int) {
    0 <= i < |s.immutables| ==>
      i + 1 < |s.starts| && s.starts[i] < s.starts[i + 1] <= |s.hist|
      && s.immutables[i] == Fold(s.hist[s.starts[i]..s.starts[i + 1]])
  }

  /** The memtables hold consecutive stretches of the history, from the watermark on. */
  ghost predicate MemtablesOk(s: State) {
    && |s.starts| == |s.immutables| + 1
    && s.starts[0] == s.manifest.watermark
    && (forall i :: 0 <= i < |s.immutables| ==> StretchOk(s, i))
    && var last := s.starts[|s.immutables|];
       && last <= |s.hist|
       && (if Rotating(s) then last == |s.hist| else s.active == Fold(s.hist[last..]))
       && (s.writer.Inserted? || s.writer.Counted? ==> last < |s.hist|)
  }

  /** The tables answer like the history up to the watermark, and hold nothing newer. */
  ghost predicate TablesOk(s: State) {
    s.manifest.watermark <= |s.hist| &&
    var h := s.hist[..s.manifest.watermark];
    Answers(h, Contents(s.sstables)) && GenuineLevels(h, Contents(s.sstables))
  }

  ghost predicate DurableOk(s: State) { LogOk(s) && MemtablesOk(s) && TablesOk(s) }

  // ---- log ------------------------------------------------------------------------------

  lemma {:induction false} LogConcat(a: seq<Segment>, b: seq<Segment>)
    ensures LogOf(a + b) == LogOf(a) + LogOf(b)
  {
    if b == [] {
      assert a + b == a;
    } else {
      assert (a + b)[..|a + b| - 1] == a + b[..|b| - 1];
      LogConcat(a, b[..|b| - 1]);
    }
  }

  lemma {:induction false} LogSnoc(wal: seq<Segment>, seg: Segment)
    ensures LogOf(wal + [seg]) == LogOf(wal) + seg.records
  {
    assert (wal + [seg])[..|wal|] == wal;
  }

  lemma {:induction false} LogHead(wal: seq<Segment>)
    requires wal != []
    ensures LogOf(wal) == wal[0].records + LogOf(wal[1..])
  {
    assert wal == [wal[0]] + wal[1..];
    LogConcat([wal[0]], wal[1..]);
    LogSnoc([], wal[0]);
    assert [] + [wal[0]] == [wal[0]];
  }

  lemma LogUpTo(wal: seq<Segment>, i: nat)
    requires i < |wal|
    ensures LogOf(wal[..i + 1]) == LogOf(wal[..i]) + wal[i].records
  {
    assert wal[..i + 1][..i] == wal[..i];
  }

  lemma {:induction false} LogSplit(wal: seq<Segment>, i: nat)
    requires i < |wal|
    ensures LogOf(wal) == LogOf(wal[..i]) + wal[i].records + LogOf(wal[i + 1..])
  {
    LogUpTo(wal, i);
    var x, y := wal[..i + 1], wal[i + 1..];
    assert x + y == wal;
    LogConcat(x, y);
  }

  lemma {:induction false} AppendLog(wal: seq<Segment>, r: Record)
    requires wal != []
    ensures LogOf(LogRecord(wal, r)) == LogOf(wal) + [r]
  {
    var n := |wal| - 1;
    assert LogRecord(wal, r)[..n] == wal[..n];
  }

  lemma AcceptedNumbered(s: State)
    requires HistoryOk(s)
    ensures Numbered(Accepted(s))
  {
  }

  lemma LogNumbers(s: State, i: nat)
    requires HistoryOk(s) && LogOk(s) && i < |LogOf(s.wal)|
    ensures LogOf(s.wal)[i].seqNo == LogBase(s) + i + 1
  {
    AcceptedNumbered(s);
  }

  /** Cleanup only ever takes a prefix of the history that the tables cover. */
  lemma DeleteSegmentLog(a: Action, s: State)
    requires HistoryOk(s) && LogOk(s) && a.DeleteSegment? && Enabled(a, s)
    ensures LogOk(Apply(a, s))
  {
    var s' := Apply(a, s);
    LogWithout(s.wal, a.i);
    if a.i > 0 {
      LateSegmentEmpty(s, a.i);
      LogShrinks(s, s', 0);
    } else {
      FirstSegmentCovered(s);
      LogShrinks(s, s', |s.wal[0].records|);
    }
  }

  lemma DropDrop<T>(xs: seq<T>, a: nat, b: nat)
    requires a + b <= |xs|
    ensures xs[a..][b..] == xs[a + b..]
  {
  }

  lemma LogShrinks(s: State, s': State, n: nat)
    requires LogOk(s) && s'.hist == s.hist && InFlight(s') == InFlight(s) && s'.manifest == s.manifest && s'.wal != []
    requires n <= |LogOf(s.wal)| && LogOf(s'.wal) == LogOf(s.wal)[n..] && LogBase(s) + n <= s.manifest.watermark
    ensures LogOk(s')
  {
    DropDrop(Accepted(s), LogBase(s), n);
  }

  lemma {:induction false} LogWithout(wal: seq<Segment>, i: nat)
    requires i < |wal|
    ensures wal[i].records == [] ==> LogOf(wal[..i] + wal[i + 1..]) == LogOf(wal)
    ensures |wal[i].records| <= |LogOf(wal)|
    ensures i == 0 ==> LogOf(wal[..i] + wal[i + 1..]) == LogOf(wal)[|wal[i].records|..]
  {
    LogSplit(wal, i);
    LogConcat(wal[..i], wal[i + 1..]);
  }

  lemma FirstSegmentCovered(s: State)
    requires HistoryOk(s) && LogOk(s) && MaxSeqNo(s.wal[0].records) <= s.manifest.watermark
    ensures LogBase(s) + |s.wal[0].records| <= s.manifest.watermark
  {
    var recs := s.wal[0].records;
    LogSplit(s.wal, 0);
    if recs != [] {
      LogNumbers(s, |recs| - 1);
      assert LogOf(s.wal)[|recs| - 1] == recs[|recs| - 1];
    }
  }

  /** A deletable segment behind one that must stay has no records. */
  lemma LateSegmentEmpty(s: State, i: nat)
    requires HistoryOk(s) && LogOk(s) && 0 < i < |s.wal|
    requires MaxSeqNo(s.wal[i].records) <= s.manifest.watermark < MaxSeqNo(s.wal[0].records)
    ensures s.wal[i].records == []
  {
    LogSplit(s.wal, i);
    LogSplit(s.wal[..i], 0);
    var first := s.wal[0].records;
    var x :| 0 <= x < |first| && first[x].seqNo == MaxSeqNo(first);
    assert LogOf(s.wal)[x] == first[x];
    LogNumbers(s, x);
    if s.wal[i].records != [] {
      var y := |LogOf(s.wal[..i])|;
      assert LogOf(s.wal)[y] == s.wal[i].records[0];
      LogNumbers(s, y);
    }
  }

  // ---- steps ----------------------------------------------------------------------------

  lemma TablesFrame(s: State, s': State)
    requires TablesOk(s) && s'.sstables == s.sstables && s'.manifest.watermark == s.manifest.watermark
    requires |s.hist| <= |s'.hist| && s'.hist[..|s.hist|] == s.hist
    ensures TablesOk(s')
  {
    assert s'.hist[..s.manifest.watermark] == s.hist[..s.manifest.watermark];
  }

  lemma StretchFrame(s: State, s': State, i: nat)
    requires StretchOk(s, i) && i < |s.immutables| && i + 1 < |s.starts|
    requires i < |s'.immutables| && s'.immutables[i] == s.immutables[i]
    requires i + 1 < |s'.starts| && s'.starts[i] == s.starts[i] && s'.starts[i + 1] == s.starts[i + 1]
    requires |s.hist| <= |s'.hist| && s'.hist[..|s.hist|] == s.hist
    ensures StretchOk(s', i)
  {
    SameSlice(s.hist, s'.hist, s.starts[i], s.starts[i + 1]);
  }

  lemma SameSlice<T>(xs: seq<T>, ys: seq<T>, a: nat, b: nat)
    requires a <= b <= |xs| <= |ys| && ys[..|xs|] == xs
    ensures ys[a..b] == xs[a..b]
  {
    assert ys == xs + ys[|xs|..];
  }

  lemma WriterLog(a: Action, s: State)
    requires HistoryOk(s) && LogOk(s) && (a.LogWrite? || a.RollSegment? || a.InsertWrite?) && Enabled(a, s)
    ensures LogOk(Apply(a, s))
  {
    if a.LogWrite? {
      AppendLog(s.wal, Record(s.seqNo + 1, a.key, a.value));
    } else if a.RollSegment? {
      LogConcat(s.wal, [Segment(s.wal[|s.wal| - 1].id + 1, [])]);
    } else {
      assert Accepted(Apply(a, s)) == Accepted(s);
    }
  }

  lemma WriterDurable(a: Action, s: State)
    requires ViewOk(s) && DurableOk(s) && (a.LogWrite? || a.RollSegment?) && Enabled(a, s)
    ensures DurableOk(Apply(a, s))
  {
    WriterLog(a, s);
    OtherFrame(a, s);
    MemtablesFrame(s, Apply(a, s));
    TablesFrame(s, Apply(a, s));
  }

  lemma MemtablesFrame(s: State, s': State)
    requires MemtablesOk(s) && s'.immutables == s.immutables && s'.starts == s.starts && s'.hist == s.hist
    requires s'.active == s.active && s'.manifest.watermark == s.manifest.watermark && Rotating(s) == Rotating(s')
    requires s'.writer.Inserted? || s'.writer.Counted? ==> s.writer.Inserted? || s.writer.Counted?
    ensures MemtablesOk(s')
  {
    forall i | 0 <= i < |s'.immutables| ensures StretchOk(s', i) {
      assert StretchOk(s, i);
    }
  }

  lemma InsertDurable(a: Action, s: State)
    requires ViewOk(s) && DurableOk(s) && a.InsertWrite? && Enabled(a, s)
    ensures DurableOk(Apply(a, s))
  {
    assert Accepted(Apply(a, s)) == Accepted(s);
    InsertMemtables(a, s);
    TablesFrame(s, Apply(a, s));
  }

  lemma InsertMemtables(a: Action, s: State)
    requires ViewOk(s) && DurableOk(s) && a.InsertWrite? && Enabled(a, s)
    ensures MemtablesOk(Apply(a, s))
  {
    var s' := Apply(a, s);
    forall i | 0 <= i < |s'.immutables| ensures StretchOk(s', i) {
      assert StretchOk(s, i);
      StretchFrame(s, s', i);
    }
    FoldTail(s.hist, s.writer.rec, s.starts[|s.immutables|]);
  }

  /** One more record in the last stretch. */
  lemma {:induction false} FoldTail(h: seq<Record>, r: Record, last: nat)
    requires last <= |h|
    ensures Fold((h + [r])[last..]) == Fold(h[last..])[r.key := Cell(r.seqNo, r.value)]
  {
    assert (h + [r])[last..] == h[last..] + [r];
    assert (h[last..] + [r])[..|h| - last] == h[last..];
  }

  lemma FreezeDurable(a: Action, s: State)
    requires ViewOk(s) && DurableOk(s) && a.Freeze? && Enabled(a, s)
    ensures DurableOk(Apply(a, s))
  {
    var s' := Apply(a, s);
    var last := s.starts[|s.immutables|];
    assert s.hist[last..|s.hist|] == s.hist[last..];
    forall i | 0 <= i < |s'.immutables| ensures StretchOk(s', i) {
      if i < |s.immutables| {
        assert StretchOk(s, i);
        StretchFrame(s, s', i);
      }
    }
  }

  lemma SwapDurable(a: Action, s: State)
    requires ViewOk(s) && DurableOk(s) && a.SwapActive? && Enabled(a, s)
    ensures DurableOk(Apply(a, s))
  {
    var s' := Apply(a, s);
    forall i | 0 <= i < |s'.immutables| ensures StretchOk(s', i) {
      assert StretchOk(s, i);
      StretchFrame(s, s', i);
    }
  }

  /** The watermark a flush reports is exactly the end of the flushed memtable's stretch. */
  lemma WatermarkIsEnd(s: State, n: nat)
    requires ViewOk(s) && DurableOk(s) && s.immutables != [] && IsMaxSeqNo(s.immutables[0], n)
    ensures n == s.starts[1]
  {
    assert StretchOk(s, 0);
    FoldRange(s.hist, s.starts[0], s.starts[1]);
    var m := s.immutables[0];
    var k :| k in m && m[k].seqNo == n;
    assert s.hist[s.starts[1] - 1].key in m;
  }

  lemma PublishFlushDurable(a: Action, s: State)
    requires ViewOk(s) && DurableOk(s) && a.PublishFlush? && Enabled(a, s)
    ensures DurableOk(Apply(a, s))
  {
    var s' := Apply(a, s);
    WatermarkIsEnd(s, a.maxSeqNo);
    assert StretchOk(s, 0);
    FlushMemtables(s, s');
    assert Accepted(s') == Accepted(s) && LogBase(s') == LogBase(s);
    assert Contents(s'.sstables) == [s.immutables[0]] + Contents(s.sstables);
    FlushTables(s.hist, s.manifest.watermark, s.starts[1], Contents(s.sstables));
  }

  lemma FlushMemtables(s: State, s': State)
    requires MemtablesOk(s) && s.immutables != [] && s'.immutables == s.immutables[1..] && s'.starts == s.starts[1..]
    requires s'.hist == s.hist && s'.active == s.active && s'.writer == s.writer && s'.manifest.watermark == s.starts[1]
    ensures MemtablesOk(s')
  {
    forall i | 0 <= i < |s'.immutables| ensures StretchOk(s', i) {
      assert StretchOk(s, i + 1);
    }
  }

  /** Putting the next stretch in front of the tables moves what they answer to its end. */
  lemma FlushTables(h: seq<Record>, w: nat, w': nat, ts: seq<Mem>)
    requires Numbered(h) && w <= w' <= |h| && Answers(h[..w], ts) && GenuineLevels(h[..w], ts)
    ensures Answers(h[..w'], [Fold(h[w..w'])] + ts) && GenuineLevels(h[..w'], [Fold(h[w..w'])] + ts)
  {
    var m := Fold(h[w..w']);
    assert h[..w'] == h[..w] + h[w..w'];
    forall k ensures AnswersAt(h[..w'], [m] + ts, k) {
      assert AnswersAt(h[..w], ts, k);
      assert ([m] + ts)[1..] == ts;
      FoldConcat(h[..w], h[w..w'], k);
    }
    GenuineExtends(h[..w], h[w..w'], ts);
    assert h[..w'][w..w'] == h[w..w'];
    FoldRange(h[..w'], w, w');
    forall i | 0 <= i < |[m] + ts| ensures GenuineMem(h[..w'], ([m] + ts)[i]) {
      assert i > 0 ==> GenuineMem(h[..w'], ts[i - 1]);
    }
  }

  lemma PublishJobDurable(a: Action, s: State)
    requires ViewOk(s) && CatalogOk(s) && JobsOk(s) && DurableOk(s) && a.PublishJob? && Enabled(a, s) && Benign(a, s)
    ensures DurableOk(Apply(a, s))
  {
    OutputIsMerge(s, a.j);
    JobFrame(a, s);
    PublishJobFrame(a, s);
    MergeDurable(s, Apply(a, s), a.j);
  }

  lemma MergeDurable(s: State, s': State, j: nat)
    requires DurableOk(s) && Numbered(s.hist) && j in s.jobs && s.jobs[j].phase.OutWritten?
    requires var t, ids := s.jobs[j].phase.table, Inputs(s.jobs[j]);
             && IsMergeOf(s.sstables, ids, t.content) && FirstIn(s.sstables, ids) < |s.sstables|
             && SafeInputs(s.sstables, ids) && s'.sstables == Replace(s.sstables, ids, t)
    requires s'.hist == s.hist && s'.wal == s.wal && s'.writer == s.writer && s'.active == s.active
    requires s'.immutables == s.immutables && s'.starts == s.starts && s'.manifest.watermark == s.manifest.watermark
    ensures DurableOk(s')
  {
    var t, ids := s.jobs[j].phase.table, Inputs(s.jobs[j]);
    MemtablesFrame(s, s');
    CompactTables(s.hist[..s.manifest.watermark], s.sstables, ids, t);
  }

  lemma {:induction false} CompactTables(h: seq<Record>, ts: seq<Table>, ids: set<nat>, out: Table)
    requires Numbered(h) && Answers(h, Contents(ts)) && GenuineLevels(h, Contents(ts))
    requires IsMergeOf(ts, ids, out.content) && FirstIn(ts, ids) < |ts| && SafeInputs(ts, ids)
    ensures Answers(h, Contents(Replace(ts, ids, out))) && GenuineLevels(h, Contents(Replace(ts, ids, out)))
  {
    var ts' := Replace(ts, ids, out);
    assert [] + Contents(ts) == Contents(ts) && [] + Contents(ts') == Contents(ts');
    forall k ensures AnswersAt(h, Contents(ts'), k) {
      assert MergedAt(ts, ids, out.content, k) && SafeFor(ts, ids, k) && AnswersAt(h, Contents(ts), k);
      SpecIsNewest(h, Contents(ts), k);
      CompactionKeepsHit([], ts, ids, out, k);
    }
    ReplaceGenuine(h, [], ts, ids, out);
  }

  /** A memtable is never frozen empty, so the empty-memtable branch of a flush is dead. */
  lemma NoEmptyImmutable(s: State)
    requires ViewOk(s) && DurableOk(s) && s.immutables != []
    ensures s.immutables[0] != map[]
  {
    assert StretchOk(s, 0);
    FoldRange(s.hist, s.starts[0], s.starts[1]);
    assert s.hist[s.starts[1] - 1].key in s.immutables[0];
  }

  predicate DurableQuiet(a: Action) {
    !a.LogWrite? && !a.RollSegment? && !a.InsertWrite? && !a.Freeze? && !a.SwapActive? && !a.PublishFlush?
    && !a.PublishJob? && !a.DropEmpty? && !a.DeleteSegment?
  }

  lemma QuietDurable(s: State, s': State)
    requires DurableOk(s)
    requires s'.wal == s.wal && s'.hist == s.hist && InFlight(s') == InFlight(s)
    requires s'.manifest.watermark == s.manifest.watermark && s'.sstables == s.sstables
    requires s'.immutables == s.immutables && s'.starts == s.starts
    requires s'.active == s.active && Rotating(s) == Rotating(s')
    requires s'.writer.Inserted? || s'.writer.Counted? ==> s.writer.Inserted? || s.writer.Counted?
    ensures DurableOk(s')
  {
    MemtablesFrame(s, s');
  }

  lemma QuietActionDurable(a: Action, s: State)
    requires DurableOk(s) && Enabled(a, s) && DurableQuiet(a) && !IsJobAction(a)
    ensures DurableOk(Apply(a, s))
  {
    QuietDurable(s, Apply(a, s));
  }

  lemma QuietJobDurable(a: Action, s: State)
    requires DurableOk(s) && Enabled(a, s) && DurableQuiet(a) && IsJobAction(a)
    ensures DurableOk(Apply(a, s))
  {
    JobFrame(a, s);
    QuietDurable(s, Apply(a, s));
  }

  lemma DeleteSegmentDurable(a: Action, s: State)
    requires ViewOk(s) && DurableOk(s) && a.DeleteSegment? && Enabled(a, s)
    ensures DurableOk(Apply(a, s))
  {
    DeleteSegmentLog(a, s);
    MemtablesFrame(s, Apply(a, s));
  }

  lemma NoisyDurable(a: Action, s: State)
    requires ViewOk(s) && CatalogOk(s) && JobsOk(s) && DurableOk(s) && Enabled(a, s) && Benign(a, s) && !DurableQuiet(a)
    ensures DurableOk(Apply(a, s))
  {
    if a.RollSegment? || a.LogWrite? {
      WriterDurable(a, s);
    } else if a.InsertWrite? {
      InsertDurable(a, s);
    } else if a.Freeze? {
      FreezeDurable(a, s);
    } else if a.SwapActive? {
      SwapDurable(a, s);
    } else if a.PublishFlush? {
      PublishFlushDurable(a, s);
    } else if a.PublishJob? {
      PublishJobDurable(a, s);
    } else if a.DeleteSegment? {
      DeleteSegmentDurable(a, s);
    } else {
      NoEmptyImmutable(s);
    }
  }

  lemma DurableStep(a: Action, s: State)
    requires ViewOk(s) && CatalogOk(s) && JobsOk(s) && DurableOk(s) && Enabled(a, s) && Benign(a, s)
    ensures DurableOk(Apply(a, s))
  {
    if !DurableQuiet(a) {
      NoisyDurable(a, s);
    } else if IsJobAction(a) {
      QuietJobDurable(a, s);
    } else {
      QuietActionDurable(a, s);
    }
  }

  /** Watermark soundness: each record at or below the watermark is in a table, or a newer
      record of its key is; each record above it is still in the log. */
  lemma WatermarkSound(s: State, i: nat)
    requires ViewOk(s) && DurableOk(s) && i < |s.hist|
    ensures i < s.manifest.watermark ==>
              FirstHit(Contents(s.sstables), s.hist[i].key).Some? &&
              FirstHit(Contents(s.sstables), s.hist[i].key).value.seqNo >= s.hist[i].seqNo
    ensures i >= s.manifest.watermark ==> s.hist[i] in LogOf(s.wal)
  {
    if i < s.manifest.watermark {
      var h := s.hist[..s.manifest.watermark];
      FoldAll(h);
      assert h[i].key in Fold(h);
      assert AnswersAt(h, Contents(s.sstables), s.hist[i].key);
    } else {
      assert LogOf(s.wal)[i - LogBase(s)] == s.hist[i];
    }
  }
}
