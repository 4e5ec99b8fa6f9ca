/** Whole-run refinement: what a read sees is the fold of the accepted writes; and reads
    that look twice are linearizable. */
module EngineView {
  import opened Entries
  import opened Levels
  import opened Engine
  import opened Frames
  import opened Catalog
  import opened Jobs

  /** Every key is answered as history h says. */
  ghost predicate Answers(h: seq<Record>, levels: seq<Mem>) {
    forall k :: AnswersAt(h, levels, k)
  }

  ghost predicate AnswersAt(h: seq<Record>, levels: seq<Mem>, k: Key) {
    FirstHit(levels, k) == Get(Fold(h), k)
  }

  ghost predicate Rotating(s: State) { s.writer.Frozen? || s.writer.Published? }

  ghost predicate HistoryOk(s: State) {
    && Numbered(s.hist)
    && s.seqNo == |s.hist| + |InFlight(s)|
    && (s.writer.Logged? ==> s.writer.rec.seqNo == s.seqNo)
    && GenuineLevels(s.hist, View(s))
  }

  /** The published version answers like the live lists, except between the two halves of a
      rotation, where it may still lack the memtable that the active one shadows. */
  ghost predicate VersionOk(s: State) {
    if s.writer.Frozen? then forall k :: k !in s.active ==> AnswersAt(s.hist, s.version.Levels(), k)
    else s.version.Levels() == Live(s)
  }

  ghost predicate FlusherOk(s: State) {
    s.flusher.Peeked? || s.flusher.GotId? || s.flusher.Written? ==>
      s.immutables != [] && s.immutables[0] == s.flusher.mem
  }

  ghost predicate ViewOk(s: State) {
    && HistoryOk(s)
    && Answers(s.hist, View(s))
    && (Rotating(s) ==> Answers(s.hist, Live(s)))
    && VersionOk(s)
    && FlusherOk(s)
  }

  lemma {:induction false} ViewHit(s: State, k: Key)
    ensures FirstHit(View(s), k) == if k in s.active then Some(s.active[k]) else FirstHit(Live(s), k)
  {
    assert View(s)[1..] == Live(s);
  }

  // ---- writer -------------------------------------------------------------------------

  lemma InsertWriteView(a: Action, s: State)
    requires ViewOk(s) && a.InsertWrite? && Enabled(a, s)
    ensures ViewOk(Apply(a, s))
  {
    var s' := Apply(a, s);
    var r := s.writer.rec;
    assert Live(s') == Live(s);
    GenuineExtends(s.hist, [r], View(s));
    forall i | 0 <= i < |View(s')| ensures GenuineMem(s'.hist, View(s')[i]) {
      assert GenuineMem(s'.hist, View(s)[i]);
    }
    assert s'.hist[..|s.hist|] == s.hist;
    forall k ensures AnswersAt(s'.hist, View(s'), k) {
      assert AnswersAt(s.hist, View(s), k);
      ViewHit(s, k);
      ViewHit(s', k);
    }
  }

  lemma FreezeView(a: Action, s: State)
    requires ViewOk(s) && a.Freeze? && Enabled(a, s)
    ensures ViewOk(Apply(a, s))
  {
    var s' := Apply(a, s);
    assert Live(s') == View(s);
    assert View(s') == [s.active] + View(s);
    forall i | 0 <= i < |View(s')| ensures GenuineMem(s'.hist, View(s')[i]) {
      assert GenuineMem(s.hist, View(s)[if i == 0 then 0 else i - 1]);
    }
    forall k ensures AnswersAt(s'.hist, View(s'), k) && AnswersAt(s'.hist, Live(s'), k) {
      assert AnswersAt(s.hist, View(s), k);
      ViewHit(s, k);
      ViewHit(s', k);
    }
    forall k | k !in s'.active ensures AnswersAt(s'.hist, s'.version.Levels(), k) {
      assert AnswersAt(s.hist, View(s), k);
      ViewHit(s, k);
    }
  }

  lemma SwapActiveView(a: Action, s: State)
    requires ViewOk(s) && a.SwapActive? && Enabled(a, s)
    ensures ViewOk(Apply(a, s))
  {
    var s' := Apply(a, s);
    assert Live(s') == Live(s);
    forall i | 0 <= i < |View(s')| ensures GenuineMem(s'.hist, View(s')[i]) {
      assert i > 0 ==> GenuineMem(s.hist, View(s)[i]);
    }
    forall k ensures AnswersAt(s'.hist, View(s'), k) {
      assert AnswersAt(s.hist, Live(s), k);
      ViewHit(s', k);
    }
  }

  // ---- publishers -----------------------------------------------------------------------

  /** A publisher that leaves the live lists' answers alone and republishes them. */
  lemma RepublishView(s: State, s': State)
    requires ViewOk(s)
    requires s'.hist == s.hist && s'.active == s.active && s'.seqNo == s.seqNo
    requires s'.writer == s.writer || (s.writer.Frozen? && s'.writer.Published?)
    requires GenuineLevels(s.hist, Live(s'))
    requires s'.version.Levels() == Live(s')
    requires forall k :: FirstHit(View(s'), k) == FirstHit(View(s), k)
    requires Rotating(s) ==> forall k :: FirstHit(Live(s'), k) == FirstHit(Live(s), k)
    requires FlusherOk(s')
    ensures ViewOk(s')
  {
    forall i | 0 <= i < |View(s')| ensures GenuineMem(s.hist, View(s')[i]) {
      assert View(s')[i] == if i == 0 then s.active else Live(s')[i - 1];
      assert GenuineMem(s.hist, View(s)[0]);
    }
    forall k ensures AnswersAt(s.hist, View(s'), k) {
      assert AnswersAt(s.hist, View(s), k);
    }
    if Rotating(s) {
      forall k ensures AnswersAt(s.hist, Live(s'), k) {
        assert AnswersAt(s.hist, Live(s), k);
      }
    }
  }

  lemma GenuineLive(s: State)
    requires GenuineLevels(s.hist, View(s))
    ensures GenuineLevels(s.hist, Live(s))
  {
    forall i | 0 <= i < |Live(s)| ensures GenuineMem(s.hist, Live(s)[i]) {
      assert View(s)[i + 1] == Live(s)[i];
    }
  }

  lemma PublishRotationView(a: Action, s: State)
    requires ViewOk(s) && a.PublishRotation? && Enabled(a, s)
    ensures ViewOk(Apply(a, s))
  {
    GenuineLive(s);
    assert Live(Apply(a, s)) == Live(s);
    RepublishView(s, Apply(a, s));
  }

  lemma PublishFlushView(a: Action, s: State)
    requires ViewOk(s) && a.PublishFlush? && Enabled(a, s)
    ensures ViewOk(Apply(a, s)) && Live(Apply(a, s)) == Live(s)
  {
    var s' := Apply(a, s);
    var t := Table(s.flusher.id, s.flusher.mem);
    assert Contents(s'.sstables) == [t.content] + Contents(s.sstables);
    assert Reversed(s.immutables) == Reversed(s'.immutables) + [t.content];
    assert Live(s') == Live(s);
    GenuineLive(s);
    RepublishView(s, s');
  }

  lemma DropEmptyLive(a: Action, s: State)
    requires ViewOk(s) && a.DropEmpty? && Enabled(a, s)
    ensures Live(s) == Reversed(Apply(a, s).immutables) + [map[]] + Contents(s.sstables)
    ensures Live(Apply(a, s)) == Reversed(Apply(a, s).immutables) + Contents(s.sstables)
  {
    ReversedCons(s.immutables[0], s.immutables[1..]);
    assert s.immutables == [s.immutables[0]] + s.immutables[1..];
  }

  lemma DropEmptyGenuine(h: seq<Record>, above: seq<Mem>, below: seq<Mem>)
    requires GenuineLevels(h, above + [map[]] + below)
    ensures GenuineLevels(h, above + below)
  {
    forall i | 0 <= i < |above + below| ensures GenuineMem(h, (above + below)[i]) {
      assert (above + [map[]] + below)[if i < |above| then i else i + 1] == (above + below)[i];
    }
  }

  lemma DropEmptyView(a: Action, s: State)
    requires ViewOk(s) && a.DropEmpty? && Enabled(a, s)
    ensures ViewOk(Apply(a, s))
  {
    var s' := Apply(a, s);
    DropEmptyLive(a, s);
    forall k ensures FirstHit(Live(s'), k) == FirstHit(Live(s), k) && FirstHit(View(s'), k) == FirstHit(View(s), k) {
      DropEmptyLevel(Reversed(s'.immutables), Contents(s.sstables), k);
      ViewHit(s, k);
      ViewHit(s', k);
    }
    GenuineLive(s);
    DropEmptyGenuine(s.hist, Reversed(s'.immutables), Contents(s.sstables));
    RepublishView(s, s');
  }

  /** Halfway through a rotation what is live answers on its own, and keeps doing so. */
  lemma PublishJobLive(a: Action, s: State)
    requires ViewOk(s) && CatalogOk(s) && JobsOk(s) && a.PublishJob? && Enabled(a, s) && Benign(a, s) && Rotating(s)
    ensures forall k :: FirstHit(Live(Apply(a, s)), k) == FirstHit(Live(s), k)
  {
    var t, ids := s.jobs[a.j].phase.table, Inputs(s.jobs[a.j]);
    OutputIsMerge(s, a.j);
    GenuineLive(s);
    forall k ensures FirstHit(Live(Apply(a, s)), k) == FirstHit(Live(s), k) {
      assert MergedAt(s.sstables, ids, t.content, k) && SafeFor(s.sstables, ids, k) && AnswersAt(s.hist, Live(s), k);
      SpecIsNewest(s.hist, Live(s), k);
      CompactionKeepsHit(Reversed(s.immutables), s.sstables, ids, t, k);
    }
  }

  lemma PublishJobView(a: Action, s: State)
    requires ViewOk(s) && CatalogOk(s) && JobsOk(s) && a.PublishJob? && Enabled(a, s) && Benign(a, s)
    ensures ViewOk(Apply(a, s))
  {
    var s' := Apply(a, s);
    OutputIsMerge(s, a.j);
    GenuineLive(s);
    PublishJobSeen(a, s);
    if Rotating(s) {
      PublishJobLive(a, s);
    }
    ReplaceGenuine(s.hist, Reversed(s.immutables), s.sstables, Inputs(s.jobs[a.j]), s.jobs[a.j].phase.table);
    RepublishView(s, s');
  }

  lemma PublishJobSeen(a: Action, s: State)
    requires ViewOk(s) && CatalogOk(s) && JobsOk(s) && a.PublishJob? && Enabled(a, s) && Benign(a, s)
    ensures forall k :: FirstHit(View(Apply(a, s)), k) == FirstHit(View(s), k)
  {
    var t, ids := s.jobs[a.j].phase.table, Inputs(s.jobs[a.j]);
    OutputIsMerge(s, a.j);
    forall k ensures FirstHit(View(Apply(a, s)), k) == FirstHit(View(s), k) {
      assert MergedAt(s.sstables, ids, t.content, k) && SafeFor(s.sstables, ids, k);
      ViewIsNewest(s, k);
      ReplacedSeen(s, Apply(a, s), ids, t, k);
    }
  }

  lemma {:induction false} ReplacedSeen(s: State, s': State, ids: set<nat>, t: Table, k: Key)
    requires s'.active == s.active && s'.immutables == s.immutables && s'.sstables == Replace(s.sstables, ids, t)
    requires MergedAt(s.sstables, ids, t.content, k) && SafeFor(s.sstables, ids, k) && FirstIsNewest(View(s), k)
    requires FirstIn(s.sstables, ids) < |s.sstables|
    ensures FirstHit(View(s'), k) == FirstHit(View(s), k)
  {
    var above := [s.active] + Reversed(s.immutables);
    assert View(s) == above + Contents(s.sstables);
    assert View(s') == above + Contents(s'.sstables);
    CompactionKeepsHit(above, s.sstables, ids, t, k);
  }

  lemma ViewIsNewest(s: State, k: Key)
    requires ViewOk(s)
    ensures FirstIsNewest(View(s), k)
  {
    assert AnswersAt(s.hist, View(s), k);
    SpecIsNewest(s.hist, View(s), k);
  }

  /** A merge invents no cell. */
  lemma ReplaceGenuine(h: seq<Record>, above: seq<Mem>, ts: seq<Table>, ids: set<nat>, out: Table)
    requires GenuineLevels(h, above + Contents(ts)) && IsMergeOf(ts, ids, out.content)
    ensures GenuineLevels(h, above + Contents(Replace(ts, ids, out)))
  {
    var ts' := Replace(ts, ids, out);
    assert GenuineMem(h, out.content) by {
      forall k | k in out.content ensures Genuine(h, k, out.content[k]) {
        assert MergedAt(ts, ids, out.content, k);
        var i :| IsSource(ts, ids, k, i) && ts[i].content[k] == out.content[k];
        assert GenuineMem(h, (above + Contents(ts))[|above| + i]);
      }
    }
    forall i | 0 <= i < |ts'| ensures GenuineMem(h, ts'[i].content) {
      ReplaceOrigin(ts, ids, out, i);
      if ts'[i] != out {
        var j :| 0 <= j < |ts| && ts[j] == ts'[i];
        assert GenuineMem(h, (above + Contents(ts))[|above| + j]);
      }
    }
    forall i | 0 <= i < |above + Contents(ts')| ensures GenuineMem(h, (above + Contents(ts'))[i]) {
      if i < |above| {
        assert GenuineMem(h, (above + Contents(ts))[i]);
      }
    }
  }

  lemma ReplaceOrigin(ts: seq<Table>, ids: set<nat>, out: Table, i: nat)
    requires i < |Replace(ts, ids, out)|
    ensures Replace(ts, ids, out)[i] == out || Replace(ts, ids, out)[i] in ts
  {
    WithoutIs(ts, ids);
    var rest := Without(ts, ids);
    var q :| 0 <= q <= |rest| && Replace(ts, ids, out) == rest[..q] + [out] + rest[q..];
    assert i != q ==> Replace(ts, ids, out)[i] in rest;
  }

  // ---- all steps --------------------------------------------------------------------------

  lemma ViewFrame(s: State, s': State)
    requires ViewOk(s)
    requires s'.hist == s.hist && s'.active == s.active && s'.immutables == s.immutables && s'.sstables == s.sstables
    requires s'.version == s.version && FlusherOk(s')
    requires Rotating(s) == Rotating(s') && s.writer.Frozen? == s'.writer.Frozen?
    requires s'.seqNo == |s.hist| + |InFlight(s')| && (s'.writer.Logged? ==> s'.writer.rec.seqNo == s'.seqNo)
    ensures ViewOk(s')
  {
    assert View(s') == View(s) && Live(s') == Live(s);
  }

  lemma QuietStep(a: Action, s: State)
    requires ViewOk(s) && Enabled(a, s)
    requires !a.InsertWrite? && !a.Freeze? && !a.PublishRotation?
    requires !a.SwapActive? && !a.PublishFlush? && !a.DropEmpty? && !a.PublishJob?
    ensures ViewOk(Apply(a, s))
  {
    if IsJobAction(a) {
      QuietJobStep(a, s);
    } else if IsFlushAction(a) {
      QuietFlushStep(a, s);
    } else {
      ViewFrame(s, Apply(a, s));
    }
  }

  lemma QuietFlushStep(a: Action, s: State)
    requires ViewOk(s) && Enabled(a, s) && IsFlushAction(a) && !a.PublishFlush? && !a.DropEmpty?
    ensures ViewOk(Apply(a, s))
  {
    FlushFrame(a, s);
    ViewFrame(s, Apply(a, s));
  }

  lemma QuietJobStep(a: Action, s: State)
    requires ViewOk(s) && Enabled(a, s) && IsJobAction(a) && !a.PublishJob?
    ensures ViewOk(Apply(a, s))
  {
    JobFrame(a, s);
    ViewFrame(s, Apply(a, s));
  }

  /** The step theorem: no step of any thread changes what a key maps to, except that a
      visible write adds itself. */
  lemma ViewStep(a: Action, s: State)
    requires ViewOk(s) && CatalogOk(s) && JobsOk(s) && Enabled(a, s) && Benign(a, s)
    ensures ViewOk(Apply(a, s))
  {
    if a.InsertWrite? {
      InsertWriteView(a, s);
    } else if a.Freeze? {
      FreezeView(a, s);
    } else if a.PublishRotation? {
      PublishRotationView(a, s);
    } else if a.SwapActive? {
      SwapActiveView(a, s);
    } else if a.PublishFlush? {
      PublishFlushView(a, s);
    } else if a.DropEmpty? {
      DropEmptyView(a, s);
    } else if a.PublishJob? {
      PublishJobView(a, s);
    } else {
      QuietStep(a, s);
    }
  }
}
