/** What each group of actions leaves alone. */
module Frames {
  import opened Entries
  import opened Levels
  import opened Engine

  predicate MovesJobSet(a: Action) { a.MarkJob? || a.RefuseJob? || a.ClearMarks? }

  /** What compaction jobs never touch: memtables, log, readers. */
  ghost predicate SameMemory(s: State, s': State) {
    && s'.cfg == s.cfg && s'.writer == s.writer && s'.seqNo == s.seqNo && s'.blocked == s.blocked
    && s'.active == s.active && s'.immutables == s.immutables && s'.flusher == s.flusher
    && s'.pins == s.pins && s'.doomed == s.doomed && s'.wal == s.wal
    && s'.hist == s.hist && s'.starts == s.starts && s'.manifest.watermark == s.manifest.watermark
  }

  /** What they touch only to publish. */
  ghost predicate SameLists(s: State, s': State) {
    s'.sstables == s.sstables && s'.version == s.version && s'.manifest == s.manifest
  }

  lemma JobFrame(a: Action, s: State)
    requires IsJobAction(a) && Enabled(a, s)
    ensures SameMemory(s, Apply(a, s)) && (!a.PublishJob? ==> SameLists(s, Apply(a, s)))
    ensures !a.RetireInputs? ==> Apply(a, s).pending == s.pending
  {
    if MovesJobSet(a) {
      JobSetFrame(a, s);
    } else if a.ReserveSlot? || a.ReleaseSlot? || a.ResolveJob? || a.FailJob? {
      SlotFrame(a, s);
    }
  }

  lemma JobSetFrame(a: Action, s: State)
    requires MovesJobSet(a) && Enabled(a, s)
    ensures SameMemory(s, Apply(a, s)) && SameLists(s, Apply(a, s)) && Apply(a, s).pending == s.pending
  {
  }

  lemma SlotFrame(a: Action, s: State)
    requires (a.ReserveSlot? || a.ReleaseSlot? || a.ResolveJob? || a.FailJob?) && Enabled(a, s)
    ensures SameMemory(s, Apply(a, s)) && SameLists(s, Apply(a, s)) && Apply(a, s).pending == s.pending
  {
  }

  /** A job's action is about that job only. */
  lemma OneJob(a: Action, s: State)
    requires IsJobAction(a) && Enabled(a, s)
    ensures Apply(a, s).jobs ==
            if a.RefuseJob? || a.ClearMarks? then s.jobs - {a.j} else s.jobs[a.j := Apply(a, s).jobs[a.j]]
  {
    if !MovesJobSet(a) {
      OnePhase(a, s);
    }
  }

  lemma OnePhase(a: Action, s: State)
    requires IsJobAction(a) && !MovesJobSet(a) && Enabled(a, s)
    ensures Apply(a, s).jobs == s.jobs[a.j := Apply(a, s).jobs[a.j]]
  {
  }

  /** Publishing a job: its output for its inputs, in the list, the manifest and the version. */
  lemma PublishJobFrame(a: Action, s: State)
    requires a.PublishJob? && Enabled(a, s)
    ensures var s' := Apply(a, s); var t, ids := s.jobs[a.j].phase.table, SetOf(s.jobs[a.j].ids);
            && s'.sstables == Replace(s.sstables, ids, t)
            && s'.manifest.tables == ReplaceIds(s.manifest.tables, ids, t.id)
            && s'.jobs == s.jobs[a.j := s.jobs[a.j].(phase := Swapped)] && s'.files == s.files
            && s'.nextId == s.nextId && s'.marks == s.marks && s'.slots == s.slots
            && s'.pending == s.pending
  {
  }

  /** The flusher leaves jobs, readers and candidates alone, and the lists unless it publishes. */
  lemma FlushFrame(a: Action, s: State)
    requires IsFlushAction(a) && Enabled(a, s)
    ensures var s' := Apply(a, s);
            && s'.cfg == s.cfg && s'.writer == s.writer && s'.seqNo == s.seqNo && s'.active == s.active
            && s'.hist == s.hist && s'.jobs == s.jobs && s'.marks == s.marks && s'.slots == s.slots
            && s'.pins == s.pins && s'.pending == s.pending && s'.doomed == s.doomed
            && (!a.PublishFlush? ==> s'.sstables == s.sstables && s'.manifest == s.manifest)
            && (!a.PublishFlush? && !a.DropEmpty? ==>
                  s'.version == s.version && s'.immutables == s.immutables && s'.starts == s.starts)
  {
  }

  /** The writer, the readers and the sweep leave tables, jobs and flusher alone. */
  lemma OtherFrame(a: Action, s: State)
    requires !IsJobAction(a) && !IsFlushAction(a) && Enabled(a, s)
    ensures var s' := Apply(a, s);
            && s'.cfg == s.cfg && s'.sstables == s.sstables && s'.manifest == s.manifest && s'.flusher == s.flusher
            && s'.nextId == s.nextId && s'.jobs == s.jobs && s'.marks == s.marks && s'.slots == s.slots
            && (!a.PublishRotation? ==> s'.version == s.version && s'.nextEpoch == s.nextEpoch)
            && (!a.Freeze? ==> s'.immutables == s.immutables && s'.starts == s.starts)
            && (!a.Pin? && !a.Unpin? ==> s'.pins == s.pins)
            && (!a.ObserveDead? && !a.DeleteFile? && !a.DeferDelete? ==>
                  s'.files == s.files && s'.pending == s.pending && s'.doomed == s.doomed)
  {
  }

  lemma SameTables(a: Action, s: State)
    requires Enabled(a, s) && !a.PublishJob? && !a.PublishFlush?
    ensures Apply(a, s).sstables == s.sstables && Apply(a, s).manifest == s.manifest
  {
    if IsJobAction(a) {
      JobFrame(a, s);
    } else if IsFlushAction(a) {
      FlushFrame(a, s);
    } else {
      OtherFrame(a, s);
    }
  }

  lemma SamePins(a: Action, s: State)
    requires Enabled(a, s) && !a.Pin? && !a.Unpin?
    ensures Apply(a, s).pins == s.pins
  {
    if IsJobAction(a) {
      JobFrame(a, s);
    } else if IsFlushAction(a) {
      FlushFrame(a, s);
    } else {
      OtherFrame(a, s);
    }
  }

  lemma NoJobMoves(a: Action, s: State)
    requires Enabled(a, s) && !IsJobAction(a)
    ensures Apply(a, s).jobs == s.jobs
  {
    if IsFlushAction(a) {
      FlushFrame(a, s);
    } else {
      OtherFrame(a, s);
    }
  }

  lemma OtherJobStays(a: Action, s: State, j: nat)
    requires Enabled(a, s) && (!IsJobAction(a) || a.j != j)
    ensures j in Apply(a, s).jobs <==> j in s.jobs
    ensures j in s.jobs ==> Apply(a, s).jobs[j] == s.jobs[j]
  {
    if IsJobAction(a) {
      OneJob(a, s);
    } else {
      NoJobMoves(a, s);
    }
  }
}
