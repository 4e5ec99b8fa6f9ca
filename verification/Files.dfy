/** Files outlive their references: tables in the catalogue, in pinned versions and in
    running jobs keep their file; a file is only deleted when nobody can reach it again. */
module Files {
  import opened Entries
  import opened Levels
  import opened Engine
  import opened Frames
  import opened Catalog
  import opened Jobs

  ghost predicate OnDisk(s: State, t: Table) {
    t.id in s.files && s.files[t.id] == t.content
  }

  ghost predicate PinnedBy(s: State, r: nat, t: Table) { r in s.pins && t in s.pins[r].sstables }

  ghost predicate HeldBy(s: State, j: nat, t: Table) { j in s.jobs && t in s.jobs[j].handles }

  ghost predicate Claimed(s: State, id: nat) {
    FlushClaim(s.flusher) == Some(id) || exists j: nat :: Claims(s, j, id)
  }

  /** Waiting for deletion. */
  ghost predicate Retired(s: State, id: nat) { id in s.pending || s.doomed == Some(id) }

  /** A table somebody can read: it is on disk, not claimed as a new id, not being deleted. */
  ghost predicate Readable(s: State, t: Table) {
    OnDisk(s, t) && t.id < s.nextId && !Claimed(s, t.id) && s.doomed != Some(t.id)
  }

  ghost predicate WrittenOk(s: State) {
    && (s.flusher.Written? ==> OnDisk(s, Table(s.flusher.id, s.flusher.mem)))
    && (forall j :: j in s.jobs && s.jobs[j].phase.OutWritten? ==> OnDisk(s, s.jobs[j].phase.table))
  }

  ghost predicate FilesOk(s: State) {
    && (forall t :: t in s.sstables ==> Readable(s, t))
    && (forall r: nat, t :: PinnedBy(s, r, t) ==> Readable(s, t))
    && (forall j: nat, t :: HeldBy(s, j, t) ==> Readable(s, t))
    && (forall j: nat, t :: HeldBy(s, j, t) && s.jobs[j].phase.Swapped? ==> !HasTable(s.sstables, t.id))
    && (forall id: nat :: Retired(s, id) ==> id < s.nextId && !HasTable(s.sstables, id) && !Claimed(s, id))
    && (s.doomed.Some? ==> s.doomed.value !in s.pending)
    && WrittenOk(s)
  }

  // ---- frames ---------------------------------------------------------------------------

  /** Nothing new is referenced, claimed or retired, and no file changes. */
  ghost predicate Quieter(s: State, s': State) {
    && s'.files == s.files && s'.nextId >= s.nextId
    && (forall t :: t in s'.sstables ==> t in s.sstables)
    && (forall r: nat, t :: PinnedBy(s', r, t) ==> PinnedBy(s, r, t) || t in s.sstables)
    && (forall j: nat, t :: HeldBy(s', j, t) ==>
          (HeldBy(s, j, t) && (s'.jobs[j].phase.Swapped? ==> s.jobs[j].phase.Swapped?))
          || (t in s.sstables && !s'.jobs[j].phase.Swapped?))
    && (forall id: nat :: Claimed(s', id) ==> Claimed(s, id))
    && s'.doomed == s.doomed && s'.pending == s.pending
    && (s'.flusher.Written? ==> s'.flusher == s.flusher)
    && (forall j :: j in s'.jobs && s'.jobs[j].phase.OutWritten? ==> j in s.jobs && s.jobs[j].phase == s'.jobs[j].phase)
  }

  ghost predicate SameHandles(s: State, s': State, j: nat) {
    j in s.jobs && j in s'.jobs && s'.jobs[j].handles == s.jobs[j].handles
  }

  ghost predicate SwappedOut(s: State, j: nat) {
    j in s.jobs && s.jobs[j].phase.Swapped? && forall u :: u in s.jobs[j].handles ==> !HasTable(s.sstables, u.id)
  }

  lemma ClaimsShrink(s: State, s': State)
    requires FlushClaim(s'.flusher).Some? ==> FlushClaim(s'.flusher) == FlushClaim(s.flusher)
    requires forall j: nat :: j in s'.jobs && JobClaim(s'.jobs[j]).Some? ==>
               j in s.jobs && JobClaim(s.jobs[j]) == JobClaim(s'.jobs[j])
    ensures forall id: nat :: Claimed(s', id) ==> Claimed(s, id)
  {
    forall id: nat | Claimed(s', id) ensures Claimed(s, id) {
      if FlushClaim(s'.flusher) != Some(id) {
        var j: nat :| Claims(s', j, id);
        assert Claims(s, j, id);
      }
    }
  }

  lemma StillReadable(s: State, s': State, t: Table)
    requires Readable(s, t) && OnDisk(s', t) && s'.nextId >= s.nextId && s'.doomed == s.doomed
    requires Claimed(s', t.id) ==> Claimed(s, t.id)
    ensures Readable(s', t)
  {
  }

  lemma NoNewTable(s: State, s': State, id: nat)
    requires !HasTable(s.sstables, id) && forall t :: t in s'.sstables ==> t in s.sstables || t.id != id
    ensures !HasTable(s'.sstables, id)
  {
    forall i | 0 <= i < |s'.sstables| ensures s'.sstables[i].id != id {
      assert s'.sstables[i] in s'.sstables;
    }
  }

  lemma QuieterOk(s: State, s': State)
    requires FilesOk(s) && Quieter(s, s')
    ensures FilesOk(s')
  {
    forall r: nat, t | PinnedBy(s', r, t) ensures Readable(s', t) {
      assert PinnedBy(s, r, t) || t in s.sstables;
      StillReadable(s, s', t);
    }
    forall j: nat, t | HeldBy(s', j, t)
      ensures Readable(s', t) && (s'.jobs[j].phase.Swapped? ==> !HasTable(s'.sstables, t.id))
    {
      assert HeldBy(s, j, t) || t in s.sstables;
      StillReadable(s, s', t);
      if s'.jobs[j].phase.Swapped? {
        NoNewTable(s, s', t.id);
      }
    }
    forall id: nat | Retired(s', id) ensures id < s'.nextId && !HasTable(s'.sstables, id) && !Claimed(s', id) {
      assert Retired(s, id);
      NoNewTable(s, s', id);
    }
  }

  /** A fresh id is claimed. */
  lemma ClaimKeeps(a: Action, s: State)
    requires FilesOk(s) && (a.ReserveFlushId? || a.ReserveOutId?) && Enabled(a, s)
    ensures FilesOk(Apply(a, s))
  {
    var s' := Apply(a, s);
    forall id: nat | Claimed(s', id) ensures Claimed(s, id) || id == s.nextId {
      if FlushClaim(s'.flusher) != Some(id) {
        var j: nat :| Claims(s', j, id);
        assert Claims(s, j, id) || id == s.nextId;
      }
    }
    FreshClaim(s, s');
  }

  lemma FreshClaim(s: State, s': State)
    requires FilesOk(s)
    requires forall id: nat :: Claimed(s', id) ==> Claimed(s, id) || id == s.nextId
    requires s'.files == s.files && s'.nextId == s.nextId + 1 && s'.sstables == s.sstables && s'.pins == s.pins
    requires !s'.flusher.Written? || s'.flusher == s.flusher
    requires s'.pending == s.pending && s'.doomed == s.doomed
    requires forall j :: j in s'.jobs ==>
               SameHandles(s, s', j) && (s'.jobs[j].phase == s.jobs[j].phase || s'.jobs[j].phase.GotOutId?)
    ensures FilesOk(s')
  {
    forall r: nat, t | PinnedBy(s', r, t) ensures Readable(s', t) {
      assert PinnedBy(s, r, t);
    }
    forall j: nat, t | HeldBy(s', j, t)
      ensures Readable(s', t) && (s'.jobs[j].phase.Swapped? ==> !HasTable(s'.sstables, t.id))
    {
      assert HeldBy(s, j, t);
    }
    forall id: nat | Retired(s', id) ensures id < s'.nextId && !HasTable(s'.sstables, id) && !Claimed(s', id) {
      assert Retired(s, id);
    }
  }

  /** A new file is written under a claimed id; no readable table has that id. */
  lemma WriteKeeps(s: State, s': State, t: Table)
    requires FilesOk(s) && CatalogOk(s) && Claimed(s, t.id)
    requires s' == s.(files := s.files[t.id := t.content], flusher := s'.flusher, jobs := s'.jobs)
    requires forall id: nat :: Claimed(s', id) ==> Claimed(s, id)
    requires s'.flusher.Written? ==>
               s'.flusher == Written(t.content, t.id) || (s'.flusher == s.flusher && s.flusher.id != t.id)
    requires forall j :: j in s'.jobs ==>
               SameHandles(s, s', j) && (s'.jobs[j].phase == s.jobs[j].phase || s'.jobs[j].phase == OutWritten(t))
    requires forall j :: j in s'.jobs && j in s.jobs && s.jobs[j].phase.OutWritten? ==> s.jobs[j].phase.table.id != t.id
    ensures FilesOk(s')
  {
    forall u | u in s'.sstables ensures Readable(s', u) {
      assert Readable(s, u);
    }
    forall r: nat, u | PinnedBy(s', r, u) ensures Readable(s', u) {
      assert PinnedBy(s, r, u);
    }
    forall j: nat, u | HeldBy(s', j, u)
      ensures Readable(s', u) && (s'.jobs[j].phase.Swapped? ==> !HasTable(s'.sstables, u.id))
    {
      assert HeldBy(s, j, u);
    }
    forall id: nat | Retired(s', id) ensures id < s'.nextId && !HasTable(s'.sstables, id) && !Claimed(s', id) {
      assert Retired(s, id);
    }
  }

  lemma WriteFlushKeeps(a: Action, s: State)
    requires FilesOk(s) && CatalogOk(s) && a.WriteFlush? && Enabled(a, s)
    ensures FilesOk(Apply(a, s))
  {
    var s' := Apply(a, s);
    forall id: nat | Claimed(s', id) ensures Claimed(s, id) {
      if FlushClaim(s'.flusher) != Some(id) {
        var j: nat :| Claims(s', j, id);
        assert Claims(s, j, id);
      }
    }
    forall j | j in s.jobs && s.jobs[j].phase.OutWritten? ensures s.jobs[j].phase.table.id != s.flusher.id {
      assert Claims(s, j, s.jobs[j].phase.table.id);
    }
    WriteKeeps(s, s', Table(s.flusher.id, s.flusher.mem));
  }

  lemma WriteOutputKeeps(a: Action, s: State)
    requires FilesOk(s) && CatalogOk(s) && a.WriteOutput? && Enabled(a, s)
    ensures FilesOk(Apply(a, s))
  {
    var s' := Apply(a, s);
    var t := s'.jobs[a.j].phase.table;
    assert Claims(s, a.j, t.id);
    forall id: nat | Claimed(s', id) ensures Claimed(s, id) {
      if FlushClaim(s'.flusher) != Some(id) {
        var j: nat :| Claims(s', j, id);
        assert Claims(s, j, id);
      }
    }
    forall j | j in s.jobs && j != a.j && s.jobs[j].phase.OutWritten? ensures s.jobs[j].phase.table.id != t.id {
      assert Claims(s, j, s.jobs[j].phase.table.id);
    }
    WriteKeeps(s, s', t);
  }

  /** A claimed, written table enters the list. */
  lemma PublishKeeps(s: State, s': State, t: Table)
    requires FilesOk(s) && CatalogOk(s) && Claimed(s, t.id) && !Claimed(s', t.id) && OnDisk(s, t)
    requires s'.files == s.files && s'.nextId == s.nextId
    requires s'.pins == s.pins && s'.pending == s.pending && s'.doomed == s.doomed
    requires forall u :: u in s'.sstables ==> u == t || u in s.sstables
    requires forall id: nat :: Claimed(s', id) ==> Claimed(s, id)
    requires !s'.flusher.Written? || s'.flusher == s.flusher
    requires forall j :: j in s'.jobs ==>
               SameHandles(s, s', j) && (s'.jobs[j].phase == s.jobs[j].phase || SwappedOut(s', j))
    ensures FilesOk(s')
  {
    assert t.id < s.nextId by {
      if FlushClaim(s.flusher) != Some(t.id) {
        var j: nat :| Claims(s, j, t.id);
      }
    }
    assert s.doomed != Some(t.id) by {
      assert Retired(s, t.id) ==> !Claimed(s, t.id);
    }
    forall r: nat, u | PinnedBy(s', r, u) ensures Readable(s', u) {
      assert PinnedBy(s, r, u);
    }
    forall j: nat, u | HeldBy(s', j, u)
      ensures Readable(s', u) && (s'.jobs[j].phase.Swapped? ==> !HasTable(s'.sstables, u.id))
    {
      assert HeldBy(s, j, u) && u.id != t.id;
      if s.jobs[j].phase.Swapped? {
        NoNewTable(s, s', u.id);
      }
    }
    forall id: nat | Retired(s', id) ensures id < s'.nextId && !HasTable(s'.sstables, id) && !Claimed(s', id) {
      assert Retired(s, id) && id != t.id;
      NoNewTable(s, s', id);
    }
  }

  lemma PublishFlushFiles(a: Action, s: State)
    requires FilesOk(s) && CatalogOk(s) && a.PublishFlush? && Enabled(a, s)
    ensures FilesOk(Apply(a, s))
  {
    var s' := Apply(a, s);
    forall id: nat | Claimed(s', id) ensures Claimed(s, id) && id != s.flusher.id {
      var j: nat :| Claims(s', j, id);
      assert Claims(s, j, id);
    }
    PublishKeeps(s, s', Table(s.flusher.id, s.flusher.mem));
  }

  /** The inputs of a published job are out of the list, and stay out. */
  lemma InputsGone(s: State, j: nat, ts: seq<Table>)
    requires FilesOk(s) && j in s.jobs && s.jobs[j].phase.OutWritten? && JobOk(s, s.jobs[j]) && CatalogOk(s)
    requires forall t :: t in ts ==> t == s.jobs[j].phase.table || t.id !in Inputs(s.jobs[j])
    ensures forall u :: u in s.jobs[j].handles ==> !HasTable(ts, u.id)
  {
    var job := s.jobs[j];
    assert Claims(s, j, job.phase.table.id);
    forall u | u in job.handles ensures !HasTable(ts, u.id) {
      assert HeldBy(s, j, u);
      var i :| 0 <= i < |job.handles| && job.handles[i] == u;
      assert job.ids[i] in Inputs(job);
      forall x | 0 <= x < |ts| ensures ts[x].id != u.id {
        assert ts[x] in ts;
      }
    }
  }

  lemma PublishJobFiles(a: Action, s: State)
    requires FilesOk(s) && CatalogOk(s) && JobsOk(s) && a.PublishJob? && Enabled(a, s)
    ensures FilesOk(Apply(a, s))
  {
    var s' := Apply(a, s);
    var job := s.jobs[a.j];
    var t := job.phase.table;
    assert Claims(s, a.j, t.id) && Unused(s, t.id) && JobOk(s, job);
    ReplaceMembers(s.sstables, Inputs(job), t);
    PublishedClaim(a, s);
    JobFrame(a, s);
    PublishJobFrame(a, s);
    InputsGone(s, a.j, s'.sstables);
    PublishKeeps(s, s', t);
  }

  /** The published id is claimed no longer, and no other claim is new. */
  lemma PublishedClaim(a: Action, s: State)
    requires CatalogOk(s) && a.PublishJob? && Enabled(a, s)
    ensures !Claimed(Apply(a, s), s.jobs[a.j].phase.table.id)
    ensures forall id: nat :: Claimed(Apply(a, s), id) ==> Claimed(s, id)
  {
    var s', t := Apply(a, s), s.jobs[a.j].phase.table;
    assert Claims(s, a.j, t.id);
    ClaimsShrink(s, s');
    forall j: nat ensures !Claims(s', j, t.id) {
      assert Claims(s', j, t.id) ==> Claims(s, j, t.id);
    }
  }

  lemma RetireFiles(a: Action, s: State)
    requires FilesOk(s) && a.RetireInputs? && Enabled(a, s)
    ensures FilesOk(Apply(a, s))
  {
    var s' := Apply(a, s);
    var hs := s.jobs[a.j].handles;
    forall id: nat | Claimed(s', id) ensures Claimed(s, id) {
      if FlushClaim(s'.flusher) != Some(id) {
        var j: nat :| Claims(s', j, id);
        assert Claims(s, j, id);
      }
    }
    forall id: nat | id in Ids(hs)
      ensures id < s.nextId && !HasTable(s.sstables, id) && !Claimed(s, id) && s.doomed != Some(id)
    {
      var i :| 0 <= i < |hs| && hs[i].id == id;
      assert HeldBy(s, a.j, hs[i]);
    }
    forall id: nat | Retired(s', id) ensures id < s'.nextId && !HasTable(s'.sstables, id) && !Claimed(s', id) {
      assert Retired(s, id) || id in Ids(hs);
    }
    forall r: nat, t | PinnedBy(s', r, t) ensures Readable(s', t) {
      assert PinnedBy(s, r, t);
    }
    forall j: nat, t | HeldBy(s', j, t)
      ensures Readable(s', t) && (s'.jobs[j].phase.Swapped? ==> !HasTable(s'.sstables, t.id))
    {
      assert HeldBy(s, j, t);
    }
  }

  lemma SweepFiles(a: Action, s: State)
    requires FilesOk(s) && CatalogOk(s) && (a.ObserveDead? || a.DeleteFile? || a.DeferDelete?) && Enabled(a, s)
    ensures FilesOk(Apply(a, s))
  {
    var s' := Apply(a, s);
    forall id: nat ensures Claimed(s', id) == Claimed(s, id) {
      assert forall j: nat :: Claims(s', j, id) == Claims(s, j, id);
    }
    forall id: nat | Retired(s', id) ensures Retired(s, id) {}
    if a.ObserveDead? {
      var id := s.pending[a.i];
      assert Unreferenced(s, id);
      forall t | t in s.sstables ensures t.id != id { InList(s.sstables, t); }
      forall r: nat, t | PinnedBy(s, r, t) ensures t.id != id { InList(s.pins[r].sstables, t); }
      forall j: nat, t | HeldBy(s, j, t) ensures t.id != id { InList(s.jobs[j].handles, t); }
      assert id !in s'.pending;
    }
    SweptOk(s, s');
  }

  lemma SweptOk(s: State, s': State)
    requires FilesOk(s) && CatalogOk(s)
    requires s' == s.(pending := s'.pending, doomed := s'.doomed, files := s'.files)
    requires forall id: nat :: Claimed(s', id) == Claimed(s, id)
    requires forall id: nat :: Retired(s', id) ==> Retired(s, id)
    requires s'.doomed.Some? ==> s'.doomed.value !in s'.pending
    requires s'.files == s.files || (s.doomed.Some? && s'.files == s.files - {s.doomed.value} && s'.doomed.None?)
    requires s'.doomed.Some? ==> forall t :: t in s.sstables ==> t.id != s'.doomed.value
    requires s'.doomed.Some? ==> forall r: nat, t :: PinnedBy(s, r, t) ==> t.id != s'.doomed.value
    requires s'.doomed.Some? ==> forall j: nat, t :: HeldBy(s, j, t) ==> t.id != s'.doomed.value
    ensures FilesOk(s')
  {
    forall r: nat, t | PinnedBy(s', r, t) ensures Readable(s', t) {
      assert PinnedBy(s, r, t);
    }
    forall j: nat, t | HeldBy(s', j, t)
      ensures Readable(s', t) && (s'.jobs[j].phase.Swapped? ==> !HasTable(s'.sstables, t.id))
    {
      assert HeldBy(s, j, t);
    }
    forall j | j in s'.jobs && s'.jobs[j].phase.OutWritten? ensures OnDisk(s', s'.jobs[j].phase.table) {
      assert Claims(s, j, s.jobs[j].phase.table.id);
      assert s.doomed.Some? ==> Retired(s, s.doomed.value);
    }
    if s.flusher.Written? {
      assert s.doomed.Some? ==> Retired(s, s.doomed.value);
    }
  }

  // ---- all steps --------------------------------------------------------------------------

  lemma JobSetFiles(a: Action, s: State)
    requires FilesOk(s) && MovesJobSet(a) && Enabled(a, s)
    ensures FilesOk(Apply(a, s))
  {
    ClaimsShrink(s, Apply(a, s));
    QuieterOk(s, Apply(a, s));
  }

  lemma JobPhaseFiles(a: Action, s: State)
    requires FilesOk(s) && IsJobAction(a) && !MovesJobSet(a) && Enabled(a, s)
    requires !a.ReserveOutId? && !a.WriteOutput? && !a.PublishJob? && !a.RetireInputs?
    ensures FilesOk(Apply(a, s))
  {
    ClaimsShrink(s, Apply(a, s));
    QuieterOk(s, Apply(a, s));
  }

  lemma QuietFlushFiles(a: Action, s: State)
    requires FilesOk(s) && IsFlushAction(a) && Enabled(a, s)
    requires !a.ReserveFlushId? && !a.WriteFlush? && !a.PublishFlush?
    ensures FilesOk(Apply(a, s))
  {
    NoClaimMade(a, s);
    FlushFrame(a, s);
    if a.PeekFlush? || a.AbortFlush? || a.DropEmpty? {
      QuieterOk(s, Apply(a, s));
    } else {
      QuietTailFiles(a, s);
    }
  }

  lemma QuietTailFiles(a: Action, s: State)
    requires FilesOk(s) && Enabled(a, s) && (a.DeleteSegment? || a.CheckRoom? || a.ClearStall?)
    requires forall id: nat :: Claimed(Apply(a, s), id) ==> Claimed(s, id)
    ensures FilesOk(Apply(a, s))
  {
    QuieterOk(s, Apply(a, s));
  }

  lemma NoClaimMade(a: Action, s: State)
    requires IsFlushAction(a) && Enabled(a, s) && !a.ReserveFlushId? && !a.WriteFlush?
    ensures forall id: nat :: Claimed(Apply(a, s), id) ==> Claimed(s, id)
  {
    ClaimsShrink(s, Apply(a, s));
  }

  lemma QuietOtherFiles(a: Action, s: State)
    requires FilesOk(s) && CatalogOk(s) && !IsFlushAction(a) && !IsJobAction(a) && Enabled(a, s)
    requires !a.ObserveDead? && !a.DeleteFile? && !a.DeferDelete? && !a.Pin? && !a.Unpin?
    ensures FilesOk(Apply(a, s))
  {
    OtherFrame(a, s);
    ClaimsShrink(s, Apply(a, s));
    QuieterOk(s, Apply(a, s));
  }

  lemma PinFiles(a: Action, s: State)
    requires FilesOk(s) && CatalogOk(s) && (a.Pin? || a.Unpin?) && Enabled(a, s)
    ensures FilesOk(Apply(a, s))
  {
    ClaimsShrink(s, Apply(a, s));
    QuieterOk(s, Apply(a, s));
  }

  lemma JobFiles(a: Action, s: State)
    requires FilesOk(s) && CatalogOk(s) && JobsOk(s) && IsJobAction(a) && Enabled(a, s)
    ensures FilesOk(Apply(a, s))
  {
    if MovesJobSet(a) {
      JobSetFiles(a, s);
    } else if a.ReserveOutId? {
      ClaimKeeps(a, s);
    } else if a.WriteOutput? {
      WriteOutputKeeps(a, s);
    } else if a.PublishJob? {
      PublishJobFiles(a, s);
    } else if a.RetireInputs? {
      RetireFiles(a, s);
    } else {
      JobPhaseFiles(a, s);
    }
  }

  lemma FlushFiles(a: Action, s: State)
    requires FilesOk(s) && CatalogOk(s) && JobsOk(s) && IsFlushAction(a) && Enabled(a, s)
    ensures FilesOk(Apply(a, s))
  {
    if a.ReserveFlushId? {
      ClaimKeeps(a, s);
    } else if a.WriteFlush? {
      WriteFlushKeeps(a, s);
    } else if a.PublishFlush? {
      PublishFlushFiles(a, s);
    } else {
      QuietFlushFiles(a, s);
    }
  }

  lemma FilesStep(a: Action, s: State)
    requires FilesOk(s) && CatalogOk(s) && JobsOk(s) && Enabled(a, s)
    ensures FilesOk(Apply(a, s))
  {
    if IsJobAction(a) {
      JobFiles(a, s);
    } else if IsFlushAction(a) {
      FlushFiles(a, s);
    } else if a.ObserveDead? || a.DeleteFile? || a.DeferDelete? {
      SweepFiles(a, s);
    } else if a.Pin? || a.Unpin? {
      PinFiles(a, s);
    } else {
      QuietOtherFiles(a, s);
    }
  }

  /** Every catalogued table, every table of a pinned version and every input of a running
      job has its file with its content. */
  ghost predicate ReferencesOnDisk(s: State) {
    && |s.manifest.tables| == |s.sstables|
    && (forall i :: 0 <= i < |s.manifest.tables| ==>
          s.manifest.tables[i] in s.files && s.files[s.manifest.tables[i]] == s.sstables[i].content)
    && (forall r, i :: r in s.pins && 0 <= i < |s.pins[r].sstables| ==> OnDisk(s, s.pins[r].sstables[i]))
    && (forall j, i :: j in s.jobs && 0 <= i < |s.jobs[j].handles| ==> OnDisk(s, s.jobs[j].handles[i]))
  }

  /** Nobody holds the file that is about to be deleted, and no restart will look for it. */
  ghost predicate DoomedOutOfReach(s: State) {
    s.doomed.Some? ==> Unreferenced(s, s.doomed.value) && s.doomed.value !in s.manifest.tables
  }

  lemma FilesOutliveReferences(s: State)
    requires FilesOk(s) && CatalogOk(s)
    ensures ReferencesOnDisk(s) && DoomedOutOfReach(s)
  {
    forall i | 0 <= i < |s.sstables| ensures Readable(s, s.sstables[i]) {
      assert s.sstables[i] in s.sstables;
    }
    forall r, i | r in s.pins && 0 <= i < |s.pins[r].sstables| ensures Readable(s, s.pins[r].sstables[i]) {
      assert PinnedBy(s, r, s.pins[r].sstables[i]);
    }
    forall j, i | j in s.jobs && 0 <= i < |s.jobs[j].handles| ensures Readable(s, s.jobs[j].handles[i]) {
      assert HeldBy(s, j, s.jobs[j].handles[i]);
    }
    assert s.doomed.Some? ==> Retired(s, s.doomed.value);
  }
}
