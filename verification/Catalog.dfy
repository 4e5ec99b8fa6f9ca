/** Ids, catalogue, jobs and marks: what every interleaving of flushes and compactions keeps. */
module Catalog {
  import opened Entries
  import opened Levels
  import opened Engine

  ghost predicate DistinctIds(ts: seq<Table>) {
    forall i, j :: 0 <= i < j < |ts| ==> ts[i].id != ts[j].id
  }

  function FlushClaim(f: FlushPhase): Option<nat> {
    if f.GotId? || f.Written? then Some(f.id) else None
  }

  function JobClaim(job: Job): Option<nat> {
    if job.phase.GotOutId? then Some(job.phase.out)
    else if job.phase.OutWritten? then Some(job.phase.table.id)
    else None
  }

  ghost predicate Claims(s: State, j: nat, id: nat) {
    j in s.jobs && JobClaim(s.jobs[j]) == Some(id)
  }

  /** An id handed out but not yet published: below the counter and not the id of a live table. */
  ghost predicate Unused(s: State, id: nat) {
    id < s.nextId && !HasTable(s.sstables, id)
  }

  ghost predicate ClaimsOk(s: State) {
    && (FlushClaim(s.flusher).Some? ==> Unused(s, FlushClaim(s.flusher).value))
    && (forall j: nat, id: nat :: Claims(s, j, id) ==> Unused(s, id) && FlushClaim(s.flusher) != Some(id))
    && (forall i: nat, j: nat, id: nat :: Claims(s, i, id) && Claims(s, j, id) ==> i == j)
  }

  /** The catalogue and the open tables name the same ids in the same order, ids are
      unique and below both counters, and the published version holds the open tables. */
  ghost predicate CatalogOk(s: State) {
    && s.manifest.tables == Ids(s.sstables)
    && DistinctIds(s.sstables)
    && (forall i :: 0 <= i < |s.sstables| ==> s.sstables[i].id < s.manifest.nextId)
    && s.manifest.nextId <= s.nextId
    && s.version.sstables == s.sstables
    && s.version.epoch < s.nextEpoch && s.manifest.epoch < s.nextEpoch
    && ClaimsOk(s)
  }

  // ---- jobs -------------------------------------------------------------------------

  function Inputs(job: Job): set<nat> { SetOf(job.ids) }

  predicate HasSlot(job: Job) { !job.phase.Marked? && !job.phase.SlotFree? }

  predicate HoldsInputs(job: Job) { job.phase.Resolved? || job.phase.GotOutId? || job.phase.OutWritten? }

  function SlotHolders(jobs: map<nat, Job>): set<nat> { set j | j in jobs && HasSlot(jobs[j]) }

  /** The job's inputs are open tables, and it holds their handles. */
  ghost predicate InputsLive(s: State, job: Job) {
    |job.handles| == |job.ids| &&
    forall i :: 0 <= i < |job.ids| ==> job.handles[i].id == job.ids[i] && job.handles[i] in s.sstables
  }

  ghost predicate JobOk(s: State, job: Job) {
    && |job.ids| >= 2
    && Inputs(job) <= s.marks
    && (HoldsInputs(job) ==> InputsLive(s, job))
    && (job.phase.OutWritten? ==> job.phase.table.content == MergeAll(Contents(job.handles)))
  }

  ghost predicate DisjointJobs(s: State, i: nat, j: nat) {
    i in s.jobs && j in s.jobs && i != j ==> Inputs(s.jobs[i]) !! Inputs(s.jobs[j])
  }

  /** The in-progress set is the disjoint union of the jobs' inputs, and the slot counter
      counts the jobs that hold a slot. */
  ghost predicate JobsOk(s: State) {
    && (forall j :: j in s.jobs ==> JobOk(s, s.jobs[j]))
    && (forall i, j :: DisjointJobs(s, i, j))
    && (forall id :: id in s.marks ==> exists j :: j in s.jobs && id in Inputs(s.jobs[j]))
    && s.slots == |SlotHolders(s.jobs)|
    && s.slots <= SlotLimit(s)
  }

  // ---- table lists --------------------------------------------------------------------

  lemma {:induction false} IdsOfReplace(ts: seq<Table>, ids: set<nat>, out: Table)
    ensures Ids(Replace(ts, ids, out)) == ReplaceIds(Ids(ts), ids, out.id)
  {
    IdsOfParts(ts, ids);
  }

  lemma {:induction false} IdsOfParts(ts: seq<Table>, ids: set<nat>)
    ensures FirstIdIn(Ids(ts), ids) == FirstIn(ts, ids)
    ensures Ids(Without(ts, ids)) == WithoutIds(Ids(ts), ids)
  {
    if ts != [] {
      assert Ids(ts)[1..] == Ids(ts[1..]);
      IdsOfParts(ts[1..], ids);
      if ts[0].id !in ids {
        assert Ids([ts[0]] + Without(ts[1..], ids)) == [ts[0].id] + Ids(Without(ts[1..], ids));
      }
    }
  }

  lemma {:induction false} WithoutDistinct(ts: seq<Table>, ids: set<nat>)
    requires DistinctIds(ts)
    ensures DistinctIds(Without(ts, ids))
  {
    if ts != [] {
      WithoutDistinct(ts[1..], ids);
      var w := Without(ts[1..], ids);
      WithoutIs(ts[1..], ids);
      forall i | 0 <= i < |w| ensures w[i].id != ts[0].id {
        assert w[i] in ts[1..];
      }
    }
  }

  /** Members, distinctness and length of the list after a compaction. */
  lemma ReplaceMembers(ts: seq<Table>, ids: set<nat>, out: Table)
    requires DistinctIds(ts) && !HasTable(ts, out.id)
    ensures DistinctIds(Replace(ts, ids, out))
    ensures forall t :: t in Replace(ts, ids, out) <==> t == out || (t in ts && t.id !in ids)
  {
    WithoutDistinct(ts, ids);
    WithoutIs(ts, ids);
    var rest := Without(ts, ids);
    var q :| 0 <= q <= |rest| && Replace(ts, ids, out) == rest[..q] + [out] + rest[q..];
    forall i | 0 <= i < |rest| ensures rest[i].id != out.id {
      assert rest[i] in ts;
    }
    InsertMembers(rest, q, out);
  }

  lemma InsertMembers(rest: seq<Table>, q: nat, out: Table)
    requires q <= |rest| && DistinctIds(rest) && forall i :: 0 <= i < |rest| ==> rest[i].id != out.id
    ensures DistinctIds(rest[..q] + [out] + rest[q..])
    ensures forall t :: t in rest[..q] + [out] + rest[q..] <==> t == out || t in rest
  {
    var r := rest[..q] + [out] + rest[q..];
    forall i, j | 0 <= i < j < |r| ensures r[i].id != r[j].id {
      assert r[i] == if i < q then rest[i] else if i == q then out else rest[i - 1];
      assert r[j] == if j < q then rest[j] else if j == q then out else rest[j - 1];
    }
    assert rest == rest[..q] + rest[q..];
  }

  lemma InList(ts: seq<Table>, t: Table)
    requires t in ts
    ensures HasTable(ts, t.id)
  {
  }

  lemma SameId(ts: seq<Table>, t: Table, u: Table)
    requires DistinctIds(ts) && t in ts && u in ts && t.id == u.id
    ensures t == u
  {
  }

  // ---- steps -------------------------------------------------------------------------

  /** A step that moves no claim and touches neither the lists nor the counters. */
  ghost predicate SameCatalog(s: State, s': State) {
    && s'.manifest == s.manifest && s'.sstables == s.sstables && s'.version == s.version
    && s'.nextId == s.nextId && s'.nextEpoch >= s.nextEpoch
    && (FlushClaim(s'.flusher).Some? ==> FlushClaim(s'.flusher) == FlushClaim(s.flusher))
    && (forall j: nat, id: nat :: Claims(s', j, id) ==> Claims(s, j, id))
  }

  /** Claims that stay unused, of which none is new. */
  lemma ClaimsFrame(s: State, s': State)
    requires ClaimsOk(s)
    requires FlushClaim(s'.flusher).Some? ==>
               FlushClaim(s'.flusher) == FlushClaim(s.flusher) && Unused(s', FlushClaim(s'.flusher).value)
    requires forall j: nat, id: nat :: Claims(s', j, id) ==> Claims(s, j, id) && Unused(s', id)
    ensures ClaimsOk(s')
  {
    forall i: nat, j: nat, id: nat | Claims(s', i, id) && Claims(s', j, id) ensures i == j {
      assert Claims(s, i, id) && Claims(s, j, id);
    }
  }

  lemma SameCatalogOk(s: State, s': State)
    requires CatalogOk(s) && SameCatalog(s, s')
    ensures CatalogOk(s')
  {
    forall j: nat, id: nat | Claims(s', j, id) ensures Claims(s, j, id) && Unused(s', id) {
      assert Claims(s, j, id);
    }
    ClaimsFrame(s, s');
  }

  lemma PublishFlushCatalog(a: Action, s: State)
    requires CatalogOk(s) && a.PublishFlush? && Enabled(a, s)
    ensures CatalogOk(Apply(a, s))
  {
    var s' := Apply(a, s);
    var t := Table(s.flusher.id, s.flusher.mem);
    assert Unused(s, t.id);
    assert Ids(s'.sstables) == [t.id] + Ids(s.sstables);
    forall i | 0 <= i < |s.sstables| ensures s.sstables[i].id != t.id {
      assert HasTable(s.sstables, s.sstables[i].id);
    }
    forall j: nat, id: nat | Claims(s', j, id) ensures Claims(s, j, id) && Unused(s', id) {
      assert Claims(s, j, id) && Unused(s, id);
      StillUnused(s, s', id, t);
    }
    ClaimsFrame(s, s');
  }

  lemma StillUnused(s: State, s': State, id: nat, t: Table)
    requires Unused(s, id) && id != t.id && s'.nextId >= s.nextId
    requires forall u :: u in s'.sstables ==> u == t || u in s.sstables
    ensures Unused(s', id)
  {
    forall i | 0 <= i < |s'.sstables| ensures s'.sstables[i].id != id {
      assert s'.sstables[i] in s'.sstables;
    }
  }

  lemma ReserveOutIdCatalog(a: Action, s: State)
    requires CatalogOk(s) && a.ReserveOutId? && Enabled(a, s)
    ensures CatalogOk(Apply(a, s))
  {
    var s' := Apply(a, s);
    assert !HasTable(s.sstables, s.nextId);
    forall j: nat, id: nat | Claims(s', j, id) ensures Unused(s', id) && FlushClaim(s'.flusher) != Some(id) {
      assert j != a.j ==> Claims(s, j, id) && Unused(s, id);
    }
    forall i: nat, j: nat, id: nat | Claims(s', i, id) && Claims(s', j, id) ensures i == j {
      assert i != a.j ==> Claims(s, i, id) && Unused(s, id);
      assert j != a.j ==> Claims(s, j, id) && Unused(s, id);
    }
  }

  lemma PublishJobCatalog(a: Action, s: State)
    requires CatalogOk(s) && a.PublishJob? && Enabled(a, s)
    ensures CatalogOk(Apply(a, s))
  {
    var s' := Apply(a, s);
    var t, ids := s.jobs[a.j].phase.table, Inputs(s.jobs[a.j]);
    assert Claims(s, a.j, t.id) && Unused(s, t.id);
    IdsOfReplace(s.sstables, ids, t);
    ReplaceMembers(s.sstables, ids, t);
    forall i | 0 <= i < |s'.sstables| ensures s'.sstables[i].id < s'.manifest.nextId {
      assert s'.sstables[i] in s'.sstables;
    }
    forall j: nat, id: nat | Claims(s', j, id) ensures Claims(s, j, id) && Unused(s', id) {
      assert Claims(s, j, id) && Unused(s, id) && j != a.j;
      StillUnused(s, s', id, t);
    }
    if FlushClaim(s.flusher).Some? {
      StillUnused(s, s', FlushClaim(s.flusher).value, t);
    }
    ClaimsFrame(s, s');
  }

  lemma ReserveFlushIdCatalog(a: Action, s: State)
    requires CatalogOk(s) && a.ReserveFlushId? && Enabled(a, s)
    ensures CatalogOk(Apply(a, s))
  {
    var s' := Apply(a, s);
    assert !HasTable(s.sstables, s.nextId);
    forall j: nat, id: nat | Claims(s', j, id) ensures Unused(s', id) && FlushClaim(s'.flusher) != Some(id) {
      assert Claims(s, j, id) && Unused(s, id);
    }
    forall i: nat, j: nat, id: nat | Claims(s', i, id) && Claims(s', j, id) ensures i == j {
      assert Claims(s, i, id) && Claims(s, j, id);
    }
  }

  /** Ids, catalogue and published version stay in order under every interleaving. */
  lemma CatalogStep(a: Action, s: State)
    requires CatalogOk(s) && Enabled(a, s)
    ensures CatalogOk(Apply(a, s))
  {
    if IsJobAction(a) {
      JobCatalogStep(a, s);
    } else if a.PublishRotation? || a.DropEmpty? {
      RepublishCatalog(s, Apply(a, s));
    } else if a.ReserveFlushId? {
      ReserveFlushIdCatalog(a, s);
    } else if a.PublishFlush? {
      PublishFlushCatalog(a, s);
    } else {
      SameCatalogOk(s, Apply(a, s));
    }
  }

  lemma JobCatalogStep(a: Action, s: State)
    requires CatalogOk(s) && Enabled(a, s) && IsJobAction(a)
    ensures CatalogOk(Apply(a, s))
  {
    if a.ReserveOutId? {
      ReserveOutIdCatalog(a, s);
    } else if a.PublishJob? {
      PublishJobCatalog(a, s);
    } else {
      SameCatalogOk(s, Apply(a, s));
    }
  }

  lemma RepublishCatalog(s: State, s': State)
    requires CatalogOk(s) && SameCatalog(s, s'.(version := s.version, nextEpoch := s.nextEpoch))
    requires s'.version.sstables == s.sstables && s'.version.epoch == s.nextEpoch && s'.nextEpoch == s.nextEpoch + 1
    ensures CatalogOk(s')
  {
    var m := s'.(version := s.version, nextEpoch := s.nextEpoch);
    SameCatalogOk(s, m);
    forall j: nat, id: nat | Claims(s', j, id) ensures Claims(m, j, id) && Unused(s', id) {
      assert Claims(m, j, id) && Unused(m, id);
    }
    ClaimsFrame(m, s');
  }
}
