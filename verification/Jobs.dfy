/** The compaction job protocol: reservation, live inputs, contiguity. */
module Jobs {
  import opened Entries
  import opened Levels
  import opened Engine
  import opened Frames
  import opened Catalog

  /** What JobsOk asks once every surviving job keeps its inputs. */
  lemma JobsFrame(s: State, s': State)
    requires JobsOk(s)
    requires forall j :: j in s'.jobs ==> j in s.jobs && s'.jobs[j].ids == s.jobs[j].ids && JobOk(s', s'.jobs[j])
    requires forall id :: id in s'.marks ==> exists j :: j in s'.jobs && id in Inputs(s'.jobs[j])
    requires s'.slots == |SlotHolders(s'.jobs)| <= SlotLimit(s')
    ensures JobsOk(s')
  {
    forall i, j ensures DisjointJobs(s', i, j) {
      assert DisjointJobs(s, i, j);
    }
  }

  /** The table lists may grow or lose tables, as long as no job's input goes. */
  lemma SameJobs(s: State, s': State)
    requires JobsOk(s) && s'.jobs == s.jobs && s'.marks == s.marks && s'.slots == s.slots && s'.cfg == s.cfg
    requires forall t :: t in s.sstables ==> t in s'.sstables
    ensures JobsOk(s')
  {
    forall j | j in s'.jobs ensures JobOk(s', s'.jobs[j]) {
      assert JobOk(s, s.jobs[j]);
    }
    JobsFrame(s, s');
  }

  /** One job moves on, keeping its ids; the tables stay. */
  lemma OneJobMoves(s: State, s': State, j: nat, job: Job)
    requires JobsOk(s) && j in s.jobs && job.ids == s.jobs[j].ids
    requires s'.jobs == s.jobs[j := job] && s'.marks == s.marks && s'.cfg == s.cfg && s'.sstables == s.sstables
    requires JobOk(s', job)
    requires HasSlot(job) == HasSlot(s.jobs[j]) && s'.slots == s.slots
    ensures JobsOk(s')
  {
    assert SlotHolders(s'.jobs) == SlotHolders(s.jobs);
    MarksCovered(s, s', j);
    forall i | i in s'.jobs ensures JobOk(s', s'.jobs[i]) {
      assert i != j ==> JobOk(s, s.jobs[i]);
    }
    JobsFrame(s, s');
  }

  lemma MarksCovered(s: State, s': State, j: nat)
    requires JobsOk(s) && j in s.jobs && j in s'.jobs && s'.jobs[j].ids == s.jobs[j].ids
    requires s'.jobs == s.jobs[j := s'.jobs[j]] && s'.marks == s.marks
    ensures forall id :: id in s'.marks ==> exists i :: i in s'.jobs && id in Inputs(s'.jobs[i])
  {
    forall id | id in s'.marks ensures exists i :: i in s'.jobs && id in Inputs(s'.jobs[i]) {
      var i :| i in s.jobs && id in Inputs(s.jobs[i]);
      assert i in s'.jobs && id in Inputs(s'.jobs[i]);
    }
  }

  lemma MarkJobKeeps(a: Action, s: State)
    requires JobsOk(s) && a.MarkJob? && Enabled(a, s)
    ensures JobsOk(Apply(a, s))
  {
    var s' := Apply(a, s);
    assert SlotHolders(s'.jobs) == SlotHolders(s.jobs);
    forall j | j in s'.jobs ensures JobOk(s', s'.jobs[j]) {
      assert j != a.j ==> JobOk(s, s.jobs[j]);
    }
    forall i, j ensures DisjointJobs(s', i, j) {
      assert DisjointJobs(s, i, j);
      assert i in s.jobs ==> JobOk(s, s.jobs[i]);
      assert j in s.jobs ==> JobOk(s, s.jobs[j]);
    }
    forall id | id in s'.marks ensures exists j :: j in s'.jobs && id in Inputs(s'.jobs[j]) {
      if id in s.marks {
        var j :| j in s.jobs && id in Inputs(s.jobs[j]);
        assert j in s'.jobs && id in Inputs(s'.jobs[j]);
      } else {
        assert a.j in s'.jobs && id in Inputs(s'.jobs[a.j]);
      }
    }
  }

  /** One job takes or returns a slot; nothing else of it changes. */
  lemma SlotMoves(s: State, s': State, j: nat, phase: JobPhase)
    requires JobsOk(s) && j in s.jobs && !phase.OutWritten? && !phase.Resolved? && !phase.GotOutId?
    requires s' == s.(jobs := s.jobs[j := s.jobs[j].(phase := phase)], slots := s'.slots)
    requires s'.slots == |SlotHolders(s'.jobs)| <= SlotLimit(s)
    ensures JobsOk(s')
  {
    MarksCovered(s, s', j);
    forall i | i in s'.jobs ensures JobOk(s', s'.jobs[i]) {
      assert JobOk(s, s.jobs[i]);
    }
    JobsFrame(s, s');
  }

  lemma SlotCount(jobs: map<nat, Job>, j: nat, job: Job)
    requires j in jobs
    ensures |SlotHolders(jobs[j := job])| ==
            |SlotHolders(jobs)| + (if HasSlot(job) then 1 else 0) - (if HasSlot(jobs[j]) then 1 else 0)
  {
    var before, after := SlotHolders(jobs), SlotHolders(jobs[j := job]);
    assert after == if HasSlot(job) then before + {j} else before - {j};
  }

  lemma ReserveSlotKeeps(a: Action, s: State)
    requires JobsOk(s) && a.ReserveSlot? && Enabled(a, s)
    ensures JobsOk(Apply(a, s))
  {
    SlotCount(s.jobs, a.j, s.jobs[a.j].(phase := Reserved));
    SlotMoves(s, Apply(a, s), a.j, Reserved);
  }

  lemma ReleaseSlotKeeps(a: Action, s: State)
    requires JobsOk(s) && a.ReleaseSlot? && Enabled(a, s)
    ensures JobsOk(Apply(a, s))
  {
    SlotCount(s.jobs, a.j, s.jobs[a.j].(phase := SlotFree));
    SlotMoves(s, Apply(a, s), a.j, SlotFree);
  }

  lemma RemoveJobKeeps(a: Action, s: State)
    requires JobsOk(s) && (a.RefuseJob? || a.ClearMarks?) && Enabled(a, s)
    ensures JobsOk(Apply(a, s))
  {
    var s' := Apply(a, s);
    assert SlotHolders(s'.jobs) == SlotHolders(s.jobs);
    forall j | j in s'.jobs ensures JobOk(s', s'.jobs[j]) {
      assert JobOk(s, s.jobs[j]) && DisjointJobs(s, j, a.j);
    }
    forall id | id in s'.marks ensures exists j :: j in s'.jobs && id in Inputs(s'.jobs[j]) {
      var j :| j in s.jobs && id in Inputs(s.jobs[j]);
      assert j in s'.jobs && id in Inputs(s'.jobs[j]);
    }
    JobsFrame(s, s');
  }

  lemma PublishJobKeeps(a: Action, s: State)
    requires JobsOk(s) && CatalogOk(s) && a.PublishJob? && Enabled(a, s)
    ensures JobsOk(Apply(a, s))
  {
    JobFrame(a, s);
    PublishJobFrame(a, s);
    assert Claims(s, a.j, s.jobs[a.j].phase.table.id);
    PublishedKeeps(s, Apply(a, s), a.j);
  }

  lemma PublishedKeeps(s: State, s': State, p: nat)
    requires JobsOk(s) && CatalogOk(s) && p in s.jobs && s.jobs[p].phase.OutWritten?
    requires Unused(s, s.jobs[p].phase.table.id)
    requires s'.jobs == s.jobs[p := s.jobs[p].(phase := Swapped)]
    requires s'.sstables == Replace(s.sstables, Inputs(s.jobs[p]), s.jobs[p].phase.table)
    requires s'.marks == s.marks && s'.slots == s.slots && s'.cfg == s.cfg
    ensures JobsOk(s')
  {
    var t, ids := s.jobs[p].phase.table, Inputs(s.jobs[p]);
    ReplaceMembers(s.sstables, ids, t);
    assert SlotHolders(s'.jobs) == SlotHolders(s.jobs);
    MarksCovered(s, s', p);
    forall j | j in s'.jobs ensures JobOk(s', s'.jobs[j]) {
      assert JobOk(s, s.jobs[j]) && DisjointJobs(s, j, p);
      if j != p && HoldsInputs(s.jobs[j]) {
        InputsSurvive(s, s', s.jobs[j], ids);
      }
    }
    JobsFrame(s, s');
  }

  lemma InputsSurvive(s: State, s': State, job: Job, gone: set<nat>)
    requires InputsLive(s, job) && Inputs(job) !! gone
    requires forall t :: t in s.sstables && t.id !in gone ==> t in s'.sstables
    ensures InputsLive(s', job)
  {
    forall i | 0 <= i < |job.ids| ensures job.handles[i] in s'.sstables {
      assert job.ids[i] in Inputs(job);
    }
  }

  /** Every interleaving keeps the reservation protocol and the jobs' inputs alive. */
  lemma JobsStep(a: Action, s: State)
    requires JobsOk(s) && CatalogOk(s) && Enabled(a, s)
    ensures JobsOk(Apply(a, s))
  {
    if IsJobAction(a) {
      JobActionKeeps(a, s);
    } else if IsFlushAction(a) {
      FlushKeepsJobs(a, s);
    } else {
      OtherFrame(a, s);
      SameJobs(s, Apply(a, s));
    }
  }

  lemma FlushKeepsJobs(a: Action, s: State)
    requires JobsOk(s) && Enabled(a, s) && IsFlushAction(a)
    ensures JobsOk(Apply(a, s))
  {
    FlushFrame(a, s);
    SameJobs(s, Apply(a, s));
  }

  lemma JobActionKeeps(a: Action, s: State)
    requires JobsOk(s) && CatalogOk(s) && Enabled(a, s) && IsJobAction(a)
    ensures JobsOk(Apply(a, s))
  {
    if a.MarkJob? {
      MarkJobKeeps(a, s);
    } else if a.ReserveSlot? {
      ReserveSlotKeeps(a, s);
    } else if a.ReleaseSlot? {
      ReleaseSlotKeeps(a, s);
    } else if a.RefuseJob? || a.ClearMarks? {
      RemoveJobKeeps(a, s);
    } else if a.PublishJob? {
      PublishJobKeeps(a, s);
    } else {
      PhaseKeeps(a, s);
    }
  }

  lemma PhaseKeeps(a: Action, s: State)
    requires JobsOk(s) && Enabled(a, s)
    requires a.ResolveJob? || a.FailJob? || a.ReserveOutId? || a.WriteOutput? || a.RetireInputs?
    ensures JobsOk(Apply(a, s))
  {
    assert JobOk(s, s.jobs[a.j]);
    OneJobMoves(s, Apply(a, s), a.j, Apply(a, s).jobs[a.j]);
  }

  /** A published merge is exactly the merge of the live tables with the job's ids. */
  lemma OutputIsMerge(s: State, j: nat)
    requires CatalogOk(s) && JobsOk(s) && j in s.jobs && s.jobs[j].phase.OutWritten?
    ensures IsMergeOf(s.sstables, Inputs(s.jobs[j]), s.jobs[j].phase.table.content)
    ensures FirstIn(s.sstables, Inputs(s.jobs[j])) < |s.sstables|
  {
    var job := s.jobs[j];
    assert JobOk(s, job);
    forall k ensures MergedAt(s.sstables, Inputs(job), job.phase.table.content, k) {
      MergeIsComplete(s.sstables, job, k);
    }
    var i :| 0 <= i < |s.sstables| && s.sstables[i] == job.handles[0];
    assert job.ids[0] in Inputs(job);
  }

  lemma MergeIsComplete(ts: seq<Table>, job: Job, k: Key)
    requires DistinctIds(ts) && |job.handles| == |job.ids|
    requires forall i :: 0 <= i < |job.ids| ==> job.handles[i].id == job.ids[i] && job.handles[i] in ts
    ensures MergedAt(ts, Inputs(job), MergeAll(Contents(job.handles)), k)
  {
    var ms := Contents(job.handles);
    var m := MergeAll(ms);
    BestIsNewest(ms, k);
    assert Get(m, k) == Best(ms, k);
    forall i | IsSource(ts, Inputs(job), k, i) ensures k in m && ts[i].content[k].seqNo <= m[k].seqNo {
      var h :| 0 <= h < |job.ids| && job.ids[h] == ts[i].id;
      SameId(ts, job.handles[h], ts[i]);
      assert ms[h] == ts[i].content;
    }
    if k in m {
      var h :| 0 <= h < |ms| && k in ms[h] && ms[h][k] == m[k];
      var i :| 0 <= i < |ts| && ts[i] == job.handles[h];
      assert job.ids[h] in Inputs(job);
      assert IsSource(ts, Inputs(job), k, i);
    }
  }
}
