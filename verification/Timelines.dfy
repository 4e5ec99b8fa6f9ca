/** Timelines: everything that can happen to the store from its first start on. Any enabled step
    may come next, a compaction may merge whatever it picked, and a crash may come at any point,
    with a restart under any configuration whose replay may break off anywhere. What holds here
    asks nothing of compactions or of the log. */
module Timelines {
  import opened Entries
  import opened Levels
  import opened Engine
  import opened Catalog
  import opened Jobs
  import opened Files
  import opened Reads
  import opened Recovery

  /** A crash, orphan cleanup and LsmEngine::new, perhaps with another configuration. */
  ghost predicate AnyRestart(s: State, s': State) {
    exists c, fulls, kept :: RestartsAs(s.(cfg := c), fulls, kept, s')
  }

  ghost predicate RestartsAs(s: State, fulls: seq<bool>, kept: map<nat, Mem>, s': State) {
    |fulls| == |LogOf(s.wal)| && CleansOrphans(s, kept) && s' == Restart(s, fulls, kept)
  }

  ghost predicate TimelineAt(life: seq<State>, i: int)
    requires 0 < i < |life|
  {
    AnyStep(life[i - 1], life[i]) || AnyRestart(life[i - 1], life[i])
  }

  ghost predicate IsTimeline(life: seq<State>) {
    |life| > 0 && Init(life[0]) && forall i :: 0 < i < |life| ==> TimelineAt(life, i)
  }

  /** No crash from i to j. */
  ghost predicate Uninterrupted(life: seq<State>, i: nat, j: nat)
    requires j < |life|
  {
    forall x :: i < x <= j ==> SteppedAt(life, x)
  }

  ghost predicate SteppedAt(life: seq<State>, i: int)
    requires 0 < i < |life|
  {
    AnyStep(life[i - 1], life[i])
  }

  // ---- catalogue, jobs and files ------------------------------------------------------------------

  ghost predicate Sane(s: State) { CatalogOk(s) && JobsOk(s) && FilesOk(s) }

  lemma SaneStep(s: State, s': State)
    requires Sane(s) && AnyStep(s, s')
    ensures Sane(s')
  {
    var a :| Enabled(a, s) && s' == Apply(a, s);
    CatalogStep(a, s);
    JobsStep(a, s);
    FilesStep(a, s);
  }

  /** What a restart brings back: the same tables, under nobody's claim. */
  ghost predicate Reopened(s: State, s': State) {
    && Sane(s') && s'.sstables == s.sstables && s'.manifest == s.manifest && s'.version.sstables == s.sstables
    && s'.flusher.NoFlush? && s'.jobs == map[] && s'.pins == map[] && s'.pending == [] && s'.doomed.None?
  }

  lemma SaneRestart(s: State, s': State)
    requires Sane(s) && AnyRestart(s, s')
    ensures Reopened(s, s')
  {
    var c, fulls, kept :| RestartsAs(s.(cfg := c), fulls, kept, s');
    OtherConfig(s, c);
    RestartCatalog(s.(cfg := c), fulls, kept, s');
    ReopenedTables(s.(cfg := c), kept);
  }

  lemma OtherConfig(s: State, c: Config)
    requires CatalogOk(s) && FilesOk(s)
    ensures CatalogOk(s.(cfg := c)) && FilesOk(s.(cfg := c))
  {
    SameCatalogOk(s, s.(cfg := c));
    QuieterOk(s, s.(cfg := c));
  }

  lemma InitSane(s: State)
    requires Init(s)
    ensures Sane(s)
  {
    InitSound(s);
  }

  lemma SaneNext(life: seq<State>, i: nat)
    requires IsTimeline(life) && 0 < i < |life| && Sane(life[i - 1])
    ensures Sane(life[i])
  {
    assert TimelineAt(life, i);
    if AnyStep(life[i - 1], life[i]) {
      SaneStep(life[i - 1], life[i]);
    } else {
      SaneRestart(life[i - 1], life[i]);
    }
  }

  lemma {:induction false} TimelineSane(life: seq<State>, i: nat)
    requires IsTimeline(life) && i < |life|
    ensures Sane(life[i])
  {
    if i == 0 {
      InitSane(life[0]);
    } else {
      TimelineSane(life, i - 1);
      SaneNext(life, i);
    }
  }

  /** In every state of every timeline the catalogue and the open tables name the same ids in the
      same order; ids are distinct and below the durable counter, which is at most the one ids are
      taken from; and the published version holds the open tables. */
  lemma CatalogAgrees(life: seq<State>, i: nat)
    requires IsTimeline(life) && i < |life|
    ensures var s := life[i];
            && s.manifest.tables == Ids(s.sstables) && DistinctIds(s.sstables) && s.version.sstables == s.sstables
            && (forall x :: 0 <= x < |s.sstables| ==> s.sstables[x].id < s.manifest.nextId <= s.nextId)
  {
    TimelineSane(life, i);
  }

  /** In every state of every timeline the marked tables are exactly the inputs of the jobs, no
      two jobs share one, the slot counter counts the jobs that hold a slot and is within the
      limit, a job that holds handles holds live tables, its two or more inputs, and what it is about
      to publish is their merge. */
  lemma JobsKeepApart(life: seq<State>, i: nat)
    requires IsTimeline(life) && i < |life|
    ensures var s := life[i];
            && (forall id :: id in s.marks <==> exists j :: j in s.jobs && id in Inputs(s.jobs[j]))
            && (forall j, k :: j in s.jobs && k in s.jobs && j != k ==> Inputs(s.jobs[j]) !! Inputs(s.jobs[k]))
            && s.slots == |SlotHolders(s.jobs)| <= SlotLimit(s)
            && (forall j :: j in s.jobs && HoldsInputs(s.jobs[j]) ==> InputsLive(s, s.jobs[j]))
            && (forall j :: j in s.jobs ==> |s.jobs[j].ids| >= 2)
            && (forall j :: j in s.jobs && s.jobs[j].phase.OutWritten? ==>
                  s.jobs[j].phase.table.content == MergeAll(Contents(s.jobs[j].handles)))
  {
    TimelineSane(life, i);
    var s := life[i];
    forall j | j in s.jobs ensures Inputs(s.jobs[j]) <= s.marks && JobOk(s, s.jobs[j]) {}
    forall j, k | j in s.jobs && k in s.jobs && j != k ensures Inputs(s.jobs[j]) !! Inputs(s.jobs[k]) {
      assert DisjointJobs(s, j, k);
    }
  }

  /** Files outlive their references, crashes and orphan cleanup included: in every state of every
      timeline each catalogued table, each table of a pinned version and each input of a job has
      its file, and a file about to be deleted is out of everyone's reach. */
  lemma FilesStay(life: seq<State>, i: nat)
    requires IsTimeline(life) && i < |life|
    ensures ReferencesOnDisk(life[i]) && DoomedOutOfReach(life[i])
  {
    TimelineSane(life, i);
    FilesOutliveReferences(life[i]);
  }

  // ---- contiguous picks ---------------------------------------------------------------------------

  /** Job number j holds the handles of its inputs in every state from i to m. */
  ghost predicate HoldsThroughout(life: seq<State>, i: nat, m: nat, j: nat)
    requires i <= m < |life|
  {
    forall x :: i <= x <= m ==> Holding(life[x], j)
  }

  /** A job that picked neighbouring tables is safe to publish whenever it gets there, whatever
      flushes and other jobs did meanwhile. */
  lemma {:induction false} ContiguousPickStaysSafe(life: seq<State>, i: nat, m: nat, j: nat)
    requires IsTimeline(life) && i <= m < |life| && HoldsThroughout(life, i, m, j)
    requires Contiguous(life[i].sstables, Inputs(life[i].jobs[j]))
    ensures Contiguous(life[m].sstables, Inputs(life[m].jobs[j]))
    ensures SafeInputs(life[m].sstables, Inputs(life[m].jobs[j]))
    ensures SameJob(life[i], life[m], j)
  {
    if i < m {
      ContiguousPickStaysSafe(life, i, m - 1, j);
      HeldNext(life, m, j);
    }
    ContiguousIsSafe(life[m].sstables, Inputs(life[m].jobs[j]));
  }

  lemma HeldNext(life: seq<State>, m: nat, j: nat)
    requires IsTimeline(life) && 0 < m < |life| && Holding(life[m - 1], j) && Holding(life[m], j)
    requires Contiguous(life[m - 1].sstables, Inputs(life[m - 1].jobs[j]))
    ensures Contiguous(life[m].sstables, Inputs(life[m].jobs[j])) && SameJob(life[m - 1], life[m], j)
  {
    TimelineSane(life, m - 1);
    assert TimelineAt(life, m);
    if AnyRestart(life[m - 1], life[m]) {
      SaneRestart(life[m - 1], life[m]);
      assert false;
    }
    HeldJobStep(life[m - 1], life[m], j);
  }
}
