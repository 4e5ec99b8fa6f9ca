/** Runs: whole-run refinement, linearizable two-step reads, and compactions that picked
    neighbouring tables. */
module Reads {
  import opened Entries
  import opened Levels
  import opened Engine
  import opened Frames
  import opened Catalog
  import opened Jobs
  import opened EngineView

  ghost predicate Good(s: State) { CatalogOk(s) && JobsOk(s) && ViewOk(s) }

  lemma GoodStep(s: State, s': State)
    requires Good(s) && Step(s, s')
    ensures Good(s')
  {
    var a :| Enabled(a, s) && Benign(a, s) && s' == Apply(a, s);
    CatalogStep(a, s);
    JobsStep(a, s);
    ViewStep(a, s);
  }

  lemma InitGood(s: State)
    requires Init(s)
    ensures Good(s)
  {
    assert Contents(s.sstables) == [] && Reversed(s.immutables) == [];
    assert View(s) == [map[]] && View(s)[1..] == [];
    assert SlotHolders(s.jobs) == {};
    assert Ids(s.sstables) == [];
    assert s.version.Levels() == [] == Live(s);
    forall k ensures AnswersAt(s.hist, View(s), k) {
      ViewHit(s, k);
    }
  }

  lemma {:induction false} RunGood(run: seq<State>, i: nat)
    requires IsRun(run) && Good(run[0]) && i < |run|
    ensures Good(run[i])
  {
    if i > 0 {
      RunGood(run, i - 1);
      GoodNext(run, i);
    }
  }

  lemma GoodNext(run: seq<State>, i: nat)
    requires IsRun(run) && 0 < i < |run| && Good(run[i - 1])
    ensures Good(run[i])
  {
    assert StepAt(run, i);
    GoodStep(run[i - 1], run[i]);
  }

  /** Whole-run refinement: in every state of every run, each key reads as the fold of the
      writes accepted so far, and that is its newest cell anywhere in the store. */
  lemma {:induction false} RunRefinesMap(run: seq<State>, i: nat, k: Key)
    requires IsRun(run) && Good(run[0]) && i < |run|
    ensures FirstHit(View(run[i]), k) == Get(Fold(run[i].hist), k)
    ensures FirstIsNewest(View(run[i]), k)
  {
    RunGood(run, i);
    assert AnswersAt(run[i].hist, View(run[i]), k);
    SpecIsNewest(run[i].hist, View(run[i]), k);
  }

  // ---- reads ------------------------------------------------------------------------------

  /** c is what the map held for k at some instant from i to j. */
  ghost predicate HeldBetween(run: seq<State>, i: nat, j: nat, k: Key, c: Option<Cell>)
    requires i <= j < |run|
  {
    exists x :: i <= x <= j && c == Get(Fold(run[x].hist), k)
  }

  /** What one step may do to the answers a waiting reader can still get for k. */
  ghost predicate ReadStable(s: State, s': State, k: Key) {
    && (FirstHit(Live(s'), k) == FirstHit(Live(s), k) || FirstHit(Live(s'), k) == Get(Fold(s'.hist), k))
    && FirstIsNewest(Live(s'), k)
    && (s'.version == s.version || s'.version.Levels() == Live(s'))
  }

  lemma DropEmptyReads(a: Action, s: State, k: Key)
    requires Good(s) && a.DropEmpty? && Enabled(a, s) && FirstIsNewest(Live(s), k)
    ensures ReadStable(s, Apply(a, s), k)
  {
    var rev, ts := Reversed(s.immutables[1..]), Contents(s.sstables);
    ReversedCons(s.immutables[0], s.immutables[1..]);
    assert s.immutables == [s.immutables[0]] + s.immutables[1..];
    DropEmptyLevel(rev, ts, k);
  }

  lemma PublishJobReads(a: Action, s: State, k: Key)
    requires Good(s) && a.PublishJob? && Enabled(a, s) && Benign(a, s) && FirstIsNewest(Live(s), k)
    ensures ReadStable(s, Apply(a, s), k)
  {
    var s' := Apply(a, s);
    var t, ids := s.jobs[a.j].phase.table, Inputs(s.jobs[a.j]);
    OutputIsMerge(s, a.j);
    assert MergedAt(s.sstables, ids, t.content, k) && SafeFor(s.sstables, ids, k);
    var rev := Reversed(s.immutables);
    CompactionKeepsHit(rev, s.sstables, ids, t, k);
    forall i | 0 <= i < |Live(s')| && k in Live(s')[i]
      ensures FirstHit(Live(s), k).Some? && NotNewer(Live(s')[i][k], FirstHit(Live(s), k).value)
    {
      var j := CellOrigin(rev, s.sstables, ids, t, k, i);
    }
  }

  /** Each cell of k in the compacted list was in the list before. */
  lemma CellOrigin(above: seq<Mem>, ts: seq<Table>, ids: set<nat>, out: Table, k: Key, i: nat) returns (j: nat)
    requires MergedAt(ts, ids, out.content, k)
    requires i < |above + Contents(Replace(ts, ids, out))| && k in (above + Contents(Replace(ts, ids, out)))[i]
    ensures j < |above + Contents(ts)| && k in (above + Contents(ts))[j]
    ensures (above + Contents(ts))[j][k] == (above + Contents(Replace(ts, ids, out)))[i][k]
  {
    if i < |above| {
      j := i;
    } else {
      var t := Replace(ts, ids, out)[i - |above|];
      ReplaceOrigin(ts, ids, out, i - |above|);
      var x: nat;
      if t == out {
        var w :| IsSource(ts, ids, k, w) && ts[w].content[k] == out.content[k];
        x := w;
      } else {
        var w :| 0 <= w < |ts| && ts[w] == t;
        x := w;
      }
      j := |above| + x;
    }
  }

  lemma FreezeReads(a: Action, s: State, k: Key)
    requires Good(s) && a.Freeze? && Enabled(a, s)
    ensures ReadStable(s, Apply(a, s), k)
  {
    assert Live(Apply(a, s)) == View(s);
    assert AnswersAt(s.hist, View(s), k);
    SpecIsNewest(s.hist, View(s), k);
  }

  lemma RepublishReads(a: Action, s: State, k: Key)
    requires Good(s) && (a.PublishRotation? || a.PublishFlush?) && Enabled(a, s) && FirstIsNewest(Live(s), k)
    ensures ReadStable(s, Apply(a, s), k)
  {
    if a.PublishFlush? {
      PublishFlushView(a, s);
    }
    assert Live(Apply(a, s)) == Live(s);
  }

  lemma OtherReads(a: Action, s: State)
    requires Enabled(a, s)
    requires !a.Freeze? && !a.PublishRotation? && !a.PublishFlush? && !a.DropEmpty? && !a.PublishJob?
    ensures Apply(a, s).immutables == s.immutables
    ensures Apply(a, s).sstables == s.sstables && Apply(a, s).version == s.version
  {
    if IsJobAction(a) {
      JobFrame(a, s);
    } else if IsFlushAction(a) {
      FlushFrame(a, s);
    } else {
      OtherFrame(a, s);
    }
  }

  lemma ReadStep(a: Action, s: State, k: Key)
    requires Good(s) && Enabled(a, s) && Benign(a, s) && FirstIsNewest(Live(s), k)
    ensures ReadStable(s, Apply(a, s), k)
  {
    if a.Freeze? {
      FreezeReads(a, s, k);
    } else if a.PublishFlush? || a.PublishRotation? {
      RepublishReads(a, s, k);
    } else if a.DropEmpty? {
      DropEmptyReads(a, s, k);
    } else if a.PublishJob? {
      PublishJobReads(a, s, k);
    } else {
      OtherReads(a, s);
    }
  }

  lemma AnyReadStep(s: State, s': State, k: Key)
    requires Good(s) && Step(s, s') && FirstIsNewest(Live(s), k)
    ensures ReadStable(s, s', k)
  {
    var a :| Enabled(a, s) && Benign(a, s) && s' == Apply(a, s);
    ReadStep(a, s, k);
  }

  /** A reader that missed the active memtable now would get the map's value from the version. */
  lemma {:induction false} FreshRead(s: State, k: Key)
    requires Good(s) && k !in s.active
    ensures FirstHit(s.version.Levels(), k) == Get(Fold(s.hist), k)
    ensures FirstHit(Live(s), k) == Get(Fold(s.hist), k) && FirstIsNewest(Live(s), k)
  {
    assert AnswersAt(s.hist, View(s), k);
    ViewHit(s, k);
    GenuineLive(s);
    SpecIsNewest(s.hist, Live(s), k);
    if s.writer.Frozen? {
      assert AnswersAt(s.hist, s.version.Levels(), k);
    }
  }

  /** A reader that missed the active memtable in state i still answers within its interval
      in state j, from the version or from the structures to be published next. */
  ghost predicate Waits(run: seq<State>, i: nat, j: nat, k: Key)
    requires i <= j < |run|
  {
    && HeldBetween(run, i, j, k, FirstHit(run[j].version.Levels(), k))
    && HeldBetween(run, i, j, k, FirstHit(Live(run[j]), k))
    && FirstIsNewest(Live(run[j]), k)
  }

  lemma {:induction false} WaitingRead(run: seq<State>, i: nat, j: nat, k: Key)
    requires IsRun(run) && Good(run[0]) && i <= j < |run| && k !in run[i].active
    ensures Waits(run, i, j, k)
  {
    if i == j {
      StartsWaiting(run, i, k);
    } else {
      WaitingRead(run, i, j - 1, k);
      StableAt(run, j, k);
      WaitingStep(run, i, j, k);
    }
  }

  lemma StartsWaiting(run: seq<State>, i: nat, k: Key)
    requires IsRun(run) && Good(run[0]) && i < |run| && k !in run[i].active
    ensures Waits(run, i, i, k)
  {
    RunGood(run, i);
    FreshRead(run[i], k);
  }

  lemma StableAt(run: seq<State>, j: nat, k: Key)
    requires IsRun(run) && Good(run[0]) && 0 < j < |run| && FirstIsNewest(Live(run[j - 1]), k)
    ensures ReadStable(run[j - 1], run[j], k)
  {
    GoodBefore(run, j);
    AnyReadStep(run[j - 1], run[j], k);
  }

  lemma WaitingStep(run: seq<State>, i: nat, j: nat, k: Key)
    requires i < j < |run| && Waits(run, i, j - 1, k) && ReadStable(run[j - 1], run[j], k)
    ensures Waits(run, i, j, k)
  {
    HeldLater(run, i, j, k, FirstHit(run[j - 1].version.Levels(), k));
    HeldLater(run, i, j, k, FirstHit(Live(run[j - 1]), k));
  }

  lemma HeldLater(run: seq<State>, i: nat, j: nat, k: Key, c: Option<Cell>)
    requires i < j < |run| && HeldBetween(run, i, j - 1, k, c)
    ensures HeldBetween(run, i, j, k, c)
  {
  }

  /** Linearizable reads: a get that looks at the active memtable in state i and, on a miss,
      at the version published in state j answers what the map held at some instant between. */
  lemma {:induction false} ReadLinearizes(run: seq<State>, i: nat, j: nat, k: Key)
    requires IsRun(run) && Good(run[0]) && i <= j < |run|
    ensures var answer := if k in run[i].active then Some(run[i].active[k]) else FirstHit(run[j].version.Levels(), k);
            HeldBetween(run, i, j, k, answer)
  {
    RunGood(run, i);
    if k in run[i].active {
      assert AnswersAt(run[i].hist, View(run[i]), k);
    } else {
      WaitingRead(run, i, j, k);
    }
  }

  // ---- contiguous picks -----------------------------------------------------------------

  ghost predicate AllIn(ts: seq<Table>, ids: set<nat>) {
    forall i :: 0 <= i < |ts| ==> ts[i].id in ids
  }

  ghost predicate NoneIn(ts: seq<Table>, ids: set<nat>) {
    forall i :: 0 <= i < |ts| ==> ts[i].id !in ids
  }

  lemma SplitInputs(x: seq<Table>, y: seq<Table>, z: seq<Table>, ids: set<nat>)
    requires NoneIn(x, ids) && AllIn(y, ids) && NoneIn(z, ids)
    ensures Contiguous(x + y + z, ids)
  {
    assert InputsAre(x + y + z, ids, |x|, |x| + |y|);
  }

  lemma JoinOutside(x: seq<Table>, out: Table, y: seq<Table>, ids: set<nat>)
    requires NoneIn(x, ids) && out.id !in ids && NoneIn(y, ids)
    ensures NoneIn(x + [out] + y, ids)
  {
  }

  lemma {:induction false} WithoutOutside(ts: seq<Table>, others: set<nat>, ids: set<nat>)
    requires NoneIn(ts, ids)
    ensures NoneIn(Without(ts, others), ids)
  {
    WithoutIs(ts, others);
    forall i | 0 <= i < |Without(ts, others)| ensures Without(ts, others)[i].id !in ids {
      assert Without(ts, others)[i] in ts;
    }
  }

  /** The parts of a list whose inputs are exactly the block from a to b. */
  lemma BlockParts(ts: seq<Table>, ids: set<nat>, a: nat, b: nat, p: nat)
    requires InputsAre(ts, ids, a, b) && p <= |ts|
    ensures AllIn(ts[a..b], ids) && NoneIn(ts[..a], ids) && NoneIn(ts[b..], ids)
    ensures p <= a ==> NoneIn(ts[..p], ids) && NoneIn(ts[p..a], ids)
    ensures b <= p ==> NoneIn(ts[b..p], ids) && NoneIn(ts[p..], ids)
  {
  }

  lemma NotInBlock(ts: seq<Table>, mine: set<nat>, others: set<nat>, a: nat, b: nat, p: nat)
    requires InputsAre(ts, mine, a, b) && mine !! others && p < |ts| && ts[p].id in others
    ensures p < a || b <= p
  {
  }

  /** Replacing other tables leaves a contiguous block contiguous. */
  lemma {:induction false} ReplaceKeepsBlock(ts: seq<Table>, mine: set<nat>, others: set<nat>, out: Table)
    requires Contiguous(ts, mine) && mine !! others && out.id !in mine && FirstIn(ts, others) < |ts|
    ensures Contiguous(Replace(ts, others, out), mine)
  {
    var a, b :| InputsAre(ts, mine, a, b);
    var p := FirstIn(ts, others);
    ReplaceShape(ts, others, out);
    if p < a {
      OutputBeforeBlock(ts, mine, others, out, a, b, p);
    } else {
      NotInBlock(ts, mine, others, a, b, p);
      OutputBehindBlock(ts, mine, others, out, a, b, p);
    }
  }

  lemma {:induction false} OutputBeforeBlock(ts: seq<Table>, mine: set<nat>, others: set<nat>, out: Table, a: nat,
                                             b: nat, p: nat)
    requires InputsAre(ts, mine, a, b) && mine !! others && out.id !in mine && p <= a
    ensures Contiguous(ts[..p] + [out] + Without(ts[p..], others), mine)
  {
    var mid, z := Without(ts[p..a], others), Without(ts[b..], others);
    assert Contiguous(ts[..p] + [out] + mid + ts[a..b] + z, mine) by {
      BlockParts(ts, mine, a, b, p);
      WithoutOutside(ts[p..a], others, mine);
      WithoutOutside(ts[b..], others, mine);
      JoinOutside(ts[..p], out, mid, mine);
      SplitInputs(ts[..p] + [out] + mid, ts[a..b], z, mine);
    }
    ReplaceBefore(ts, mine, others, a, b, p);
    Reassociate(ts[..p] + [out], mid, ts[a..b], z);
  }

  lemma Reassociate(x: seq<Table>, y: seq<Table>, z: seq<Table>, w: seq<Table>)
    ensures x + (y + z + w) == x + y + z + w
  {
  }

  lemma {:induction false} OutputBehindBlock(ts: seq<Table>, mine: set<nat>, others: set<nat>, out: Table, a: nat,
                                             b: nat, p: nat)
    requires InputsAre(ts, mine, a, b) && out.id !in mine && b <= p <= |ts|
    ensures Contiguous(ts[..p] + [out] + Without(ts[p..], others), mine)
  {
    var z := ts[b..p] + [out] + Without(ts[p..], others);
    BlockParts(ts, mine, a, b, p);
    WithoutOutside(ts[p..], others, mine);
    JoinOutside(ts[b..p], out, Without(ts[p..], others), mine);
    SplitInputs(ts[..a], ts[a..b], z, mine);
    assert ts[..p] + [out] + Without(ts[p..], others) == ts[..a] + ts[a..b] + z;
  }

  lemma {:induction false} ReplaceBefore(ts: seq<Table>, mine: set<nat>, others: set<nat>, a: nat, b: nat, p: nat)
    requires InputsAre(ts, mine, a, b) && mine !! others && p <= a
    ensures Without(ts[p..], others) == Without(ts[p..a], others) + ts[a..b] + Without(ts[b..], others)
  {
    assert ts[p..] == ts[p..a] + ts[a..b] + ts[b..];
    WithoutConcat(ts[p..a] + ts[a..b], ts[b..], others);
    WithoutConcat(ts[p..a], ts[a..b], others);
    BlockParts(ts, mine, a, b, p);
    WithoutNone(ts[a..b], others);
  }

  /** A step other than the job's own publication keeps its contiguous inputs contiguous. */
  lemma BlockStep(a: Action, s: State, job: Job)
    requires CatalogOk(s) && JobsOk(s) && Enabled(a, s) && InputsLive(s, job)
    requires a.PublishJob? ==> Inputs(job) !! Inputs(s.jobs[a.j])
    requires Contiguous(s.sstables, Inputs(job))
    ensures Contiguous(Apply(a, s).sstables, Inputs(job))
  {
    var ids := Inputs(job);
    if a.PublishFlush? {
      var t := Table(s.flusher.id, s.flusher.mem);
      LiveIds(s, job, t.id);
      var x, y :| InputsAre(s.sstables, ids, x, y);
      assert InputsAre([t] + s.sstables, ids, x + 1, y + 1);
    } else if a.PublishJob? {
      var t := s.jobs[a.j].phase.table;
      assert Claims(s, a.j, t.id);
      LiveIds(s, job, t.id);
      OutputIsMerge(s, a.j);
      ReplaceKeepsBlock(s.sstables, ids, Inputs(s.jobs[a.j]), t);
    } else {
      SameTables(a, s);
    }
  }

  lemma LiveIds(s: State, job: Job, id: nat)
    requires InputsLive(s, job) && Unused(s, id)
    ensures id !in Inputs(job)
  {
    forall i | 0 <= i < |job.ids| ensures job.ids[i] != id {
      InList(s.sstables, job.handles[i]);
    }
  }

  ghost predicate Holding(s: State, j: nat) { j in s.jobs && HoldsInputs(s.jobs[j]) }

  ghost predicate SameJob(s: State, s': State, j: nat)
    requires j in s.jobs && j in s'.jobs
  {
    s'.jobs[j].ids == s.jobs[j].ids && s'.jobs[j].handles == s.jobs[j].handles
  }

  lemma GoodBefore(run: seq<State>, m: nat)
    requires IsRun(run) && Good(run[0]) && 0 < m < |run|
    ensures Good(run[m - 1]) && Step(run[m - 1], run[m])
  {
    RunGood(run, m - 1);
    assert StepAt(run, m);
  }

  lemma HeldJobStep(s: State, s': State, j: nat)
    requires CatalogOk(s) && JobsOk(s) && AnyStep(s, s') && Holding(s, j) && Holding(s', j)
    requires Contiguous(s.sstables, Inputs(s.jobs[j]))
    ensures SameJob(s, s', j) && Contiguous(s'.sstables, Inputs(s.jobs[j]))
  {
    var a :| Enabled(a, s) && s' == Apply(a, s);
    HeldJobKeepsInputs(a, s, j);
    assert JobOk(s, s.jobs[j]);
    assert a.PublishJob? ==> DisjointJobs(s, j, a.j);
    BlockStep(a, s, s.jobs[j]);
  }

  lemma HeldJobKeepsInputs(a: Action, s: State, j: nat)
    requires Enabled(a, s) && Holding(s, j) && Holding(Apply(a, s), j)
    ensures SameJob(s, Apply(a, s), j) && (a.PublishJob? ==> a.j != j)
  {
    if !IsJobAction(a) || a.j != j {
      OtherJobStays(a, s, j);
    } else {
      OwnHandlesStay(a, s);
    }
  }

  lemma OwnHandlesStay(a: Action, s: State)
    requires Enabled(a, s) && IsJobAction(a) && Holding(s, a.j) && Holding(Apply(a, s), a.j)
    ensures SameJob(s, Apply(a, s), a.j) && !a.PublishJob?
  {
    assert a.ReserveOutId? || a.WriteOutput?;
  }
}
