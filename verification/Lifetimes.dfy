/** Along a timeline, crashes included: ids are never reused, published epochs strictly increase,
    and a table that nobody can reach stays out of reach. */
module Lifetimes {
  import opened Entries
  import opened Levels
  import opened Engine
  import opened Frames
  import opened Catalog
  import opened Jobs
  import opened Reads
  import opened Files
  import opened Recovery
  import opened Timelines

  // ---- ids ------------------------------------------------------------------------------

  /** The id is spent for good, as the manifest says, and the only live tables under it are
      among ts. */
  ghost predicate Spent(s: State, id: nat, ts: set<Table>) {
    && id < s.manifest.nextId && !Claimed(s, id)
    && forall t :: t in s.sstables && t.id == id ==> t in ts
  }

  /** No claim on a spent id can appear later. */
  lemma StaysUnclaimed(a: Action, s: State, id: nat)
    requires Enabled(a, s) && id < s.nextId && !Claimed(s, id)
    ensures !Claimed(Apply(a, s), id) && id < Apply(a, s).nextId
  {
    if IsJobAction(a) {
      JobClaimsNothing(a, s, id);
    } else if IsFlushAction(a) {
      FlushClaimsNothing(a, s, id);
    } else {
      SameClaims(a, s, id);
    }
  }

  lemma JobClaimsNothing(a: Action, s: State, id: nat)
    requires IsJobAction(a) && Enabled(a, s) && id < s.nextId && !Claimed(s, id)
    ensures !Claimed(Apply(a, s), id) && id < Apply(a, s).nextId
  {
    var s' := Apply(a, s);
    forall j: nat ensures !Claims(s', j, id) {
      assert !Claims(s, j, id);
      if j != a.j {
        OtherJobStays(a, s, j);
      } else {
        OwnJob(a, s, id);
      }
    }
  }

  lemma OwnJob(a: Action, s: State, id: nat)
    requires IsJobAction(a) && Enabled(a, s) && id < s.nextId && !Claims(s, a.j, id)
    ensures !Claims(Apply(a, s), a.j, id)
  {
  }

  lemma FlushClaimsNothing(a: Action, s: State, id: nat)
    requires IsFlushAction(a) && Enabled(a, s) && id < s.nextId && !Claimed(s, id)
    ensures !Claimed(Apply(a, s), id) && id < Apply(a, s).nextId
  {
    forall j: nat ensures !Claims(Apply(a, s), j, id) {
      assert !Claims(s, j, id);
    }
  }

  lemma SameClaims(a: Action, s: State, id: nat)
    requires !IsJobAction(a) && !IsFlushAction(a) && Enabled(a, s) && !Claimed(s, id)
    ensures !Claimed(Apply(a, s), id) && Apply(a, s).nextId == s.nextId
  {
    forall j: nat ensures !Claims(Apply(a, s), j, id) {
      assert !Claims(s, j, id);
    }
  }

  /** Every new live table has an id that was claimed for it. */
  lemma NewTableWasClaimed(a: Action, s: State, t: Table)
    requires CatalogOk(s) && Enabled(a, s) && t in Apply(a, s).sstables && t !in s.sstables
    ensures Claimed(s, t.id)
  {
    if a.PublishJob? {
      var out := s.jobs[a.j].phase.table;
      assert Claims(s, a.j, out.id) && Unused(s, out.id);
      ReplaceMembers(s.sstables, Inputs(s.jobs[a.j]), out);
    } else if !a.PublishFlush? {
      SameTables(a, s);
    }
  }

  lemma CounterGrows(a: Action, s: State)
    requires CatalogOk(s) && Enabled(a, s)
    ensures Apply(a, s).manifest.nextId >= s.manifest.nextId
  {
    if !a.PublishFlush? && !a.PublishJob? {
      SameTables(a, s);
    }
  }

  lemma SpentStep(a: Action, s: State, id: nat, ts: set<Table>)
    requires CatalogOk(s) && Enabled(a, s) && Spent(s, id, ts)
    ensures Spent(Apply(a, s), id, ts)
  {
    StaysUnclaimed(a, s, id);
    CounterGrows(a, s);
    forall t | t in Apply(a, s).sstables && t.id == id ensures t in ts {
      if t !in s.sstables {
        NewTableWasClaimed(a, s, t);
      }
    }
  }

  lemma SpentRestart(s: State, s': State, id: nat, ts: set<Table>)
    requires Sane(s) && AnyRestart(s, s') && Spent(s, id, ts)
    ensures Spent(s', id, ts)
  {
    SaneRestart(s, s');
  }

  lemma {:induction false} StaysSpent(life: seq<State>, i: nat, j: nat, id: nat, ts: set<Table>)
    requires IsTimeline(life) && i <= j < |life| && Spent(life[i], id, ts)
    ensures Spent(life[j], id, ts)
  {
    if i < j {
      StaysSpent(life, i, j - 1, id, ts);
      SpentNext(life, j, id, ts);
    }
  }

  lemma SpentNext(life: seq<State>, j: nat, id: nat, ts: set<Table>)
    requires IsTimeline(life) && 0 < j < |life| && Spent(life[j - 1], id, ts)
    ensures Spent(life[j], id, ts)
  {
    TimelineSane(life, j - 1);
    assert TimelineAt(life, j);
    if AnyRestart(life[j - 1], life[j]) {
      SpentRestart(life[j - 1], life[j], id, ts);
    } else {
      var a :| Enabled(a, life[j - 1]) && life[j] == Apply(a, life[j - 1]);
      SpentStep(a, life[j - 1], id, ts);
    }
  }

  lemma LiveIsSpent(s: State, t: Table)
    requires CatalogOk(s) && t in s.sstables
    ensures Spent(s, t.id, {t})
  {
    InList(s.sstables, t);
    forall j: nat ensures !Claims(s, j, t.id) {
      assert Claims(s, j, t.id) ==> Unused(s, t.id);
    }
    forall u | u in s.sstables && u.id == t.id ensures u == t {
      SameId(s.sstables, t, u);
    }
  }

  /** Ids are never reused: two tables that are ever live under one id are one table. */
  lemma IdsNeverReused(life: seq<State>, i: nat, j: nat, t: Table, u: Table)
    requires IsTimeline(life) && i <= j < |life|
    requires t in life[i].sstables && u in life[j].sstables && t.id == u.id
    ensures t == u
  {
    TimelineSane(life, i);
    LiveIsSpent(life[i], t);
    StaysSpent(life, i, j, t.id, {t});
  }

  /** A table that a compaction replaced does not come back. */
  lemma ReplacedForGood(life: seq<State>, i: nat, m: nat, j: nat, t: Table)
    requires IsTimeline(life) && i <= m <= j < |life|
    requires t in life[i].sstables && t !in life[m].sstables
    ensures !HasTable(life[j].sstables, t.id)
  {
    TimelineSane(life, i);
    LiveIsSpent(life[i], t);
    StaysSpent(life, i, m, t.id, {t});
    assert Spent(life[m], t.id, {});
    StaysSpent(life, m, j, t.id, {});
    NotLive(life[j], t.id);
  }

  // ---- epochs ---------------------------------------------------------------------------

  ghost predicate VersionGrows(s: State, s': State) {
    s'.version == s.version || s'.version.epoch > s.version.epoch
  }

  ghost predicate ManifestGrows(s: State, s': State) {
    s'.manifest == s.manifest || s'.manifest.epoch > s.manifest.epoch
  }

  lemma EpochStep(a: Action, s: State)
    requires CatalogOk(s) && Enabled(a, s)
    ensures VersionGrows(s, Apply(a, s)) && ManifestGrows(s, Apply(a, s))
  {
    if !a.PublishRotation? && !a.PublishFlush? && !a.DropEmpty? && !a.PublishJob? {
      SameEpoch(a, s);
    }
  }

  lemma SameEpoch(a: Action, s: State)
    requires Enabled(a, s) && !a.PublishRotation? && !a.PublishFlush? && !a.DropEmpty? && !a.PublishJob?
    ensures Apply(a, s).version == s.version && Apply(a, s).manifest == s.manifest
  {
    if IsJobAction(a) {
      JobFrame(a, s);
    } else if IsFlushAction(a) {
      FlushFrame(a, s);
    } else {
      OtherFrame(a, s);
    }
  }

  /** Published epochs strictly increase: a different manifest is a later one, over any crash; and
      so is a different version, as long as there is no crash. */
  lemma {:induction false} EpochsIncrease(life: seq<State>, i: nat, j: nat)
    requires IsTimeline(life) && i <= j < |life|
    ensures ManifestGrows(life[i], life[j])
    ensures Uninterrupted(life, i, j) ==> VersionGrows(life[i], life[j])
  {
    if i < j {
      EpochsIncrease(life, i, j - 1);
      EpochNext(life, j);
      assert Uninterrupted(life, i, j) ==> Uninterrupted(life, i, j - 1) && SteppedAt(life, j);
    }
  }

  lemma EpochMoves(s: State, s': State)
    requires CatalogOk(s) && AnyStep(s, s')
    ensures ManifestGrows(s, s') && VersionGrows(s, s')
  {
    var a :| Enabled(a, s) && s' == Apply(a, s);
    EpochStep(a, s);
  }

  lemma EpochNext(life: seq<State>, j: nat)
    requires IsTimeline(life) && 0 < j < |life|
    ensures ManifestGrows(life[j - 1], life[j])
    ensures AnyStep(life[j - 1], life[j]) ==> VersionGrows(life[j - 1], life[j])
  {
    TimelineSane(life, j - 1);
    assert TimelineAt(life, j);
    if AnyStep(life[j - 1], life[j]) {
      EpochMoves(life[j - 1], life[j]);
    } else {
      SaneRestart(life[j - 1], life[j]);
    }
  }

  /** Over a crash versions go on increasing exactly if none was published since the manifest was
      last saved: a restart numbers them from the manifest's epoch. */
  lemma EpochOverCrash(s: State, fulls: seq<bool>, kept: map<nat, Mem>, s': State)
    requires CatalogOk(s) && RestartsAs(s, fulls, kept, s')
    ensures s'.version.epoch > s.version.epoch <==> s.version.epoch <= s.manifest.epoch
  {
  }

  // ---- references -----------------------------------------------------------------------

  /** Nothing names the id, and nothing will: it is spent, and no table list, version, reader
      or job has it. */
  ghost predicate Gone(s: State, id: nat) { Spent(s, id, {}) && Unreferenced(s, id) }

  lemma NotLive(s: State, id: nat)
    requires Spent(s, id, {})
    ensures !HasTable(s.sstables, id)
  {
    forall i | 0 <= i < |s.sstables| ensures s.sstables[i].id != id {
      assert s.sstables[i] in s.sstables;
    }
  }

  lemma PinsStay(a: Action, s: State, id: nat)
    requires Enabled(a, s) && !PinHolds(s, id) && !HasTable(s.version.sstables, id)
    ensures !PinHolds(Apply(a, s), id)
  {
    if !a.Pin? && !a.Unpin? {
      SamePins(a, s);
    }
    forall r | r in Apply(a, s).pins ensures !HasTable(Apply(a, s).pins[r].sstables, id) {
      assert r in s.pins ==> !HasTable(s.pins[r].sstables, id);
    }
  }

  lemma HandlesStay(a: Action, s: State, id: nat)
    requires Enabled(a, s) && !JobHolds(s, id) && !HasTable(s.sstables, id)
    ensures !JobHolds(Apply(a, s), id)
  {
    if IsJobAction(a) {
      JobHandlesStay(a, s, id);
    } else {
      NoJobMoves(a, s);
    }
  }

  lemma JobHandlesStay(a: Action, s: State, id: nat)
    requires IsJobAction(a) && Enabled(a, s) && !JobHolds(s, id) && !HasTable(s.sstables, id)
    ensures !JobHolds(Apply(a, s), id)
  {
    forall j | j in Apply(a, s).jobs ensures !HasTable(Apply(a, s).jobs[j].handles, id) {
      if j != a.j {
        OtherJobStays(a, s, j);
      } else {
        OwnHandlesFree(a, s, id);
      }
    }
  }

  lemma OwnHandlesFree(a: Action, s: State, id: nat)
    requires IsJobAction(a) && Enabled(a, s) && !JobHolds(s, id) && !HasTable(s.sstables, id)
    requires a.j in Apply(a, s).jobs
    ensures !HasTable(Apply(a, s).jobs[a.j].handles, id)
  {
    OwnHandles(a, s);
  }

  lemma OwnHandles(a: Action, s: State)
    requires IsJobAction(a) && Enabled(a, s) && a.j in Apply(a, s).jobs
    ensures var hs := Apply(a, s).jobs[a.j].handles;
            hs == [] || (a.j in s.jobs && hs == s.jobs[a.j].handles) || forall t :: t in hs ==> t in s.sstables
  {
  }

  lemma GoneStep(a: Action, s: State, id: nat)
    requires CatalogOk(s) && Enabled(a, s) && Gone(s, id)
    ensures Gone(Apply(a, s), id)
  {
    SpentStep(a, s, id, {});
    NotLive(Apply(a, s), id);
    PinsStay(a, s, id);
    HandlesStay(a, s, id);
    CatalogStep(a, s);
  }

  lemma GoneRestart(s: State, s': State, id: nat)
    requires Sane(s) && AnyRestart(s, s') && Gone(s, id)
    ensures Gone(s', id)
  {
    SaneRestart(s, s');
    SpentRestart(s, s', id, {});
  }

  lemma GoneNext(life: seq<State>, j: nat, id: nat)
    requires IsTimeline(life) && 0 < j < |life| && Gone(life[j - 1], id)
    ensures Gone(life[j], id)
  {
    TimelineSane(life, j - 1);
    assert TimelineAt(life, j);
    if AnyRestart(life[j - 1], life[j]) {
      GoneRestart(life[j - 1], life[j], id);
    } else {
      var a :| Enabled(a, life[j - 1]) && life[j] == Apply(a, life[j - 1]);
      GoneStep(a, life[j - 1], id);
    }
  }

  lemma {:induction false} StaysGone(life: seq<State>, i: nat, j: nat, id: nat)
    requires IsTimeline(life) && i <= j < |life| && Gone(life[i], id)
    ensures Gone(life[j], id)
  {
    if i < j {
      StaysGone(life, i, j - 1, id);
      GoneNext(life, j, id);
    }
  }

  /** A table that a job holds, or that waits for deletion, was catalogued: the manifest's own
      counter is past its id. */
  ghost predicate OnceCatalogued(s: State) {
    && (forall j: nat, t :: HeldBy(s, j, t) ==> t.id < s.manifest.nextId)
    && (forall id: nat :: Retired(s, id) ==> id < s.manifest.nextId)
  }

  lemma CataloguedStep(a: Action, s: State)
    requires CatalogOk(s) && OnceCatalogued(s) && Enabled(a, s)
    ensures OnceCatalogued(Apply(a, s))
  {
    CounterGrows(a, s);
    HandlesCatalogued(a, s);
    forall id: nat | Retired(Apply(a, s), id) ensures id < s.manifest.nextId {
      RetiredFrom(a, s, id);
    }
  }

  lemma HandlesCatalogued(a: Action, s: State)
    requires CatalogOk(s) && OnceCatalogued(s) && Enabled(a, s)
    ensures forall j: nat, t :: HeldBy(Apply(a, s), j, t) ==> t.id < s.manifest.nextId
  {
    var s' := Apply(a, s);
    forall j: nat, t | HeldBy(s', j, t) ensures t.id < s.manifest.nextId {
      if IsJobAction(a) && j == a.j {
        OwnHandles(a, s);
        assert HeldBy(s, j, t) || t in s.sstables;
      } else if IsJobAction(a) {
        OtherJobStays(a, s, j);
        assert HeldBy(s, j, t);
      } else {
        NoJobMoves(a, s);
        assert HeldBy(s, j, t);
      }
    }
  }

  /** What waits for deletion waited before, or was an input of the job that just retired it. */
  lemma RetiredFrom(a: Action, s: State, id: nat)
    requires OnceCatalogued(s) && Enabled(a, s) && Retired(Apply(a, s), id)
    ensures id < s.manifest.nextId
  {
    if a.RetireInputs? {
      var hs := s.jobs[a.j].handles;
      if !Retired(s, id) {
        var x :| 0 <= x < |hs| && Ids(hs)[x] == id;
        assert HeldBy(s, a.j, hs[x]);
      }
    } else {
      OtherRetired(a, s, id);
    }
  }

  lemma OtherRetired(a: Action, s: State, id: nat)
    requires Enabled(a, s) && !a.RetireInputs? && Retired(Apply(a, s), id)
    ensures Retired(s, id)
  {
    if IsJobAction(a) {
      JobFrame(a, s);
    }
  }

  lemma {:induction false} TimelineCatalogued(life: seq<State>, i: nat)
    requires IsTimeline(life) && i < |life|
    ensures OnceCatalogued(life[i])
  {
    if i > 0 {
      TimelineCatalogued(life, i - 1);
      TimelineSane(life, i - 1);
      assert TimelineAt(life, i);
      if AnyRestart(life[i - 1], life[i]) {
        SaneRestart(life[i - 1], life[i]);
      } else {
        CataloguedMoves(life[i - 1], life[i]);
      }
    }
  }

  lemma CataloguedMoves(s: State, s': State)
    requires CatalogOk(s) && OnceCatalogued(s) && AnyStep(s, s')
    ensures OnceCatalogued(s')
  {
    var a :| Enabled(a, s) && s' == Apply(a, s);
    CataloguedStep(a, s);
  }

  /** Being unreferenced is stable once the sweep observes it: a retired table that nobody
      holds now is held by nobody ever after, not even after a crash. */
  lemma ObservedStaysUnreferenced(life: seq<State>, i: nat, j: nat, id: nat)
    requires IsTimeline(life) && i <= j < |life|
    requires Retired(life[i], id) && Unreferenced(life[i], id)
    ensures Unreferenced(life[j], id)
  {
    TimelineSane(life, i);
    TimelineCatalogued(life, i);
    forall t | t in life[i].sstables ensures t.id != id {
      InList(life[i].sstables, t);
    }
    StaysGone(life, i, j, id);
  }
}
