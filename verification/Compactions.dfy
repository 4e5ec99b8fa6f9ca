/** Which compactions are right: tables stay newest first per key while jobs take neighbouring
    tables, and a publication keeps every read exactly if its inputs are safe. The picker does
    not ask for either. */
module Compactions {
  import opened Entries
  import opened Levels
  import opened Engine
  import opened Frames
  import opened Catalog
  import opened Jobs
  import opened EngineView
  import opened Files
  import opened Durable
  import opened Reads
  import opened Recovery
  import opened Reaching
  import opened Cycles
  import opened Hazards
  import opened Pickers

  // ---- the order of the tables --------------------------------------------------------------------

  /** For each key, a table in front holds a newer cell than a table behind. */
  ghost predicate TablesOrdered(s: State) { StrictlyNewestFirst(Contents(s.sstables)) }

  lemma FrontOrdered(m: Mem, ms: seq<Mem>)
    requires StrictlyNewestFirst(ms) && forall i :: 0 <= i < |ms| ==> AllNewer(m, ms[i])
    ensures StrictlyNewestFirst([m] + ms)
  {
    forall i, j | 0 <= i < j < |[m] + ms| ensures AllNewer(([m] + ms)[i], ([m] + ms)[j]) {
      assert i > 0 ==> AllNewer(ms[i - 1], ms[j - 1]);
    }
  }

  /** The tables hold nothing above the watermark, the oldest memtable nothing below it. */
  lemma FlushOrdered(a: Action, s: State)
    requires Sound(s) && TablesOrdered(s) && a.PublishFlush? && Enabled(a, s)
    ensures TablesOrdered(Apply(a, s))
  {
    OldestIsNewer(s);
    FrontOrdered(s.immutables[0], Contents(s.sstables));
    assert Contents(Apply(a, s).sstables) == [s.immutables[0]] + Contents(s.sstables);
  }

  lemma OldestIsNewer(s: State)
    requires DurableOk(s) && Numbered(s.hist) && s.immutables != []
    ensures forall i :: 0 <= i < |s.sstables| ==> AllNewer(s.immutables[0], Contents(s.sstables)[i])
  {
    assert StretchOk(s, 0);
    StretchNewer(s.hist, s.manifest.watermark, s.starts[1], Contents(s.sstables));
  }

  lemma StretchNewer(h: seq<Record>, w: nat, end: nat, ms: seq<Mem>)
    requires Numbered(h) && w <= end <= |h| && GenuineLevels(h[..w], ms)
    ensures forall i :: 0 <= i < |ms| ==> AllNewer(Fold(h[w..end]), ms[i])
  {
    var m := Fold(h[w..end]);
    FoldRange(h, w, end);
    forall i | 0 <= i < |ms| ensures AllNewer(m, ms[i]) {
      assert GenuineMem(h[..w], ms[i]);
      forall k | k in m && k in ms[i] ensures m[k].seqNo > ms[i][k].seqNo {
        assert Genuine(h[..w], k, ms[i][k]);
      }
    }
  }

  lemma PublishOrdered(a: Action, s: State)
    requires Sound(s) && TablesOrdered(s) && a.PublishJob? && Enabled(a, s)
    requires Contiguous(s.sstables, Catalog.Inputs(s.jobs[a.j]))
    ensures TablesOrdered(Apply(a, s))
  {
    OutputIsMerge(s, a.j);
    ContiguousKeepsOrder(s.sstables, Catalog.Inputs(s.jobs[a.j]), s.jobs[a.j].phase.table);
  }

  /** A step that publishes only jobs on neighbouring tables. */
  ghost predicate TidyStep(s: State, s': State) { exists a :: TidyAction(a, s, s') }

  ghost predicate TidyAction(a: Action, s: State, s': State) {
    && Enabled(a, s) && s' == Apply(a, s)
    && (a.PublishJob? ==> Contiguous(s.sstables, Catalog.Inputs(s.jobs[a.j])))
  }

  lemma TidyIsStep(s: State, s': State)
    requires TidyStep(s, s')
    ensures Step(s, s')
  {
    var a :| TidyAction(a, s, s');
    if a.PublishJob? {
      ContiguousIsSafe(s.sstables, Catalog.Inputs(s.jobs[a.j]));
    }
    assert Enabled(a, s) && Benign(a, s) && s' == Apply(a, s);
  }

  lemma OrderStep(s: State, s': State)
    requires Sound(s) && TablesOrdered(s) && TidyStep(s, s')
    ensures Sound(s') && TablesOrdered(s')
  {
    TidyIsStep(s, s');
    SoundStep(s, s');
    var a :| TidyAction(a, s, s');
    if a.PublishFlush? {
      FlushOrdered(a, s);
    } else if a.PublishJob? {
      PublishOrdered(a, s);
    } else {
      SameTables(a, s);
    }
  }

  ghost predicate TidyLifeStep(s: State, s': State) {
    TidyStep(s, s') || exists fulls, kept :: FullRestart(s, fulls, kept, s') && ReplaysOnlyUnflushed(s)
  }

  ghost predicate TidyAt(life: seq<State>, i: int)
    requires 0 < i < |life|
  {
    TidyLifeStep(life[i - 1], life[i])
  }

  ghost predicate IsTidyLife(life: seq<State>) {
    |life| > 0 && Init(life[0]) && forall i :: 0 < i < |life| ==> TidyAt(life, i)
  }

  /** In every state of every life whose jobs take neighbouring tables, clean restarts included,
      the tables are newest first per key. */
  lemma {:induction false} TidyLifeOrdered(life: seq<State>, i: nat)
    requires IsTidyLife(life) && i < |life|
    ensures Sound(life[i]) && TablesOrdered(life[i])
  {
    if i == 0 {
      InitSound(life[0]);
    } else {
      TidyLifeOrdered(life, i - 1);
      TidyNext(life, i);
    }
  }

  lemma TidyNext(life: seq<State>, i: nat)
    requires IsTidyLife(life) && 0 < i < |life| && Sound(life[i - 1]) && TablesOrdered(life[i - 1])
    ensures Sound(life[i]) && TablesOrdered(life[i])
  {
    assert TidyAt(life, i);
    TidyLifeNext(life[i - 1], life[i]);
  }

  lemma TidyLifeNext(s: State, s': State)
    requires Sound(s) && TablesOrdered(s) && TidyLifeStep(s, s')
    ensures Sound(s') && TablesOrdered(s')
  {
    if TidyStep(s, s') {
      OrderStep(s, s');
    } else {
      var fulls, kept :| FullRestart(s, fulls, kept, s') && ReplaysOnlyUnflushed(s);
      RestartGood(s, fulls, kept, s');
      RestartDurable(s, fulls, kept, s');
      ReopenedTables(s, kept);
    }
  }

  // ---- publishing a job ---------------------------------------------------------------------------

  /** k is in memory, or its newest table is not one that the output would overtake. */
  ghost predicate StaysRight(s: State, ids: set<nat>, k: Key) {
    FirstHit(Memtables(s), k).Some? || SafeFor(s.sstables, ids, k)
  }

  /** The exact condition for the engine: publishing a job keeps every read right if and only if
      no key outside memory has its newest holder in a table that is not an input and stands
      behind the newest input. */
  lemma PublishExact(a: Action, s: State)
    requires Sound(s) && TablesOrdered(s) && a.PublishJob? && Enabled(a, s)
    ensures Answers(s.hist, View(Apply(a, s))) <==> forall k :: StaysRight(s, Catalog.Inputs(s.jobs[a.j]), k)
  {
    var s', ids := Apply(a, s), Catalog.Inputs(s.jobs[a.j]);
    forall k ensures AnswersAt(s.hist, View(s'), k) <==> StaysRight(s, ids, k) {
      PublishExactAt(a, s, k);
    }
    if forall k :: StaysRight(s, ids, k) {
      forall k ensures AnswersAt(s.hist, View(s'), k) { assert StaysRight(s, ids, k); }
    } else {
      var k :| !StaysRight(s, ids, k);
      assert !AnswersAt(s.hist, View(s'), k);
    }
  }

  lemma PublishExactAt(a: Action, s: State, k: Key)
    requires Sound(s) && TablesOrdered(s) && a.PublishJob? && Enabled(a, s)
    ensures AnswersAt(s.hist, View(Apply(a, s)), k) <==> StaysRight(s, Catalog.Inputs(s.jobs[a.j]), k)
  {
    var s', ids, t := Apply(a, s), Catalog.Inputs(s.jobs[a.j]), s.jobs[a.j].phase.table;
    OutputIsMerge(s, a.j);
    assert MergedAt(s.sstables, ids, t.content, k) && AnswersAt(s.hist, View(s), k);
    CompactionExactAt(s.sstables, ids, t, k);
    MemoryFirst(s, k);
    MemoryFirst(s', k);
  }

  lemma {:induction false} MemoryFirst(s: State, k: Key)
    ensures FirstHit(View(s), k) ==
            if FirstHit(Memtables(s), k).Some? then FirstHit(Memtables(s), k) else FirstHit(Contents(s.sstables), k)
  {
    assert View(s) == Memtables(s) + Contents(s.sstables);
    FirstHitConcat(Memtables(s), Contents(s.sstables), k);
  }

  // ---- what the picker may choose -----------------------------------------------------------------

  lemma {:induction false} SortTwo(b: TableInfo, c: TableInfo)
    requires Before(c, b) && !Before(b, c)
    ensures SortBySize([b, c]) == [c, b]
  {
    assert [b, c][1..] == [c] && [c][1..] == [];
    assert SortBySize([c]) == [c];
  }

  lemma {:induction false} SortThree(a: TableInfo, b: TableInfo, c: TableInfo)
    requires Before(c, b) && !Before(b, c) && Before(a, c) && !Before(c, a)
    ensures SortBySize([a, b, c]) == [a, c, b]
  {
    SortTwo(b, c);
    assert [a, b, c][1..] == [b, c];
  }

  lemma {:induction false} FirstWindow(a: TableInfo, c: TableInfo, b: TableInfo)
    requires a.fileSize == c.fileSize == 100
    ensures FirstSimilar([a, c, b], 2, 2.0, 0) == Some(0)
  {
    assert [a, c, b][0..2] == [a, c] && [a, c][1..] == [c];
    var none: seq<TableInfo> := [];
    assert [c][1..] == none;
    assert Largest([c]) == 100 && Largest([a, c]) == 100;
    assert SimilarAt([a, c, b], 2, 2.0, 0);
  }

  lemma {:induction false} PickTwoOfThree(a: TableInfo, b: TableInfo, c: TableInfo)
    requires a.fileSize == c.fileSize == 100 && b.fileSize == 1000 && a.id > c.id
    ensures Pick([a, b, c], {}, 2, 2.0) == Some([a.id, c.id])
  {
    NothingHeld([a, b, c]);
    SortThree(a, b, c);
    PickOfOrder([a, b, c], {}, 2, 2.0, [a, c, b]);
    ChosenTwo(a, c, b);
  }

  lemma ChosenTwo(a: TableInfo, c: TableInfo, b: TableInfo)
    requires a.fileSize == c.fileSize == 100
    ensures Chosen([a, c, b], FanIn(2), 2.0) == Some([a.id, c.id])
  {
    FirstWindow(a, c, b);
    assert [a, c, b][0..2] == [a, c] && IdsOf([a, c]) == [a.id, c.id];
  }

  /** Two small files and a large one between them in age: the picker skips the large one. */
  lemma {:induction false} PickSkips()
    ensures Pick([TableInfo(2, 100), TableInfo(1, 1000), TableInfo(0, 100)], {}, 2, 2.0) == Some([2, 0])
  {
    PickTwoOfThree(TableInfo(2, 100), TableInfo(1, 1000), TableInfo(0, 100));
  }

  /** k written twice and another key once, each flushed into its own table. */
  function ThreeTables(k: Key, other: Key): State {
    var a := Cycled(Fresh(2), k, Some([1]));
    Cycled(Cycled(a, k, Some([2])), other, Some([3]))
  }

  lemma ThreeReached(k: Key, other: Key)
    ensures Reaches(Fresh(2), ThreeTables(k, other)) && Sound(ThreeTables(k, other))
  {
    var a := Cycled(Fresh(2), k, Some([1]));
    var b := Cycled(a, k, Some([2]));
    CycledReaches(Fresh(2), k, Some([1]));
    CycledReaches(a, k, Some([2]));
    CycledReaches(b, other, Some([3]));
    ReachesOver(Fresh(2), a, b);
    ReachesOver(Fresh(2), b, ThreeTables(k, other));
    FreshSound(2);
    ReachesSound(Fresh(2), ThreeTables(k, other));
  }

  function Third(other: Key): Record { Record(3, other, Some([3])) }

  ghost predicate AreThree(s: State, k: Key, other: Key) {
    && s.sstables == [Table(2, OneKey(Third(other))), Table(1, OneKey(Second(k))), Table(0, OneKey(First(k)))]
    && s.active == map[] && s.immutables == [] && s.jobs == map[] && s.marks == {} && s.slots == 0
  }

  lemma ThreeFields(k: Key, other: Key)
    ensures AreThree(ThreeTables(k, other), k, other)
  {
    OnceCycled(k);
    ThreeFrom(Cycled(Fresh(2), k, Some([1])), k, other);
  }

  lemma ThreeFrom(a: State, k: Key, other: Key)
    requires OnceWritten(a, k) && a.jobs == map[] && a.marks == {} && a.slots == 0
    ensures AreThree(Cycled(Cycled(a, k, Some([2])), other, Some([3])), k, other)
  {
    var b := Cycled(a, k, Some([2]));
    CycledReaches(a, k, Some([2]));
    CycledFields(a, k, Some([2]));
    CycledFields(b, other, Some([3]));
    assert b.sstables == [Table(1, OneKey(Second(k))), Table(0, OneKey(First(k)))];
  }

  /** k reads as its second value; once job 0, on tables 2 and 0, is published, as its first. */
  ghost predicate BringsBack(p: State, k: Key) {
    && Enabled(PublishJob(0), p) && p.jobs[0].ids == [2, 0]
    && FirstHit(View(p), k) == Some(Cell(2, Some([2])))
    && FirstHit(View(Apply(PublishJob(0), p)), k) == Some(Cell(1, Some([1])))
  }

  /** The loss, from an empty store on: the picker chooses the newest and the oldest of three
      tables, the job is prepared as any job is, and publishing it brings the overwritten value
      of k back. */
  lemma SkippedTableLosesWrite(k: Key, other: Key) returns (p: State)
    requires k != other
    ensures Init(Fresh(2)) && Reaches(Fresh(2), p) && Sound(p) && Get(Fold(p.hist), k) == FirstHit(View(p), k)
    ensures BringsBack(p, k)
  {
    FreshSound(2);
    ThreeReached(k, other);
    ThreeFields(k, other);
    p := JobOnThree(Fresh(2), ThreeTables(k, other), k, other);
  }

  lemma JobOnThree(z: State, s: State, k: Key, other: Key) returns (p: State)
    requires Sound(z) && Reaches(z, s) && AreThree(s, k, other) && k != other
    ensures Reaches(z, p) && Sound(p) && Get(Fold(p.hist), k) == FirstHit(View(p), k) && BringsBack(p, k)
  {
    ThreeOpen(s, k, other);
    p := Prepared(s, [2, 0]);
    PreparedReaches(s, [2, 0]);
    ReachesOver(z, s, p);
    ReachesSound(z, p);
    assert AnswersAt(p.hist, View(p), k);
    ThreeLoses(s, k, other, p);
  }

  lemma ThreeOpen(s: State, k: Key, other: Key)
    requires AreThree(s, k, other)
    ensures CanMerge(s, [2, 0]) && TablesOf(s.sstables, [2, 0]) == [s.sstables[0], s.sstables[2]]
  {
    assert s.sstables[0].id == 2 && s.sstables[2].id == 0;
    assert HasTable(s.sstables, 2) && HasTable(s.sstables, 0);
    assert FirstIn(s.sstables, {2}) == 0 && FirstIn(s.sstables, {0}) == 2;
  }

  lemma {:induction false} MergeSkipped(k: Key, other: Key)
    requires k != other
    ensures Get(MergeAll([OneKey(Third(other)), OneKey(First(k))]), k) == Some(Cell(1, Some([1])))
  {
    var a: Mem, b: Mem := OneKey(Third(other)), OneKey(First(k));
    assert [a, b][..1] == [a] && [a][..0] == [];
    assert Best([a], k) == None && Best([a, b], k) == Some(Cell(1, Some([1])));
  }

  /** The output in front, the newest table of k behind it. */
  lemma {:induction false} ThreeMerged(ts: seq<Table>, ids: set<nat>, out: Table, k: Key)
    requires |ts| == 3 && FirstIn(ts, ids) == 0 && k in out.content
    ensures FirstHit(Contents(Replace(ts, ids, out)), k) == Some(out.content[k])
  {
    assert ts[..0] == [];
    ReplaceShape(ts, ids, out);
    assert Replace(ts, ids, out)[0] == out;
  }

  lemma ThreeLoses(s: State, k: Key, other: Key, p: State)
    requires AreThree(s, k, other) && k != other && CanMerge(s, [2, 0]) && p == Prepared(s, [2, 0])
    requires TablesOf(s.sstables, [2, 0]) == [s.sstables[0], s.sstables[2]]
    ensures BringsBack(p, k)
  {
    var ts, ids, out := s.sstables, SetOf([2, 0]), MergeOf(s, [2, 0]);
    assert Contents([ts[0], ts[2]]) == [OneKey(Third(other)), OneKey(First(k))];
    MergeSkipped(k, other);
    MemoryFirst(p, k);
    MemoryFirst(Apply(PublishJob(0), p), k);
    assert Reversed(p.immutables) == [] && Memtables(p) == [map[]] && Memtables(p)[1..] == [];
    FirstHolderHits(ts, k, 1);
    ThreeMerged(ts, ids, out, k);
  }
}
