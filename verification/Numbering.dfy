/** Sequence numbers after a restart: recovery takes them from the log alone. */
module Numbering {
  import opened Entries
  import opened Levels
  import opened Engine
  import opened Catalog
  import opened Jobs
  import opened EngineView
  import opened Files
  import opened Durable
  import opened Reads
  import opened Recovery
  import opened Reaching
  import opened Cycles
  import opened Hazards

  lemma NumberingHolds(s: State, fulls: seq<bool>, kept: map<nat, Mem>, t: State)
    requires Sound(s) && |fulls| == |LogOf(s.wal)|
    requires CleansOrphans(s, kept) && Complete(ReplayOf(s, fulls), LogOf(s.wal))
    requires LogOf(s.wal) != [] || Accepted(s) == []
    requires Reaches(Restart(s, fulls, kept), t)
    ensures Answers(t.hist, View(t))
  {
    var s1 := Restart(s, fulls, kept);
    RestartGood(s, fulls, kept, s1);
    ReachesGood(s1, t);
  }

  // ---- when the log is empty ----------------------------------------------------------------------

  lemma {:induction false} BestSnoc(ms: seq<Mem>, m: Mem, k: Key)
    ensures var w := Best(ms, k);
            Best(ms + [m], k) == if k in m && (w.None? || m[k].seqNo > w.value.seqNo) then Some(m[k]) else w
  {
    assert (ms + [m])[..|ms|] == ms;
  }

  /** The last write of a history, if the levels hold it, beats a cell numbered 1 in a merge that
      lists them first. */
  lemma {:induction false} OldCellWins(h: seq<Record>, ms: seq<Mem>, k: Key, v: Option<Value>)
    requires Numbered(h) && h != [] && h[|h| - 1].key == k && h[|h| - 1].value != v
    requires GenuineLevels(h, ms) && AnswersAt(h, ms, k)
    ensures var b := Best(ms + [map[k := Cell(1, v)]], k); b.Some? && b != Some(Cell(1, v))
  {
    BestSnoc(ms, map[k := Cell(1, v)], k);
    BestIsNewest(ms, k);
    NewestOfFold(h);
    var i := FirstHitIndex(ms, k);
    assert ms[i][k] == Cell(|h|, h[|h| - 1].value);
    var j :| 0 <= j < |ms| && k in ms[j] && ms[j][k] == Best(ms, k).value;
    assert GenuineMem(h, ms[j]) && Genuine(h, k, ms[j][k]);
  }

  /** The handles of all tables, the newest last. */
  lemma HandlesOfAll(latest: Table, ts: seq<Table>)
    requires DistinctIds([latest] + ts)
    ensures var all, ids := [latest] + ts, Ids(ts) + [latest.id];
            (forall i :: 0 <= i < |ids| ==> HasTable(all, ids[i])) && TablesOf(all, ids) == ts + [latest]
  {
    var all, ids := [latest] + ts, Ids(ts) + [latest.id];
    forall i | 0 <= i < |ids| ensures HasTable(all, ids[i]) && TableOf(all, ids[i]) == (ts + [latest])[i] {
      var x := if i < |ts| then i + 1 else 0;
      assert all[x].id == ids[i];
      SameId(all, TableOf(all, ids[i]), all[x]);
    }
  }

  /** With all tables for input, the output stands alone. */
  lemma AllReplaced(all: seq<Table>, ids: set<nat>, out: Table)
    requires all != [] && forall i :: 0 <= i < |all| ==> all[i].id in ids
    ensures Replace(all, ids, out) == [out] && SafeInputs(all, ids)
  {
    assert InputsAre(all, ids, 0, |all|);
    ContiguousIsSafe(all, ids);
    WithoutAll(all, ids);
  }

  /** The tables alone answer everything that was accepted. */
  ghost predicate TablesHold(s: State) {
    && Numbered(Accepted(s)) && GenuineLevels(Accepted(s), Contents(s.sstables))
    && Answers(Accepted(s), Contents(s.sstables))
  }

  ghost predicate EmptyLogRestart(s: State, kept: map<nat, Mem>) {
    && CatalogOk(s) && FilesOk(s) && TablesHold(s) && s.wal != [] && LogOf(s.wal) == [] && Accepted(s) != []
    && CleansOrphans(s, kept) && s.cfg.maxImmutables >= 1
  }

  /** All that is left is the catalogued tables, and numbering starts again at 1. */
  lemma RestartedEmpty(s: State, kept: map<nat, Mem>)
    requires EmptyLogRestart(s, kept)
    ensures var r := Restart(s, [], kept);
            && Quiet(r) && r.seqNo == 0 && r.sstables == s.sstables && r.hist == Accepted(s)
            && r.jobs == map[] && r.marks == {} && r.slots == 0 && r.nextId == s.manifest.nextId
  {
    ReopenedTables(s, kept);
  }

  lemma FlushedAll(s: State)
    requires Sound(s) && LogOf(s.wal) == []
    ensures TablesHold(s)
  {
    AcceptedNumbered(s);
    TablesGenuine(s);
    assert s.hist[..s.manifest.watermark] == Accepted(s);
  }

  /** The store rewrites the key of its last write, flushes, and compacts everything. */
  lemma NumberingFails(s: State, kept: map<nat, Mem>) returns (k: Key, t: State)
    requires EmptyLogRestart(s, kept)
    ensures Reaches(Restart(s, [], kept), t) && !AnswersAt(t.hist, View(t), k)
  {
    var h, r := Accepted(s), Restart(s, [], kept);
    k := h[|h| - 1].key;
    var v: Option<Value> := if h[|h| - 1].value.None? then Some([]) else None;
    OldCellStays(s, kept, k, v);
    RestartedEmpty(s, kept);
    t := CompactAll(s, kept, r, k, v);
    LosesWrite(h, Record(1, k, v), t);
  }

  lemma CompactAll(s: State, kept: map<nat, Mem>, r: State, k: Key, v: Option<Value>) returns (t: State)
    requires EmptyLogRestart(s, kept) && r == Restart(s, [], kept) && s.sstables != []
    ensures Reaches(r, t) && t.hist == Accepted(s) + [Record(1, k, v)] && t.active == map[] && t.immutables == []
    ensures |t.sstables| == 1 && t.sstables[0].content == MergeAll(Contents(s.sstables) + [map[k := Cell(1, v)]])
  {
    RestartedEmpty(s, kept);
    FreshId(s, Table(r.nextId, OneKey(NextRecord(r, k, v))));
    t := MergedAll(r, k, v);
  }

  lemma OldCellStays(s: State, kept: map<nat, Mem>, k: Key, v: Option<Value>)
    requires EmptyLogRestart(s, kept)
    requires var h := Accepted(s); h[|h| - 1].key == k && h[|h| - 1].value != v
    ensures s.sstables != []
    ensures Get(MergeAll(Contents(s.sstables) + [map[k := Cell(1, v)]]), k) != Some(Cell(1, v))
  {
    assert AnswersAt(Accepted(s), Contents(s.sstables), k);
    NewestOfFold(Accepted(s));
    OldCellWins(Accepted(s), Contents(s.sstables), k, v);
  }

  lemma FreshId(s: State, t: Table)
    requires CatalogOk(s) && t.id == s.manifest.nextId
    ensures DistinctIds([t] + s.sstables)
  {
  }

  /** One cycle and one compaction of everything. */
  lemma MergedAll(r: State, k: Key, v: Option<Value>) returns (t: State)
    requires Quiet(r) && r.seqNo == 0 && r.sstables != [] && r.jobs == map[] && r.marks == {} && r.slots == 0
    requires DistinctIds([Table(r.nextId, OneKey(NextRecord(r, k, v)))] + r.sstables)
    ensures Reaches(r, t) && t.hist == r.hist + [Record(1, k, v)] && t.active == map[] && t.immutables == []
    ensures |t.sstables| == 1 && t.sstables[0].content == MergeAll(Contents(r.sstables) + [map[k := Cell(1, v)]])
  {
    var c, latest := Cycled(r, k, v), Table(r.nextId, OneKey(NextRecord(r, k, v)));
    var ids := Ids(r.sstables) + [latest.id];
    CycledReaches(r, k, v);
    HandlesOfAll(latest, r.sstables);
    PreparedReaches(c, ids);
    var p := Prepared(c, ids);
    AllMembers(c.sstables, ids);
    AllReplaced(c.sstables, SetOf(ids), MergeOf(c, ids));
    ReachesOver(r, c, p);
    ReachesNext(r, p, PublishJob(0));
    t := Apply(PublishJob(0), p);
    assert Contents(r.sstables + [latest]) == Contents(r.sstables) + [latest.content];
  }

  lemma AllMembers(all: seq<Table>, ids: seq<nat>)
    requires all != [] && ids == Ids(all[1..]) + [all[0].id]
    ensures forall i :: 0 <= i < |all| ==> all[i].id in SetOf(ids)
  {
    forall i | 0 <= i < |all| ensures all[i].id in SetOf(ids) {
      assert ids[if i == 0 then |all| - 1 else i - 1] == all[i].id;
    }
  }

  lemma {:induction false} LosesWrite(h: seq<Record>, r: Record, t: State)
    requires t.hist == h + [r] && t.active == map[] && t.immutables == [] && |t.sstables| == 1
    requires Get(t.sstables[0].content, r.key) != Some(Cell(r.seqNo, r.value))
    ensures !AnswersAt(t.hist, View(t), r.key)
  {
    assert (h + [r])[..|h|] == h && Get(Fold(t.hist), r.key) == Some(Cell(r.seqNo, r.value));
    assert Reversed(t.immutables) == [] && Contents(t.sstables) == [t.sstables[0].content];
    ViewHit(t, r.key);
    assert Live(t) == [t.sstables[0].content] && Live(t)[1..] == [];
    assert FirstHit(Live(t), r.key) == Get(t.sstables[0].content, r.key);
  }

  /** After a full replay, reads stay right over every run exactly if some record survived in the
      log, or nothing was ever written. Otherwise numbering starts again at 1, and a compaction
      can bring an old value back. */
  lemma NumberingExact(s: State, fulls: seq<bool>, kept: map<nat, Mem>)
    requires Sound(s) && |fulls| == |LogOf(s.wal)| && CleansOrphans(s, kept) && s.cfg.maxImmutables >= 1
    requires Complete(ReplayOf(s, fulls), LogOf(s.wal))
    ensures (forall t :: Reaches(Restart(s, fulls, kept), t) ==> Answers(t.hist, View(t)))
            <==> (LogOf(s.wal) != [] || Accepted(s) == [])
  {
    if LogOf(s.wal) != [] || Accepted(s) == [] {
      forall t | Reaches(Restart(s, fulls, kept), t) ensures Answers(t.hist, View(t)) {
        NumberingHolds(s, fulls, kept, t);
      }
    } else {
      assert fulls == [];
      FlushedAll(s);
      var k, t := NumberingFails(s, kept);
      assert !Answers(t.hist, View(t));
    }
  }

  // ---- the loss, from an empty store on -----------------------------------------------------------

  function OnceRolled(k: Key): State { Rolled(Cycled(Fresh(2), k, Some([1]))) }

  lemma OnceReached(k: Key)
    ensures Reaches(Fresh(2), OnceRolled(k)) && Sound(OnceRolled(k))
  {
    var a := Cycled(Fresh(2), k, Some([1]));
    CycledReaches(Fresh(2), k, Some([1]));
    RolledReaches(a);
    ReachesOver(Fresh(2), a, OnceRolled(k));
    FreshSound(2);
    ReachesSound(Fresh(2), OnceRolled(k));
  }

  lemma {:induction false} OnceFields(k: Key)
    ensures var s := OnceRolled(k);
            && s.hist == [First(k)] && s.manifest.watermark == 1 && s.writer.Idle? && s.cfg.maxImmutables == 2
            && s.wal == [Segment(1, [First(k)]), Segment(2, [])] && LogOf(s.wal) == [First(k)]
            && Kept(s.wal, 1) == [Segment(2, [])]
  {
    OnceCycled(k);
    OnceFrom(Cycled(Fresh(2), k, Some([1])), k);
  }

  lemma {:induction false} OnceFrom(a: State, k: Key)
    requires OnceWritten(a, k)
    ensures var s := Rolled(a);
            && s.hist == [First(k)] && s.manifest.watermark == 1 && s.writer.Idle? && s.cfg == a.cfg
            && s.wal == [Segment(1, [First(k)]), Segment(2, [])] && LogOf(s.wal) == [First(k)]
            && Kept(s.wal, 1) == [Segment(2, [])]
  {
    var seg1, seg2 := Segment(1, [First(k)]), Segment(2, []);
    LogSnoc([], seg1);
    LogSnoc([seg1], seg2);
    assert [] + [seg1] == [seg1] && [seg1] + [seg2] == [seg1, seg2] && [seg1, seg2][..1] == [seg1];
    NumberedParts([First(k)], [], 0);
    assert KeptOld([], 1) == [] && [seg1][1..] == [];
  }

  /** The first restart replays the flushed record, and then deletes its segment. */
  lemma OnceRestarted(k: Key) returns (s1: State)
    ensures FullRestart(OnceRolled(k), [false], OnceRolled(k).files, s1) && EmptyLogRestart(s1, s1.files)
  {
    var s := OnceRolled(k);
    OnceReached(k);
    OnceFields(k);
    assert Replay([First(k)][..0], [false][..0], 2).used == 0;
    s1 := Restart(s, [false], s.files);
    RestartGood(s, [false], s.files, s1);
    ReopenedTables(s, s.files);
    EmptyLog(Segment(2, []));
    assert s.hist[..1] == s.hist && Accepted(s1) == s.hist;
    assert Answers(s.hist[..1], Contents(s.sstables));
    TablesGenuine(s);
    AcceptedNumbered(s);
  }

  /** One write, flushed; a crash between a roll of the log and the next record; a second crash.
      Then a new value of k is lost to the old one. */
  lemma RenumberedWriteLoses(k: Key) returns (s1: State, t: State)
    ensures Init(Fresh(2)) && Reaches(Fresh(2), OnceRolled(k))
    ensures FullRestart(OnceRolled(k), [false], OnceRolled(k).files, s1)
    ensures LogOf(s1.wal) == [] && Reaches(Restart(s1, [], s1.files), t) && !Answers(t.hist, View(t))
  {
    FreshSound(2);
    OnceReached(k);
    s1 := OnceRestarted(k);
    var x;
    x, t := NumberingFails(s1, s1.files);
  }
}
