/** What the sections of the engine do to its state, field by field, and facts about maps and
    candidate lists that they need. */
module Sections {
  import opened Entries
  import opened Levels
  import opened Memtables
  import opened Engine
  import opened EngineLoops
  import opened Catalog
  import opened Pickers
  import EngineView
  import Recovery

  lemma UpdateTwice<K, V>(m: map<K, V>, k: K, v: V, w: V)
    ensures m[k := v][k := w] == m[k := w]
  {
  }

  lemma UpdatedRemoved<K, V>(m: map<K, V>, k: K, v: V)
    ensures m[k := v] - {k} == m - {k}
  {
  }

  lemma AddedRemoved<K, V>(m: map<K, V>, k: K, v: V)
    requires k !in m
    ensures m[k := v] - {k} == m
  {
  }

  /** What compaction jobs change together, and only when they publish. */
  datatype ListsView = ListsView(immutables: seq<Mem>, sstables: seq<Table>, catalog: Manifest, version: Version,
                                 pending: seq<nat>, hist: seq<Record>)

  /** The output in place of its newest input, in the list, the manifest and the version. */
  ghost function PublishedLists(before: ListsView, epoch: nat, ids: set<nat>, t: Table): ListsView {
    var tables := Replace(before.sstables, ids, t);
    before.(sstables := tables,
            catalog := before.catalog.(epoch := epoch, nextId := Max(before.catalog.nextId, t.id + 1),
                                       tables := ReplaceIds(before.catalog.tables, ids, t.id)),
            version := Version(epoch, Reversed(before.immutables), tables))
  }

  /** And its inputs are candidates for deletion. */
  ghost function MergedLists(before: ListsView, epoch: nat, ids: set<nat>, handles: seq<Table>, t: Table): ListsView {
    PublishedLists(before, epoch, ids, t).(pending := before.pending + Ids(handles))
  }

  ghost predicate AllOpen(ts: seq<Table>, ids: seq<nat>) { forall i :: 0 <= i < |ids| ==> HasTable(ts, ids[i]) }

  ghost function MergeOutcome(before: ListsView, epoch: nat, id: nat, ids: set<nat>, handles: seq<Table>, able: bool)
    : (ListsView, Option<Table>)
  {
    if able then
      var t := Table(id, MergeAll(Contents(handles)));
      (MergedLists(before, epoch, ids, handles, t), Some(t))
    else (before, None)
  }

  /** What compaction_run leaves: if it could do its work, the merge of the open tables with
      these ids in their place; else the lists as they were. */
  ghost function Outcome(before: ListsView, epoch: nat, id: nat, ids: seq<nat>, able: bool)
    : (ListsView, Option<Table>)
  {
    if !AllOpen(before.sstables, ids) then (before, None)
    else MergeOutcome(before, epoch, id, SetOf(ids), TablesOf(before.sstables, ids), able)
  }

  // ---- writes and flushes ---------------------------------------------------------------------------

  /** What a write may change. */
  datatype WriteView = WriteView(wal: seq<Segment>, seqNo: nat, grace: bool, blocked: bool, active: Mem,
                                 immutables: seq<Mem>, version: Version, nextEpoch: nat, hist: seq<Record>)

  /** What write_op leaves once it accepts: the record logged and inserted, then check_rotation. */
  ghost function AfterWrite(b: WriteView, tables: seq<Table>, maxBytes: nat, overhead: nat, maxImmutables: nat,
                            key: Key, value: Option<Value>, roll: bool, cooling: bool): WriteView
    requires b.wal != []
  {
    AfterCheck(AfterInsert(b, key, value, roll), tables, maxBytes, overhead, maxImmutables, cooling)
  }

  /** The record under the next number, in the log, after a roll if the segment was full, and in
      the active memtable. */
  ghost function AfterInsert(b: WriteView, key: Key, value: Option<Value>, roll: bool): WriteView
    requires b.wal != []
  {
    var r, last := Record(b.seqNo + 1, key, value), b.wal[|b.wal| - 1];
    b.(wal := LogRecord(if roll then b.wal + [Segment(last.id + 1, [])] else b.wal, r), seqNo := r.seqNo,
       active := b.active[key := Cell(r.seqNo, value)], hist := b.hist + [r])
  }

  /** A memtable that has reached its limit, with no cooldown running, is queued and published; if
      there is no room it costs the grace, and then the right to write. */
  ghost function AfterCheck(b: WriteView, tables: seq<Table>, maxBytes: nat, overhead: nat, maxImmutables: nat,
                            cooling: bool): WriteView
  {
    var limit := if b.grace then maxBytes * 5 / 4 else maxBytes;
    if cooling || TotalBytes(b.active, overhead) < limit then b
    else if |b.immutables| >= maxImmutables then Graced(b)
    else Queued(b, tables)
  }

  /** The grace goes, or the right to write. */
  ghost function Graced(b: WriteView): WriteView { b.(grace := true, blocked := b.blocked || b.grace) }

  /** The active memtable in the queue, in the version, and replaced by a fresh one. */
  ghost function Queued(b: WriteView, tables: seq<Table>): WriteView {
    var queue := b.immutables + [b.active];
    b.(grace := false, immutables := queue, active := map[],
       version := Version(b.nextEpoch, Reversed(queue), tables), nextEpoch := b.nextEpoch + 1)
  }

  lemma {:induction false} CheckCases(b: WriteView, tables: seq<Table>, maxBytes: nat, overhead: nat,
                                      maxImmutables: nat, cooling: bool, trigger: bool, full: bool)
    requires trigger == (!cooling && TotalBytes(b.active, overhead) >= EffectiveMax(maxBytes, b.grace))
    requires full == (|b.immutables| >= maxImmutables)
    ensures AfterCheck(b, tables, maxBytes, overhead, maxImmutables, cooling) ==
            if !trigger then b else if full then Graced(b) else Queued(b, tables)
  {
  }

  /** What a flush may change. */
  datatype FlushView = FlushView(immutables: seq<Mem>, sstables: seq<Table>, catalog: Manifest, version: Version,
                                 wal: seq<Segment>, files: map<nat, Mem>, nextEpoch: nat, nextId: nat, blocked: bool)

  /** What flush_immutable leaves of a queue with something in it, if w is then the watermark. */
  ghost function AfterFlush(b: FlushView, maxImmutables: nat, writeOk: bool, saveOk: bool, w: nat): FlushView
    requires b.immutables != []
  {
    var mem := b.immutables[0];
    if mem == map[] then Dropped(b, maxImmutables) else FileFlush(b, maxImmutables, writeOk, saveOk, w)
  }

  /** An id is spent in any case, an epoch once the file is written. */
  ghost function FileFlush(b: FlushView, maxImmutables: nat, writeOk: bool, saveOk: bool, w: nat): FlushView
    requires b.immutables != []
  {
    var mem := b.immutables[0];
    if !writeOk then IdSpent(b)
    else if !saveOk then EpochSpent(FileWritten(b, mem))
    else Tidied(Installed(FileWritten(b, mem), b.nextId, mem, w), maxImmutables)
  }

  /** An empty memtable leaves the queue and no file. */
  ghost function Dropped(b: FlushView, maxImmutables: nat): FlushView
    requires b.immutables != []
  {
    Unqueued(b).(blocked := b.blocked && |b.immutables[1..]| >= maxImmutables)
  }

  ghost function Unqueued(b: FlushView): FlushView
    requires b.immutables != []
  {
    var rest := b.immutables[1..];
    b.(immutables := rest, version := Version(b.nextEpoch, Reversed(rest), b.sstables), nextEpoch := b.nextEpoch + 1)
  }

  /** A new file under the next id. */
  ghost function FileWritten(b: FlushView, mem: Mem): FlushView {
    b.(files := b.files[b.nextId := mem], nextId := b.nextId + 1)
  }

  ghost function IdSpent(b: FlushView): FlushView { b.(nextId := b.nextId + 1) }

  ghost function EpochSpent(b: FlushView): FlushView { b.(nextEpoch := b.nextEpoch + 1) }

  /** In the manifest, the table list and the version, instead of in the queue. */
  ghost function Installed(b: FlushView, id: nat, mem: Mem, w: nat): FlushView
    requires b.immutables != []
  {
    var rest, tables := b.immutables[1..], [Table(id, mem)] + b.sstables;
    b.(immutables := rest, sstables := tables,
       catalog := Manifest(b.nextEpoch, Max(b.catalog.nextId, id + 1), [id] + b.catalog.tables, w),
       version := Version(b.nextEpoch, Reversed(rest), tables), nextEpoch := b.nextEpoch + 1)
  }

  /** Segments without a record above the watermark are gone, and a stall if there is room. */
  ghost function Tidied(b: FlushView, maxImmutables: nat): FlushView {
    b.(wal := Kept(b.wal, b.catalog.watermark), blocked := b.blocked && |b.immutables| >= maxImmutables)
  }

  lemma FlushGives(b: FlushView, maxImmutables: nat, writeOk: bool, saveOk: bool)
    requires b.immutables != [] && b.immutables[0] != map[]
    ensures forall w :: AfterFlush(b, maxImmutables, writeOk, saveOk, w) ==
              FileFlush(b, maxImmutables, writeOk, saveOk, w)
  {
  }

  /** A success leaves no old segment but the current one. */
  lemma FlushTidies(b: FlushView, c: FlushView, maxImmutables: nat, w: nat)
    requires b.wal != [] && b.immutables != [] && c == FileFlush(b, maxImmutables, true, true, w)
    requires Moved(b.catalog.watermark, b.immutables[0], w)
    ensures LogTidied(b, c)
  {
    KeptIsTidy(b.wal, w);
  }

  lemma KeptIsTidy(wal: seq<Segment>, w: nat)
    requires wal != []
    ensures var c := Kept(wal, w); c != [] && NoOldSegment(c, |c| - 1, w) && c[|c| - 1] == wal[|wal| - 1]
  {
    var c := Kept(wal, w);
    KeptExactly(wal, w);
    NewOnes(c[..|c| - 1], c, w);
  }

  /** The watermark has moved as it should, no segment in front of the current one lies below it, and
      the current one is as it was. */
  ghost predicate LogTidied(b: FlushView, c: FlushView) {
    && b.immutables != [] && Moved(b.catalog.watermark, b.immutables[0], c.catalog.watermark)
    && b.wal != [] && c.wal != [] && c.wal[|c.wal| - 1] == b.wal[|b.wal| - 1]
    && NoOldSegment(c.wal, |c.wal| - 1, c.catalog.watermark)
  }

  lemma NewOnes(front: seq<Segment>, wal: seq<Segment>, w: nat)
    requires wal != [] && front == wal[..|wal| - 1] && forall seg :: seg in front ==> IsNew(seg, w)
    ensures NoOldSegment(wal, |wal| - 1, w)
  {
    forall j | 0 <= j < |wal| - 1 ensures MaxSeqNo(wal[j].records) > w {
      assert front[j] in front;
      NewByMax(wal[j], w);
    }
  }

  /** The watermark moves to the memtable's largest sequence number, and never back. */
  ghost predicate Moved(before: nat, mem: Mem, after: nat) {
    exists n :: IsMaxSeqNo(mem, n) && after == Max(before, n)
  }

  function Inputs(ids: Option<seq<nat>>): seq<nat> { if ids.None? then [] else ids.value }

  // ---- the catalogue after a job -----------------------------------------------------------------

  lemma CataloguedAreOpen(ts: seq<Table>, ids: seq<nat>)
    requires forall id :: id in ids ==> id in Ids(ts)
    ensures AllOpen(ts, ids)
  {
    forall i | 0 <= i < |ids| ensures HasTable(ts, ids[i]) {
      assert ids[i] in Ids(ts);
      var x: nat :| x < |ts| && Ids(ts)[x] == ids[i];
      assert ts[x].id == ids[i];
    }
  }

  /** A published job shrinks the list by one less than its inputs, and keeps it catalogued. */
  lemma CompactedShrinks(before: ListsView, after: ListsView, epoch: nat, id: nat, ids: seq<nat>, t: Table)
    requires (after, Some(t)) == Outcome(before, epoch, id, ids, true)
    requires before.catalog.tables == Ids(before.sstables)
    requires Distinct(Ids(before.sstables)) && AllBelow(Ids(before.sstables), id)
    requires Distinct(ids) && forall x :: x in ids ==> x in Ids(before.sstables)
    ensures after.catalog.tables == Ids(after.sstables)
    ensures Distinct(after.catalog.tables) && AllBelow(after.catalog.tables, id + 1)
    ensures |after.sstables| == |before.sstables| - |ids| + 1
  {
    IdsOfReplace(before.sstables, SetOf(ids), t);
    JobShrinks(Ids(before.sstables), ids, t.id);
  }

  /** The table a compaction put out, if it put one out. */
  function Output(r: Result<Option<Table>>): Option<Table> { if r.Ok? then r.value else None }

  lemma OneMoreTime(n: nat, d: nat)
    ensures (n + 1) * d == n * d + d
  {
  }

  // ---- steps, field by field --------------------------------------------------------------------

  /** PublishJob, field by field. */
  lemma JobPublished(s: State, s': State, j: nat, t: Table)
    requires JobIn(s, j, OutWritten(t))
    requires var ids := SetOf(s.jobs[j].ids); var tables := Replace(s.sstables, ids, t);
             s' == s.(manifest := s.manifest.(epoch := s.nextEpoch, nextId := Max(s.manifest.nextId, t.id + 1),
                                              tables := ReplaceIds(s.manifest.tables, ids, t.id)),
                      sstables := tables, nextEpoch := s.nextEpoch + 1,
                      jobs := s.jobs[j := s.jobs[j].(phase := Swapped)],
                      version := Version(s.nextEpoch, Reversed(s.immutables), tables))
    ensures s' == Apply(Action.PublishJob(j), s)
  {
  }

  lemma RecordLogged(s: State, s': State, k: Key, v: Option<Value>)
    requires s.writer.Idle? && !s.blocked && s.wal != []
    requires s' == (
                      var r := Record(s.seqNo + 1, k, v);
                      s.(seqNo := r.seqNo, wal := LogRecord(s.wal, r), writer := Logged(r)))
    ensures s' == Apply(Action.LogWrite(k, v), s)
  {
  }

  lemma OutIdReserved(s: State, s': State, j: nat)
    requires JobIn(s, j, Resolved)
    requires s' == s.(jobs := s.jobs[j := s.jobs[j].(phase := GotOutId(s.nextId))], nextId := s.nextId + 1)
    ensures s' == Apply(Action.ReserveOutId(j), s)
  {
  }

  lemma OutputWritten(s: State, s': State, j: nat, t: Table)
    requires JobIn(s, j, GotOutId(t.id)) && t.content == MergeAll(Contents(s.jobs[j].handles))
    requires s' == s.(files := s.files[t.id := t.content], jobs := s.jobs[j := s.jobs[j].(phase := OutWritten(t))])
    ensures s' == Apply(Action.WriteOutput(j), s)
  {
  }

  lemma InputsRetired(s: State, s': State, j: nat)
    requires JobIn(s, j, Swapped)
    requires s' == s.(pending := s.pending + Ids(s.jobs[j].handles),
                      jobs := s.jobs[j := s.jobs[j].(phase := Ended, handles := [])])
    ensures s' == Apply(Action.RetireInputs(j), s)
  {
  }

  lemma SaveFailed(s: State, s': State, j: nat, t: Table)
    requires JobIn(s, j, OutWritten(t))
    requires s' == s.(nextEpoch := s.nextEpoch + 1, jobs := s.jobs[j := s.jobs[j].(phase := Ended, handles := [])])
    ensures s' == Apply(Action.FailJob(j), s)
  {
  }

  lemma ActiveSwapped(s: State, s': State)
    requires s.writer.Published? && s' == s.(active := map[], writer := Idle)
    ensures s' == Apply(Action.SwapActive, s)
  {
  }

  lemma StallCleared(s: State, s': State)
    requires s.flusher.SawRoom? && s.writer.Idle? && s' == s.(blocked := false, flusher := NoFlush)
    ensures s' == Apply(Action.ClearStall, s)
  {
  }

  lemma CandidateObserved(s: State, s': State, i: nat)
    requires Enabled(Action.ObserveDead(i), s)
    requires s' == s.(doomed := Some(s.pending[i]), pending := s.pending[..i] + s.pending[i + 1..])
    ensures s' == Apply(Action.ObserveDead(i), s)
  {
  }

  lemma FileDeleted(s: State, s': State, id: nat)
    requires s.doomed == Some(id) && s' == s.(files := s.files - {id}, doomed := None)
    ensures s' == Apply(Action.DeleteFile, s)
  {
  }

  // ---- lookups and sweeps -------------------------------------------------------------------------

  lemma {:induction false} MapAnswers(s: State, key: Key)
    requires Recovery.Sound(s) && s.writer.Idle?
    ensures FirstHit([s.active] + s.version.Levels(), key) == Get(Fold(s.hist), key)
  {
    assert EngineView.AnswersAt(s.hist, View(s), key);
    assert s.version.Levels() == Live(s);
  }

  /** Losing its file takes nobody's handle away. */
  lemma StillLone(s: State, s': State, lone: set<nat>)
    requires s'.sstables == s.sstables && s'.version == s.version && s'.pins == s.pins && s'.jobs == s.jobs
    requires forall id :: id in lone ==> Unreferenced(s, id)
    ensures forall id :: id in lone ==> Unreferenced(s', id)
  {
  }

  /** The first i of what is left were looked at; lone tables are listed once. */
  ghost predicate SweptTo(now: seq<nat>, before: seq<nat>, lone: set<nat>, elapsed: set<nat>, i: nat) {
    && i <= |now|
    && (forall k :: 0 <= k < i ==> !(now[k] in lone && now[k] in elapsed))
    && (forall id :: id in now ==> id in before)
    && (forall id :: id in before && id !in now ==> id in lone && id in elapsed)
    && (forall k, m :: 0 <= k < m < |now| && now[k] in lone ==> now[k] != now[m])
  }

  /** The files that are gone are those of the candidates that are gone. */
  ghost predicate OnlyGone(now: map<nat, Mem>, before: map<nat, Mem>, pending: seq<nat>, candidates: seq<nat>) {
    && (forall id :: id in now <==> id in before && !(id in candidates && id !in pending))
    && (forall id :: id in now ==> now[id] == before[id])
  }

  lemma OneMoreGone(now: map<nat, Mem>, before: map<nat, Mem>, pending: seq<nat>, candidates: seq<nat>, i: nat)
    requires OnlyGone(now, before, pending, candidates) && i < |pending| && pending[i] in candidates
    requires forall id :: id in pending[..i] + pending[i + 1..] <==> id in pending && id != pending[i]
    ensures OnlyGone(now - {pending[i]}, before, pending[..i] + pending[i + 1..], candidates)
  {
  }

  lemma SweepOne(now: seq<nat>, before: seq<nat>, lone: set<nat>, elapsed: set<nat>, i: nat)
    requires SweptTo(now, before, lone, elapsed, i) && i < |now| && now[i] in lone && now[i] in elapsed
    ensures SweptTo(now[..i] + now[i + 1..], before, lone, elapsed, i)
    ensures forall id :: id in now[..i] + now[i + 1..] <==> id in now && id != now[i]
  {
    var rest := now[..i] + now[i + 1..];
    forall id | id in now && id != now[i] ensures id in rest {
      var k :| 0 <= k < |now| && now[k] == id;
      assert rest[if k < i then k else k - 1] == id;
    }
    forall k | 0 <= k < |rest| ensures rest[k] == now[if k < i then k else k + 1] && rest[k] != now[i] {
      assert k < i ==> now[k] in lone ==> now[k] != now[i];
    }
  }
}
