/** The engine as a step system. Each action is one section of engine.rs that runs under a
    lock (or one atomic access); everything else may run between two actions. */
module Engine {
  import opened Entries
  import opened Levels

  datatype Config = Config(maxImmutables: nat, maxConcurrent: nat)

  /** The published snapshot: immutables and tables, both newest first. */
  datatype Version = Version(epoch: nat, immutables: seq<Mem>, sstables: seq<Table>)
  {
    function Levels(): seq<Mem> { immutables + Contents(sstables) }
  }

  /** The durable catalogue: table ids newest first. */
  datatype Manifest = Manifest(epoch: nat, nextId: nat, tables: seq<nat>, watermark: nat)

  datatype Segment = Segment(id: nat, records: seq<Record>)

  /** Where a write stands, from the writer lock being free to the fresh memtable. */
  datatype WriterPhase =
    | Idle
    | Logged(rec: Record)
    | Inserted
    | Counted(full: bool)
    | Frozen
    | Published

  datatype FlushPhase =
    | NoFlush
    | Peeked(mem: Mem)
    | GotId(mem: Mem, id: nat)
    | Written(mem: Mem, id: nat)
    | Popped
    | SawRoom

  datatype JobPhase =
    | Marked
    | Reserved
    | Resolved
    | GotOutId(out: nat)
    | OutWritten(table: Table)
    | Swapped
    | Ended
    | SlotFree

  /** handles are the open tables the job keeps alive. */
  datatype Job = Job(ids: seq<nat>, phase: JobPhase, handles: seq<Table>)

  datatype State = State(
    cfg: Config,
    // in memory
    writer: WriterPhase, seqNo: nat, grace: bool, blocked: bool,
    active: Mem, immutables: seq<Mem>,          // immutables oldest first
    sstables: seq<Table>, version: Version,     // sstables newest first
    nextEpoch: nat, nextId: nat,
    flusher: FlushPhase,
    jobs: map<nat, Job>, marks: set<nat>, slots: nat,
    pins: map<nat, Version>, pending: seq<nat>, doomed: Option<nat>,
    // durable
    manifest: Manifest, files: map<nat, Mem>, wal: seq<Segment>,
    // history: every write that became visible, and where each memtable begins in it
    hist: seq<Record>, starts: seq<nat>)

  datatype Action =
    | RollSegment | LogWrite(key: Key, value: Option<Value>) | InsertWrite
    | CheckRotation(trigger: bool) | GraceOrBlock | Freeze | PublishRotation | SwapActive
    | PeekFlush | ReserveFlushId | WriteFlush | PublishFlush(maxSeqNo: nat) | AbortFlush | DropEmpty
    | DeleteSegment(i: nat) | CheckRoom | ClearStall
    | MarkJob(j: nat, ids: seq<nat>) | ReserveSlot(j: nat) | RefuseJob(j: nat) | ResolveJob(j: nat)
    | FailJob(j: nat) | ReserveOutId(j: nat) | WriteOutput(j: nat) | PublishJob(j: nat)
    | RetireInputs(j: nat) | ReleaseSlot(j: nat) | ClearMarks(j: nat)
    | Pin(r: nat) | Unpin(r: nat)
    | ObserveDead(i: nat) | DeleteFile | DeferDelete

  predicate IsJobAction(a: Action) {
    a.MarkJob? || a.ReserveSlot? || a.RefuseJob? || a.ResolveJob? || a.FailJob? || a.ReserveOutId?
    || a.WriteOutput? || a.PublishJob? || a.RetireInputs? || a.ReleaseSlot? || a.ClearMarks?
  }

  predicate IsFlushAction(a: Action) {
    a.PeekFlush? || a.ReserveFlushId? || a.WriteFlush? || a.PublishFlush? || a.AbortFlush? || a.DropEmpty?
    || a.DeleteSegment? || a.CheckRoom? || a.ClearStall?
  }

  // ---- helpers ----------------------------------------------------------------------

  function Live(s: State): seq<Mem> { Reversed(s.immutables) + Contents(s.sstables) }

  /** What a read that takes no time sees: active, immutables newest first, tables newest first. */
  function View(s: State): seq<Mem> { [s.active] + Live(s) }

  function Snapshot(s: State, epoch: nat): Version {
    Version(epoch, Reversed(s.immutables), s.sstables)
  }

  function SetOf(ids: seq<nat>): (r: set<nat>)
    ensures forall x :: x in r <==> x in ids
  {
    set x | x in ids
  }

  function Tail<T>(xs: seq<T>): seq<T> { if xs == [] then [] else xs[1..] }

  function SlotLimit(s: State): nat { Max(s.cfg.maxConcurrent, 1) }

  /** max_seq_no as flush_memtable_to_sstable reports it. */
  ghost predicate IsMaxSeqNo(m: Mem, n: nat) {
    (forall k :: k in m ==> m[k].seqNo <= n) && exists k :: k in m && m[k].seqNo == n
  }

  function MaxSeqNo(recs: seq<Record>): (n: nat)
    ensures forall i :: 0 <= i < |recs| ==> recs[i].seqNo <= n
    ensures n > 0 ==> exists i :: 0 <= i < |recs| && recs[i].seqNo == n
  {
    if recs == [] then 0 else Max(MaxSeqNo(recs[..|recs| - 1]), recs[|recs| - 1].seqNo)
  }

  /** The log as one sequence, in segment order. */
  function LogOf(wal: seq<Segment>): seq<Record> {
    if wal == [] then [] else LogOf(wal[..|wal| - 1]) + wal[|wal| - 1].records
  }

  predicate HasTable(ts: seq<Table>, id: nat) { exists i :: 0 <= i < |ts| && ts[i].id == id }

  function TableOf(ts: seq<Table>, id: nat): (t: Table)
    requires HasTable(ts, id)
    ensures t in ts && t.id == id
  {
    ts[FirstIn(ts, {id})]
  }

  function TablesOf(ts: seq<Table>, ids: seq<nat>): (hs: seq<Table>)
    requires forall i :: 0 <= i < |ids| ==> HasTable(ts, ids[i])
    ensures |hs| == |ids| && forall i :: 0 <= i < |ids| ==> hs[i] in ts && hs[i].id == ids[i]
  {
    seq(|ids|, i requires 0 <= i < |ids| => TableOf(ts, ids[i]))
  }

  /** The catalogue's own replacement of inputs by the output (ids only). */
  function FirstIdIn(ts: seq<nat>, ids: set<nat>): (p: nat)
    ensures p <= |ts|
  {
    if ts == [] || ts[0] in ids then 0 else 1 + FirstIdIn(ts[1..], ids)
  }

  function WithoutIds(ts: seq<nat>, ids: set<nat>): seq<nat> {
    if ts == [] then []
    else if ts[0] in ids then WithoutIds(ts[1..], ids)
    else [ts[0]] + WithoutIds(ts[1..], ids)
  }

  function ReplaceIds(ts: seq<nat>, ids: set<nat>, out: nat): seq<nat> {
    var pos := FirstIdIn(ts, ids);
    var p := if pos == |ts| then 0 else pos;
    var rest := WithoutIds(ts, ids);
    var q := if p <= |rest| then p else |rest|;
    rest[..q] + [out] + rest[q..]
  }

  ghost predicate JobHolds(s: State, id: nat) {
    exists j :: j in s.jobs && HasTable(s.jobs[j].handles, id)
  }

  ghost predicate PinHolds(s: State, id: nat) {
    exists r :: r in s.pins && HasTable(s.pins[r].sstables, id)
  }

  /** strong_count == 1: no list, version, reader or job holds the table's handle. */
  ghost predicate Unreferenced(s: State, id: nat) {
    !HasTable(s.sstables, id) && !HasTable(s.version.sstables, id) && !PinHolds(s, id) && !JobHolds(s, id)
  }

  // ---- actions ----------------------------------------------------------------------

  ghost predicate JobIn(s: State, j: nat, p: JobPhase) { j in s.jobs && s.jobs[j].phase == p }

  ghost predicate Enabled(a: Action, s: State) {
    match a
    // write_op and Wal::append
    case RollSegment => s.writer.Idle? && !s.blocked && s.wal != []
    case LogWrite(_, _) => s.writer.Idle? && !s.blocked && s.wal != []
    case InsertWrite => s.writer.Logged?
    // check_rotation
    case CheckRotation(_) => s.writer.Inserted?
    case GraceOrBlock => s.writer == Counted(true)
    case Freeze => s.writer == Counted(false)
    case PublishRotation => s.writer.Frozen?
    case SwapActive => s.writer.Published?
    // flush_immutable, under flush_lock
    case PeekFlush => s.flusher.NoFlush? && s.immutables != []
    case ReserveFlushId => s.flusher.Peeked? && s.flusher.mem != map[]
    case WriteFlush => s.flusher.GotId?
    case PublishFlush(n) => s.flusher.Written? && s.immutables != [] && IsMaxSeqNo(s.flusher.mem, n)
    case AbortFlush => s.flusher.GotId? || s.flusher.Written?
    case DropEmpty => s.flusher == Peeked(map[]) && s.immutables != []
    // delete_segments_below_watermark, one file
    case DeleteSegment(i) =>
      && i + 1 < |s.wal| && MaxSeqNo(s.wal[i].records) <= s.manifest.watermark
      && forall j :: 0 <= j < i ==> MaxSeqNo(s.wal[j].records) > s.manifest.watermark
    // clear_stall_if_room
    case CheckRoom => s.flusher.Popped?
    case ClearStall => s.flusher.SawRoom? && s.writer.Idle?
    // compaction_run and run_compaction_job
    case MarkJob(j, ids) => j !in s.jobs && |ids| >= 2 && SetOf(ids) !! s.marks
    case ReserveSlot(j) => JobIn(s, j, Marked) && s.slots < SlotLimit(s)
    case RefuseJob(j) => JobIn(s, j, Marked) && s.slots >= SlotLimit(s)
    case ResolveJob(j) =>
      && JobIn(s, j, Reserved)
      && forall i :: 0 <= i < |s.jobs[j].ids| ==> HasTable(s.sstables, s.jobs[j].ids[i])
    case FailJob(j) =>
      && j in s.jobs
      && (s.jobs[j].phase.Reserved? || s.jobs[j].phase.Resolved? || s.jobs[j].phase.GotOutId?
         || s.jobs[j].phase.OutWritten?)
    case ReserveOutId(j) => JobIn(s, j, Resolved)
    case WriteOutput(j) => j in s.jobs && s.jobs[j].phase.GotOutId?
    case PublishJob(j) => j in s.jobs && s.jobs[j].phase.OutWritten?
    case RetireInputs(j) => JobIn(s, j, Swapped)
    case ReleaseSlot(j) => JobIn(s, j, Ended) && s.slots > 0
    case ClearMarks(j) => JobIn(s, j, SlotFree)
    // readers
    case Pin(r) => r !in s.pins
    case Unpin(r) => r in s.pins
    // sweep_pending_deletions
    case ObserveDead(i) =>
      && s.doomed.None? && i < |s.pending| && Unreferenced(s, s.pending[i])
      && forall j :: 0 <= j < |s.pending| && j != i ==> s.pending[j] != s.pending[i]
    case DeleteFile => s.doomed.Some?
    case DeferDelete => s.doomed.Some?
  }

  function LogRecord(wal: seq<Segment>, r: Record): seq<Segment>
    requires wal != []
  {
    var last := wal[|wal| - 1];
    wal[..|wal| - 1] + [last.(records := last.records + [r])]
  }

  ghost function Apply(a: Action, s: State): State
    requires Enabled(a, s)
  {
    match a
    case RollSegment =>
      s.(wal := s.wal + [Segment(s.wal[|s.wal| - 1].id + 1, [])])
    case LogWrite(k, v) =>
      var r := Record(s.seqNo + 1, k, v);
      s.(seqNo := s.seqNo + 1, wal := LogRecord(s.wal, r), writer := Logged(r))
    case InsertWrite =>
      var r := s.writer.rec;
      s.(active := s.active[r.key := Cell(r.seqNo, r.value)], hist := s.hist + [r], writer := Inserted)
    case CheckRotation(trigger) =>
      s.(writer := if trigger then Counted(|s.immutables| >= s.cfg.maxImmutables) else Idle)
    case GraceOrBlock =>
      if s.grace then s.(blocked := true, writer := Idle) else s.(grace := true, writer := Idle)
    case Freeze =>
      s.(immutables := s.immutables + [s.active], starts := s.starts + [|s.hist|], grace := false, writer := Frozen)
    case PublishRotation =>
      s.(version := Snapshot(s, s.nextEpoch), nextEpoch := s.nextEpoch + 1, writer := Published)
    case SwapActive =>
      s.(active := map[], writer := Idle)
    case PeekFlush =>
      s.(flusher := Peeked(s.immutables[0]))
    case ReserveFlushId =>
      s.(flusher := GotId(s.flusher.mem, s.nextId), nextId := s.nextId + 1)
    case WriteFlush =>
      s.(files := s.files[s.flusher.id := s.flusher.mem], flusher := Written(s.flusher.mem, s.flusher.id))
    case PublishFlush(n) =>
      var t := Table(s.flusher.id, s.flusher.mem);
      var m := Manifest(s.nextEpoch, Max(s.manifest.nextId, t.id + 1), [t.id] + s.manifest.tables,
                        Max(s.manifest.watermark, n));
      var s1 := s.(manifest := m, sstables := [t] + s.sstables, immutables := s.immutables[1..],
                   starts := Tail(s.starts), nextEpoch := s.nextEpoch + 1, flusher := Popped);
      s1.(version := Snapshot(s1, s.nextEpoch))
    case AbortFlush =>
      s.(nextEpoch := if s.flusher.Written? then s.nextEpoch + 1 else s.nextEpoch, flusher := NoFlush)
    case DropEmpty =>
      var s1 := s.(immutables := s.immutables[1..], starts := Tail(s.starts),
                   nextEpoch := s.nextEpoch + 1, flusher := Popped);
      s1.(version := Snapshot(s1, s.nextEpoch))
    case DeleteSegment(i) =>
      s.(wal := s.wal[..i] + s.wal[i + 1..])
    case CheckRoom =>
      s.(flusher := if |s.immutables| < s.cfg.maxImmutables then SawRoom else NoFlush)
    case ClearStall =>
      s.(blocked := false, flusher := NoFlush)
    case MarkJob(j, ids) =>
      s.(jobs := s.jobs[j := Job(ids, Marked, [])], marks := s.marks + SetOf(ids))
    case ReserveSlot(j) =>
      s.(jobs := s.jobs[j := s.jobs[j].(phase := Reserved)], slots := s.slots + 1)
    case RefuseJob(j) =>
      s.(jobs := s.jobs - {j}, marks := s.marks - SetOf(s.jobs[j].ids))
    case ResolveJob(j) =>
      s.(jobs := s.jobs[j := s.jobs[j].(phase := Resolved, handles := TablesOf(s.sstables, s.jobs[j].ids))])
    case FailJob(j) =>
      s.(nextEpoch := if s.jobs[j].phase.OutWritten? then s.nextEpoch + 1 else s.nextEpoch,
         jobs := s.jobs[j := s.jobs[j].(phase := Ended, handles := [])])
    case ReserveOutId(j) =>
      s.(jobs := s.jobs[j := s.jobs[j].(phase := GotOutId(s.nextId))], nextId := s.nextId + 1)
    case WriteOutput(j) =>
      var t := Table(s.jobs[j].phase.out, MergeAll(Contents(s.jobs[j].handles)));
      s.(files := s.files[t.id := t.content], jobs := s.jobs[j := s.jobs[j].(phase := OutWritten(t))])
    case PublishJob(j) =>
      var t := s.jobs[j].phase.table;
      var ids := SetOf(s.jobs[j].ids);
      var m := s.manifest.(epoch := s.nextEpoch, nextId := Max(s.manifest.nextId, t.id + 1),
                           tables := ReplaceIds(s.manifest.tables, ids, t.id));
      var s1 := s.(manifest := m, sstables := Replace(s.sstables, ids, t), nextEpoch := s.nextEpoch + 1,
                   jobs := s.jobs[j := s.jobs[j].(phase := Swapped)]);
      s1.(version := Snapshot(s1, s.nextEpoch))
    case RetireInputs(j) =>
      s.(pending := s.pending + Ids(s.jobs[j].handles), jobs := s.jobs[j := s.jobs[j].(phase := Ended, handles := [])])
    case ReleaseSlot(j) =>
      s.(slots := s.slots - 1, jobs := s.jobs[j := s.jobs[j].(phase := SlotFree)])
    case ClearMarks(j) =>
      s.(jobs := s.jobs - {j}, marks := s.marks - SetOf(s.jobs[j].ids))
    case Pin(r) =>
      s.(pins := s.pins[r := s.version])
    case Unpin(r) =>
      s.(pins := s.pins - {r})
    case ObserveDead(i) =>
      s.(doomed := Some(s.pending[i]), pending := s.pending[..i] + s.pending[i + 1..])
    case DeleteFile =>
      s.(files := s.files - {s.doomed.value}, doomed := None)
    case DeferDelete =>
      s.(pending := s.pending + [s.doomed.value], doomed := None)
  }

  /** A compaction may only be published while its inputs are safe to merge. Contiguous
      inputs always are. */
  ghost predicate Benign(a: Action, s: State)
    requires Enabled(a, s)
  {
    a.PublishJob? ==> SafeInputs(s.sstables, SetOf(s.jobs[a.j].ids))
  }

  ghost predicate Step(s: State, s': State) {
    exists a :: Enabled(a, s) && Benign(a, s) && s' == Apply(a, s)
  }

  /** A step with no such demand: a compaction may merge whatever it picked. */
  ghost predicate AnyStep(s: State, s': State) { exists a :: Enabled(a, s) && s' == Apply(a, s) }

  // ---- start and restart ---------------------------------------------------------------

  /** What replay has built so far; starts are positions in the replayed log. */
  datatype Rebuilt = Rebuilt(active: Mem, immutables: seq<Mem>, grace: bool, blocked: bool, starts: seq<nat>, used: nat)

  /** One turn of the replay loop of LsmEngine::new. full: the memtable reached its limit. */
  function ReplayOne(b: Rebuilt, r: Record, full: bool, maxImmutables: nat): Rebuilt {
    if b.blocked then b
    else
      var b1 := b.(active := b.active[r.key := Cell(r.seqNo, r.value)], used := b.used + 1);
      if !full then b1
      else if |b.immutables| >= maxImmutables then
        if b.grace then b1.(blocked := true) else b1.(grace := true)
      else b1.(active := map[], immutables := b1.immutables + [b1.active], grace := false,
               starts := b1.starts + [b1.used])
  }

  function Replay(recs: seq<Record>, fulls: seq<bool>, maxImmutables: nat): Rebuilt
    requires |fulls| == |recs|
  {
    if recs == [] then Rebuilt(map[], [], false, false, [0], 0)
    else
      var n := |recs| - 1;
      ReplayOne(Replay(recs[..n], fulls[..n], maxImmutables), recs[n], fulls[n], maxImmutables)
  }

  /** Every record was replayed: the loop never broke off. */
  predicate Complete(b: Rebuilt, recs: seq<Record>) { b.used == |recs| }

  /** Startup cleanup of the log: every segment but the current one at or below the watermark. */
  function Kept(wal: seq<Segment>, watermark: nat): seq<Segment> {
    if wal == [] then [] else KeptOld(wal[..|wal| - 1], watermark) + [wal[|wal| - 1]]
  }

  function KeptOld(wal: seq<Segment>, watermark: nat): seq<Segment> {
    if wal == [] then []
    else if MaxSeqNo(wal[0].records) <= watermark then KeptOld(wal[1..], watermark)
    else [wal[0]] + KeptOld(wal[1..], watermark)
  }

  /** The record that was logged but not yet visible when the process died. */
  function InFlight(s: State): seq<Record> { if s.writer.Logged? then [s.writer.rec] else [] }

  function FileContent(files: map<nat, Mem>, id: nat): Mem { if id in files then files[id] else map[] }

  function OpenTables(ids: seq<nat>, files: map<nat, Mem>): (ts: seq<Table>)
    ensures |ts| == |ids| && forall i :: 0 <= i < |ids| ==> ts[i] == Table(ids[i], FileContent(files, ids[i]))
  {
    seq(|ids|, i requires 0 <= i < |ids| => Table(ids[i], FileContent(files, ids[i])))
  }

  /** Orphan cleanup leaves every catalogued file, and possibly some others. */
  predicate CleansOrphans(s: State, kept: map<nat, Mem>) {
    && (forall id :: id in s.manifest.tables && id in s.files ==> id in kept)
    && (forall id :: id in kept ==> id in s.files && kept[id] == s.files[id])
  }

  function Shifted(xs: seq<nat>, offset: nat): (r: seq<nat>)
    ensures |r| == |xs| && forall i :: 0 <= i < |xs| ==> r[i] == xs[i] + offset
  {
    seq(|xs|, i requires 0 <= i < |xs| => xs[i] + offset)
  }

  /** Crash now, then LsmEngine::new on what is on disk. Every logged record was fsynced. */
  function Restart(s: State, fulls: seq<bool>, kept: map<nat, Mem>): State
    requires |fulls| == |LogOf(s.wal)| && CleansOrphans(s, kept)
  {
    var recs := LogOf(s.wal);
    var b := Replay(recs, fulls, s.cfg.maxImmutables);
    var ts := OpenTables(s.manifest.tables, kept);
    var hist := s.hist + InFlight(s);
    var first := if |recs| <= |hist| then |hist| - |recs| else 0;
    State(s.cfg, Idle, MaxSeqNo(recs), b.grace, b.blocked, b.active, b.immutables, ts,
          Version(s.manifest.epoch + 1, Reversed(b.immutables), ts), s.manifest.epoch + 2, s.manifest.nextId,
          NoFlush, map[], {}, 0, map[], [], None,
          s.manifest, kept, Kept(s.wal, s.manifest.watermark), hist, Shifted(b.starts, first))
  }

  /** The first start on empty directories: Wal::new creates segment 1. */
  ghost predicate Init(s: State) {
    s == State(s.cfg, Idle, 0, false, false, map[], [], [], Version(1, [], []), 2, 0,
               NoFlush, map[], {}, 0, map[], [], None,
               Manifest(0, 0, [], 0), map[], [Segment(1, [])], [], [0])
  }

  /** A crash-free stretch of a run. */
  ghost predicate IsRun(run: seq<State>) {
    |run| > 0 && forall i :: 0 < i < |run| ==> StepAt(run, i)
  }

  ghost predicate StepAt(run: seq<State>, i: int)
    requires 0 < i < |run|
  {
    Step(run[i - 1], run[i])
  }
}
