/** Whole operations as runs: a write that rotates, a flush, a compaction job up to its
    publication. Each takes a quiet state to a state given outright. */
module Cycles {
  import opened Entries
  import opened Levels
  import opened Engine
  import opened Reaching
  import opened Sections

  /** Nobody is in the middle of anything, and there is room for a memtable. */
  ghost predicate Quiet(s: State) {
    && s.writer.Idle? && s.flusher.NoFlush? && !s.blocked && s.wal != []
    && s.active == map[] && s.immutables == [] && s.cfg.maxImmutables >= 1
  }

  function NextRecord(s: State, k: Key, v: Option<Value>): Record { Record(s.seqNo + 1, k, v) }

  function OneKey(r: Record): Mem { map[r.key := Cell(r.seqNo, r.value)] }

  /** After a write that filled the memtable. */
  function Rotated(s: State, k: Key, v: Option<Value>): State
    requires Quiet(s)
  {
    var r := NextRecord(s, k, v);
    s.(seqNo := r.seqNo, wal := LogRecord(s.wal, r), hist := s.hist + [r],
       immutables := [OneKey(r)], starts := s.starts + [|s.hist| + 1], grace := false,
       version := Version(s.nextEpoch, [OneKey(r)], s.sstables), nextEpoch := s.nextEpoch + 1)
  }

  function Inserted(s: State, k: Key, v: Option<Value>): State
    requires Quiet(s)
  {
    var r := NextRecord(s, k, v);
    s.(seqNo := r.seqNo, wal := LogRecord(s.wal, r), hist := s.hist + [r], active := OneKey(r),
       writer := WriterPhase.Inserted)
  }

  lemma InsertedReaches(s: State, k: Key, v: Option<Value>)
    requires Quiet(s)
    ensures Reaches(s, Inserted(s, k, v))
  {
    ReachesSelf(s);
    ReachesNext(s, s, LogWrite(k, v));
    var t := Apply(LogWrite(k, v), s);
    ReachesNext(s, t, InsertWrite);
    assert Apply(InsertWrite, t) == Inserted(s, k, v);
  }

  lemma RotatedReaches(s: State, k: Key, v: Option<Value>)
    requires Quiet(s)
    ensures Reaches(s, Rotated(s, k, v))
  {
    var a := Inserted(s, k, v);
    InsertedReaches(s, k, v);
    ReachesNext(s, a, CheckRotation(true));
    var b := a.(writer := Counted(false));
    assert Apply(CheckRotation(true), a) == b;
    ReachesNext(s, b, Freeze);
    var c := Frozen(b);
    FreezeGives(b);
    ReachesNext(s, c, PublishRotation);
    RotationGives(c);
    var d := Published(c);
    ReachesNext(s, d, SwapActive);
    assert Apply(SwapActive, d) == d.(active := map[], writer := Idle);
    SwapGives(s, k, v);
  }

  function Frozen(s: State): State {
    s.(immutables := s.immutables + [s.active], starts := s.starts + [|s.hist|], grace := false,
       writer := WriterPhase.Frozen)
  }

  function Published(s: State): State {
    s.(version := Version(s.nextEpoch, Reversed(s.immutables), s.sstables), nextEpoch := s.nextEpoch + 1,
       writer := WriterPhase.Published)
  }

  lemma FreezeGives(s: State)
    requires s.writer == Counted(false)
    ensures Apply(Freeze, s) == Frozen(s)
  {
  }

  lemma RotationGives(s: State)
    requires s.writer.Frozen?
    ensures Apply(PublishRotation, s) == Published(s)
  {
  }

  lemma SwapGives(s: State, k: Key, v: Option<Value>)
    requires Quiet(s)
    ensures Published(Frozen(Inserted(s, k, v).(writer := Counted(false)))).(active := map[], writer := Idle) ==
              Rotated(s, k, v)
  {
    var m := OneKey(NextRecord(s, k, v));
    assert [] + [m] == [m] && Reversed([m]) == [m];
  }

  // ---- flush --------------------------------------------------------------------------------------

  /** After the oldest memtable was flushed, with no cleanup of the log. */
  function Flushed(s: State, n: nat): State
    requires s.immutables != []
  {
    var t := Table(s.nextId, s.immutables[0]);
    s.(nextId := s.nextId + 1, files := s.files[t.id := t.content],
       manifest := Manifest(s.nextEpoch, Max(s.manifest.nextId, t.id + 1), [t.id] + s.manifest.tables,
                            Max(s.manifest.watermark, n)),
       sstables := [t] + s.sstables, immutables := s.immutables[1..], starts := Tail(s.starts),
       version := Version(s.nextEpoch, Reversed(s.immutables[1..]), [t] + s.sstables), nextEpoch := s.nextEpoch + 1,
       blocked := false)
  }

  /** The flusher is free, and the queue it works on has room. */
  ghost predicate CanFlush(s: State, n: nat) {
    && s.flusher.NoFlush? && s.writer.Idle? && s.immutables != [] && IsMaxSeqNo(s.immutables[0], n)
    && |s.immutables| <= s.cfg.maxImmutables
  }

  lemma FlushedReaches(s: State, n: nat)
    requires CanFlush(s, n)
    ensures Reaches(s, Flushed(s, n))
  {
    var m := s.immutables[0];
    ReachesSelf(s);
    ReachesNext(s, s, PeekFlush);
    var a := s.(flusher := Peeked(m));
    assert Apply(PeekFlush, s) == a;
    ReachesNext(s, a, ReserveFlushId);
    var b := s.(flusher := GotId(m, s.nextId), nextId := s.nextId + 1);
    assert Apply(ReserveFlushId, a) == b;
    ReachesNext(s, b, WriteFlush);
    var c := b.(files := s.files[s.nextId := m], flusher := Written(m, s.nextId));
    assert Apply(WriteFlush, b) == c;
    ReachesNext(s, c, PublishFlush(n));
    var d := Flushed(s, n).(flusher := Popped, blocked := s.blocked);
    PublishGives(s, n, c);
    ClearedReaches(s, d);
  }

  lemma PublishGives(s: State, n: nat, c: State)
    requires CanFlush(s, n) && c == s.(nextId := s.nextId + 1, files := s.files[s.nextId := s.immutables[0]],
                                       flusher := Written(s.immutables[0], s.nextId))
    ensures Apply(PublishFlush(n), c) == Flushed(s, n).(flusher := Popped, blocked := s.blocked)
  {
  }

  lemma ClearedReaches(s: State, d: State)
    requires Reaches(s, d) && d.flusher.Popped? && d.writer.Idle? && |d.immutables| < d.cfg.maxImmutables
    ensures Reaches(s, d.(flusher := NoFlush, blocked := false))
  {
    ReachesNext(s, d, CheckRoom);
    var e := d.(flusher := SawRoom);
    assert Apply(CheckRoom, d) == e;
    ReachesNext(s, e, ClearStall);
    assert Apply(ClearStall, e) == d.(flusher := NoFlush, blocked := false);
  }

  // ---- both ---------------------------------------------------------------------------------------

  /** One write that fills the memtable, and its flush. */
  function Cycled(s: State, k: Key, v: Option<Value>): State
    requires Quiet(s)
  {
    Flushed(Rotated(s, k, v), s.seqNo + 1)
  }

  lemma CycledReaches(s: State, k: Key, v: Option<Value>)
    requires Quiet(s)
    ensures Reaches(s, Cycled(s, k, v)) && Quiet(Cycled(s, k, v))
  {
    var t := Rotated(s, k, v);
    RotatedReaches(s, k, v);
    assert k in t.immutables[0] && t.immutables[0][k].seqNo == s.seqNo + 1;
    FlushedReaches(t, s.seqNo + 1);
    ReachesOver(s, t, Cycled(s, k, v));
  }

  function Rolled(s: State): State
    requires s.wal != []
  {
    s.(wal := s.wal + [Segment(s.wal[|s.wal| - 1].id + 1, [])])
  }

  lemma RolledReaches(s: State)
    requires Quiet(s)
    ensures Reaches(s, Rolled(s)) && Quiet(Rolled(s))
  {
    ReachesSelf(s);
    ReachesNext(s, s, RollSegment);
    assert Apply(RollSegment, s) == Rolled(s);
  }

  // ---- compaction ---------------------------------------------------------------------------------

  /** No job is running, and these inputs are open. */
  ghost predicate CanMerge(s: State, ids: seq<nat>) {
    && s.jobs == map[] && s.marks == {} && s.slots == 0 && |ids| >= 2
    && forall i :: 0 <= i < |ids| ==> HasTable(s.sstables, ids[i])
  }

  function MergeOf(s: State, ids: seq<nat>): Table
    requires forall i :: 0 <= i < |ids| ==> HasTable(s.sstables, ids[i])
  {
    Table(s.nextId, MergeAll(Contents(TablesOf(s.sstables, ids))))
  }

  /** Job 0 has merged these inputs and written its output, and is about to publish it. */
  function Prepared(s: State, ids: seq<nat>): State
    requires forall i :: 0 <= i < |ids| ==> HasTable(s.sstables, ids[i])
  {
    var t := MergeOf(s, ids);
    s.(jobs := map[0 := Job(ids, OutWritten(t), TablesOf(s.sstables, ids))], marks := SetOf(ids), slots := 1,
       nextId := s.nextId + 1, files := s.files[t.id := t.content])
  }

  function WithJob(s: State, job: Job): State {
    s.(jobs := map[0 := job], marks := SetOf(job.ids), slots := 1)
  }

  lemma ResolvedReaches(s: State, ids: seq<nat>)
    requires CanMerge(s, ids)
    ensures Reaches(s, WithJob(s, Job(ids, Resolved, TablesOf(s.sstables, ids))))
  {
    var a := WithJob(s, Job(ids, Marked, [])).(slots := 0);
    var b := WithJob(s, Job(ids, Reserved, []));
    ReachesSelf(s);
    ReachesNext(s, s, MarkJob(0, ids));
    MarkGives(s, ids);
    ReachesNext(s, a, ReserveSlot(0));
    SlotGives(s, ids);
    ReachesNext(s, b, ResolveJob(0));
    ResolveGives(s, ids);
  }

  lemma OneJob(a: Job, b: Job)
    ensures map[0 := a][0 := b] == map[0 := b]
  {
  }

  lemma MarkGives(s: State, ids: seq<nat>)
    requires CanMerge(s, ids)
    ensures Apply(MarkJob(0, ids), s) == WithJob(s, Job(ids, Marked, [])).(slots := 0)
  {
    assert s.jobs[0 := Job(ids, Marked, [])] == map[0 := Job(ids, Marked, [])] && {} + SetOf(ids) == SetOf(ids);
  }

  lemma SlotGives(s: State, ids: seq<nat>)
    requires CanMerge(s, ids)
    ensures Apply(ReserveSlot(0), WithJob(s, Job(ids, Marked, [])).(slots := 0)) == WithJob(s, Job(ids, Reserved, []))
  {
    OneJob(Job(ids, Marked, []), Job(ids, Reserved, []));
  }

  lemma ResolveGives(s: State, ids: seq<nat>)
    requires CanMerge(s, ids)
    ensures Apply(ResolveJob(0), WithJob(s, Job(ids, Reserved, []))) ==
            WithJob(s, Job(ids, Resolved, TablesOf(s.sstables, ids)))
  {
    OneJob(Job(ids, Reserved, []), Job(ids, Resolved, TablesOf(s.sstables, ids)));
  }

  lemma PreparedReaches(s: State, ids: seq<nat>)
    requires CanMerge(s, ids)
    ensures Reaches(s, Prepared(s, ids))
  {
    var hs, t := TablesOf(s.sstables, ids), MergeOf(s, ids);
    var c := WithJob(s, Job(ids, Resolved, hs));
    var d := WithJob(s, Job(ids, GotOutId(t.id), hs)).(nextId := s.nextId + 1);
    ResolvedReaches(s, ids);
    OneJob(Job(ids, Resolved, hs), Job(ids, GotOutId(t.id), hs));
    OneJob(Job(ids, GotOutId(t.id), hs), Job(ids, OutWritten(t), hs));
    OutIdReserved(c, d, 0);
    ReachesNext(s, c, ReserveOutId(0));
    OutputWritten(d, Prepared(s, ids), 0, t);
    ReachesNext(s, d, WriteOutput(0));
  }
}
