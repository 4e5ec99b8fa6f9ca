/** The engine as code: each locked section of engine.rs is a method that takes one step of the
    step system, and the operations are those sections in order. */
module LsmEngines {
  import opened Entries
  import opened Levels
  import opened Memtables
  import opened Engine
  import opened CompactionManagers
  import opened Reaching
  import opened EngineLoops
  import opened Sections
  import opened Pickers
  import Recovery

  class LsmEngine {
    const cfg: Config
    const memtableMaxBytes: nat
    const overhead: nat
    const l0StopWrites: nat
    const compaction: CompactionManager
    // WriterState
    var wal: seq<Segment>
    var currentSeqNo: nat
    var graceUsed: bool
    var writesBlocked: bool
    // the other locked fields
    var active: Mem
    var activeBytes: nat
    var immutables: seq<Mem>
    var sstables: seq<Table>
    var currentVersion: Version
    var nextEpoch: nat
    var nextSstId: nat
    var catalog: Manifest
    var files: map<nat, Mem>
    var pendingDeletions: seq<nat>
    var isClosed: bool
    var shuttingDown: bool
    // where each thread stands, the readers' snapshots, and the history
    ghost var writer: WriterPhase
    ghost var flusher: FlushPhase
    ghost var jobs: map<nat, Job>
    ghost var pins: map<nat, Version>
    ghost var doomed: Option<nat>
    ghost var hist: seq<Record>
    ghost var starts: seq<nat>

    /** The step system's view of the object. */
    ghost function Abstract(): State
      reads this, compaction
    {
      State(cfg, writer, currentSeqNo, graceUsed, writesBlocked, active, immutables, sstables, currentVersion,
            nextEpoch, nextSstId, flusher, jobs, compaction.inProgressFiles, compaction.runningJobs, pins,
            pendingDeletions, doomed, catalog, files, wal, hist, starts)
    }

    /** What neither a flush nor a compaction touches until it publishes. */
    ghost function Lists(): ListsView
      reads this`immutables, this`sstables, this`catalog, this`currentVersion, this`pendingDeletions, this`hist
    {
      ListsView(immutables, sstables, catalog, currentVersion, pendingDeletions, hist)
    }

    /** What a write may change. */
    ghost function Writes(): WriteView
      reads this`wal, this`currentSeqNo, this`graceUsed, this`writesBlocked, this`active, this`immutables,
            this`currentVersion, this`nextEpoch, this`hist
    {
      WriteView(wal, currentSeqNo, graceUsed, writesBlocked, active, immutables, currentVersion, nextEpoch, hist)
    }

    /** What a flush may change. */
    ghost function Flushes(): FlushView
      reads this`immutables, this`sstables, this`catalog, this`currentVersion, this`wal, this`files,
            this`nextEpoch, this`nextSstId, this`writesBlocked
    {
      FlushView(immutables, sstables, catalog, currentVersion, wal, files, nextEpoch, nextSstId, writesBlocked)
    }

    ghost predicate JobAt(j: nat, p: JobPhase)
      reads this`jobs
    {
      j in jobs && jobs[j].phase == p
    }

    /** The byte count of the active memtable is exact. */
    ghost predicate Valid()
      reads this, compaction
    {
      activeBytes == TotalBytes(active, overhead) && wal != []
    }

    /** What the counters, the lists and the disk are after opening. */
    ghost predicate OpenedFrom(log: seq<Segment>, manifest: Manifest, kept: map<nat, Mem>)
      reads this
    {
      && catalog == manifest && files == kept && wal == Kept(log, manifest.watermark)
      && nextSstId == manifest.nextId && nextEpoch == manifest.epoch + 2 && currentVersion.epoch == manifest.epoch + 1
      && Ids(sstables) == manifest.tables && currentVersion.sstables == sstables && pendingDeletions == []
      && currentVersion.immutables == Reversed(immutables) && currentSeqNo == MaxSeqNo(LogOf(log))
    }

    /** LsmEngine::new on what crashed left on disk: the log's records, the manifest and the
        files that orphan cleanup kept. */
    constructor (config: Config, maxBytes: nat, overheadPerEntry: nat, log: seq<Segment>, manifest: Manifest,
                 kept: map<nat, Mem>,
                 l0Stop: nat, ghost crashed: State)
      requires config == crashed.cfg && log == crashed.wal && manifest == crashed.manifest && log != []
      requires CleansOrphans(crashed, kept)
      ensures Valid() && writer.Idle? && cfg == config && memtableMaxBytes == maxBytes && overhead == overheadPerEntry
      ensures l0StopWrites == l0Stop && !isClosed && !shuttingDown && !compaction.paused
      ensures OpenedFrom(log, manifest, kept)
      ensures exists fulls :: FillsBySize(LogOf(log), fulls, maxBytes, overheadPerEntry, config.maxImmutables)
                              && Abstract() == Restart(crashed, fulls, kept)
    {
      cfg, memtableMaxBytes, overhead, l0StopWrites := config, maxBytes, overheadPerEntry, l0Stop;
      isClosed, shuttingDown := false, false;
      var recs := LogOf(log);
      var memtable, imm, grace, blocked;
      ghost var fulls;
      memtable, imm, grace, blocked, fulls := ReplayLog(recs, maxBytes, overheadPerEntry, config.maxImmutables);
      var handles := OpenTables(manifest.tables, kept);
      var cleaned := CleanLog(log, manifest.watermark);
      compaction := new CompactionManager();
      wal, currentSeqNo, graceUsed, writesBlocked := cleaned, MaxSeqNo(recs), grace, blocked;
      active, activeBytes, immutables, sstables := memtable.entries, memtable.bytes, imm, handles;
      currentVersion := Version(manifest.epoch + 1, Reversed(imm), handles);
      nextEpoch, nextSstId, catalog, files, pendingDeletions := manifest.epoch + 2, manifest.nextId, manifest, kept, [];
      writer, flusher, jobs, pins, doomed := Idle, NoFlush, map[], map[], None;
      hist := crashed.hist + InFlight(crashed);
      starts := Restart(crashed, fulls, kept).starts;
      new;
      assert Abstract() == Restart(crashed, fulls, kept);
    }

    // ---- sections of write_op -------------------------------------------------------------

    method RollSegment()
      requires Valid() && writer.Idle? && !writesBlocked
      modifies this`wal
      ensures Valid() && Abstract() == Apply(Action.RollSegment, old(Abstract()))
      ensures wal == old(wal) + [Segment(old(wal)[|old(wal)| - 1].id + 1, [])]
    {
      wal := wal + [Segment(wal[|wal| - 1].id + 1, [])];
    }

    method LogWrite(key: Key, value: Option<Value>)
      requires Valid() && writer.Idle? && !writesBlocked
      modifies this`currentSeqNo, this`wal, this`writer
      ensures Valid() && Abstract() == Apply(Action.LogWrite(key, value), old(Abstract()))
      ensures currentSeqNo == old(currentSeqNo) + 1 && writer == Logged(Record(currentSeqNo, key, value))
      ensures wal == LogRecord(old(wal), Record(currentSeqNo, key, value))
    {
      ghost var s := Abstract();
      var r := AppendNext(key, value);
      writer := Logged(r);
      RecordLogged(s, Abstract(), key, value);
    }

    /** The record under the next sequence number, in the current segment. */
    method AppendNext(key: Key, value: Option<Value>) returns (r: Record)
      requires wal != []
      modifies this`currentSeqNo, this`wal
      ensures currentSeqNo == old(currentSeqNo) + 1
      ensures r == Record(currentSeqNo, key, value) && wal == LogRecord(old(wal), r)
    {
      currentSeqNo := currentSeqNo + 1;
      r := Record(currentSeqNo, key, value);
      var last := wal[|wal| - 1];
      wal := wal[..|wal| - 1] + [last.(records := last.records + [r])];
    }

    /** The insert under the active lock, with Memtable::insert's byte accounting. */
    method InsertWrite(r: Record)
      requires Valid() && writer == Logged(r)
      modifies this`active, this`activeBytes, this`hist, this`writer
      ensures Valid() && Abstract() == Apply(Action.InsertWrite, old(Abstract()))
      ensures hist == old(hist) + [r] && writer.Inserted? && active == old(active)[r.key := Cell(r.seqNo, r.value)]
    {
      InsertCell(r.key, Cell(r.seqNo, r.value));
      hist := hist + [r];
      writer := Inserted;
    }

    method InsertCell(key: Key, cell: Cell)
      requires activeBytes == TotalBytes(active, overhead)
      modifies this`active, this`activeBytes
      ensures active == old(active)[key := cell] && activeBytes == TotalBytes(active, overhead)
    {
      var sized, added, removed := InsertSized(Sized(active, activeBytes), overhead, key, cell);
      active, activeBytes := sized.entries, sized.bytes;
    }

    /** The size test of check_rotation, and the count of immutables if it is met. */
    method TestSize(cooling: bool) returns (trigger: bool, full: bool)
      requires Valid() && writer.Inserted?
      modifies this`writer
      ensures trigger == (!cooling && activeBytes >= EffectiveMax(memtableMaxBytes, graceUsed))
      ensures full == (|immutables| >= cfg.maxImmutables)
      ensures Valid() && Abstract() == Apply(CheckRotation(trigger), old(Abstract()))
      ensures writer == if trigger then Counted(full) else Idle
    {
      var effectiveMax := EffectiveMax(memtableMaxBytes, graceUsed);
      trigger := !cooling && activeBytes >= effectiveMax;
      full := |immutables| >= cfg.maxImmutables;
      writer := if trigger then Counted(full) else Idle;
    }

    method GraceOrBlock()
      requires Valid() && writer == Counted(true)
      modifies this`graceUsed, this`writesBlocked, this`writer
      ensures Valid() && Abstract() == Apply(Action.GraceOrBlock, old(Abstract()))
      ensures graceUsed && writesBlocked == (old(writesBlocked) || old(graceUsed)) && writer.Idle?
    {
      if !graceUsed {
        graceUsed := true;
      } else {
        writesBlocked := true;
      }
      writer := Idle;
    }

    method Freeze()
      requires Valid() && writer == Counted(false)
      modifies this`immutables, this`starts, this`graceUsed, this`writer
      ensures Valid() && Abstract() == Apply(Action.Freeze, old(Abstract()))
      ensures immutables == old(immutables) + [active] && !graceUsed && writer.Frozen?
    {
      PushActive();
      starts := starts + [|hist|];
      writer := Frozen;
    }

    method PushActive()
      modifies this`immutables, this`graceUsed
      ensures immutables == old(immutables) + [active] && !graceUsed
    {
      immutables := immutables + [active];
      graceUsed := false;
    }

    /** build_and_swap_version: immutables turned newest first, tables as they are. */
    method BuildAndSwapVersion(epoch: nat)
      modifies this`currentVersion
      ensures currentVersion == Version(epoch, Reversed(immutables), sstables)
    {
      var newestFirst: seq<Mem> := [];
      for i := 0 to |immutables|
        invariant newestFirst == Reversed(immutables[..i])
      {
        assert Reversed(immutables[..i + 1]) == [immutables[i]] + Reversed(immutables[..i]);
        newestFirst := [immutables[i]] + newestFirst;
      }
      assert immutables[..|immutables|] == immutables;
      currentVersion := Version(epoch, newestFirst, sstables);
    }

    method PublishVersion()
      modifies this`currentVersion, this`nextEpoch
      ensures nextEpoch == old(nextEpoch) + 1
      ensures currentVersion == Version(old(nextEpoch), Reversed(immutables), sstables)
    {
      var epoch := nextEpoch;
      nextEpoch := nextEpoch + 1;
      BuildAndSwapVersion(epoch);
    }

    method PublishRotation()
      requires Valid() && writer.Frozen?
      modifies this`currentVersion, this`nextEpoch, this`writer
      ensures Valid() && Abstract() == Apply(Action.PublishRotation, old(Abstract()))
      ensures writer.Published? && nextEpoch == old(nextEpoch) + 1
      ensures currentVersion == Version(old(nextEpoch), Reversed(immutables), sstables)
    {
      PublishVersion();
      writer := Published;
    }

    method SwapActive()
      requires Valid() && writer.Published?
      modifies this`active, this`activeBytes, this`writer
      ensures Valid() && Abstract() == Apply(Action.SwapActive, old(Abstract()))
      ensures active == map[] && writer.Idle?
    {
      ghost var s := Abstract();
      EmptyActive();
      writer := Idle;
      ActiveSwapped(s, Abstract());
    }

    method EmptyActive()
      modifies this`active, this`activeBytes
      ensures active == map[] && activeBytes == 0
    {
      active := map[];
      activeBytes := 0;
    }

    // ---- write_op -------------------------------------------------------------------------

    /** check_rotation. The queue never grows past its limit here; a full queue costs the writer
        first its grace, then its right to write. */
    method RotateIfFull(cooling: bool)
      requires Valid() && writer.Inserted?
      modifies this`writer, this`immutables, this`starts, this`graceUsed, this`writesBlocked,
               this`currentVersion, this`nextEpoch, this`active, this`activeBytes
      ensures Valid() && writer.Idle? && Reaches(old(Abstract()), Abstract())
      ensures Writes() == AfterCheck(old(Writes()), sstables, memtableMaxBytes, overhead, cfg.maxImmutables, cooling)
    {
      ghost var s := Abstract();
      ReachesSelf(s);
      ghost var b := Writes();
      var trigger, full := TestOn(s, cooling);
      CheckCases(b, sstables, memtableMaxBytes, overhead, cfg.maxImmutables, cooling, trigger, full);
      if trigger {
        GraceOrRotate(s, full);
      }
    }

    method GraceOrRotate(ghost s: State, full: bool)
      requires Valid() && writer == Counted(full) && Reaches(s, Abstract())
      modifies this`writer, this`immutables, this`starts, this`graceUsed, this`writesBlocked,
               this`currentVersion, this`nextEpoch, this`active, this`activeBytes
      ensures Valid() && writer.Idle? && Reaches(s, Abstract())
      ensures Writes() == if full then Graced(old(Writes())) else Queued(old(Writes()), sstables)
    {
      if full {
        GraceOn(s);
      } else {
        Rotate(s);
      }
    }

    method TestOn(ghost s: State, cooling: bool) returns (trigger: bool, full: bool)
      requires Valid() && writer.Inserted? && Reaches(s, Abstract())
      modifies this`writer
      ensures Valid() && Reaches(s, Abstract()) && full == (|immutables| >= cfg.maxImmutables)
      ensures trigger == (!cooling && TotalBytes(active, overhead) >= EffectiveMax(memtableMaxBytes, graceUsed))
      ensures writer == if trigger then Counted(full) else Idle
    {
      ghost var t := Abstract();
      trigger, full := TestSize(cooling);
      ReachesNext(s, t, CheckRotation(trigger));
    }

    /** No room: the grace goes, or the right to write. */
    method GraceOn(ghost s: State)
      requires Valid() && writer == Counted(true) && Reaches(s, Abstract())
      modifies this`graceUsed, this`writesBlocked, this`writer
      ensures Valid() && writer.Idle? && Reaches(s, Abstract())
      ensures Writes() == Graced(old(Writes()))
    {
      ReachesNext(s, Abstract(), Action.GraceOrBlock);
      GraceOrBlock();
    }

    /** The queue grows, a version with it is published, and only then does the active memtable
        give way to a fresh one. */
    method Rotate(ghost s: State)
      requires Valid() && writer == Counted(false) && Reaches(s, Abstract())
      modifies this`writer, this`immutables, this`starts, this`graceUsed, this`currentVersion,
               this`nextEpoch, this`active, this`activeBytes
      ensures Valid() && writer.Idle? && Reaches(s, Abstract())
      ensures Writes() == Queued(old(Writes()), sstables)
    {
      QueueActive(s);
      ReachesNext(s, Abstract(), Action.SwapActive);
      SwapActive();
    }

    method QueueActive(ghost s: State)
      requires Valid() && writer == Counted(false) && Reaches(s, Abstract())
      modifies this`writer, this`immutables, this`starts, this`graceUsed, this`currentVersion, this`nextEpoch
      ensures Valid() && writer.Published? && Reaches(s, Abstract())
      ensures immutables == old(immutables) + [active] && !graceUsed && nextEpoch == old(nextEpoch) + 1
      ensures currentVersion == Version(old(nextEpoch), Reversed(immutables), sstables)
    {
      ReachesNext(s, Abstract(), Action.Freeze);
      Freeze();
      ReachesNext(s, Abstract(), Action.PublishRotation);
      PublishRotation();
    }

    /** The part of write_op between the stall test and check_rotation. */
    method LogAndInsert(key: Key, value: Option<Value>, roll: bool) returns (seqNo: nat)
      requires Valid() && writer.Idle? && !writesBlocked
      modifies this`currentSeqNo, this`wal, this`active, this`activeBytes, this`hist, this`writer
      ensures Valid() && writer.Inserted? && Reaches(old(Abstract()), Abstract())
      ensures seqNo == currentSeqNo == old(currentSeqNo) + 1
      ensures Writes() == AfterInsert(old(Writes()), key, value, roll)
    {
      ghost var s := Abstract();
      ReachesSelf(s);
      LogRolled(s, key, value, roll);
      seqNo := currentSeqNo;
      InsertOn(s, Record(seqNo, key, value));
    }

    method LogRolled(ghost s: State, key: Key, value: Option<Value>, roll: bool)
      requires Valid() && writer.Idle? && !writesBlocked && Reaches(s, Abstract())
      modifies this`currentSeqNo, this`wal, this`writer
      ensures Valid() && Reaches(s, Abstract()) && currentSeqNo == old(currentSeqNo) + 1
      ensures writer == Logged(Record(currentSeqNo, key, value))
      ensures wal == LogRecord(if roll then old(wal) + [Segment(old(wal)[|old(wal)| - 1].id + 1, [])] else old(wal),
                               Record(currentSeqNo, key, value))
    {
      RollIf(s, roll);
      LogOn(s, key, value);
    }

    method InsertOn(ghost s: State, r: Record)
      requires Valid() && writer == Logged(r) && Reaches(s, Abstract())
      modifies this`active, this`activeBytes, this`hist, this`writer
      ensures Valid() && writer.Inserted? && Reaches(s, Abstract())
      ensures hist == old(hist) + [r] && active == old(active)[r.key := Cell(r.seqNo, r.value)]
    {
      ReachesNext(s, Abstract(), Action.InsertWrite);
      InsertWrite(r);
    }

    method RollIf(ghost s: State, roll: bool)
      requires Valid() && writer.Idle? && !writesBlocked && Reaches(s, Abstract())
      modifies this`wal
      ensures Valid() && Reaches(s, Abstract())
      ensures wal == if roll then old(wal) + [Segment(old(wal)[|old(wal)| - 1].id + 1, [])] else old(wal)
    {
      if roll {
        ReachesNext(s, Abstract(), Action.RollSegment);
        RollSegment();
      }
    }

    method LogOn(ghost s: State, key: Key, value: Option<Value>)
      requires Valid() && writer.Idle? && !writesBlocked && Reaches(s, Abstract())
      modifies this`currentSeqNo, this`wal, this`writer
      ensures Valid() && Reaches(s, Abstract()) && currentSeqNo == old(currentSeqNo) + 1
      ensures writer == Logged(Record(currentSeqNo, key, value))
      ensures wal == LogRecord(old(wal), Record(currentSeqNo, key, value))
    {
      ReachesNext(s, Abstract(), Action.LogWrite(key, value));
      LogWrite(key, value);
    }

    /** What write_op refuses: a closing engine, too many tables, a full queue of memtables. */
    predicate Refuses()
      reads this`isClosed, this`shuttingDown, this`sstables, this`writesBlocked
    {
      isClosed || shuttingDown || (0 < l0StopWrites <= |sstables|) || writesBlocked
    }

    /** write_op: refused without a trace, or logged, inserted and numbered one up. roll says that
        the log's segment had reached its size. */
    method WriteOp(key: Key, value: Option<Value>, roll: bool, cooling: bool) returns (r: Result<nat>)
      requires Valid() && writer.Idle?
      modifies this`wal, this`currentSeqNo, this`graceUsed, this`writesBlocked, this`active,
               this`activeBytes, this`immutables, this`currentVersion, this`nextEpoch, this`writer,
               this`hist, this`starts
      ensures Valid() && writer.Idle? && Reaches(old(Abstract()), Abstract())
      ensures r.Err? <==> old(isClosed || shuttingDown || (l0StopWrites > 0 && |sstables| >= l0StopWrites)
                              || writesBlocked)
      ensures r.Err? <==> old(Refuses())
      ensures r.Err? ==> unchanged(this)
      ensures r.Ok? ==> r.value == currentSeqNo == old(currentSeqNo) + 1
                        && Writes() == AfterWrite(old(Writes()), sstables, memtableMaxBytes, overhead,
                                                  cfg.maxImmutables, key, value, roll, cooling)
    {
      ReachesSelf(Abstract());
      if isClosed || shuttingDown {
        return Err;
      }
      if l0StopWrites > 0 && |sstables| >= l0StopWrites {
        return Err;
      }
      if writesBlocked {
        return Err;
      }
      var seqNo := WriteAccepted(key, value, roll, cooling);
      r := Ok(seqNo);
    }

    method WriteAccepted(key: Key, value: Option<Value>, roll: bool, cooling: bool) returns (seqNo: nat)
      requires Valid() && writer.Idle? && !writesBlocked
      modifies this`wal, this`currentSeqNo, this`graceUsed, this`writesBlocked, this`active,
               this`activeBytes, this`immutables, this`currentVersion, this`nextEpoch, this`writer,
               this`hist, this`starts
      ensures Valid() && writer.Idle? && Reaches(old(Abstract()), Abstract())
      ensures seqNo == currentSeqNo == old(currentSeqNo) + 1
      ensures Writes() == AfterWrite(old(Writes()), sstables, memtableMaxBytes, overhead, cfg.maxImmutables, key, value,
                                     roll, cooling)
    {
      ghost var s := Abstract();
      seqNo := LogAndInsert(key, value, roll);
      ghost var t := Abstract();
      RotateIfFull(cooling);
      ReachesOver(s, t, Abstract());
    }

    // ---- put, get, delete -------------------------------------------------------------------

    /** lookup_key: what a read in one go finds; LookupKey is its loops. */
    function Seen(key: Key): Lookup
      reads this`active, this`currentVersion
    {
      ToLookup(FirstHit([active] + currentVersion.Levels(), key))
    }

    /** Between writes, in any state a run can reach, that is what the map holds. */
    lemma SeenAnswers(key: Key)
      requires Recovery.Sound(Abstract()) && writer.Idle?
      ensures Seen(key) == NotFound <==> key !in Fold(hist)
      ensures Seen(key) == Tombstone <==> key in Fold(hist) && Fold(hist)[key].value.None?
      ensures forall v :: Seen(key) == Found(v) <==> key in Fold(hist) && Fold(hist)[key].value == Some(v)
    {
      MapAnswers(Abstract(), key);
    }

    /** lookup_key_traced: the active memtable, then the published version's immutables and
        tables, newest first. */
    method LookupKey(key: Key) returns (r: Lookup)
      ensures r == Seen(key)
    {
      ghost var levels := currentVersion.Levels();
      assert ([active] + levels)[1..] == levels;
      if key in active {
        return ToLookup(Some(active[key]));
      }
      FirstHitConcat(currentVersion.immutables, Contents(currentVersion.sstables), key);
      var hit := SearchMemtables(currentVersion.immutables, key);
      if hit.None? {
        hit := SearchTables(currentVersion.sstables, key);
      }
      r := ToLookup(hit);
    }

    /** get: between writes, in any reachable state, what the map holds. */
    method Get(key: Key) returns (r: Lookup)
      ensures Recovery.Sound(Abstract()) && writer.Idle? ==>
                && (r == NotFound <==> key !in Fold(hist))
                && (r == Tombstone <==> key in Fold(hist) && Fold(hist)[key].value.None?)
                && (forall v :: r == Found(v) <==> key in Fold(hist) && Fold(hist)[key].value == Some(v))
    {
      if Recovery.Sound(Abstract()) && writer.Idle? {
        SeenAnswers(key);
      }
      r := LookupKey(key);
    }

    /** put. */
    method Put(key: Key, value: Value, roll: bool, cooling: bool) returns (r: Result<nat>)
      requires Valid() && writer.Idle?
      modifies this`wal, this`currentSeqNo, this`graceUsed, this`writesBlocked, this`active,
               this`activeBytes, this`immutables, this`currentVersion, this`nextEpoch, this`writer,
               this`hist, this`starts
      ensures Valid() && writer.Idle? && Reaches(old(Abstract()), Abstract())
      ensures r.Err? <==> key == [] || old(Refuses())
      ensures r.Err? ==> unchanged(this)
      ensures r.Ok? ==> r.value == old(currentSeqNo) + 1
                        && Writes() == AfterWrite(old(Writes()), sstables, memtableMaxBytes, overhead,
                                                  cfg.maxImmutables, key, Some(value), roll, cooling)
    {
      if key == [] {
        ReachesSelf(Abstract());
        return Err;
      }
      r := WriteOp(key, Some(value), roll, cooling);
    }

    /** delete: a tombstone is written only over a key that is there, as SeenAnswers says. */
    method Delete(key: Key, roll: bool, cooling: bool) returns (r: Result<Option<nat>>)
      requires Valid() && writer.Idle?
      modifies this`wal, this`currentSeqNo, this`graceUsed, this`writesBlocked, this`active,
               this`activeBytes, this`immutables, this`currentVersion, this`nextEpoch, this`writer,
               this`hist, this`starts
      ensures Valid() && writer.Idle? && Reaches(old(Abstract()), Abstract())
      ensures r.Err? <==> key == [] || (old(Seen(key)).Found? && old(Refuses()))
      ensures r == Ok(None) <==> key != [] && !old(Seen(key)).Found?
      ensures r.Err? || r == Ok(None) ==> unchanged(this)
      ensures r.Ok? && r.value.Some? ==>
                r.value == Some(old(currentSeqNo) + 1)
                && Writes() == AfterWrite(old(Writes()), sstables, memtableMaxBytes, overhead, cfg.maxImmutables,
                                          key, None, roll, cooling)
    {
      if key == [] {
        ReachesSelf(Abstract());
        return Err;
      }
      r := DeleteIfThere(key, roll, cooling);
    }

    method DeleteIfThere(key: Key, roll: bool, cooling: bool) returns (r: Result<Option<nat>>)
      requires Valid() && writer.Idle?
      modifies this`wal, this`currentSeqNo, this`graceUsed, this`writesBlocked, this`active,
               this`activeBytes, this`immutables, this`currentVersion, this`nextEpoch, this`writer,
               this`hist, this`starts
      ensures Valid() && writer.Idle? && Reaches(old(Abstract()), Abstract())
      ensures r.Err? <==> old(Seen(key)).Found? && old(Refuses())
      ensures r == Ok(None) <==> !old(Seen(key)).Found?
      ensures r.Err? || r == Ok(None) ==> unchanged(this)
      ensures r.Ok? && r.value.Some? ==>
                r.value == Some(old(currentSeqNo) + 1)
                && Writes() == AfterWrite(old(Writes()), sstables, memtableMaxBytes, overhead, cfg.maxImmutables,
                                          key, None, roll, cooling)
    {
      if !Seen(key).Found? {
        ReachesSelf(Abstract());
        return Ok(None);
      }
      r := WriteTombstone(key, roll, cooling);
    }

    method WriteTombstone(key: Key, roll: bool, cooling: bool) returns (r: Result<Option<nat>>)
      requires Valid() && writer.Idle?
      modifies this`wal, this`currentSeqNo, this`graceUsed, this`writesBlocked, this`active,
               this`activeBytes, this`immutables, this`currentVersion, this`nextEpoch, this`writer,
               this`hist, this`starts
      ensures Valid() && writer.Idle? && Reaches(old(Abstract()), Abstract())
      ensures if old(Refuses()) then r == Err && unchanged(this)
              else r == Ok(Some(old(currentSeqNo) + 1))
                   && Writes() == AfterWrite(old(Writes()), sstables, memtableMaxBytes, overhead, cfg.maxImmutables,
                                             key, None, roll, cooling)
    {
      var w := WriteOp(key, None, roll, cooling);
      r := match w case Err => Err case Ok(n) => Ok(Some(n));
    }

    // ---- sections of flush_immutable ----------------------------------------------------------

    method PeekFlush() returns (mem: Mem)
      requires Valid() && flusher.NoFlush? && immutables != []
      modifies this`flusher
      ensures Valid() && mem == immutables[0] && Abstract() == Apply(Action.PeekFlush, old(Abstract()))
      ensures flusher == Peeked(mem)
    {
      mem := immutables[0];
      flusher := Peeked(mem);
    }

    method DropEmpty()
      requires Valid() && flusher == Peeked(map[]) && immutables != []
      modifies this`immutables, this`starts, this`nextEpoch, this`currentVersion, this`flusher
      ensures Valid() && Abstract() == Apply(Action.DropEmpty, old(Abstract()))
      ensures immutables == old(immutables)[1..] && flusher.Popped? && nextEpoch == old(nextEpoch) + 1
      ensures currentVersion == Version(old(nextEpoch), Reversed(immutables), sstables)
    {
      PopOldest();
      PublishVersion();
    }

    /** The queue loses its front, whose tables or emptiness is settled. */
    method PopOldest()
      requires immutables != []
      modifies this`immutables, this`starts, this`flusher
      ensures immutables == old(immutables)[1..] && starts == Tail(old(starts)) && flusher == Popped
    {
      immutables := immutables[1..];
      starts := Tail(starts);
      flusher := Popped;
    }

    /** next_sst_id.fetch_add. */
    method TakeSstId() returns (id: nat)
      modifies this`nextSstId
      ensures id == old(nextSstId) && nextSstId == id + 1
    {
      id := nextSstId;
      nextSstId := nextSstId + 1;
    }

    method ReserveFlushId() returns (id: nat)
      requires Valid() && flusher.Peeked? && flusher.mem != map[]
      modifies this`nextSstId, this`flusher
      ensures Valid() && id == old(nextSstId) && Abstract() == Apply(Action.ReserveFlushId, old(Abstract()))
      ensures flusher == GotId(old(flusher).mem, id) && nextSstId == id + 1
    {
      id := TakeSstId();
      flusher := GotId(flusher.mem, id);
    }

    method CreateFile(id: nat, content: Mem)
      modifies this`files
      ensures files == old(files)[id := content]
    {
      files := files[id := content];
    }

    method WriteFlush(mem: Mem, id: nat)
      requires Valid() && flusher == GotId(mem, id)
      modifies this`files, this`flusher
      ensures Valid() && Abstract() == Apply(Action.WriteFlush, old(Abstract()))
      ensures flusher == Written(mem, id) && files == old(files)[id := mem]
    {
      CreateFile(id, mem);
      flusher := Written(mem, id);
    }

    /** The file could not be written. */
    ghost method AbortWrite()
      requires Valid() && flusher.GotId?
      modifies this`flusher
      ensures Valid() && Abstract() == Apply(Action.AbortFlush, old(Abstract()))
      ensures flusher.NoFlush?
    {
      flusher := NoFlush;
    }

    /** The manifest could not be saved; its epoch is spent. */
    method AbortSave()
      requires Valid() && flusher.Written?
      modifies this`flusher, this`nextEpoch
      ensures Valid() && Abstract() == Apply(Action.AbortFlush, old(Abstract()))
      ensures flusher.NoFlush? && nextEpoch == old(nextEpoch) + 1
    {
      SpendEpoch();
      flusher := NoFlush;
    }

    /** The section under publish_lock: manifest, table list, queue and version move together. */
    method PublishFlush(mem: Mem, id: nat, maxSeqNo: nat)
      requires Valid() && flusher == Written(mem, id) && immutables != [] && IsMaxSeqNo(mem, maxSeqNo)
      modifies this`nextEpoch, this`catalog, this`sstables, this`immutables, this`starts,
               this`currentVersion, this`flusher
      ensures Valid() && Abstract() == Apply(Action.PublishFlush(maxSeqNo), old(Abstract()))
      ensures flusher.Popped?
      ensures Flushes() == Installed(old(Flushes()), id, mem, Max(old(catalog).watermark, maxSeqNo))
    {
      var epoch := InstallFlushed(mem, id, maxSeqNo);
      PopAndSwap(epoch);
    }

    method PopAndSwap(epoch: nat)
      requires immutables != []
      modifies this`immutables, this`starts, this`flusher, this`currentVersion
      ensures immutables == old(immutables)[1..] && starts == Tail(old(starts)) && flusher == Popped
      ensures currentVersion == Version(epoch, Reversed(immutables), sstables)
    {
      PopOldest();
      BuildAndSwapVersion(epoch);
    }

    /** The new table first, in the manifest and in the list. */
    method InstallFlushed(mem: Mem, id: nat, maxSeqNo: nat) returns (epoch: nat)
      modifies this`nextEpoch, this`catalog, this`sstables
      ensures epoch == old(nextEpoch) && nextEpoch == epoch + 1 && sstables == [Table(id, mem)] + old(sstables)
      ensures catalog == Manifest(epoch, Max(old(catalog).nextId, id + 1), [id] + old(catalog).tables,
                                  Max(old(catalog).watermark, maxSeqNo))
    {
      epoch := nextEpoch;
      nextEpoch := nextEpoch + 1;
      catalog := Manifest(epoch, Max(catalog.nextId, id + 1), [id] + catalog.tables, Max(catalog.watermark, maxSeqNo));
      sstables := [Table(id, mem)] + sstables;
    }

    method DeleteSegment(i: nat)
      requires Valid() && Enabled(Action.DeleteSegment(i), Abstract())
      modifies this`wal
      ensures Valid() && Abstract() == Apply(Action.DeleteSegment(i), old(Abstract()))
      ensures wal == old(wal)[..i] + old(wal)[i + 1..]
    {
      wal := wal[..i] + wal[i + 1..];
    }

    method CheckRoom() returns (room: bool)
      requires Valid() && flusher.Popped?
      modifies this`flusher
      ensures room == (|immutables| < cfg.maxImmutables)
      ensures Valid() && Abstract() == Apply(Action.CheckRoom, old(Abstract()))
      ensures flusher == if room then SawRoom else NoFlush
    {
      room := |immutables| < cfg.maxImmutables;
      flusher := if room then SawRoom else NoFlush;
    }

    method ClearStall()
      requires Valid() && flusher.SawRoom? && writer.Idle?
      modifies this`writesBlocked, this`flusher
      ensures Valid() && Abstract() == Apply(Action.ClearStall, old(Abstract()))
      ensures !writesBlocked && flusher.NoFlush?
    {
      ghost var s := Abstract();
      writesBlocked := false;
      flusher := NoFlush;
      StallCleared(s, Abstract());
    }

    // ---- flush_immutable ----------------------------------------------------------------------

    /** delete_segments_below_watermark: every segment but the current one, file by file. */
    method CleanupWal(ghost s: State)
      requires Valid() && Reaches(s, Abstract())
      modifies this`wal
      ensures Valid() && Reaches(s, Abstract())
      ensures wal == Kept(old(wal), catalog.watermark) && NoOldSegment(wal, |wal| - 1, catalog.watermark)
    {
      var i: nat := 0;
      ghost var kept := Kept(wal, catalog.watermark);
      CleanBegins(wal, catalog.watermark);
      while i + 1 < |wal|
        invariant i < |wal| && CleaningAt(s, i, kept)
        decreases |wal| - i
      {
        i := CleanAt(s, i, kept);
      }
      CleanEnds(wal, catalog.watermark, kept);
    }

    ghost predicate CleaningAt(s: State, i: nat, kept: seq<Segment>)
      reads this, compaction
    {
      && Valid() && Reaches(s, Abstract())
      && CleanedTo(wal, i, catalog.watermark, kept) && NoOldSegment(wal, i, catalog.watermark)
    }

    /** One segment goes, or is passed by. */
    method CleanAt(ghost s: State, i: nat, ghost kept: seq<Segment>) returns (next: nat)
      requires CleaningAt(s, i, kept) && i + 1 < |wal|
      modifies this`wal
      ensures next < |wal| && CleaningAt(s, next, kept) && |wal| - next < |old(wal)| - i
    {
      if MaxSeqNo(wal[i].records) <= catalog.watermark {
        DropAt(s, i, kept);
        return i;
      }
      CleanKeeps(wal, i, catalog.watermark, kept);
      return i + 1;
    }

    method DropAt(ghost s: State, i: nat, ghost kept: seq<Segment>)
      requires CleaningAt(s, i, kept) && i + 1 < |wal| && MaxSeqNo(wal[i].records) <= catalog.watermark
      modifies this`wal
      ensures CleaningAt(s, i, kept) && |wal| == |old(wal)| - 1
    {
      CleanDrops(wal, i, catalog.watermark, kept);
      DeleteOldSegment(s, i);
    }

    method DeleteOldSegment(ghost s: State, i: nat)
      requires Valid() && Reaches(s, Abstract()) && i + 1 < |wal| && NoOldSegment(wal, i, catalog.watermark)
      requires MaxSeqNo(wal[i].records) <= catalog.watermark
      modifies this`wal
      ensures Valid() && Reaches(s, Abstract()) && wal == old(wal)[..i] + old(wal)[i + 1..]
    {
      ReachesNext(s, Abstract(), Action.DeleteSegment(i));
      DeleteSegment(i);
    }

    /** clear_stall_if_room. */
    method ClearStallIfRoom(ghost s: State)
      requires Valid() && flusher.Popped? && writer.Idle? && Reaches(s, Abstract())
      modifies this`flusher, this`writesBlocked
      ensures Valid() && flusher.NoFlush? && Reaches(s, Abstract())
      ensures Flushes() == old(Flushes()).(blocked := old(writesBlocked) && |immutables| >= cfg.maxImmutables)
    {
      ReachesNext(s, Abstract(), Action.CheckRoom);
      var room := CheckRoom();
      if room {
        ReachesNext(s, Abstract(), Action.ClearStall);
        ClearStall();
      }
    }

    /** A memtable waits that has entries. */
    ghost predicate FrontFilled()
      reads this`immutables
    {
      immutables != [] && immutables[0] != map[]
    }

    /** And its file or the manifest cannot be written. */
    ghost predicate FlushFails(ioOk: bool)
      reads this`immutables
    {
      FrontFilled() && !ioOk
    }

    /** flush_immutable, with the outcome of writing the file and of saving the manifest. It fails
        without touching queue, tables, log or catalogue, or takes the oldest memtable off the
        queue: into a table, the manifest and the version, and its segments out of the log. */
    method FlushImmutable(writeOk: bool, saveOk: bool) returns (r: Result<bool>)
      requires Valid() && writer.Idle? && flusher.NoFlush?
      modifies this`nextSstId, this`files, this`nextEpoch, this`catalog, this`sstables,
               this`immutables, this`starts, this`currentVersion, this`flusher, this`wal,
               this`writesBlocked
      ensures Valid() && flusher.NoFlush? && Reaches(old(Abstract()), Abstract())
      ensures r.Err? <==> old(isClosed || (immutables != [] && immutables[0] != map[] && !(writeOk && saveOk)))
      ensures r == Ok(false) <==> old(!isClosed && immutables == [])
      ensures Flushes() == if old(isClosed || immutables == []) then old(Flushes())
                           else AfterFlush(old(Flushes()), cfg.maxImmutables, writeOk, saveOk, catalog.watermark)
      ensures r != Ok(true) ==> Lists() == old(Lists()) && wal == old(wal)
      ensures r == Ok(true) && old(immutables)[0] != map[] ==> LogTidied(old(Flushes()), Flushes())
    {
      if isClosed {
        ReachesSelf(Abstract());
        return Err;
      }
      r := FlushWaiting(writeOk, saveOk);
    }

    method FlushWaiting(writeOk: bool, saveOk: bool) returns (r: Result<bool>)
      requires Valid() && writer.Idle? && flusher.NoFlush?
      modifies this`nextSstId, this`files, this`nextEpoch, this`catalog, this`sstables,
               this`immutables, this`starts, this`currentVersion, this`flusher, this`wal,
               this`writesBlocked
      ensures Valid() && flusher.NoFlush? && Reaches(old(Abstract()), Abstract())
      ensures r.Err? <==> old(FlushFails(writeOk && saveOk))
      ensures r == Ok(false) <==> old(immutables == [])
      ensures Flushes() == if old(immutables == []) then old(Flushes())
                           else AfterFlush(old(Flushes()), cfg.maxImmutables, writeOk, saveOk, catalog.watermark)
      ensures r != Ok(true) ==> Lists() == old(Lists()) && wal == old(wal)
      ensures r == Ok(true) && old(FrontFilled()) ==> LogTidied(old(Flushes()), Flushes())
    {
      ReachesSelf(Abstract());
      if immutables == [] {
        return Ok(false);
      }
      var flushed := FlushOldest(Abstract(), writeOk, saveOk);
      r := if flushed then Ok(true) else Err;
    }

    method FlushOldest(ghost s: State, writeOk: bool, saveOk: bool) returns (flushed: bool)
      requires Valid() && writer.Idle? && flusher.NoFlush? && immutables != [] && Reaches(s, Abstract())
      modifies this`nextSstId, this`files, this`nextEpoch, this`catalog, this`sstables,
               this`immutables, this`starts, this`currentVersion, this`flusher, this`wal,
               this`writesBlocked
      ensures Valid() && flusher.NoFlush? && Reaches(s, Abstract())
      ensures flushed == !old(FlushFails(writeOk && saveOk))
      ensures Flushes() == AfterFlush(old(Flushes()), cfg.maxImmutables, writeOk, saveOk, catalog.watermark)
      ensures !flushed ==> Lists() == old(Lists()) && wal == old(wal)
      ensures flushed && old(FrontFilled()) ==> LogTidied(old(Flushes()), Flushes())
    {
      var mem := TakeFront(s);
      if mem == map[] {
        DropPeeked(s);
        return true;
      }
      FlushGives(Flushes(), cfg.maxImmutables, writeOk, saveOk);
      flushed := FlushFront(s, mem, writeOk, saveOk);
    }

    method TakeFront(ghost s: State) returns (mem: Mem)
      requires Valid() && flusher.NoFlush? && immutables != [] && Reaches(s, Abstract())
      modifies this`flusher
      ensures Valid() && mem == immutables[0] && flusher == Peeked(mem) && Reaches(s, Abstract())
    {
      ReachesNext(s, Abstract(), Action.PeekFlush);
      mem := PeekFlush();
    }

    method FlushFront(ghost s: State, mem: Mem, writeOk: bool, saveOk: bool) returns (flushed: bool)
      requires Valid() && writer.Idle? && flusher == Peeked(mem)
      requires mem != map[] && immutables != [] && immutables[0] == mem && Reaches(s, Abstract())
      modifies this`nextSstId, this`files, this`nextEpoch, this`catalog, this`sstables,
               this`immutables, this`starts, this`currentVersion, this`flusher, this`wal,
               this`writesBlocked
      ensures Valid() && flusher.NoFlush? && Reaches(s, Abstract()) && flushed == (writeOk && saveOk)
      ensures Flushes() == FileFlush(old(Flushes()), cfg.maxImmutables, writeOk, saveOk, catalog.watermark)
      ensures !flushed ==> Lists() == old(Lists()) && wal == old(wal)
      ensures flushed ==> LogTidied(old(Flushes()), Flushes())
    {
      ghost var b := Flushes();
      var id := WritePeeked(s, mem, writeOk);
      if id.None? {
        return false;
      }
      flushed := PublishAndFinish(s, mem, id.value, saveOk);
      if flushed {
        FlushTidies(b, Flushes(), cfg.maxImmutables, catalog.watermark);
      }
    }

    /** What follows a publication: old segments go, and a stall may end. */
    method FinishFlush(ghost s: State)
      requires Valid() && writer.Idle? && flusher.Popped? && Reaches(s, Abstract())
      modifies this`wal, this`flusher, this`writesBlocked
      ensures Valid() && flusher.NoFlush? && Reaches(s, Abstract())
      ensures Flushes() == Tidied(old(Flushes()), cfg.maxImmutables)
    {
      CleanupWal(s);
      ClearStallIfRoom(s);
    }

    /** An empty memtable leaves no file behind. */
    method DropPeeked(ghost s: State)
      requires Valid() && writer.Idle? && flusher == Peeked(map[]) && immutables != [] && Reaches(s, Abstract())
      modifies this`immutables, this`starts, this`nextEpoch, this`currentVersion, this`flusher, this`writesBlocked
      ensures Valid() && flusher.NoFlush? && Reaches(s, Abstract())
      ensures Flushes() == Dropped(old(Flushes()), cfg.maxImmutables)
    {
      DropOn(s);
      ClearStallIfRoom(s);
    }

    method DropOn(ghost s: State)
      requires Valid() && flusher == Peeked(map[]) && immutables != [] && Reaches(s, Abstract())
      modifies this`immutables, this`starts, this`nextEpoch, this`currentVersion, this`flusher
      ensures Valid() && flusher.Popped? && Reaches(s, Abstract())
      ensures Flushes() == Unqueued(old(Flushes()))
    {
      ReachesNext(s, Abstract(), Action.DropEmpty);
      DropEmpty();
    }

    method PublishAndFinish(ghost s: State, mem: Mem, id: nat, saveOk: bool) returns (flushed: bool)
      requires Valid() && writer.Idle? && flusher == Written(mem, id)
      requires mem != map[] && immutables != [] && Reaches(s, Abstract())
      modifies this`nextEpoch, this`catalog, this`sstables, this`immutables, this`starts,
               this`currentVersion, this`flusher, this`wal, this`writesBlocked
      ensures Valid() && flusher.NoFlush? && Reaches(s, Abstract()) && flushed == saveOk
      ensures Flushes() == if !saveOk then EpochSpent(old(Flushes()))
                           else Tidied(Installed(old(Flushes()), id, mem, catalog.watermark), cfg.maxImmutables)
      ensures !flushed ==> Lists() == old(Lists()) && wal == old(wal)
      ensures flushed ==> Moved(old(catalog.watermark), mem, catalog.watermark)
    {
      if !saveOk {
        GiveUpSave(s);
        return false;
      }
      PublishThenFinish(s, mem, id);
      return true;
    }

    method PublishThenFinish(ghost s: State, mem: Mem, id: nat)
      requires Valid() && writer.Idle? && flusher == Written(mem, id)
      requires mem != map[] && immutables != [] && Reaches(s, Abstract())
      modifies this`nextEpoch, this`catalog, this`sstables, this`immutables, this`starts,
               this`currentVersion, this`flusher, this`wal, this`writesBlocked
      ensures Valid() && flusher.NoFlush? && Reaches(s, Abstract())
      ensures Flushes() == Tidied(Installed(old(Flushes()), id, mem, catalog.watermark), cfg.maxImmutables)
      ensures Moved(old(catalog.watermark), mem, catalog.watermark)
    {
      PublishWritten(s, mem, id);
      FinishFlush(s);
    }

    /** A fresh id and the file under it. */
    method WritePeeked(ghost s: State, mem: Mem, writeOk: bool) returns (id: Option<nat>)
      requires Valid() && flusher == Peeked(mem) && mem != map[] && Reaches(s, Abstract())
      modifies this`nextSstId, this`files, this`flusher
      ensures Valid() && Reaches(s, Abstract())
      ensures id == if writeOk then Some(old(nextSstId)) else None
      ensures Flushes() == if writeOk then FileWritten(old(Flushes()), mem) else IdSpent(old(Flushes()))
      ensures flusher == if writeOk then Written(mem, old(nextSstId)) else NoFlush
    {
      var next := TakeId(s, mem);
      if !writeOk {
        ReachesNext(s, Abstract(), Action.AbortFlush);
        AbortWrite();
        return None;
      }
      WriteOn(s, mem, next);
      id := Some(next);
    }

    method TakeId(ghost s: State, mem: Mem) returns (id: nat)
      requires Valid() && flusher == Peeked(mem) && mem != map[] && Reaches(s, Abstract())
      modifies this`nextSstId, this`flusher
      ensures Valid() && Reaches(s, Abstract()) && flusher == GotId(mem, id)
      ensures id == old(nextSstId) && Flushes() == IdSpent(old(Flushes()))
    {
      ReachesNext(s, Abstract(), Action.ReserveFlushId);
      id := ReserveFlushId();
    }

    method WriteOn(ghost s: State, mem: Mem, id: nat)
      requires Valid() && flusher == GotId(mem, id) && Reaches(s, Abstract())
      modifies this`files, this`flusher
      ensures Valid() && Reaches(s, Abstract()) && flusher == Written(mem, id)
      ensures Flushes() == old(Flushes()).(files := old(files)[id := mem])
    {
      ReachesNext(s, Abstract(), Action.WriteFlush);
      WriteFlush(mem, id);
    }

    /** The manifest could not be saved: only an epoch is spent. */
    method GiveUpSave(ghost s: State)
      requires Valid() && flusher.Written? && Reaches(s, Abstract())
      modifies this`flusher, this`nextEpoch
      ensures Valid() && Reaches(s, Abstract()) && flusher.NoFlush? && Flushes() == EpochSpent(old(Flushes()))
    {
      ReachesNext(s, Abstract(), Action.AbortFlush);
      AbortSave();
    }

    /** Into the manifest and the table list. */
    method PublishWritten(ghost s: State, mem: Mem, id: nat)
      requires Valid() && flusher == Written(mem, id) && mem != map[] && immutables != [] && Reaches(s, Abstract())
      modifies this`nextEpoch, this`catalog, this`sstables, this`immutables, this`starts,
               this`currentVersion, this`flusher
      ensures Valid() && Reaches(s, Abstract()) && flusher.Popped?
      ensures Flushes() == Installed(old(Flushes()), id, mem, catalog.watermark)
      ensures Moved(old(catalog.watermark), mem, catalog.watermark)
    {
      var maxSeqNo := MaxSeqOf(mem);
      ReachesNext(s, Abstract(), Action.PublishFlush(maxSeqNo));
      PublishFlush(mem, id, maxSeqNo);
    }

    // ---- sections of compaction_run and run_compaction_job --------------------------------------

    method MarkJob(ghost j: nat, ids: seq<nat>) returns (ok: bool)
      requires Valid() && j !in jobs && |ids| >= 2
      modifies this`jobs, compaction`inProgressFiles
      ensures Valid() && ok == (SetOf(ids) !! old(compaction.inProgressFiles))
      ensures Abstract() == if ok then Apply(Action.MarkJob(j, ids), old(Abstract())) else old(Abstract())
      ensures ok ==>
                (jobs == old(jobs)[j := Job(ids, Marked, [])]
                && compaction.inProgressFiles == old(compaction.inProgressFiles) + SetOf(ids))
      ensures !ok ==> jobs == old(jobs) && compaction.inProgressFiles == old(compaction.inProgressFiles)
    {
      ok := compaction.TryMarkInProgress(ids);
      if ok {
        jobs := jobs[j := Job(ids, Marked, [])];
      }
    }

    method ReserveSlot(ghost j: nat) returns (ok: bool)
      requires Valid() && JobAt(j, Marked)
      modifies this`jobs, compaction`runningJobs
      ensures Valid() && ok == (old(compaction.runningJobs) < Max(cfg.maxConcurrent, 1))
      ensures Abstract() == if ok then Apply(Action.ReserveSlot(j), old(Abstract())) else old(Abstract())
      ensures ok ==>
                (jobs == old(jobs)[j := old(jobs)[j].(phase := Reserved)]
                && compaction.runningJobs == old(compaction.runningJobs) + 1)
      ensures !ok ==> jobs == old(jobs) && compaction.runningJobs == old(compaction.runningJobs)
    {
      ghost var seen;
      ok, seen := compaction.TryReserveSlot(cfg.maxConcurrent, []);
      if ok {
        jobs := jobs[j := jobs[j].(phase := Reserved)];
      }
    }

    method RefuseJob(ghost j: nat, ids: seq<nat>)
      requires Valid() && JobAt(j, Marked) && jobs[j].ids == ids
      requires compaction.runningJobs >= Max(cfg.maxConcurrent, 1)
      modifies this`jobs, compaction`inProgressFiles
      ensures Valid() && Abstract() == Apply(Action.RefuseJob(j), old(Abstract()))
      ensures jobs == old(jobs) - {j} && compaction.inProgressFiles == old(compaction.inProgressFiles) - SetOf(ids)
    {
      compaction.ClearInProgress(ids);
      jobs := jobs - {j};
    }

    method ResolveJob(ghost j: nat, ids: seq<nat>) returns (handles: Option<seq<Table>>)
      requires Valid() && JobAt(j, Reserved) && jobs[j].ids == ids
      modifies this`jobs
      ensures Valid() && (handles.Some? <==> AllOpen(sstables, ids))
      ensures handles.None? ==> Abstract() == old(Abstract())
      ensures handles.Some? ==> handles.value == TablesOf(sstables, ids)
                                && Abstract() == Apply(Action.ResolveJob(j), old(Abstract()))
      ensures handles.None? ==> jobs == old(jobs)
      ensures handles.Some? ==> jobs == old(jobs)[j := old(jobs)[j].(phase := Resolved, handles := handles.value)]
    {
      handles := FindHandles(sstables, ids);
      if handles.Some? {
        jobs := jobs[j := jobs[j].(phase := Resolved, handles := handles.value)];
      }
    }

    /** The job gives up before it has an output file. */
    ghost method FailJob(j: nat)
      requires Valid() && Enabled(Action.FailJob(j), Abstract()) && !jobs[j].phase.OutWritten?
      modifies this`jobs
      ensures Valid() && Abstract() == Apply(Action.FailJob(j), old(Abstract()))
      ensures jobs == old(jobs)[j := old(jobs)[j].(phase := Ended, handles := [])]
    {
      jobs := jobs[j := jobs[j].(phase := Ended, handles := [])];
    }

    /** The manifest could not be saved; its epoch is spent. */
    method FailSave(ghost j: nat, ghost t: Table)
      requires Valid() && JobAt(j, OutWritten(t))
      modifies this`jobs, this`nextEpoch
      ensures Valid() && Abstract() == Apply(Action.FailJob(j), old(Abstract()))
      ensures jobs == old(jobs)[j := old(jobs)[j].(phase := Ended, handles := [])]
    {
      ghost var s := Abstract();
      SpendEpoch();
      jobs := jobs[j := jobs[j].(phase := Ended, handles := [])];
      SaveFailed(s, Abstract(), j, t);
    }

    method SpendEpoch()
      modifies this`nextEpoch
      ensures nextEpoch == old(nextEpoch) + 1
    {
      nextEpoch := nextEpoch + 1;
    }

    method ReserveOutId(ghost j: nat) returns (out: nat)
      requires Valid() && JobAt(j, Resolved)
      modifies this`jobs, this`nextSstId
      ensures Valid() && out == old(nextSstId) && Abstract() == Apply(Action.ReserveOutId(j), old(Abstract()))
      ensures jobs == old(jobs)[j := old(jobs)[j].(phase := GotOutId(out))]
    {
      ghost var s := Abstract();
      out := TakeSstId();
      jobs := jobs[j := jobs[j].(phase := GotOutId(out))];
      OutIdReserved(s, Abstract(), j);
    }

    method WriteOutput(ghost j: nat, handles: seq<Table>, out: nat) returns (t: Table)
      requires Valid() && JobAt(j, GotOutId(out)) && jobs[j].handles == handles
      modifies this`jobs, this`files
      ensures Valid() && t == Table(out, MergeAll(Contents(handles)))
      ensures Abstract() == Apply(Action.WriteOutput(j), old(Abstract()))
      ensures jobs == old(jobs)[j := old(jobs)[j].(phase := OutWritten(t))]
    {
      ghost var s := Abstract();
      t := Table(out, MergeAll(Contents(handles)));
      CreateFile(out, t.content);
      jobs := jobs[j := jobs[j].(phase := OutWritten(t))];
      OutputWritten(s, Abstract(), j, t);
    }

    /** The section under publish_lock of run_compaction_job. */
    method PublishJob(ghost j: nat, ids: seq<nat>, t: Table)
      requires Valid() && JobAt(j, OutWritten(t)) && jobs[j].ids == ids
      modifies this`jobs, this`nextEpoch, this`catalog, this`sstables, this`currentVersion
      ensures Valid() && Abstract() == Apply(Action.PublishJob(j), old(Abstract()))
      ensures jobs == old(jobs)[j := old(jobs)[j].(phase := Swapped)]
      ensures Lists() == PublishedLists(old(Lists()), old(nextEpoch), SetOf(ids), t)
    {
      ghost var s := Abstract();
      SwapMerged(SetOf(ids), t);
      jobs := jobs[j := jobs[j].(phase := Swapped)];
      JobPublished(s, Abstract(), j, t);
    }

    method SwapMerged(inputs: set<nat>, t: Table)
      modifies this`nextEpoch, this`catalog, this`sstables, this`currentVersion
      ensures nextEpoch == old(nextEpoch) + 1 && sstables == Replace(old(sstables), inputs, t)
      ensures catalog == old(catalog).(epoch := old(nextEpoch), nextId := Max(old(catalog).nextId, t.id + 1),
                                       tables := ReplaceIds(old(catalog).tables, inputs, t.id))
      ensures currentVersion == Version(old(nextEpoch), Reversed(immutables), sstables)
    {
      var epoch := InstallMerged(inputs, t);
      BuildAndSwapVersion(epoch);
    }

    /** The output in place of the inputs, in the manifest and in the list. */
    method InstallMerged(inputs: set<nat>, t: Table) returns (epoch: nat)
      modifies this`nextEpoch, this`catalog, this`sstables
      ensures epoch == old(nextEpoch) && nextEpoch == epoch + 1 && sstables == Replace(old(sstables), inputs, t)
      ensures catalog == old(catalog).(epoch := epoch, nextId := Max(old(catalog).nextId, t.id + 1),
                                       tables := ReplaceIds(old(catalog).tables, inputs, t.id))
    {
      epoch := nextEpoch;
      nextEpoch := nextEpoch + 1;
      var catalogued := ReplaceCatalogued(catalog.tables, inputs, t.id);
      catalog := catalog.(epoch := epoch, nextId := Max(catalog.nextId, t.id + 1), tables := catalogued);
      var replaced := ReplaceTables(sstables, inputs, t);
      sstables := replaced;
    }

    method Defer(handles: seq<Table>)
      modifies this`pendingDeletions
      ensures pendingDeletions == old(pendingDeletions) + Ids(handles)
    {
      pendingDeletions := pendingDeletions + Ids(handles);
    }

    method RetireInputs(ghost j: nat, handles: seq<Table>)
      requires Valid() && JobAt(j, Swapped) && jobs[j].handles == handles
      modifies this`jobs, this`pendingDeletions
      ensures Valid() && Abstract() == Apply(Action.RetireInputs(j), old(Abstract()))
      ensures jobs == old(jobs)[j := old(jobs)[j].(phase := Ended, handles := [])]
      ensures pendingDeletions == old(pendingDeletions) + Ids(handles)
    {
      ghost var s := Abstract();
      Defer(handles);
      jobs := jobs[j := jobs[j].(phase := Ended, handles := [])];
      InputsRetired(s, Abstract(), j);
    }

    method ReleaseSlot(ghost j: nat)
      requires Valid() && JobAt(j, Ended) && compaction.runningJobs > 0
      modifies this`jobs, compaction`runningJobs
      ensures Valid() && Abstract() == Apply(Action.ReleaseSlot(j), old(Abstract()))
      ensures jobs == old(jobs)[j := old(jobs)[j].(phase := SlotFree)]
      ensures compaction.runningJobs == old(compaction.runningJobs) - 1
    {
      compaction.ReleaseSlot();
      jobs := jobs[j := jobs[j].(phase := SlotFree)];
    }

    method ClearMarks(ghost j: nat, ids: seq<nat>)
      requires Valid() && JobAt(j, SlotFree) && jobs[j].ids == ids
      modifies this`jobs, compaction`inProgressFiles
      ensures Valid() && Abstract() == Apply(Action.ClearMarks(j), old(Abstract()))
      ensures jobs == old(jobs) - {j} && compaction.inProgressFiles == old(compaction.inProgressFiles) - SetOf(ids)
    {
      compaction.ClearInProgress(ids);
      jobs := jobs - {j};
    }

    // ---- compaction_run -----------------------------------------------------------------------

    /** run_compaction_job, with the outcome of reading the inputs, writing the output and saving
        the manifest. It keeps its mark and its slot; they are the caller's to give back. */
    method RunCompactionJob(ghost s: State, ghost j: nat, ids: seq<nat>, readOk: bool, writeOk: bool, saveOk: bool)
      returns (out: Option<Table>)
      requires Valid() && JobAt(j, Reserved) && jobs[j].ids == ids && Reaches(s, Abstract())
      modifies this`jobs, this`nextSstId, this`files, this`nextEpoch, this`catalog, this`sstables,
               this`currentVersion, this`pendingDeletions
      ensures Valid() && jobs == old(jobs)[j := Job(ids, Ended, [])]
      ensures SafeInputs(old(sstables), SetOf(ids)) || out.None? ==> Reaches(s, Abstract())
      ensures (Lists(), out) == Outcome(old(Lists()), old(nextEpoch), old(nextSstId), ids, readOk && writeOk && saveOk)
      ensures out.Some? ==> nextSstId == old(nextSstId) + 1
    {
      var handles := ResolveAndRead(s, j, ids, readOk);
      if handles.None? {
        return None;
      }
      UpdateTwice(old(jobs), j, jobs[j], Job(ids, Ended, []));
      out := MergeAndPublish(s, j, ids, handles.value, writeOk, saveOk);
    }

    /** The handles, and everything in their files. */
    method ResolveAndRead(ghost s: State, ghost j: nat, ids: seq<nat>, readOk: bool)
      returns (handles: Option<seq<Table>>)
      requires Valid() && JobAt(j, Reserved) && jobs[j].ids == ids && Reaches(s, Abstract())
      modifies this`jobs
      ensures Valid() && Reaches(s, Abstract()) && (handles.Some? <==> AllOpen(sstables, ids) && readOk)
      ensures handles.None? ==> jobs == old(jobs)[j := Job(ids, Ended, [])]
      ensures handles.Some? ==>
                (handles.value == TablesOf(sstables, ids)
                && jobs == old(jobs)[j := Job(ids, Resolved, handles.value)])
    {
      handles := ResolveJob(j, ids);
      UpdateTwice(old(jobs), j, jobs[j], Job(ids, Ended, []));
      if handles.None? {
        GiveUp(s, j);
        return None;
      }
      ReachesNext(s, old(Abstract()), Action.ResolveJob(j));
      if !readOk {
        GiveUp(s, j);
        return None;
      }
    }

    /** An exit before there is an output file. */
    ghost method GiveUp(s: State, j: nat)
      requires Valid() && Enabled(Action.FailJob(j), Abstract()) && !jobs[j].phase.OutWritten? && Reaches(s, Abstract())
      modifies this`jobs
      ensures Valid() && Reaches(s, Abstract()) && jobs == old(jobs)[j := Job(old(jobs)[j].ids, Ended, [])]
    {
      ReachesNext(s, Abstract(), Action.FailJob(j));
      FailJob(j);
    }

    method MergeAndPublish(ghost s: State, ghost j: nat, ids: seq<nat>, handles: seq<Table>, writeOk: bool,
                           saveOk: bool)
      returns (out: Option<Table>)
      requires Valid() && JobAt(j, Resolved) && jobs[j].ids == ids && jobs[j].handles == handles
      requires Reaches(s, Abstract())
      modifies this`jobs, this`nextSstId, this`files, this`nextEpoch, this`catalog, this`sstables,
               this`currentVersion, this`pendingDeletions
      ensures Valid() && jobs == old(jobs)[j := Job(ids, Ended, [])]
      ensures SafeInputs(old(sstables), SetOf(ids)) || out.None? ==> Reaches(s, Abstract())
      ensures (Lists(), out) ==
              MergeOutcome(old(Lists()), old(nextEpoch), old(nextSstId), SetOf(ids), handles, writeOk && saveOk)
      ensures out.Some? ==> nextSstId == old(nextSstId) + 1
    {
      out := WriteMerged(s, j, handles, writeOk, saveOk);
      assert Lists() == old(Lists());
      if out.None? {
        return None;
      }
      UpdateTwice(old(jobs), j, jobs[j], Job(ids, Ended, []));
      PublishAndRetire(s, j, ids, handles, out.value);
    }

    /** The output file, up to the attempt to save the manifest. */
    method WriteMerged(ghost s: State, ghost j: nat, handles: seq<Table>, writeOk: bool, saveOk: bool)
      returns (out: Option<Table>)
      requires Valid() && JobAt(j, Resolved) && jobs[j].handles == handles && Reaches(s, Abstract())
      modifies this`jobs, this`nextSstId, this`files, this`nextEpoch
      ensures Valid() && Reaches(s, Abstract()) && (out.Some? <==> writeOk && saveOk)
      ensures out.None? ==> jobs == old(jobs)[j := Job(old(jobs)[j].ids, Ended, [])]
      ensures out.Some? ==> out.value == Table(old(nextSstId), MergeAll(Contents(handles)))
                            && jobs == old(jobs)[j := Job(old(jobs)[j].ids, OutWritten(out.value), handles)]
                            && nextEpoch == old(nextEpoch) && nextSstId == old(nextSstId) + 1
    {
      var id := ReserveOn(s, j);
      UpdateTwice(old(jobs), j, jobs[j], Job(old(jobs)[j].ids, Ended, []));
      if !writeOk {
        GiveUp(s, j);
        return None;
      }
      ghost var t := Table(id, MergeAll(Contents(handles)));
      UpdateTwice(old(jobs), j, jobs[j], Job(old(jobs)[j].ids, OutWritten(t), handles));
      ghost var written := jobs[j := Job(old(jobs)[j].ids, OutWritten(t), handles)];
      assert written == old(jobs)[j := Job(old(jobs)[j].ids, OutWritten(t), handles)];
      out := WriteAndSave(s, j, handles, id, saveOk);
    }

    method ReserveOn(ghost s: State, ghost j: nat) returns (id: nat)
      requires Valid() && JobAt(j, Resolved) && Reaches(s, Abstract())
      modifies this`jobs, this`nextSstId
      ensures Valid() && Reaches(s, Abstract()) && id == old(nextSstId) && nextSstId == id + 1
      ensures jobs == old(jobs)[j := old(jobs)[j].(phase := GotOutId(id))]
    {
      ReachesNext(s, Abstract(), Action.ReserveOutId(j));
      id := ReserveOutId(j);
    }

    method WriteAndSave(ghost s: State, ghost j: nat, handles: seq<Table>, id: nat, saveOk: bool)
      returns (out: Option<Table>)
      requires Valid() && JobAt(j, GotOutId(id)) && jobs[j].handles == handles && Reaches(s, Abstract())
      modifies this`jobs, this`files, this`nextEpoch
      ensures Valid() && Reaches(s, Abstract()) && (out.Some? <==> saveOk)
      ensures out.None? ==> jobs == old(jobs)[j := Job(old(jobs)[j].ids, Ended, [])]
      ensures out.Some? ==> out.value == Table(id, MergeAll(Contents(handles)))
                            && jobs == old(jobs)[j := Job(old(jobs)[j].ids, OutWritten(out.value), handles)]
                            && nextEpoch == old(nextEpoch)
    {
      ReachesNext(s, Abstract(), Action.WriteOutput(j));
      var t := WriteOutput(j, handles, id);
      UpdateTwice(old(jobs), j, jobs[j], Job(old(jobs)[j].ids, Ended, []));
      if !saveOk {
        ReachesNext(s, Abstract(), Action.FailJob(j));
        FailSave(j, t);
        return None;
      }
      out := Some(t);
    }

    method PublishAndRetire(ghost s: State, ghost j: nat, ids: seq<nat>, handles: seq<Table>, t: Table)
      requires Valid() && JobAt(j, OutWritten(t)) && jobs[j].ids == ids && jobs[j].handles == handles
      requires Reaches(s, Abstract())
      modifies this`jobs, this`nextEpoch, this`catalog, this`sstables, this`currentVersion, this`pendingDeletions
      ensures Valid() && jobs == old(jobs)[j := Job(ids, Ended, [])]
      ensures SafeInputs(old(sstables), SetOf(ids)) ==> Reaches(s, Abstract())
      ensures Lists() == MergedLists(old(Lists()), old(nextEpoch), SetOf(ids), handles, t)
    {
      PublishSafely(s, j, ids, t);
      UpdateTwice(old(jobs), j, jobs[j], Job(ids, Ended, []));
      RetireOn(s, j, handles);
    }

    method RetireOn(ghost s: State, ghost j: nat, handles: seq<Table>)
      requires Valid() && JobAt(j, Swapped) && jobs[j].handles == handles
      modifies this`jobs, this`pendingDeletions
      ensures Valid() && jobs == old(jobs)[j := Job(old(jobs)[j].ids, Ended, [])]
      ensures Lists() == old(Lists()).(pending := old(pendingDeletions) + Ids(handles))
      ensures old(Reaches(s, Abstract())) ==> Reaches(s, Abstract())
    {
      if Reaches(s, Abstract()) {
        ReachesNext(s, Abstract(), Action.RetireInputs(j));
      }
      RetireInputs(j, handles);
    }

    method PublishSafely(ghost s: State, ghost j: nat, ids: seq<nat>, t: Table)
      requires Valid() && JobAt(j, OutWritten(t)) && jobs[j].ids == ids && Reaches(s, Abstract())
      modifies this`jobs, this`nextEpoch, this`catalog, this`sstables, this`currentVersion
      ensures Valid() && JobAt(j, Swapped) && jobs == old(jobs)[j := old(jobs)[j].(phase := Swapped)]
      ensures SafeInputs(old(sstables), SetOf(ids)) ==> Reaches(s, Abstract())
      ensures Lists() == PublishedLists(old(Lists()), old(nextEpoch), SetOf(ids), t)
    {
      if SafeInputs(sstables, SetOf(ids)) {
        ReachesNext(s, Abstract(), Action.PublishJob(j));
      }
      PublishJob(j, ids, t);
    }

    /** The part of compaction_run behind the mark: slot, job, and everything given back. */
    method RunMarked(ghost s: State, ghost j: nat, ids: seq<nat>, readOk: bool, writeOk: bool, saveOk: bool)
      returns (out: Option<Table>)
      requires Valid() && JobAt(j, Marked) && jobs[j].ids == ids && Reaches(s, Abstract())
      modifies this`jobs, this`nextSstId, this`files, this`nextEpoch, this`catalog, this`sstables,
               this`currentVersion, this`pendingDeletions, compaction`runningJobs,
               compaction`inProgressFiles
      ensures Valid() && jobs == old(jobs) - {j}
      ensures compaction.inProgressFiles == old(compaction.inProgressFiles) - SetOf(ids)
      ensures compaction.runningJobs == old(compaction.runningJobs)
      ensures SafeInputs(old(sstables), SetOf(ids)) || out.None? ==> Reaches(s, Abstract())
      ensures (Lists(), out) == Outcome(old(Lists()), old(nextEpoch), old(nextSstId), ids,
                                        old(compaction.runningJobs) < Max(cfg.maxConcurrent, 1)
                                        && readOk && writeOk && saveOk)
      ensures out.Some? ==> nextSstId == old(nextSstId) + 1
    {
      var slot := ReserveSlot(j);
      if !slot {
        ReachesNext(s, Abstract(), Action.RefuseJob(j));
        RefuseJob(j, ids);
        return None;
      }
      ReachesNext(s, old(Abstract()), Action.ReserveSlot(j));
      UpdatedRemoved(old(jobs), j, jobs[j]);
      out := RunSlotted(s, j, ids, readOk, writeOk, saveOk);
    }

    /** The job itself, then everything given back whatever came of it. */
    method RunSlotted(ghost s: State, ghost j: nat, ids: seq<nat>, readOk: bool, writeOk: bool, saveOk: bool)
      returns (out: Option<Table>)
      requires Valid() && JobAt(j, Reserved) && jobs[j].ids == ids
      requires compaction.runningJobs > 0 && Reaches(s, Abstract())
      modifies this`jobs, this`nextSstId, this`files, this`nextEpoch, this`catalog, this`sstables,
               this`currentVersion, this`pendingDeletions, compaction`runningJobs,
               compaction`inProgressFiles
      ensures Valid() && jobs == old(jobs) - {j}
      ensures compaction.inProgressFiles == old(compaction.inProgressFiles) - SetOf(ids)
      ensures compaction.runningJobs == old(compaction.runningJobs) - 1
      ensures SafeInputs(old(sstables), SetOf(ids)) || out.None? ==> Reaches(s, Abstract())
      ensures (Lists(), out) == Outcome(old(Lists()), old(nextEpoch), old(nextSstId), ids, readOk && writeOk && saveOk)
      ensures out.Some? ==> nextSstId == old(nextSstId) + 1
    {
      UpdatedRemoved(jobs, j, Job(ids, Ended, []));
      out := RunCompactionJob(s, j, ids, readOk, writeOk, saveOk);
      ghost var after, reached, next := Lists(), Reaches(s, Abstract()), nextSstId;
      GiveBack(s, j, ids);
      assert Lists() == after && (reached ==> Reaches(s, Abstract())) && nextSstId == next;
    }

    /** Every exit of a job that had a slot: release_slot, then clear_in_progress. */
    method GiveBack(ghost s: State, ghost j: nat, ids: seq<nat>)
      requires Valid() && j in jobs && jobs[j] == Job(ids, Ended, []) && compaction.runningJobs > 0
      modifies this`jobs, compaction`runningJobs, compaction`inProgressFiles
      ensures Valid() && jobs == old(jobs) - {j} && compaction.runningJobs == old(compaction.runningJobs) - 1
      ensures compaction.inProgressFiles == old(compaction.inProgressFiles) - SetOf(ids)
      ensures Lists() == old(Lists()) && (old(Reaches(s, Abstract())) ==> Reaches(s, Abstract()))
    {
      UpdatedRemoved(old(jobs), j, Job(ids, SlotFree, []));
      if Reaches(s, Abstract()) {
        ReachesNext(s, Abstract(), Action.ReleaseSlot(j));
      }
      ReleaseSlot(j);
      ClearOn(s, j, ids);
    }

    method ClearOn(ghost s: State, ghost j: nat, ids: seq<nat>)
      requires Valid() && JobAt(j, SlotFree) && jobs[j].ids == ids
      modifies this`jobs, compaction`inProgressFiles
      ensures Valid() && jobs == old(jobs) - {j}
      ensures compaction.inProgressFiles == old(compaction.inProgressFiles) - SetOf(ids)
      ensures old(Reaches(s, Abstract())) ==> Reaches(s, Abstract())
    {
      if Reaches(s, Abstract()) {
        ReachesNext(s, Abstract(), Action.ClearMarks(j));
      }
      ClearMarks(j, ids);
    }

    /** Every chosen table is in the manifest. */
    method KnownIds(ids: seq<nat>) returns (known: bool)
      ensures known <==> forall id :: id in ids ==> id in catalog.tables
    {
      for i := 0 to |ids|
        invariant forall k :: 0 <= k < i ==> ids[k] in catalog.tables
      {
        if ids[i] !in catalog.tables {
          return false;
        }
      }
      known := true;
    }

    /** Everything compaction_run asks for before and after it picks: inputs that are known, open
        and free, a slot, and an I/O system that works. */
    ghost predicate CanCompact(ids: seq<nat>, ioOk: bool)
      reads this, compaction
    {
      && |ids| >= 2 && (forall id :: id in ids ==> id in catalog.tables) && SetOf(ids) !! compaction.inProgressFiles
      && compaction.runningJobs < Max(cfg.maxConcurrent, 1) && AllOpen(sstables, ids) && ioOk
    }

    /** compaction_run from the chosen ids on. Whatever happens, the marks, the slot count and the
        running jobs are what they were; a failure changes no list; and a job on inputs that are
        safe to merge, as neighbouring tables always are, is a run of the step system. */
    method CompactChosen(ghost j: nat, ids: seq<nat>, readOk: bool, writeOk: bool, saveOk: bool)
      returns (out: Option<Table>)
      requires Valid() && j !in jobs
      modifies this`jobs, this`nextSstId, this`files, this`nextEpoch, this`catalog, this`sstables,
               this`currentVersion, this`pendingDeletions, compaction`runningJobs,
               compaction`inProgressFiles
      ensures Valid() && jobs == old(jobs)
      ensures compaction.inProgressFiles == old(compaction.inProgressFiles)
      ensures compaction.runningJobs == old(compaction.runningJobs)
      ensures SafeInputs(old(sstables), SetOf(ids)) || out.None? ==> Reaches(old(Abstract()), Abstract())
      ensures (Lists(), out) == Outcome(old(Lists()), old(nextEpoch), old(nextSstId), ids,
                                        old(CanCompact(ids, readOk && writeOk && saveOk)))
      ensures out.Some? ==> nextSstId == old(nextSstId) + 1
    {
      ghost var s := Abstract();
      ReachesSelf(s);
      var known := KnownIds(ids);
      if |ids| < 2 || !known {
        return None;
      }
      var marked := MarkJob(j, ids);
      if !marked {
        return None;
      }
      ReachesNext(s, s, Action.MarkJob(j, ids));
      out := RunMarked(s, j, ids, readOk, writeOk, saveOk);
      ClearUndoesMark(old(compaction.inProgressFiles), ids);
      AddedRemoved(old(jobs), j, Job(ids, Marked, []));
    }

    /** The inputs of a compaction: the caller's, or what the picker finds among the catalogued
        tables that no job holds; sizes are their file sizes. */
    function Chosen(files: Option<seq<nat>>, sizes: map<nat, nat>, fanIn: nat, ratio: real): (r: Option<seq<nat>>)
      reads this`catalog, compaction`inProgressFiles
      ensures files.Some? ==> r == files
      ensures files.None? && Distinct(catalog.tables) ==>
                IsChoice(r, InfosOf(catalog.tables, sizes), compaction.inProgressFiles, fanIn, ratio)
    {
      if files.Some? then files
      else
        var infos := InfosOf(catalog.tables, sizes);
        assert Distinct(catalog.tables) ==> DistinctInfos(infos);
        var held := compaction.inProgressFiles;
        assert DistinctInfos(infos) ==> IsChoice(Pick(infos, held, fanIn, ratio), infos, held, fanIn, ratio) by {
          if DistinctInfos(infos) {
            PickFollowsRule(infos, held, fanIn, ratio);
          }
        }
        Pick(infos, held, fanIn, ratio)
    }

    ghost predicate CanRun(inputs: Option<seq<nat>>, ioOk: bool)
      reads this, compaction
    {
      !isClosed && !compaction.paused && inputs.Some? && CanCompact(Inputs(inputs), ioOk)
    }

    /** The condition on the outcome and the one in fields agree. */
    lemma RunsIfMay(inputs: Option<seq<nat>>, ok: bool)
      ensures inputs.Some? ==>
                (CanRun(inputs, ok) && AllOpen(sstables, inputs.value) <==> MayCompact(inputs.value) && ok)
    {
    }

    /** compaction_run: refused when closed or paused, idle when the picker finds nothing. What it
        asks for is said once more field by field. */
    method CompactionRun(ghost j: nat, files: Option<seq<nat>>, sizes: map<nat, nat>, fanIn: nat, ratio: real,
                         readOk: bool, writeOk: bool, saveOk: bool)
      returns (r: Result<Option<Table>>)
      requires Valid() && j !in jobs
      modifies this`jobs, this`nextSstId, this`files, this`nextEpoch, this`catalog, this`sstables,
               this`currentVersion, this`pendingDeletions, compaction`runningJobs,
               compaction`inProgressFiles
      ensures Valid() && jobs == old(jobs)
      ensures compaction.inProgressFiles == old(compaction.inProgressFiles)
      ensures compaction.runningJobs == old(compaction.runningJobs)
      ensures var inputs := old(Chosen(files, sizes, fanIn, ratio));
              && (r == Ok(None) <==> old(!isClosed && !compaction.paused) && inputs.None?)
              && (Output(r).Some? <==> inputs.Some? && old(MayCompact(inputs.value)) && readOk && writeOk && saveOk)
              && (Lists(), Output(r)) == Outcome(old(Lists()), old(nextEpoch), old(nextSstId), Inputs(inputs),
                                                 old(CanRun(inputs, readOk && writeOk && saveOk)))
              && (SafeInputs(old(sstables), SetOf(Inputs(inputs))) || Output(r).None? ==>
                    Reaches(old(Abstract()), Abstract()))
      ensures Output(r).Some? ==> nextSstId == old(nextSstId) + 1
    {
      var inputs := Chosen(files, sizes, fanIn, ratio);
      RunsIfMay(inputs, readOk && writeOk && saveOk);
      r := CompactInputs(j, inputs, readOk, writeOk, saveOk);
    }

    /** An engine that is neither closed nor paused; two or more tables, in the manifest, open and in
        no other job; and a job slot, of which there is always at least one. */
    ghost predicate MayCompact(ids: seq<nat>)
      reads this, compaction
    {
      && !isClosed && !compaction.paused && |ids| >= 2
      && (forall id :: id in ids ==>
            id in catalog.tables && id !in compaction.inProgressFiles && HasTable(sstables, id))
      && (compaction.runningJobs == 0 || compaction.runningJobs < cfg.maxConcurrent)
    }

    /** The rest of compaction_run, on what Chosen gave. */
    method CompactInputs(ghost j: nat, inputs: Option<seq<nat>>, readOk: bool, writeOk: bool, saveOk: bool)
      returns (r: Result<Option<Table>>)
      requires Valid() && j !in jobs
      modifies this`jobs, this`nextSstId, this`files, this`nextEpoch, this`catalog, this`sstables,
               this`currentVersion, this`pendingDeletions, compaction`runningJobs,
               compaction`inProgressFiles
      ensures Valid() && jobs == old(jobs)
      ensures compaction.inProgressFiles == old(compaction.inProgressFiles)
      ensures compaction.runningJobs == old(compaction.runningJobs)
      ensures r == Ok(None) <==> old(!isClosed && !compaction.paused) && inputs.None?
      ensures (Lists(), Output(r)) == Outcome(old(Lists()), old(nextEpoch), old(nextSstId), Inputs(inputs),
                                              old(CanRun(inputs, readOk && writeOk && saveOk)))
      ensures Output(r).Some? ==> nextSstId == old(nextSstId) + 1
      ensures SafeInputs(old(sstables), SetOf(Inputs(inputs))) || Output(r).None? ==>
                Reaches(old(Abstract()), Abstract())
    {
      if isClosed || compaction.paused {
        ReachesSelf(Abstract());
        return Err;
      }
      if inputs.None? {
        ReachesSelf(Abstract());
        return Ok(None);
      }
      var ids := inputs.value;
      assert Inputs(inputs) == ids;
      assert CanRun(inputs, readOk && writeOk && saveOk) == CanCompact(ids, readOk && writeOk && saveOk);
      var out := CompactChosen(j, ids, readOk, writeOk, saveOk);
      r := match out case None => Err case Some(t) => Ok(out);
    }

    // ---- run_compaction_worker ------------------------------------------------------------------

    /** should_auto_compact. */
    predicate ShouldAutoCompact(trigger: nat)
      reads this`sstables, compaction`paused, compaction`runningJobs
    {
      !compaction.paused && |sstables| >= trigger && compaction.runningJobs < cfg.maxConcurrent
    }

    /** The manifest names the open tables once each, with ids below the counter. */
    ghost predicate Listed()
      reads this`catalog, this`sstables, this`nextSstId
    {
      catalog.tables == Ids(sstables) && Distinct(catalog.tables) && AllBelow(catalog.tables, nextSstId)
    }

    /** The retry loop of run_compaction_worker, while nothing is flushed and the I/O succeeds.
        With a trigger of at least the fan-in it ends, each round one compaction_run on what the
        picker chose, which takes fan_in - 1 tables off the list. newSizes gives the output sizes,
        about which nothing is assumed. */
    method CompactWhileDue(ghost j: nat, trigger: nat, fanIn: nat, ratio: real, sizes: map<nat, nat>,
                           newSizes: nat -> nat)
      returns (rounds: nat)
      requires Valid() && j !in jobs && Listed() && !isClosed
      requires compaction.inProgressFiles == {} && trigger >= FanIn(fanIn)
      modifies this`jobs, this`nextSstId, this`files, this`nextEpoch, this`catalog, this`sstables,
               this`currentVersion, this`pendingDeletions, compaction`runningJobs,
               compaction`inProgressFiles
      ensures Valid() && jobs == old(jobs) && Listed() && compaction.inProgressFiles == {}
      ensures immutables == [] ==>
                compaction.paused || |sstables| < trigger || compaction.runningJobs >= cfg.maxConcurrent
      ensures |sstables| == |old(sstables)| - rounds * (FanIn(fanIn) - 1)
      ensures rounds > 0 <==> old(immutables == [] && !compaction.paused && |sstables| >= trigger
                                  && compaction.runningJobs < cfg.maxConcurrent)
    {
      var known: map<nat, nat> := sizes;
      rounds := 0;
      while immutables == [] && ShouldAutoCompact(trigger)
        invariant Valid() && jobs == old(jobs) && Listed() && compaction.inProgressFiles == {}
        invariant compaction.runningJobs == old(compaction.runningJobs)
        invariant |sstables| == |old(sstables)| - rounds * (FanIn(fanIn) - 1)
        invariant rounds > 0 ==> old(ShouldAutoCompact(trigger)) && immutables == []
        invariant rounds == 0 ==> sstables == old(sstables)
        decreases |sstables|
      {
        var id := CompactOnce(j, trigger, fanIn, ratio, known);
        known := known[id := newSizes(id)];
        OneMoreTime(rounds, FanIn(fanIn) - 1);
        rounds := rounds + 1;
      }
    }

    /** One round: the picker finds inputs, and they can be compacted. */
    method CompactOnce(ghost j: nat, trigger: nat, fanIn: nat, ratio: real, sizes: map<nat, nat>) returns (id: nat)
      requires Valid() && j !in jobs && Listed() && !isClosed && compaction.inProgressFiles == {}
      requires trigger >= FanIn(fanIn) && ShouldAutoCompact(trigger)
      modifies this`jobs, this`nextSstId, this`files, this`nextEpoch, this`catalog, this`sstables,
               this`currentVersion, this`pendingDeletions, compaction`runningJobs,
               compaction`inProgressFiles
      ensures Valid() && jobs == old(jobs) && Listed() && compaction.inProgressFiles == {}
      ensures compaction.runningJobs == old(compaction.runningJobs)
      ensures |sstables| == |old(sstables)| - (FanIn(fanIn) - 1)
    {
      ghost var ids := DueInputs(trigger, fanIn, ratio, sizes);
      var r := CompactionRun(j, None, sizes, fanIn, ratio, true, true, true);
      var out := Output(r);
      CompactedShrinks(old(Lists()), Lists(), old(nextEpoch), old(nextSstId), ids, out.value);
      id := out.value.id;
    }

    /** The picker's choice when nothing is held: fan_in different tables that can be merged. */
    ghost method DueInputs(trigger: nat, fanIn: nat, ratio: real, sizes: map<nat, nat>) returns (ids: seq<nat>)
      requires Valid() && Listed() && !isClosed && compaction.inProgressFiles == {}
      requires trigger >= FanIn(fanIn) && ShouldAutoCompact(trigger)
      ensures Some(ids) == Chosen(None, sizes, fanIn, ratio) && CanRun(Some(ids), true)
      ensures |ids| == FanIn(fanIn) && Distinct(ids) && forall x :: x in ids ==> x in Ids(sstables)
    {
      PickedAreLive(catalog.tables, sizes, fanIn, ratio);
      ids := Chosen(None, sizes, fanIn, ratio).value;
      CataloguedAreOpen(sstables, ids);
    }

    // ---- sweep_pending_deletions ---------------------------------------------------------------

    ghost predicate CanObserve(i: nat)
      reads this, compaction
    {
      i < |pendingDeletions| && Enabled(Action.ObserveDead(i), Abstract())
    }

    /** Arc::strong_count is 1: nobody but the candidate list holds the table. */
    method ObserveDead(i: nat)
      requires Valid() && CanObserve(i)
      modifies this`pendingDeletions, this`doomed
      ensures Valid() && Abstract() == Apply(Action.ObserveDead(i), old(Abstract()))
      ensures pendingDeletions == old(pendingDeletions)[..i] + old(pendingDeletions)[i + 1..]
      ensures doomed == Some(old(pendingDeletions)[i])
    {
      ghost var s := Abstract();
      TakeCandidate(i);
      CandidateObserved(s, Abstract(), i);
    }

    method TakeCandidate(i: nat)
      requires i < |pendingDeletions|
      modifies this`pendingDeletions, this`doomed
      ensures doomed == Some(old(pendingDeletions)[i])
      ensures pendingDeletions == old(pendingDeletions)[..i] + old(pendingDeletions)[i + 1..]
    {
      doomed := Some(pendingDeletions[i]);
      pendingDeletions := pendingDeletions[..i] + pendingDeletions[i + 1..];
    }

    method DeleteFile(id: nat)
      requires Valid() && doomed == Some(id)
      modifies this`files, this`doomed
      ensures Valid() && Abstract() == Apply(Action.DeleteFile, old(Abstract()))
      ensures files == old(files) - {id} && doomed == None
    {
      ghost var s := Abstract();
      RemoveFile(id);
      doomed := None;
      FileDeleted(s, Abstract(), id);
    }

    method RemoveFile(id: nat)
      modifies this`files
      ensures files == old(files) - {id}
    {
      files := files - {id};
    }

    /** One candidate found unreferenced, its grace over, its file removed. */
    method DeleteRetired(ghost s: State, i: nat)
      requires Valid() && CanObserve(i) && Reaches(s, Abstract())
      modifies this`pendingDeletions, this`files, this`doomed
      ensures Valid() && Reaches(s, Abstract()) && doomed == None
      ensures files == old(files) - {old(pendingDeletions)[i]}
      ensures pendingDeletions == old(pendingDeletions)[..i] + old(pendingDeletions)[i + 1..]
    {
      var id := pendingDeletions[i];
      ghost var before, rest := files, pendingDeletions[..i] + pendingDeletions[i + 1..];
      ReachesNext(s, Abstract(), Action.ObserveDead(i));
      ObserveDead(i);
      assert files == before && pendingDeletions == rest && doomed == Some(id);
      ReachesNext(s, Abstract(), Action.DeleteFile);
      DeleteFile(id);
    }

    ghost predicate AllLone(lone: set<nat>)
      reads this, compaction
    {
      forall id :: id in lone ==> Unreferenced(Abstract(), id)
    }

    /** The sweep has looked at the first i candidates. */
    ghost predicate Sweeping(s: State, i: nat, lone: set<nat>, elapsed: set<nat>, before: map<nat, Mem>,
                             candidates: seq<nat>)
      reads this, compaction
    {
      && Valid() && Reaches(s, Abstract()) && doomed.None? && AllLone(lone)
      && SweptTo(pendingDeletions, candidates, lone, elapsed, i)
      && OnlyGone(files, before, pendingDeletions, candidates)
    }

    lemma LoneCanGo(i: nat, lone: set<nat>, elapsed: set<nat>, candidates: seq<nat>)
      requires doomed.None? && AllLone(lone) && SweptTo(pendingDeletions, candidates, lone, elapsed, i)
      requires i < |pendingDeletions| && pendingDeletions[i] in lone
      ensures CanObserve(i)
    {
    }

    method SweepAt(ghost s: State, i: nat, ghost lone: set<nat>, ghost elapsed: set<nat>, ghost before: map<nat, Mem>,
                   ghost candidates: seq<nat>)
      requires Sweeping(s, i, lone, elapsed, before, candidates)
      requires i < |pendingDeletions| && pendingDeletions[i] in lone && pendingDeletions[i] in elapsed
      modifies this`pendingDeletions, this`files, this`doomed
      ensures Sweeping(s, i, lone, elapsed, before, candidates) && |pendingDeletions| == |old(pendingDeletions)| - 1
    {
      LoneCanGo(i, lone, elapsed, candidates);
      SweepOne(pendingDeletions, candidates, lone, elapsed, i);
      OneMoreGone(files, before, pendingDeletions, candidates, i);
      ghost var b := Abstract();
      DeleteRetired(s, i);
      StillLone(b, Abstract(), lone);
    }

    /** sweep_pending_deletions. lone says of which candidates Arc::strong_count is 1, elapsed for
        which the grace period is over. Only the files of such tables go, so no file that a list,
        a version, a reader or a job still names. */
    method SweepPendingDeletions(lone: set<nat>, elapsed: set<nat>)
      requires Valid() && doomed.None?
      requires AllLone(lone)
      requires forall i, k :: 0 <= i < k < |pendingDeletions| && pendingDeletions[i] in lone ==>
                 pendingDeletions[i] != pendingDeletions[k]
      modifies this`pendingDeletions, this`files, this`doomed
      ensures Valid() && Reaches(old(Abstract()), Abstract())
      ensures forall id :: id in pendingDeletions <==> id in old(pendingDeletions) && !(id in lone && id in elapsed)
      ensures forall id :: id in files <==>
                id in old(files) && !(id in old(pendingDeletions) && id in lone && id in elapsed)
      ensures forall id :: id in files ==> files[id] == old(files)[id]
    {
      ghost var s := Abstract();
      ReachesSelf(s);
      var i := 0;
      while i < |pendingDeletions|
        invariant i <= |pendingDeletions| && Sweeping(s, i, lone, elapsed, old(files), old(pendingDeletions))
        decreases |pendingDeletions| - i
      {
        var id := pendingDeletions[i];
        if id in lone && id in elapsed {
          SweepAt(s, i, lone, elapsed, old(files), old(pendingDeletions));
        } else {
          i := i + 1;
        }
      }
    }
  }
}
