# A verified model of the lsmkv storage engine

lsmkv is a key-value store built as a log-structured merge tree: a write-ahead log, an active
memtable, a queue of immutable memtables, a newest-first list of table files, a durable manifest,
and background threads that flush and compact. This project models its engine and its file formats
in Dafny and proves what the rest of the program relies on. `dafny verify dfyconfig.toml` checks
all of it. Nothing was executed.

## How it is built

**The engine.** `Engine` is a step system: a `State`, the `Action`s, when an action is enabled, and
what it does. One action is one section of `engine.rs` under a lock, or one atomic access, so every
interleaving of the writer, the flusher, any number of compaction jobs, readers and the sweep is a
sequence of actions. Invariants are proved action by action: `Catalog` (ids, catalogue, version), `Jobs`
(reservation), `EngineView` (what reads see), `Files` (files and references), `Durable` (log,
watermark, tables). The specification is `Levels.Fold`: the map left by the accepted writes.

Conclusions are drawn over three kinds of sequences of states. A *timeline* (`Timelines`) is anything
at all that may happen from the first start on: any enabled step, compactions of any inputs, crashes
at any point, restarts under any configuration with a replay that may break off. What holds of
catalogue, jobs, files, ids, epochs and backpressure holds there (`Timelines`, `Lifetimes`,
`Backpressure`). A *run* (`Reads`, `Reaching`) is crash-free, and its compactions have safe inputs: what
holds of reads holds there. A *life* joins runs by restarts that replay the whole log (`Recovery`,
`Hazards`, `Numbering`, `Compactions`): what holds of durability holds there.

**The engine as code.** `LsmEngines.LsmEngine` has the fields of the source's `LsmEngine`. Each
locked section is a short method that takes one step; the operations are those sections in order,
with their branches, error exits and loops, proved to be runs of the step system (`Reaches`) and to
have the outcome their callers see. `EngineLoops` holds the loops that need no lock,
`CompactionManagers` the slot counter and the in-progress set, `Pickers` the choice of inputs.

**The formats.** `Varints`, `Blocks`, `Blooms`, `Formats` and `Tables` build table files in place as
`sstable.rs` does; `Readers`, `Scans` and `Caches` read them through the block cache; `Merging` is
the k-way merge; `Wals` the log with tail recovery; `Memtables` the in-memory table. `Layouts` says
where every number stands on disk and which footers and log records are accepted. `Storage` joins the
two halves: the bytes that a flush, a compaction and the log produce are what the steps say.

The other modules hold vocabulary and parts of proofs: `Entries`, `SortedLists`, `ByteSeqs`,
`Sealing`, `Frames` (what each group of actions leaves alone), `Sections` (what each section does,
field by field), and `Cycles` (the runs that the counterexamples are made of).

## What the code does not guarantee

Each of these has an exact condition, proved as an if-and-only-if; the first five also have a run
from the empty store, given step by step, in which the property fails.

- **A compaction may bring an old value back.** The picker sorts by size, so its inputs need not be
  neighbours in age, and the output takes the place of the newest input. Publishing a job keeps all
  reads right if and only if no key that memory does not answer, and that an input holds, has its
  newest holder in a table that is not an input and stands behind the newest input
  (`Compactions.PublishExact`). Neighbouring inputs always satisfy this. Input: three flushed writes
  with table sizes 100, 1000 and 100, fan-in 2, ratio 2 (`PickSkips`, `SkippedTableLosesWrite`). The
  theorems about runs and lives therefore ask that published jobs have safe inputs
  (`Engine.Benign`); those about timelines do not. The picker's
  comment calls the table with the larger id the newer one; of a compaction's output, which gets a
  new id and old content, that is not so, and the model follows the code.
- **Replay may stop before the end of the log.** Once writes are blocked the remaining records are
  ignored. That happens exactly when a memtable fills for the (max_immutable_tables + 2)-th time with
  records left (`Recovery.ReplayStops`, `CompleteExactly`). Recovery is then still right if and only
  if everything was flushed and no key is both before and behind the stop (`RecoveryExact`). Input:
  four writes of one key that each fill the memtable, three of them flushed, all in one segment,
  max_immutable_tables = 1 (`Hazards.ReplayDropsWrite`).
- **A second crash may uncover an old value.** A restart replays records at or below the watermark
  and then deletes their segments; what it replayed may be flushed again, in front of newer tables.
  After any run that follows, another full restart is right if and only if all that memory held is
  in the log or is what the tables answer (`Hazards.SecondCrashExact`, `SecondCrashAfterRun`); and so
  on for any number of restarts (`BackedLifeExact`). Input:
  two flushed writes of one key in a full segment, a restart, one flush, a crash
  (`SecondCrashLoses`). The many-crash theorem asks that no replayed record is at or below the
  watermark (`Recovery.ReplaysOnlyUnflushed`).
- **Version epochs may fall back over a crash.** A restart numbers versions from the manifest's epoch,
  which only a flush or a compaction saves. They go on increasing if and only if no version was
  published since the last save (`Lifetimes.EpochOverCrash`). Input: one write that rotates, and a
  crash (`Hazards.EpochFallsBack`).
- **Sequence numbers may start again.** Recovery takes them from the log alone. After a full replay
  every later state reads right if and only if a record survived in the log or nothing was ever
  written (`Numbering.NumberingExact`). Input: one flushed write, a roll of the log, two restarts, a
  new write of the key, its flush, and a compaction with the old table (`RenumberedWriteLoses`).
- **The log accepts what recovery refuses.** `append` does not bound payloads, recovery calls those
  above 10,485,760 bytes corrupt. A log comes back whole if and only if no payload is larger
  (`Wals.LogReturnsExactly`).
- **The retry loop may not end.** Auto-compaction asks for l0_compaction_trigger tables, the picker
  for the fan-in. When the first is smaller, the worker goes round without a pick
  (`Pickers.RetryAlwaysPicks`).

## Assumptions

- Every append is fsynced (wal_fsync_every_n at most 1) where the step system crashes and recovers.
  A crash between the append and the insert into the memtable is a state of its own.
- `Manifest::save` and the rename of a table file are atomic and durable, or fail as a whole.
- Opening a table that was just written succeeds.
- A reader of a file sees an ideal byte sequence: `read` returns all the bytes it was asked for, up to
  the end of the file.
- Checksums and the two filter hashes are arbitrary functions (`Sealing.Hashing`); nothing is
  assumed of them. A corrupt block may pass its checksum; that only limits what is said about it.
- Keys and values are byte sequences under lexicographic order. Counters do not overflow; widths are
  modelled where the formats write them.
- The grace of a retired file, the rotation cooldown and the moment a segment is full are free bits,
  and so is the outcome of each file operation that the operations take as a parameter.

## Model

| member | source | states |
|---|---|---|
| Reads.RunRefinesMap | lsmkv/internal/lsm/src/engine.rs:389-737 | In every state of every crash-free run, over all interleavings of writes, both halves of a rotation, flushes, compactions whose inputs are safe, cleanups and readers, each key reads as the fold of the accepted writes, and the cell it reads is the newest one anywhere in the store |
| Reads.ReadLinearizes | lsmkv/internal/lsm/src/engine.rs:306-342 | A get that looks at the active memtable in one state and at the published version in any later state of the run answers what the map held at some instant between the two |
| Timelines.ContiguousPickStaysSafe | lsmkv/internal/lsm/src/engine.rs:1285-1408 | A job whose inputs are neighbours when it takes their handles finds them neighbours, and safe to merge, whenever it publishes, whatever flushes and other jobs, with whatever inputs, did meanwhile |
| EngineView.ViewStep | lsmkv/internal/lsm/src/engine.rs:447-522 | Each action, both halves of rotation included, keeps the history numbered, each cell genuine, the version a faithful snapshot, and every key reading as the fold |
| Levels.CompactionExact | lsmkv/internal/lsm/src/engine.rs:1358-1395 | With tables newest first per key, putting the merge at the place of the newest input leaves the first hit of every key alone if and only if no key of an input has its newest holder in a table that is not an input and stands behind that place |
| Levels.ContiguousKeepsOrder | lsmkv/internal/lsm/src/engine.rs:1385-1395 | Merging neighbouring tables keeps the table list newest first per key |
| Compactions.PublishExact | lsmkv/internal/lsm/src/engine.rs:1356-1408 | In a sound state with tables newest first, publishing a job leaves every read equal to the map if and only if every key is answered from memory or satisfies the condition of CompactionExact |
| Compactions.TidyLifeOrdered | lsmkv/internal/lsm/src/engine.rs:1385-1395 | In every state of every life (restarts that replay only unflushed records included) whose jobs merge neighbouring tables, the tables are newest first per key: the hypothesis of the two exact conditions holds of all those states |
| Compactions.PickSkips | lsmkv/internal/lsm/src/compaction/picker.rs:43-53 | The picker takes the newest and the oldest of three tables and skips the large one between them |
| Compactions.SkippedTableLosesWrite | lsmkv/internal/lsm/src/engine.rs:1223-1408 | From the empty store, three flushed writes and a job on that pick: publishing it brings an overwritten value back |
| Catalog.CatalogStep | lsmkv/internal/lsm/src/engine.rs:1342-1408 | Under every interleaving of flushes and jobs the catalogue and the open tables name the same ids in the same order, ids are distinct and below both counters, reserved ids are nobody else's, and the published version holds the open tables |
| Jobs.JobsStep | lsmkv/internal/lsm/src/engine.rs:1268-1283 | Under every interleaving the in-progress set is the disjoint union of the jobs' inputs, the slot counter counts the jobs that hold a slot and stays within the limit, and the inputs of a job that holds handles stay live until it publishes |
| Jobs.OutputIsMerge | lsmkv/internal/lsm/src/engine.rs:1288-1328 | What a job is about to publish is exactly the merge of the tables that are live under its inputs' ids at that moment |
| Files.FilesStep | lsmkv/internal/lsm/src/engine.rs:1582-1629 | Every action keeps each live, pinned or merged table's file on disk with its content, and keeps candidates for deletion out of the table list, under ids that nobody claims |
| Timelines.FilesStay | lsmkv/internal/lsm/src/engine.rs:153-187 | In every state of every timeline, crashes and orphan cleanup included, each catalogued table, each table of a pinned version and each input of a running job has its file with its content, and a file about to be deleted is out of everyone's reach |
| Timelines.CatalogAgrees | lsmkv/internal/lsm/src/engine.rs:1342-1408 | In every state of every timeline the manifest and the open tables name the same ids in the same order, ids are distinct and below next_sst_id, in the manifest and in memory, and the published version holds the open tables |
| Timelines.JobsKeepApart | lsmkv/internal/lsm/src/compaction.rs:101-139 | In every state of every timeline the in-progress set is the disjoint union of the jobs' inputs, the slot counter counts the jobs that hold a slot and is at most max(1, max_concurrent), a job that holds handles holds its inputs, live, and what it is about to publish is their merge |
| Lifetimes.IdsNeverReused | lsmkv/internal/lsm/src/engine.rs:621-641 | Two tables that are ever live under one id in a timeline, before or after any crash, are the same table |
| Lifetimes.ReplacedForGood | lsmkv/internal/lsm/src/engine.rs:1385-1395 | A table that left the list never comes back, nor does its id, not even after a crash |
| Lifetimes.EpochsIncrease | lsmkv/internal/lsm/src/engine.rs:549-553 | Along a timeline a different manifest has a later epoch, over any crash; a different version has a later epoch as long as there is no crash |
| Hazards.EpochFallsBack | lsmkv/internal/lsm/src/engine.rs:233-243 | From the empty store: a version of epoch 2, a crash, and the restart publishes epoch 1 |
| Lifetimes.ObservedStaysUnreferenced | lsmkv/internal/lsm/src/engine.rs:1592-1623 | A retired table that no list, version, reader or job holds is held by nobody in any later state of the timeline |
| Durable.DurableStep | lsmkv/internal/lsm/src/engine.rs:585-682 | Every action keeps the log a suffix of the history that lacks only flushed records, the memtables consecutive stretches of it from the watermark on, and the tables equal to the fold up to the watermark |
| Durable.WatermarkSound | lsmkv/internal/lsm/src/engine.rs:634-648 | Each record at or below the watermark is in a table or superseded by one that is; each record above it is still in the log |
| Recovery.CrashRecovery | lsmkv/internal/lsm/src/engine.rs:108-300 | After a crash in any sound state, and a replay that gets to the end of the log, every key reads as the fold of the acknowledged writes and the one in flight |
| Recovery.ReplayStops | lsmkv/internal/lsm/src/engine.rs:118-149 | Replay breaks off exactly when a memtable is full for the (max_immutable_tables + 2)-th time; up to there the queue length and the grace bit are given by the number of full memtables |
| Recovery.CompleteExactly | lsmkv/internal/lsm/src/engine.rs:118-149 | Replay of a non-empty log gets to its end if and only if at most max_immutable_tables + 1 memtables were full before the last record |
| Recovery.RecoveryExact | lsmkv/internal/lsm/src/engine.rs:118-149 | For every sound state and every pattern of full memtables: recovery answers every key rightly if and only if replay gets to the end, or everything was flushed and no key is both in the replayed and in the dropped part of the log |
| Recovery.SequenceNumbersResume | lsmkv/internal/lsm/src/engine.rs:264-276 | Numbering goes on from the history if and only if a record survives in the log or nothing was ever written |
| Recovery.RestartGood | lsmkv/internal/lsm/src/engine.rs:108-300 | A full restart re-establishes everything the run theorems assume, with the accepted writes as its history |
| Recovery.LifeKeepsEveryWrite | lsmkv/internal/lsm/src/engine.rs:108-300 | From the empty store through any number of runs and of full restarts (the whole log replayed, a record left to number from unless nothing was written) that replay only unflushed records, every key reads as the fold of the accepted writes, and one more crash with a full replay loses none of them |
| Hazards.SecondCrashExact | lsmkv/internal/lsm/src/engine.rs:118-216 | A crash in any state after a restart, flushed records replayed or not: a full replay answers every key rightly if and only if each key that memory held is in the log, or the tables answer it as memory did |
| Hazards.SecondCrashAfterRun | lsmkv/internal/lsm/src/engine.rs:118-216 | The same for any run that follows a full restart of any sound state |
| Hazards.BackedLifeExact | lsmkv/internal/lsm/src/engine.rs:118-216 | For any number of runs and full restarts, flushed records replayed or not: as long as every crash so far met a state whose memory was backed, each key reads as the fold of the accepted writes, and one more full restart is right if and only if this state is such a one too |
| Hazards.LifeIsBacked | lsmkv/internal/lsm/src/engine.rs:118-216 | Every life whose restarts replay only unflushed records is such a life |
| Hazards.SecondCrashLoses | lsmkv/internal/lsm/src/engine.rs:118-216 | From the empty store: two flushed writes of a key, a restart that replays them, one flush, a second crash, and the key reads as its first value |
| Hazards.ReplayDropsWrite | lsmkv/internal/lsm/src/engine.rs:119-121 | From the empty store under max_immutable_tables = 1: four acknowledged writes, all in the log, and the restart does not recover the fourth |
| Numbering.NumberingExact | lsmkv/internal/lsm/src/engine.rs:264-276 | After a full replay, every state of every run reads right if and only if a record survived in the log or nothing was ever written |
| Numbering.NumberingFails | lsmkv/internal/lsm/src/engine.rs:264-276 | From every other such restart there is a run (one write, its flush, one compaction of all tables) after which the write does not read back |
| Numbering.RenumberedWriteLoses | lsmkv/internal/lsm/src/wal.rs:127-256 | From the empty store: one flushed write, a roll of the log, two restarts, and the write that follows is lost to the old one |
| Backpressure.NoLostUnblock | lsmkv/internal/lsm/src/engine.rs:447-584 | In every state of every timeline, a restart that comes up blocked included, the queue is within its bound, and if writes are blocked then the flusher is about to clear them, or the queue is full and the flusher is at work or free to start |
| Backpressure.FlushEndsStall | lsmkv/internal/lsm/src/engine.rs:559-584 | Whatever other threads do between a pop and the flusher's rest: if the flusher saw room on the way, writes end up unblocked, even if the queue has filled up since; if it saw none, the queue is full |
| EngineLoops.ReplayLog | lsmkv/internal/lsm/src/engine.rs:118-149 | The replay loop yields exactly the memtables, grace bit and block of the step system's replay for the pattern the sizes give: for each record it gets to, the memtable counts as full if and only if its entries, with that record in it, take at least memtable_max_bytes, or five quarters of it during the grace |
| EngineLoops.SizesDecide | lsmkv/internal/lsm/src/engine.rs:118-149 | Two fill patterns that follow the sizes rebuild the same memtables: what a restart replays is a function of the log |
| EngineLoops.SmallLogRecovers | lsmkv/internal/lsm/src/engine.rs:118-149 | A log whose every prefix fits the memtable is replayed whole into the active memtable, with no queue, no grace spent and no block, and every key reads as accepted |
| EngineLoops.ReplaceTables | lsmkv/internal/lsm/src/engine.rs:1385-1395 | position, retain and insert on the open tables amount to the replacement that the exact condition is about |
| EngineLoops.CleanLog | lsmkv/internal/lsm/src/wal.rs:448-479 | Startup cleanup leaves the current segment as it was, and in front of it exactly the segments with a record above the watermark |
| LsmEngines.LsmEngine.constructor | lsmkv/internal/lsm/src/engine.rs:108-300 | new on what a crash left behind is the step system's restart for the fill pattern that the sizes give; counters, tables, files, manifest and the cleaned log are what the disk says, field by field |
| LsmEngines.LsmEngine.WriteOp | lsmkv/internal/lsm/src/engine.rs:389-446 | A write is refused, changing nothing, exactly when the engine is closed or shutting down, l0_stop_writes tables are open, or writes are blocked. Otherwise all of log, numbering, memtables, grace, block and version is given: one record at the end of the log, after a roll if the segment was full, its cell in the active memtable, then the outcome of RotateIfFull; and it is a run of the step system |
| LsmEngines.LsmEngine.RotateIfFull | lsmkv/internal/lsm/src/engine.rs:447-522 | Nothing happens while a cooldown runs or the entries take less than the limit, five quarters of it during the grace. Else, with room, the memtable is queued, the grace is back, a version with the queue is published under the next epoch, and a fresh memtable is active; without room the grace goes, and then the right to write |
| LsmEngines.LsmEngine.Get | lsmkv/internal/lsm/src/engine.rs:354-373 | Between writes, in any sound state: not found exactly if the map of accepted writes lacks the key, a tombstone exactly if it holds one, and the value v exactly if it holds v |
| LsmEngines.LsmEngine.SeenAnswers | lsmkv/internal/lsm/src/engine.rs:306-342 | What a read in one go sees, which is also what delete looks at, is what that map holds |
| LsmEngines.LsmEngine.Put | lsmkv/internal/lsm/src/engine.rs:343-346 | Refused for an empty key or a refusing engine, with no change; else exactly the write of that value |
| LsmEngines.LsmEngine.Delete | lsmkv/internal/lsm/src/engine.rs:347-353 | A tombstone is written only over a key that reads as present, and then it is exactly such a write; a missing key is no error and changes nothing |
| LsmEngines.LsmEngine.FlushImmutable | lsmkv/internal/lsm/src/engine.rs:585-737 | It fails exactly when closed or when a file or the manifest cannot be written; then queue, tables, manifest, version and log are as before. A success gives all of them: the oldest memtable leaves the queue for a file under the next id, first in table list, manifest and version; the watermark moves to its largest sequence number, and never back; no segment in front of the current one is left below it; and a stall ends if there is room. An empty memtable only leaves the queue |
| LsmEngines.LsmEngine.CleanupWal | lsmkv/internal/lsm/src/engine.rs:738-751 | The file-by-file cleanup, a run of the step system, ends in the same log as the cleanup at startup: the current segment, and those with a record above the watermark |
| LsmEngines.LsmEngine.RunCompactionJob | lsmkv/internal/lsm/src/engine.rs:1285-1408 | Every exit leaves the lists as they were or with the merge in its inputs' place in list, manifest and version; with safe inputs it is a run of the step system |
| LsmEngines.LsmEngine.CompactionRun | lsmkv/internal/lsm/src/engine.rs:1223-1284 | It compacts exactly when neither closed nor paused, two or more inputs are known, open and free, a slot is free and the I/O works; the inputs are the caller's, or the picker's by its rule. Whatever happens, marks, slot count and jobs are given back; a failure changes no list; a success leaves the merge in its inputs' place; with safe inputs it is a run of the step system |
| LsmEngines.LsmEngine.CompactWhileDue | lsmkv/internal/lsm/src/engine.rs:1662-1686 | With l0_compaction_trigger at least the fan-in and no other steps, the worker's retry loop of compaction_run ends: compaction is paused, too few tables are left, no slot is free, or a flush has priority. It starts exactly if none of these held, and every round took fan_in - 1 off the number of open tables |
| LsmEngines.LsmEngine.SweepPendingDeletions | lsmkv/internal/lsm/src/engine.rs:1582-1629 | Exactly the candidates that nobody holds and whose grace is over lose their files and their place in the queue; no other file changes |
| CompactionManagers.CompactionManager.TryReserveSlot | lsmkv/internal/lsm/src/compaction.rs:101-116 | Whatever other threads do to the counter between load and exchange, a slot is taken from the value last seen, and only below the limit |
| CompactionManagers.CompactionManager.TryMarkInProgress | lsmkv/internal/lsm/src/compaction.rs:125-132 | All ids are marked, or none, and it succeeds exactly if none was |
| Pickers.PickFollowsRule | lsmkv/internal/lsm/src/compaction/picker.rs:27-54 | There is a pick exactly if fan_in tables are free; it is fan_in distinct live ids that no job holds, from the first window within the ratio in the documented order, else the smallest |
| Pickers.OrderInSizes | lsmkv/internal/lsm/src/compaction/picker.rs:43-43 | The documented order: file sizes never fall, and of equal files the newer one comes first |
| Pickers.SimilarInSizes | lsmkv/internal/lsm/src/compaction/picker.rs:45-51 | The documented similarity: no file of the window is larger than the ratio times its first, an empty one counting as a byte |
| Pickers.RetryAlwaysPicks | lsmkv/internal/lsm/src/engine.rs:1099-1108 | Whenever auto-compaction is due there is a pick, if and only if the trigger is at least the fan-in |
| Pickers.JobShrinks | lsmkv/internal/lsm/src/engine.rs:1363-1370 | Replacing distinct inputs shortens the catalogue by one less than their number and keeps ids distinct |
| Storage.WriteOpenLookup | lsmkv/internal/lsm/src/sstable_reader.rs:438-476 | For every sorted entry list, block size, restart interval, filter size, cache size and key: writing the table, opening it and looking the key up answers not found exactly if no entry has the key, a tombstone exactly if its entry is one, and the value v exactly if its entry holds v |
| Storage.WriteOpenScan | lsmkv/internal/lsm/src/sstable_reader.rs:161-224 | The same for a whole scan: it yields exactly the writer's input |
| Storage.FlushMemtable | lsmkv/internal/lsm/src/sstable.rs:564-592 | The flushed file holds the memtable cell for cell, and the reported max_seq_no is the maximum the watermark step asks for |
| Storage.MergeTables | lsmkv/internal/lsm/src/engine.rs:1303-1355 | The file a compaction writes holds exactly the merge that the step system publishes, and keys out plus keys dropped equal keys in |
| Storage.LogComesBack | lsmkv/internal/lsm/src/wal.rs:127-256 | Recovering the files of a synced log brings back the step system's log, leaves the files as they were, and returns its largest sequence number, from which numbering goes on |
| Tables.WriteTable | lsmkv/internal/lsm/src/sstable.rs:415-556 | The file is data blocks, filter, index and footer of the input, the filter holds exactly the input's keys, each block but the last is closed as soon as it reaches the block size, and the reported row is the input's: first and last key, least and largest sequence number, both attained, number of entries and bytes |
| Readers.OpenWritten | lsmkv/internal/lsm/src/sstable_reader.rs:54-90 | Opening a written table succeeds, and the handle agrees with the entry list |
| Readers.IndexedBlock | lsmkv/internal/lsm/src/sstable_reader.rs:504-511 | Only the block that the sparse index names can hold the key |
| Readers.LookupInTable | lsmkv/internal/lsm/src/sstable_reader.rs:438-476 | For a written table the range check, filter, index and block search answer as a search of its entry list, whatever the block cache holds coherently, and keep it coherent |
| Readers.LoadDataBlock | lsmkv/internal/lsm/src/sstable_reader.rs:545-570 | A cached block is answered as it is cached, without a change; a block read from disk is in the cache afterwards if it fits at all; either way it is the block the writer made |
| Readers.LoadIndexBlock | lsmkv/internal/lsm/src/sstable_reader.rs:513-543 | The index is the one the writer made; the cache is not touched unless cache_index_blocks asks for it, and then holds the index if that fits |
| Scans.SearchTables | lsmkv/internal/lsm/src/sstable_reader.rs:482-499 | Over several written tables the answer is the first hit over their maps, as in the step system |
| Scans.AnswerIsGet | lsmkv/internal/lsm/src/sstable_reader.rs:438-476 | A search of a sorted list and a look into its map give the same answer |
| Storage.AnswerInList | lsmkv/internal/lsm/src/sstable_reader.rs:438-476 | That answer, in terms of the entries: which lists give not found, a tombstone, or a given value |
| Scans.SsTableScanIterator.Next | lsmkv/internal/lsm/src/sstable_reader.rs:212-223 | Each call yields the next entry of the table, over as many block loads as it takes, and then nothing |
| Scans.ScanTable | lsmkv/internal/lsm/src/sstable_reader.rs:136-138 | A scan yields the written entries in order; on any other bytes nothing follows an error |
| Blocks.SearchDataBlock | lsmkv/internal/lsm/src/sstable_reader.rs:595-641 | On every block the builder can make, and for every key, binary search over restart points and a scan from there find exactly what a search of the entries finds; on any bytes it ends |
| Blocks.BlockRoundTrip | lsmkv/internal/lsm/src/sstable.rs:143-192 | Decoding an encoded block yields exactly the added entries, for every restart interval |
| Blocks.RestartEvery | lsmkv/internal/lsm/src/sstable.rs:143-178 | The builder's counter makes exactly every restart_interval-th entry a restart point |
| Blocks.DecodeEncoded | lsmkv/internal/lsm/src/sstable.rs:875-930 | An entry reads back from any last key that agrees on the shared bytes |
| Blocks.BlockBuilder.Finish | lsmkv/internal/lsm/src/sstable.rs:183-192 | The finished block is the encoding of exactly the entries added, under its checksum |
| Blocks.ParseBuilt | lsmkv/internal/lsm/src/sstable.rs:836-859 | Parsing a built block gives back its entry bytes and restart offsets |
| Blooms.MayContainExactly | lsmkv/internal/lsm/src/sstable.rs:263-269 | The filter lets a key pass if and only if each of its bit positions belongs to some added key: no false negative, and every false positive explained |
| Blooms.BloomFilter.Add | lsmkv/internal/lsm/src/sstable.rs:253-259 | After adding a key the set bits are exactly the positions of the keys added so far |
| Blooms.FilterRoundTrip | lsmkv/internal/lsm/src/sstable.rs:279-310 | A serialized filter reads back unchanged |
| Blooms.IndexIsLinear | lsmkv/internal/lsm/src/sstable.rs:247-251 | The positions of a key lie one second hash apart, modulo 2^64, from its first hash on: the wrapping steps amount to that |
| Varints.RoundTrip | lsmkv/internal/lsm/src/sstable.rs:51-88 | Every u64 reads back wherever its varint stands, whatever follows it |
| Varints.CanonicalExactly | lsmkv/internal/lsm/src/sstable.rs:51-88 | Bytes that read as v are the bytes written for v, if and only if they have no trailing zero group and a tenth group of at most one bit |
| Varints.ReadVarint | lsmkv/internal/lsm/src/sstable.rs:68-88 | The shift loop reads the number its groups stand for modulo 2^64, and fails exactly when none of the next ten bytes that are there ends it |
| Formats.IndexRoundTrip | lsmkv/internal/lsm/src/sstable.rs:325-338 | A serialized index reads back unchanged |
| Formats.FooterRoundTrip | lsmkv/internal/lsm/src/sstable.rs:355-374 | The footer reads back from the end of any file that ends with it |
| Sealing.VerifiedExactly | lsmkv/internal/lsm/src/sstable.rs:761-798 | A verified read succeeds exactly on a sealed block, and yields what was sealed |
| Layouts.VarintLayout | lsmkv/internal/lsm/src/sstable.rs:51-63 | A varint holds seven bits a byte, the lowest first, with the top bit on all bytes but the last, and no byte more than it needs |
| Layouts.EntryLayout | lsmkv/internal/lsm/src/sstable.rs:143-178 | Where the parts of an entry stand: as varints what its key shares and what it has of its own, the kind, the value's length, the sequence number, key and value |
| Layouts.BlockLayout | lsmkv/internal/lsm/src/sstable.rs:183-192 | A block is its entries, one four-byte offset for each restart_interval entries begun, and the number of these |
| Layouts.RestartStands | lsmkv/internal/lsm/src/sstable.rs:183-192 | The j-th offset of a block points to entry j * restart_interval, stored with its whole key |
| Layouts.RowLayout | lsmkv/internal/lsm/src/sstable.rs:325-338 | A row of the index is the length of the first key, that key, the block's offset and its length |
| Layouts.FilterLayout | lsmkv/internal/lsm/src/sstable.rs:279-287 | A filter is its number of bits, its number of hashes, and the bits, eight to a byte from the lowest on |
| Layouts.FooterLayout | lsmkv/internal/lsm/src/sstable.rs:355-374 | Where each of the footer's ten parts stands in the last 72 bytes of a file |
| Layouts.FooterExactly | lsmkv/internal/lsm/src/sstable.rs:685-747 | A file's footer is accepted, and read as f, if and only if the file ends in what is written for f, the three padding bytes aside |
| Layouts.RecordLayout | lsmkv/internal/lsm/src/wal.rs:35-65 | Where the parts of a log record stand, and what its checksum covers |
| Layouts.RecordExactly | lsmkv/internal/lsm/src/wal.rs:174-235 | Recovery takes a record at a place if and only if a frame stands there (a length up to 10,485,760, that many bytes, their checksum) whose payload names that record |
| Merging.MergeSources | lsmkv/internal/lsm/src/engine.rs:1315-1326 | The merge loop fails exactly if some source yields an error, and otherwise collects the whole merge and counts its tombstones |
| Merging.TombstonesCount | lsmkv/internal/lsm/src/engine.rs:1315-1326 | The count of tombstones kept is the number of entries without a value |
| Merging.MergeIsMergeAll | lsmkv/internal/lsm/src/compaction/merge.rs:53-105 | For strictly ascending sources the merge is strictly ascending, its keys are the union of theirs, and each entry is the one with the highest sequence number, the first source on a tie |
| Merging.MergedLength | lsmkv/internal/lsm/src/engine.rs:1327-1328 | The merge never emits more entries than its sources hold |
| Levels.BestIsFirst | lsmkv/internal/lsm/src/compaction/merge.rs:53-105 | On equal sequence numbers the first source wins: every source in front of the winner has a strictly older cell |
| Merging.MergeIterator.Next | lsmkv/internal/lsm/src/compaction/merge.rs:53-105 | An error at any head ends the merge; otherwise the smallest key comes out once, with its winner, and every source moves past it |
| Wals.PrefixRecovers | lsmkv/internal/lsm/src/wal.rs:174-243 | From any byte prefix of a segment of accepted records recovery yields exactly the records wholly in it, with their largest sequence number, and truncates to where they end |
| Wals.TruncationIsFinal | lsmkv/internal/lsm/src/wal.rs:174-243 | On arbitrary bytes after the header, the truncated segment yields the same records and needs no further truncation |
| Wals.LogReturnsExactly | lsmkv/internal/lsm/src/wal.rs:35-65 | A log of appended records comes back whole if and only if no payload exceeds 10,485,760 bytes; else it ends before the first that does |
| Wals.WholeDirectory | lsmkv/internal/lsm/src/wal.rs:127-256 | A directory of whole segments comes back with all its records and their largest sequence number, and is left as it was |
| Wals.CutDirectory | lsmkv/internal/lsm/src/wal.rs:127-256 | With the last segment cut at any byte, recovery yields every record wholly on disk in order, with their largest sequence number; without a whole header that file goes and a new segment is forced |
| Wals.SyncedSurvives | lsmkv/internal/lsm/src/wal.rs:269-285 | Any cut of a segment that leaves the bytes of its first j records contains those j records, so what was synced survives |
| Wals.CleanupIsConservative | lsmkv/internal/lsm/src/wal.rs:486-526 | On any bytes, the number cleanup compares with the watermark is at least every sequence number recovery sees in that file |
| Wals.CleanupKeepsUnflushed | lsmkv/internal/lsm/src/wal.rs:448-479 | No record above the watermark is ever in a deleted file |
| Wals.CleanupIsExact | lsmkv/internal/lsm/src/wal.rs:486-526 | For a segment, whole or cut at any byte, that number is the largest sequence number of the records wholly there |
| Wals.CleanupExact | lsmkv/internal/lsm/src/wal.rs:448-479 | A segment stays if and only if it is the current one or holds a record above the watermark |
| Wals.Wal.Append | lsmkv/internal/lsm/src/wal.rs:269-285 | The log grows by exactly this record at its end, after a roll if the segment was full; no earlier segment changes its id; and everything is synced exactly when sync_every_n writes are pending, this one included |
| Memtables.Memtable.Insert | lsmkv/internal/lsm/src/memtable.rs:67-87 | The key has the new cell, no other key changes, and the byte count stays the exact size of the entries: key, value and overhead of the new cell come, those of the old one go |
| Memtables.Memtable.Iter | lsmkv/internal/lsm/src/memtable.rs:109-116 | Iteration lists exactly the entries, keys strictly ascending |
| Caches.BlockCache.Insert | lsmkv/internal/lsm/src/sstable_reader.rs:280-305 | What stays is exactly the longest most recently used tail that fits, the new block last; the order lists the cached keys once each and the byte count is their exact sum |
| Caches.BlockCache.Get | lsmkv/internal/lsm/src/sstable_reader.rs:268-278 | A hit is what was cached, and only makes its key the most recently used |
| Caches.FileHandleCache.Admit | lsmkv/internal/lsm/src/sstable_reader.rs:339-377 | A file opened without the lock is admitted unless another thread was faster, at most one old handle goes, and the caller gets a handle of its table's file |

## Left out

- The command line, the TCP server, JSON, configuration files and `configure`: plumbing around the operations. A timeline changes the configuration only at a restart.
- The event log, statistics, status strings, read traces, `JobStats`, dumps: they do not affect results.
- Worker signals, ticks, sleeps, `IoThrottle`, `close` and `shutdown` beyond the flags they set: timing.
- I/O failures other than those the operations take as parameters; in particular a failed log append, which leaves the sequence number advanced without a record.
- A table that fails to open right after it was written: the manifest then names a table that the open list lacks.
- The section under `publish_lock` is one step. Inside it the manifest, the list, the queue and the version move one after the other; readers see only the version, in one access, and the one foreign move that may fall in between, a rotation's push onto the queue, commutes with what is left of the section.
- `Version::active`: no reader uses the copy in the version, so the model's version has none.
- A loss of unsynced log records (wal_fsync_every_n above 1) in the step system; `Wals.Wal` counts the synced bytes, and `Wals.CutDirectory` covers a log cut anywhere.
- `quick_validate` at startup: on files that the writer made it accepts what opening accepts.
- `verify`, `sst_info`, `Wal::dump`, `Wal::verify`, `manual_truncate`: diagnostic copies of the modelled parsers.
- `BufReader::read` returning fewer bytes than asked for at the edge of its buffer, which recovery would take for a torn record.
- The floating-point formulas for filter size and hash count: the writer's caller chooses any positive multiple of eight bits and any positive number of hashes. The size ratio is a real number, and 1.25 times the memtable limit is five quarters, rounded down.
- Blocks, keys and indexes of 4 GiB and more, tables of 2^31 entries and more: excluded by precondition where the source casts to 32 bits.
- Segment ids of 10^6 and more, whose file names no longer sort by number.
- A manual compaction that names one table twice: `LsmEngines.LsmEngine.CompactionRun` covers it, the lemmas about list lengths do not.
- The order of `pending_deletions` after a sweep: the queue is given as a set of ids.
- The sweep at the head of each round of the compaction worker's loop: `LsmEngines.LsmEngine.SweepPendingDeletions` is on its own.
- The file handle cache is not threaded through lookups: they read a file's bytes directly.
- `partition_point` on rows that are out of order, which only a corrupt index has.
- Readers hold a version in the step system from one action to another; the class's `Get` runs without an interleaving, and `Reads.ReadLinearizes` is where interleavings are.
- Varints.ReadVarint: the source joins groups with a bitwise or, the model with addition; each group meets only clear bits.
- Numbering.NumberingExact: asks for max_immutable_tables of at least 1, without which no memtable is ever queued, so no new write reaches a table.
- Backpressure.NoLostUnblock: asks for max_immutable_tables of at least 1; with 0 nothing is ever queued, and a block is never lifted.
- LsmEngines.LsmEngine.CompactWhileDue: asks for a trigger of at least the fan-in, and for no other job; with a smaller trigger the loop need not end.
- Compactions.PickSkips: the step system does not know file sizes, so the sizes in the input are those the two small tables and the large one would have.
