/** The byte formats carry out the engine's steps: what a flush writes, what a compaction
    writes and what the log brings back are what the step system says. */
module Storage {
  import opened Entries
  import opened ByteSeqs
  import opened SortedLists
  import opened Memtables
  import opened Levels
  import opened Engine
  import opened Sealing
  import opened Caches
  import opened Tables
  import opened Readers
  import opened Scans
  import opened Merging
  import Wals

  // ---- a written table is its list ------------------------------------------------------------

  lemma WrittenIsWell(h: Hashing, file: Bytes, meta: TableMeta, es: seq<Entry>, l: Layout)
    requires IsTable(h, file, meta, es, l) && Sorted(es)
    ensures WellWritten(h, meta.id, StoredTable(file, es, l)) && meta == MetaOf(meta.id, es, |file|)
  {
  }

  /** For every sorted entry list, block size, restart interval and filter size, and every key:
      what the writer writes opens, and a lookup in it finds exactly what a search of the list
      finds, a tombstone included; with the index cached or not. */
  method WriteOpenLookup(h: Hashing, id: nat, es: seq<Entry>, blockSize: nat, restartInterval: nat, bloomBits: nat,
                         bloomHashes: nat, cacheBytes: nat, cacheIndexBlocks: bool, key: Key)
    returns (r: Result<Lookup>)
    requires Sorted(es) && AllHaveRoom(es, blockSize)
    requires 0 < bloomBits < U64 && bloomBits % 8 == 0 && 1 <= bloomHashes < U32
    ensures r == Ok(NotFound) <==> !HasKey(es, key)
    ensures r == Ok(Tombstone) <==> exists i :: 0 <= i < |es| && es[i].key == key && es[i].value.None?
    ensures forall v :: r == Ok(Found(v)) <==> exists i :: 0 <= i < |es| && es[i].key == key && es[i].value == Some(v)
    ensures r == Ok(AnswerOf(Find(es, key)))
  {
    AnswerInList(es, key);
    r := LookupWritten(h, id, es, blockSize, restartInterval, bloomBits, bloomHashes, cacheBytes, cacheIndexBlocks,
                       key);
  }

  method LookupWritten(h: Hashing, id: nat, es: seq<Entry>, blockSize: nat, restartInterval: nat, bloomBits: nat,
                       bloomHashes: nat, cacheBytes: nat, cacheIndexBlocks: bool, key: Key)
    returns (r: Result<Lookup>)
    requires Sorted(es) && AllHaveRoom(es, blockSize)
    requires 0 < bloomBits < U64 && bloomBits % 8 == 0 && 1 <= bloomHashes < U32
    ensures r == Ok(AnswerOf(Find(es, key)))
  {
    var file, t;
    ghost var reg;
    file, t, reg := WriteAndOpen(h, id, es, blockSize, restartInterval, bloomBits, bloomHashes);
    var cache := new BlockCache(cacheBytes);
    r := LookupInTable(h, t, map[id := file], key, cache, cacheIndexBlocks, reg);
  }

  /** The answer of a search, in terms of the entries. */
  lemma {:induction false} AnswerInList(es: seq<Entry>, key: Key)
    requires Sorted(es)
    ensures var r := AnswerOf(Find(es, key));
            && (r == NotFound <==> !HasKey(es, key))
            && (r == Tombstone <==> exists i :: 0 <= i < |es| && es[i].key == key && es[i].value.None?)
            && forall v :: r == Found(v) <==> exists i :: 0 <= i < |es| && es[i].key == key && es[i].value == Some(v)
  {
    var n := FindIndex(es, key);
    forall i | 0 <= i < |es| && es[i].key == key ensures i == n {
      KeyOnce(es, i, n);
    }
  }

  /** write_sstable_from_entries, then TableHandle::open on what it wrote. */
  method WriteAndOpen(h: Hashing, id: nat, es: seq<Entry>, blockSize: nat, restartInterval: nat, bloomBits: nat,
                      bloomHashes: nat)
    returns (file: Bytes, t: TableHandle, ghost reg: Registry)
    requires Sorted(es) && AllHaveRoom(es, blockSize)
    requires 0 < bloomBits < U64 && bloomBits % 8 == 0 && 1 <= bloomHashes < U32
    ensures t.id == id && id in reg && reg[id].es == es && AllWritten(h, reg) && Opened(h, t, map[id := file], reg)
    ensures 0 < t.bloom.numBits <= 8 * |t.bloom.bits|
  {
    var meta;
    ghost var l;
    file, meta, l := WriteTable(h, id, es, blockSize, restartInterval, bloomBits, bloomHashes);
    ghost var w := StoredTable(file, es, l);
    OpensAlone(h, file, meta, w);
    t := OpenTable(h, file, meta).value;
    reg := map[id := w];
  }

  /** What was just written opens, as the one table of a registry. */
  lemma OpensAlone(h: Hashing, file: Bytes, meta: TableMeta, w: StoredTable)
    requires w.file == file && IsTable(h, file, meta, w.es, w.l) && Sorted(w.es)
    ensures var r := OpenTable(h, file, meta);
            && r.Ok? && r.value.id == meta.id && AllWritten(h, map[meta.id := w])
            && Opened(h, r.value, map[meta.id := file], map[meta.id := w])
            && 0 < r.value.bloom.numBits <= 8 * |r.value.bloom.bits|
  {
    WrittenIsWell(h, file, meta, w.es, w.l);
    assert w == StoredTable(file, w.es, w.l);
    OpenWritten(h, meta.id, w);
    OneRegistered(h, meta.id, w);
  }

  lemma OneRegistered(h: Hashing, id: nat, w: StoredTable)
    requires WellWritten(h, id, w)
    ensures AllWritten(h, map[id := w]) && 0 < w.l.filter.numBits <= 8 * |w.l.filter.bits|
  {
  }

  /** The same for a whole scan: the iterator yields exactly the writer's input. */
  method WriteOpenScan(h: Hashing, id: nat, es: seq<Entry>, blockSize: nat, restartInterval: nat, bloomBits: nat,
                       bloomHashes: nat)
    returns (items: seq<Result<Entry>>)
    requires Sorted(es) && AllHaveRoom(es, blockSize)
    requires 0 < bloomBits < U64 && bloomBits % 8 == 0 && 1 <= bloomHashes < U32
    ensures items == AllOk(es)
  {
    var file, t;
    ghost var reg;
    file, t, reg := WriteAndOpen(h, id, es, blockSize, restartInterval, bloomBits, bloomHashes);
    items := ScanTable(h, t, map[id := file], reg);
  }

  // ---- flush ------------------------------------------------------------------------------------

  ghost predicate MemHasRoom(m: Mem, blockSize: nat) {
    |m| < U32 / 2 && forall k :: k in m ==> HasRoom(EntryOf(k, m[k]), blockSize)
  }

  lemma {:induction false} SortedSize(es: seq<Entry>)
    requires Sorted(es)
    ensures |ToMap(es)| == |es|
  {
    if es != [] {
      var n := |es| - 1;
      var init := es[..n];
      SortedSize(init);
      ToMapAt(init, es[n].key);
      if HasKey(init, es[n].key) {
        var i :| 0 <= i < n && init[i].key == es[n].key;
        KeyOnce(es, i, n);
      }
    }
  }

  lemma {:induction false} ListHasRoom(es: seq<Entry>, m: Mem, blockSize: nat)
    requires Sorted(es) && ToMap(es) == m && MemHasRoom(m, blockSize)
    ensures AllHaveRoom(es, blockSize)
  {
    SortedSize(es);
    forall i | 0 <= i < |es| ensures HasRoom(es[i], blockSize) {
      EntryInMap(es, i);
    }
  }

  lemma {:induction false} EntryInMap(es: seq<Entry>, i: nat)
    requires Sorted(es) && i < |es|
    ensures es[i].key in ToMap(es) && EntryOf(es[i].key, ToMap(es)[es[i].key]) == es[i]
  {
    ToMapAt(es, es[i].key);
    assert HasKey(es, es[i].key);
    var j :| 0 <= j < |es| && es[j].key == es[i].key && CellOf(es[j]) == ToMap(es)[es[i].key];
    KeyOnce(es, i, j);
  }

  /** The max_seq_no that the writer reports is the largest in the memtable. */
  lemma {:induction false} ReportedMaximum(es: seq<Entry>)
    requires Sorted(es) && es != []
    ensures IsMaxSeqNo(ToMap(es), MaxSeq(es))
  {
    SeqRange(es, U64 - 1);
    var m := ToMap(es);
    forall k | k in m ensures m[k].seqNo <= MaxSeq(es) {
      ToMapAt(es, k);
      var i :| 0 <= i < |es| && es[i].key == k && CellOf(es[i]) == m[k];
    }
    var i :| 0 <= i < |es| && es[i].seqNo == MaxSeq(es);
    EntryInMap(es, i);
    assert m[es[i].key].seqNo == MaxSeq(es);
  }

  /** flush_memtable_to_sstable: the file holds the memtable, cell for cell, and the reported
      maximum is the one that PublishFlush moves the watermark to. */
  method FlushMemtable(h: Hashing, id: nat, m: Memtable, blockSize: nat, restartInterval: nat, bloomBits: nat,
                       bloomHashes: nat)
    returns (file: Bytes, meta: TableMeta, ghost w: StoredTable)
    requires MemHasRoom(m.entries, blockSize)
    requires 0 < bloomBits < U64 && bloomBits % 8 == 0 && 1 <= bloomHashes < U32
    ensures WellWritten(h, id, w) && w.file == file && meta == MetaOf(id, w.es, |file|)
    ensures ToMap(w.es) == m.entries
    ensures m.entries != map[] ==> IsMaxSeqNo(m.entries, meta.maxSeqNo)
  {
    var es := m.Iter();
    ListHasRoom(es, m.entries, blockSize);
    ghost var l;
    file, meta, l := WriteTable(h, id, es, blockSize, restartInterval, bloomBits, bloomHashes);
    w := StoredTable(file, es, l);
    WrittenIsWell(h, file, meta, es, l);
    if es != [] {
      ReportedMaximum(es);
    }
  }

  // ---- compaction -------------------------------------------------------------------------------

  lemma {:induction false} MergedMembers(ls: seq<seq<Entry>>, e: Entry)
    requires e in Merged(ls)
    ensures exists i :: 0 <= i < |ls| && e in ls[i]
    decreases TotalLength(ls)
  {
    var k := MinHead(ls);
    MinHeadIs(ls);
    PastShrinks(ls, k.value);
    WinnerIs(ls, k.value);
    if e == WinnerHead(ls, k.value).value {
      WinnerMember(ls, k.value);
    } else {
      MergedMembers(AllPast(ls, k.value), e);
      var i :| 0 <= i < |ls| && e in AllPast(ls, k.value)[i];
      assert e in ls[i];
    }
  }

  lemma {:induction false} WinnerMember(ls: seq<seq<Entry>>, k: Key)
    requires WinnerHead(ls, k).Some?
    ensures exists i :: 0 <= i < |ls| && WinnerHead(ls, k).value in ls[i]
  {
    var n := |ls| - 1;
    if WinnerHead(ls, k) == WinnerHead(ls[..n], k) {
      WinnerMember(ls[..n], k);
      var i :| 0 <= i < n && WinnerHead(ls, k).value in ls[..n][i];
      assert ls[i] == ls[..n][i];
    } else {
      assert WinnerHead(ls, k).value == ls[n][0];
    }
  }

  /** The entry lists of the tables. */
  function EntryLists(tables: seq<TableHandle>, reg: Registry): (ls: seq<seq<Entry>>)
    requires AllRegistered(tables, reg)
    ensures |ls| == |tables| && forall i :: 0 <= i < |tables| ==> ls[i] == reg[tables[i].id].es
  {
    seq(|tables|, i requires 0 <= i < |tables| => reg[tables[i].id].es)
  }

  ghost predicate InputsHaveRoom(ls: seq<seq<Entry>>, blockSize: nat) {
    TotalLength(ls) < U32 / 2 && forall i, e :: 0 <= i < |ls| && e in ls[i] ==> HasRoom(e, blockSize)
  }

  lemma {:induction false} MergedHasRoom(ls: seq<seq<Entry>>, blockSize: nat)
    requires InputsHaveRoom(ls, blockSize)
    ensures AllHaveRoom(Merged(ls), blockSize)
  {
    MergedLength(ls);
    forall i | 0 <= i < |Merged(ls)| ensures HasRoom(Merged(ls)[i], blockSize) {
      MergedMembers(ls, Merged(ls)[i]);
    }
  }

  /** The streams are the tables' entries, up to the first i. */
  ghost predicate StreamsOf(streams: seq<Stream>, tables: seq<TableHandle>, reg: Registry, i: nat) {
    i <= |streams| && i <= |tables|
    && forall k :: 0 <= k < i ==> tables[k].id in reg && streams[k] == AllOk(reg[tables[k].id].es)
  }

  /** Scanning every input, as run_compaction_job does before it merges. */
  method ScanAll(h: Hashing, tables: seq<TableHandle>, disk: Disk, ghost reg: Registry) returns (streams: seq<Stream>)
    requires AllWritten(h, reg) && AllOpened(h, tables, disk, reg)
    ensures |streams| == |tables|
    ensures AllRegistered(tables, reg) ==> StreamsOf(streams, tables, reg, |tables|)
  {
    streams := [];
    ghost var known := AllRegistered(tables, reg);
    for i := 0 to |tables|
      invariant |streams| == i && (known ==> StreamsOf(streams, tables, reg, i))
    {
      assert Opened(h, tables[i], disk, reg);
      var items := ScanTable(h, tables[i], disk, reg);
      OneMoreStream(streams, tables, reg, i, items, known);
      streams := streams + [items];
    }
  }

  lemma OneMoreStream(streams: seq<Stream>, tables: seq<TableHandle>, reg: Registry, i: nat, items: Stream, known: bool)
    requires i < |tables| && |streams| == i
             && (known ==> AllRegistered(tables, reg) && StreamsOf(streams, tables, reg, i))
    requires tables[i].id in reg ==> items == AllOk(reg[tables[i].id].es)
    ensures known ==> StreamsOf(streams + [items], tables, reg, i + 1)
  {
  }

  lemma StreamsAreLists(streams: seq<Stream>, tables: seq<TableHandle>, reg: Registry)
    requires AllRegistered(tables, reg) && |streams| == |tables| && StreamsOf(streams, tables, reg, |tables|)
    ensures AllClean(streams) && Lists(streams) == EntryLists(tables, reg)
  {
    forall i | 0 <= i < |streams| ensures Clean(streams[i]) {
      assert streams[i] == AllOk(reg[tables[i].id].es);
    }
    forall i | 0 <= i < |streams| ensures Lists(streams)[i] == EntryLists(tables, reg)[i] {
      assert streams[i] == AllOk(reg[tables[i].id].es);
      assert Values(streams[i]) == reg[tables[i].id].es;
    }
  }

  lemma ListsAreSorted(h: Hashing, tables: seq<TableHandle>, reg: Registry)
    requires AllWritten(h, reg) && AllRegistered(tables, reg)
    ensures AllSorted(EntryLists(tables, reg)) && Maps(EntryLists(tables, reg)) == MapsOf(tables, reg)
  {
    forall i | 0 <= i < |tables| ensures Sorted(EntryLists(tables, reg)[i]) {
      assert WellWritten(h, tables[i].id, reg[tables[i].id]);
    }
  }

  /** The byte side of a compaction: scan, merge, write. The output file holds exactly the merge
      that the step WriteOutput puts in the engine's tables. */
  method MergeTables(h: Hashing, id: nat, tables: seq<TableHandle>, disk: Disk, blockSize: nat, restartInterval: nat,
                     bloomBits: nat, bloomHashes: nat, ghost reg: Registry)
    returns (file: Bytes, meta: TableMeta, keysIn: nat, keysOut: nat, keysDropped: nat, ghost w: StoredTable)
    requires AllWritten(h, reg) && AllOpened(h, tables, disk, reg) && AllRegistered(tables, reg)
    requires InputsHaveRoom(EntryLists(tables, reg), blockSize)
    requires 0 < bloomBits < U64 && bloomBits % 8 == 0 && 1 <= bloomHashes < U32
    ensures WellWritten(h, id, w) && w.file == file && meta == MetaOf(id, w.es, |file|)
    ensures ToMap(w.es) == MergeAll(MapsOf(tables, reg))
    ensures keysIn == TotalLength(EntryLists(tables, reg)) && keysOut == |w.es| && keysOut + keysDropped == keysIn
  {
    var streams := ScanAll(h, tables, disk, reg);
    ghost var ls := EntryLists(tables, reg);
    StreamsAreLists(streams, tables, reg);
    ListsAreSorted(h, tables, reg);
    MergeIsMergeAll(ls);
    MergedHasRoom(ls, blockSize);
    MergedLength(ls);
    var merged, kept := MergeSources(streams);
    ghost var l;
    file, meta, l := WriteTable(h, id, merged.value, blockSize, restartInterval, bloomBits, bloomHashes);
    w := StoredTable(file, merged.value, l);
    WrittenIsWell(h, file, meta, merged.value, l);
    keysIn := CountKeys(h, tables, reg);
    keysOut := |merged.value|;
    keysDropped := SaturatingSub(keysIn, keysOut);
  }

  /** keys_in, summed over the inputs' entry counts. */
  method CountKeys(h: Hashing, tables: seq<TableHandle>, ghost reg: Registry) returns (n: nat)
    requires AllRegistered(tables, reg) && forall i :: 0 <= i < |tables| ==> HandleOf(h, tables[i], reg[tables[i].id])
    ensures n == TotalLength(EntryLists(tables, reg))
  {
    n := 0;
    ghost var ls := EntryLists(tables, reg);
    for i := 0 to |tables|
      invariant n == TotalLength(ls[..i])
    {
      LengthSoFar(ls, i);
      n := n + tables[i].numEntries;
    }
    assert ls[..|tables|] == ls;
  }

  lemma {:induction false} LengthSoFar(ls: seq<seq<Entry>>, i: nat)
    requires i < |ls|
    ensures TotalLength(ls[..i + 1]) == TotalLength(ls[..i]) + |ls[i]|
  {
    assert ls[..i + 1][..i] == ls[..i];
  }

  // ---- log --------------------------------------------------------------------------------------

  /** The step system's segments are these files. */
  ghost predicate FilesOf(h: Hashing, wal: seq<Segment>, dir: seq<Wals.SegmentFile>) {
    |dir| == |wal| && forall i :: 0 <= i < |wal| ==>
      dir[i] == Wals.SegmentFile(wal[i].id, Wals.SegmentBytes(h, wal[i].records))
  }

  function RecordsOf(wal: seq<Segment>): (logs: seq<seq<Record>>)
    ensures |logs| == |wal| && forall i :: 0 <= i < |wal| ==> logs[i] == wal[i].records
  {
    seq(|wal|, i requires 0 <= i < |wal| => wal[i].records)
  }

  lemma {:induction false} SameLog(wal: seq<Segment>)
    ensures Wals.AllRecords(RecordsOf(wal)) == LogOf(wal)
  {
    if wal != [] {
      var n := |wal| - 1;
      SameLog(wal[..n]);
      assert RecordsOf(wal)[..n] == RecordsOf(wal[..n]);
    }
  }

  ghost predicate GoodSegments(wal: seq<Segment>) {
    && (forall i, j :: 0 <= i < j < |wal| ==> wal[i].id < wal[j].id)
    && forall i :: 0 <= i < |wal| ==> Wals.AllFit(wal[i].records) && Wals.AllAccepted(wal[i].records)
  }

  /** Recovering the files of a log whose every append was synced brings back, in order, exactly
      the records that LsmEngine::new replays. */
  lemma {:induction false} LogComesBack(h: Hashing, wal: seq<Segment>, dir: seq<Wals.SegmentFile>)
    requires FilesOf(h, wal, dir) && GoodSegments(wal)
    ensures Wals.RecoverAll(h, dir).records == LogOf(wal) && Wals.RecoverAll(h, dir).dir == dir
    ensures Wals.RecoverAll(h, dir).maxSeqNo == MaxSeqNo(LogOf(wal))
  {
    var logs := RecordsOf(wal);
    forall i | 0 <= i < |logs| ensures Wals.AllFit(logs[i]) && Wals.AllAccepted(logs[i]) {
      assert logs[i] == wal[i].records;
    }
    forall i | 0 <= i < |dir| ensures dir[i].bytes == Wals.SegmentBytes(h, logs[i]) {
      assert dir[i] == Wals.SegmentFile(wal[i].id, Wals.SegmentBytes(h, wal[i].records));
    }
    forall i, j | 0 <= i < j < |dir| ensures dir[i].id < dir[j].id {
      assert dir[i].id == wal[i].id && dir[j].id == wal[j].id;
    }
    Wals.WholeDirectory(h, dir, logs);
    SameLog(wal);
  }
}
