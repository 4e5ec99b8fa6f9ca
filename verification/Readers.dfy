/** Reading table files: opening, point lookups through the block cache, full scans. */
module Readers {
  import opened Entries
  import opened ByteSeqs
  import opened SortedLists
  import opened Memtables
  import opened Sealing
  import opened Blooms
  import opened Formats
  import opened Caches
  import B = Blocks
  import opened Tables

  // ---- opening ----------------------------------------------------------------------------

  datatype TableHandle = TableHandle(id: nat, fileSize: nat, minKey: Key, maxKey: Key, minSeqNo: nat, maxSeqNo: nat,
                                     numEntries: nat, indexOffset: nat, indexSize: nat, bloom: Filter)

  /** TableHandle::open. */
  function OpenTable(h: Hashing, file: Bytes, meta: TableMeta): Result<TableHandle> {
    match ReadFooter(h, file)
    case Err => Err
    case Ok(f) =>
      match ReadVerified(h, file, f.filterOffset, f.filterSize)
      case Err => Err
      case Ok(body) =>
        match Deserialize(body)
        case Err => Err
        case Ok(bloom) =>
          Ok(TableHandle(meta.id, |file|, meta.minKey, meta.maxKey, f.minSeqNo, f.maxSeqNo, f.numEntries,
                         f.indexOffset, f.indexSize, bloom))
  }

  /** A table as the writer left it: its file, its entries, and how they are laid out. */
  datatype StoredTable = StoredTable(file: Bytes, es: seq<Entry>, l: Layout)

  ghost predicate WellWritten(h: Hashing, id: nat, w: StoredTable) {
    IsTable(h, w.file, MetaOf(id, w.es, |w.file|), w.es, w.l) && Sorted(w.es)
  }

  function IndexOffset(h: Hashing, l: Layout): nat
    requires l.interval >= 1
  {
    |DataBytes(h, l.blocks, l.interval)| + |FilterBody(l.filter)| + 4
  }

  /** The handle that opening the table yields. */
  ghost predicate HandleOf(h: Hashing, t: TableHandle, w: StoredTable) {
    && w.l.interval >= 1
    && t.fileSize == |w.file| && t.minKey == FirstKey(w.es) && t.maxKey == LastKey(w.es)
    && t.numEntries == |w.es| && t.minSeqNo == MinSeqOrZero(w.es) && t.maxSeqNo == MaxSeq(w.es)
    && t.indexOffset == IndexOffset(h, w.l) && t.indexSize == |IndexBody(IndexOf(h, w.l.blocks, w.l.interval))| + 4
    && t.bloom == w.l.filter
  }

  /** The parts of a written file. */
  lemma FileParts(h: Hashing, id: nat, w: StoredTable)
    requires WellWritten(h, id, w)
    ensures var data := DataBytes(h, w.l.blocks, w.l.interval);
            && At(w.file, 0, data) && At(w.file, |data|, Seal(h, FilterBody(w.l.filter)))
            && At(w.file, IndexOffset(h, w.l), Seal(h, IndexBody(IndexOf(h, w.l.blocks, w.l.interval))))
            && ReadFooter(h, w.file) == Ok(FooterOf(h, w.l.blocks, w.l.interval, w.l.filter))
  {
    var data, filter := DataBytes(h, w.l.blocks, w.l.interval), Seal(h, FilterBody(w.l.filter));
    var index := Seal(h, IndexBody(IndexOf(h, w.l.blocks, w.l.interval)));
    var f := FooterOf(h, w.l.blocks, w.l.interval, w.l.filter);
    FooterRoundTrip(h, data + filter + index, f);
    ThreeParts(data, filter, index, FooterBytes(h, f));
  }

  lemma ThreeParts(a: Bytes, b: Bytes, c: Bytes, rest: Bytes)
    ensures var file := a + b + c + rest; At(file, 0, a) && At(file, |a|, b) && At(file, |a| + |b|, c)
  {
    AtSelf(a + b, c, rest);
    AtSelf(a, b, c + rest);
    assert a + b + (c + rest) == a + b + c + rest;
    AtSelf([], a, b + c + rest);
    assert [] + a + (b + c + rest) == a + b + c + rest;
  }

  /** Opening a written table succeeds and knows everything about it. */
  lemma OpenWritten(h: Hashing, id: nat, w: StoredTable)
    requires WellWritten(h, id, w)
    ensures var r := OpenTable(h, w.file, MetaOf(id, w.es, |w.file|));
            r.Ok? && r.value.id == id && HandleOf(h, r.value, w)
  {
    FileParts(h, id, w);
    var data := DataBytes(h, w.l.blocks, w.l.interval);
    VerifiedExactly(h, w.file, |data|, |FilterBody(w.l.filter)| + 4, FilterBody(w.l.filter));
    FilterRoundTrip(w.l.filter);
  }

  // ---- blocks on disk -------------------------------------------------------------------------

  lemma BlockReads(h: Hashing, id: nat, w: StoredTable, b: nat)
    requires WellWritten(h, id, w) && b < |w.l.blocks|
    ensures var row := IndexRow(h, w.l.blocks, w.l.interval, b);
            ReadVerified(h, w.file, row.offset, row.length) == Ok(B.BlockBody(w.l.blocks[b], w.l.interval))
  {
    var bs := BlockBytes(h, w.l.blocks, w.l.interval);
    var row, body := IndexRow(h, w.l.blocks, w.l.interval, b), B.BlockBody(w.l.blocks[b], w.l.interval);
    FileParts(h, id, w);
    JoinedPlace(bs, |bs|, b);
    AtPart(w.file, DataBytes(h, w.l.blocks, w.l.interval), row.offset, bs[b]);
    VerifiedExactly(h, w.file, row.offset, row.length, body);
  }

  lemma OffsetStep(h: Hashing, l: Layout, b: nat)
    requires l.interval >= 1 && b < |l.blocks|
    ensures BlockOffset(h, l.blocks, l.interval, b + 1) >= BlockOffset(h, l.blocks, l.interval, b) + 4
    ensures BlockOffset(h, l.blocks, l.interval, b + 1) < IndexOffset(h, l)
  {
    var bs := BlockBytes(h, l.blocks, l.interval);
    JoinedPlace(bs, |bs|, b);
  }

  lemma AtPart(file: Bytes, data: Bytes, pos: nat, e: Bytes)
    requires At(file, 0, data) && At(data, pos, e)
    ensures At(file, pos, e)
  {
    assert file[0..|data|] == data;
    assert file[pos..pos + |e|] == file[0..|data|][pos..pos + |e|];
  }

  lemma IndexReads(h: Hashing, id: nat, w: StoredTable)
    requires WellWritten(h, id, w)
    ensures var ixs := IndexOf(h, w.l.blocks, w.l.interval);
            && ReadVerified(h, w.file, IndexOffset(h, w.l), |IndexBody(ixs)| + 4) == Ok(IndexBody(ixs))
            && ParseIndex(IndexBody(ixs)) == Ok(ixs)
  {
    var ixs := IndexOf(h, w.l.blocks, w.l.interval);
    FileParts(h, id, w);
    VerifiedExactly(h, w.file, IndexOffset(h, w.l), |IndexBody(ixs)| + 4, IndexBody(ixs));
    IndexFits(h, w.l.blocks, w.l.interval);
    IndexRoundTrip(ixs);
  }

  // ---- what the cache may hold ------------------------------------------------------------------

  /** bytes is what stands at offset of the table: its index, or one of its blocks. */
  ghost predicate PieceOf(h: Hashing, w: StoredTable, offset: nat, bytes: Bytes)
    requires w.l.interval >= 1
  {
    || (offset == IndexOffset(h, w.l) && bytes == IndexBody(IndexOf(h, w.l.blocks, w.l.interval)))
    || exists b :: IsBlockPiece(h, w, offset, bytes, b)
  }

  ghost predicate IsBlockPiece(h: Hashing, w: StoredTable, offset: nat, bytes: Bytes, b: nat)
    requires w.l.interval >= 1
  {
    && b < |w.l.blocks| && offset == BlockOffset(h, w.l.blocks, w.l.interval, b)
    && bytes == B.BlockBody(w.l.blocks[b], w.l.interval)
  }

  /** The open tables by id; ids are never reused. */
  type Registry = map<nat, StoredTable>

  ghost predicate AllWritten(h: Hashing, reg: Registry) {
    forall id :: id in reg ==> WellWritten(h, id, reg[id])
  }

  /** Whatever is cached for an open table is what its file holds there. */
  ghost predicate Coherent(h: Hashing, cached: CachedBlocks, reg: Registry) {
    && AllWritten(h, reg)
    && forall k :: k in cached && k.tableId in reg ==> CoherentAt(h, cached, reg, k)
  }

  ghost predicate CoherentAt(h: Hashing, cached: CachedBlocks, reg: Registry, k: BlockKey)
    requires k in cached && k.tableId in reg
  {
    reg[k.tableId].l.interval >= 1 && PieceOf(h, reg[k.tableId], k.offset, cached[k])
  }

  lemma OffsetsApart(h: Hashing, l: Layout, b: nat, c: nat)
    requires l.interval >= 1 && b < c <= |l.blocks|
    ensures BlockOffset(h, l.blocks, l.interval, b) < BlockOffset(h, l.blocks, l.interval, c)
  {
    JoinedGrows(BlockBytes(h, l.blocks, l.interval), b, c);
  }

  lemma BlockApart(h: Hashing, id: nat, w: StoredTable, offset: nat, x: Bytes, b: nat)
    requires WellWritten(h, id, w) && IsBlockPiece(h, w, offset, x, b)
    ensures offset < IndexOffset(h, w.l)
  {
    OffsetStep(h, w.l, b);
  }

  lemma OneBlockThere(h: Hashing, id: nat, w: StoredTable, offset: nat, x: Bytes, b: nat, y: Bytes, c: nat)
    requires WellWritten(h, id, w) && IsBlockPiece(h, w, offset, x, b) && IsBlockPiece(h, w, offset, y, c)
    ensures b == c
  {
    if b < c {
      OffsetsApart(h, w.l, b, c);
    } else if c < b {
      OffsetsApart(h, w.l, c, b);
    }
  }

  /** What a block's place holds is that block, even among cached pieces. */
  lemma PieceIsBlock(h: Hashing, id: nat, w: StoredTable, b: nat, x: Bytes)
    requires WellWritten(h, id, w) && b < |w.l.blocks|
    requires PieceOf(h, w, BlockOffset(h, w.l.blocks, w.l.interval, b), x)
    ensures x == B.BlockBody(w.l.blocks[b], w.l.interval)
  {
    var offset, body := BlockOffset(h, w.l.blocks, w.l.interval, b), B.BlockBody(w.l.blocks[b], w.l.interval);
    BlockApart(h, id, w, offset, body, b);
    var c: nat :| IsBlockPiece(h, w, offset, x, c);
    OneBlockThere(h, id, w, offset, body, b, x, c);
  }

  /** The index key never collides with a data block's. */
  lemma PieceIsIndex(h: Hashing, id: nat, w: StoredTable, x: Bytes)
    requires WellWritten(h, id, w) && PieceOf(h, w, IndexOffset(h, w.l), x)
    ensures x == IndexBody(IndexOf(h, w.l.blocks, w.l.interval))
  {
    forall b: nat | IsBlockPiece(h, w, IndexOffset(h, w.l), x, b) ensures false {
      BlockApart(h, id, w, IndexOffset(h, w.l), x, b);
    }
  }

  lemma InsertCoherent(h: Hashing, cached: CachedBlocks, reg: Registry, key: BlockKey, bytes: Bytes,
                       order: seq<BlockKey>)
    requires Coherent(h, cached, reg)
    requires key.tableId in reg ==> reg[key.tableId].l.interval >= 1 && PieceOf(h, reg[key.tableId], key.offset, bytes)
    ensures Coherent(h, Restricted(cached[key := bytes], order), reg)
  {
    var after := Restricted(cached[key := bytes], order);
    forall k | k in after && k.tableId in reg ensures CoherentAt(h, after, reg, k) {
      assert WellWritten(h, k.tableId, reg[k.tableId]);
      if k != key {
        assert CoherentAt(h, cached, reg, k);
      }
    }
  }

  // ---- which block holds a key --------------------------------------------------------------------

  /** partition_point(first_key <= key) on rows in key order. */
  function PartitionPoint(ixs: seq<IndexEntry>, key: Key): (p: nat)
    ensures p <= |ixs|
  {
    if ixs == [] || !AtMost(ixs[0].firstKey, key) then 0 else 1 + PartitionPoint(ixs[1..], key)
  }

  lemma {:induction false} PartitionAt(ixs: seq<IndexEntry>, key: Key, p: nat)
    requires p == PartitionPoint(ixs, key)
    ensures p > 0 ==> AtMost(ixs[p - 1].firstKey, key)
    ensures p < |ixs| ==> !AtMost(ixs[p].firstKey, key)
  {
    if p > 0 {
      PartitionAt(ixs[1..], key, p - 1);
    }
  }

  /** find_block_for_key: the last block that starts at or before key. */
  function FindBlockForKey(ixs: seq<IndexEntry>, key: Key): Option<IndexEntry> {
    var idx := PartitionPoint(ixs, key);
    if idx == 0 then None else Some(ixs[idx - 1])
  }

  lemma {:induction false} ConcatSplit(a: seq<seq<Entry>>, b: seq<seq<Entry>>)
    ensures Concat(a + b) == Concat(a) + Concat(b)
  {
    if b == [] {
      assert a + b == a;
    } else {
      var n := |b| - 1;
      assert (a + b)[..|a + b| - 1] == a + b[..n];
      ConcatSplit(a, b[..n]);
      assert Concat(a) + Concat(b[..n]) + b[n] == Concat(a) + (Concat(b[..n]) + b[n]);
    }
  }

  lemma ConcatOne(es: seq<Entry>)
    ensures Concat([es]) == es
  {
    assert [es][..0] == [];
  }

  lemma SplitAt<T>(xs: seq<T>, b: nat)
    requires b < |xs|
    ensures xs == xs[..b] + ([xs[b]] + xs[b + 1..])
  {
  }

  lemma {:induction false} ConcatAround(blocks: seq<seq<Entry>>, b: nat)
    requires b < |blocks|
    ensures Concat(blocks) == Concat(blocks[..b]) + (blocks[b] + Concat(blocks[b + 1..]))
  {
    SplitAt(blocks, b);
    var rest := [blocks[b]] + blocks[b + 1..];
    ConcatSplit(blocks[..b], rest);
    ConcatSplit([blocks[b]], blocks[b + 1..]);
    ConcatOne(blocks[b]);
  }

  lemma {:induction false} FindConcat(a: seq<Entry>, b: seq<Entry>, key: Key)
    ensures Find(a + b, key) == if Find(a, key).Some? then Find(a, key) else Find(b, key)
  {
    if a == [] {
      assert a + b == b;
    } else {
      assert (a + b)[1..] == a[1..] + b;
      FindConcat(a[1..], b, key);
    }
  }

  lemma {:induction false} FindNone(es: seq<Entry>, key: Key)
    requires forall i :: 0 <= i < |es| ==> es[i].key != key
    ensures Find(es, key) == None
  {
    if es != [] {
      FindNone(es[1..], key);
    }
  }

  /** Entries in front of a key at most key are too small for it. */
  lemma {:induction false} FrontMisses(front: seq<Entry>, rest: seq<Entry>, key: Key)
    requires Sorted(front + rest) && rest != [] && AtMost(rest[0].key, key)
    ensures Find(front, key) == None
  {
    var es := front + rest;
    forall i | 0 <= i < |front| ensures front[i].key != key {
      assert es[i] == front[i] && es[|front|] == rest[0];
      B.BelowAtMost(front[i].key, rest[0].key, key);
      LessTotal(key, key);
    }
    FindNone(front, key);
  }

  lemma AboveKey(a: Key, b: Key, key: Key)
    requires !AtMost(a, key) && AtMost(a, b)
    ensures b != key
  {
  }

  /** Entries from one too large on are too large. */
  lemma {:induction false} BackMisses(front: seq<Entry>, back: seq<Entry>, key: Key)
    requires Sorted(front + back) && (back != [] ==> !AtMost(back[0].key, key))
    ensures Find(back, key) == None
  {
    var es := front + back;
    forall i | 0 <= i < |back| ensures back[i].key != key {
      assert es[|front|] == back[0] && es[|front| + i] == back[i];
      AboveKey(back[0].key, back[i].key, key);
    }
    FindNone(back, key);
  }

  lemma {:induction false} FirstOfConcat(blocks: seq<seq<Entry>>)
    requires NoEmptyBlock(blocks) && blocks != []
    ensures Concat(blocks) != [] && Concat(blocks)[0].key == FirstKey(blocks[0])
  {
    ConcatAround(blocks, 0);
    assert blocks[..0] == [] && blocks[0] != [];
  }

  lemma SortedParts(front: seq<Entry>, mid: seq<Entry>, back: seq<Entry>)
    requires Sorted(front + (mid + back))
    ensures Sorted(mid) && Sorted(front + mid + back)
  {
    var es := front + (mid + back);
    assert front + mid + back == es;
    forall i, j | 0 <= i < j < |mid| ensures Less(mid[i].key, mid[j].key) {
      assert es[|front| + i] == mid[i] && es[|front| + j] == mid[j];
    }
  }

  /** Only the block that the index names can hold the key. */
  lemma {:induction false} IndexedBlock(blocks: seq<seq<Entry>>, p: nat, key: Key)
    requires NoEmptyBlock(blocks) && Sorted(Concat(blocks)) && p <= |blocks|
    requires p > 0 ==> AtMost(FirstKey(blocks[p - 1]), key)
    requires p < |blocks| ==> !AtMost(FirstKey(blocks[p]), key)
    ensures p == 0 ==> Find(Concat(blocks), key) == None
    ensures p > 0 ==> Find(Concat(blocks), key) == Find(blocks[p - 1], key) && Sorted(blocks[p - 1])
  {
    if p == 0 {
      if blocks != [] {
        FirstOfConcat(blocks);
      }
      assert [] + Concat(blocks) == Concat(blocks);
      BackMisses([], Concat(blocks), key);
    } else {
      var front, mid, back := Concat(blocks[..p - 1]), blocks[p - 1], Concat(blocks[p..]);
      ConcatAround(blocks, p - 1);
      SortedParts(front, mid, back);
      assert mid != [];
      FrontMisses(front, mid + back, key);
      if p < |blocks| {
        assert NoEmptyBlock(blocks[p..]);
        FirstOfConcat(blocks[p..]);
      }
      BackMisses(front + mid, back, key);
      FindConcat(front, mid + back, key);
      FindConcat(mid, back, key);
    }
  }

  /** A key outside the table's range is not in it. */
  lemma {:induction false} OutOfRange(es: seq<Entry>, key: Key)
    requires Sorted(es) && (Less(key, FirstKey(es)) || Less(LastKey(es), key))
    ensures Find(es, key) == None
  {
    forall i | 0 <= i < |es| ensures es[i].key != key {
      LessTotal(key, FirstKey(es));
      LessTotal(key, LastKey(es));
      assert i > 0 ==> Less(es[0].key, es[i].key);
      assert i < |es| - 1 ==> Less(es[i].key, es[|es| - 1].key);
      if es[i].key == key {
        LessTotal(FirstKey(es), key);
      }
    }
    FindNone(es, key);
  }

  lemma {:induction false} NotAKey(es: seq<Entry>, key: Key)
    requires key !in KeySet(es)
    ensures Find(es, key) == None
  {
    forall i | 0 <= i < |es| ensures es[i].key != key {
      assert HasKey(es, es[i].key);
    }
    FindNone(es, key);
  }

  // ---- loading blocks -------------------------------------------------------------------------------

  type Disk = map<nat, Bytes>

  /** read_block_from_disk: an error if the file is gone, or its bytes do not verify. */
  function ReadBlockFromDisk(h: Hashing, t: TableHandle, disk: Disk, offset: nat, size: nat): Result<Bytes> {
    if t.id !in disk then Err else ReadVerified(h, disk[t.id], offset, size)
  }

  /** If the table is one the registry knows, the handle and the file are the registered ones. */
  ghost predicate Opened(h: Hashing, t: TableHandle, disk: Disk, reg: Registry) {
    t.id in reg ==> t.id in disk && disk[t.id] == reg[t.id].file && HandleOf(h, t, reg[t.id])
  }

  ghost predicate CacheOk(h: Hashing, cache: BlockCache, reg: Registry)
    reads cache
  {
    cache.Valid() && Coherent(h, cache.entries, reg)
  }

  method LoadIndexBlock(h: Hashing, t: TableHandle, disk: Disk, cache: BlockCache, cacheIndexBlocks: bool,
                        ghost reg: Registry)
    returns (r: Result<seq<IndexEntry>>)
    requires CacheOk(h, cache, reg) && Opened(h, t, disk, reg)
    modifies cache
    ensures CacheOk(h, cache, reg)
    ensures t.id in reg ==> var l := reg[t.id].l; l.interval >= 1 && r == Ok(IndexOf(h, l.blocks, l.interval))
    ensures !cacheIndexBlocks || BlockKey(t.id, t.indexOffset) in old(cache.entries) || r.Err? ==>
              cache.entries == old(cache.entries)
    ensures cacheIndexBlocks && r.Ok? && t.indexSize <= cache.capacityBytes ==>
              BlockKey(t.id, t.indexOffset) in cache.entries
  {
    var cacheKey := BlockKey(t.id, t.indexOffset);
    if t.id in reg {
      IndexReads(h, t.id, reg[t.id]);
    }
    if cacheIndexBlocks {
      var hit := cache.Get(cacheKey);
      if hit.Some? {
        if t.id in reg {
          assert CoherentAt(h, cache.entries, reg, cacheKey);
          PieceIsIndex(h, t.id, reg[t.id], hit.value);
        }
        r := ParseIndexBlock(hit.value);
        return;
      }
    }
    var bytes := ReadBlockFromDisk(h, t, disk, t.indexOffset, t.indexSize);
    if bytes.Err? {
      return Err;
    }
    r := ParseIndexBlock(bytes.value);
    if r.Ok? && cacheIndexBlocks {
      CacheBlock(h, cache, cacheKey, bytes.value, reg);
    }
  }

  method CacheBlock(h: Hashing, cache: BlockCache, key: BlockKey, bytes: Bytes, ghost reg: Registry)
    requires CacheOk(h, cache, reg)
    requires key.tableId in reg ==> reg[key.tableId].l.interval >= 1 && PieceOf(h, reg[key.tableId], key.offset, bytes)
    modifies cache
    ensures CacheOk(h, cache, reg)
    ensures |bytes| <= cache.capacityBytes ==> key in cache.entries && cache.entries[key] == bytes
  {
    ghost var before := cache.entries;
    ghost var full := Touched(cache.order, key);
    cache.Insert(key, bytes);
    InsertCoherent(h, before, reg, key, bytes, cache.order);
    if |bytes| <= cache.capacityBytes {
      NewestStays(before[key := bytes], full, cache.capacityBytes, key);
    }
  }

  /** offset and length are those of the index row for data block b. */
  ghost predicate IsRow(h: Hashing, w: StoredTable, offset: nat, length: nat, b: nat) {
    && w.l.interval >= 1 && b < |w.l.blocks| && offset == BlockOffset(h, w.l.blocks, w.l.interval, b)
    && length == |B.BlockBody(w.l.blocks[b], w.l.interval)| + 4
  }

  /** A data block, from the cache or from disk: the same bytes either way. */
  method LoadDataBlock(h: Hashing, t: TableHandle, disk: Disk, offset: nat, length: nat, cache: BlockCache,
                       ghost reg: Registry, ghost b: nat)
    returns (r: Result<Bytes>)
    requires CacheOk(h, cache, reg) && Opened(h, t, disk, reg)
    requires t.id in reg ==> IsRow(h, reg[t.id], offset, length, b)
    modifies cache
    ensures CacheOk(h, cache, reg)
    ensures t.id in reg ==> r == Ok(B.BlockBody(reg[t.id].l.blocks[b], reg[t.id].l.interval))
    ensures var k := BlockKey(t.id, offset);
            && (k in old(cache.entries) ==> r == Ok(old(cache.entries)[k]) && cache.entries == old(cache.entries))
            && (r.Ok? && |r.value| <= cache.capacityBytes ==> k in cache.entries && cache.entries[k] == r.value)
            && (r.Err? ==> cache.entries == old(cache.entries))
  {
    var cacheKey := BlockKey(t.id, offset);
    var hit := cache.Get(cacheKey);
    if hit.Some? {
      if t.id in reg {
        assert CoherentAt(h, cache.entries, reg, cacheKey);
        PieceIsBlock(h, t.id, reg[t.id], b, hit.value);
      }
      return Ok(hit.value);
    }
    r := ReadBlockFromDisk(h, t, disk, offset, length);
    if t.id in reg {
      BlockReads(h, t.id, reg[t.id], b);
    }
    if r.Ok? {
      assert t.id in reg ==> IsBlockPiece(h, reg[t.id], offset, r.value, b);
      CacheBlock(h, cache, cacheKey, r.value, reg);
    }
  }

  // ---- point lookups ------------------------------------------------------------------------------

  /** What a lookup answers when it ends at this entry, or at none. */
  function AnswerOf(e: Option<Entry>): (r: Lookup)
    ensures r == NotFound <==> e.None?
    ensures r == Tombstone <==> e.Some? && e.value.value.None?
    ensures forall v :: r == Found(v) <==> e.Some? && e.value.value == Some(v)
  {
    if e.None? then NotFound
    else if e.value.value.None? then Tombstone
    else Found(e.value.value.value)
  }

  lemma {:induction false} RangeOrFilter(h: Hashing, id: nat, w: StoredTable, key: Key)
    requires WellWritten(h, id, w)
    ensures Less(key, FirstKey(w.es)) || Less(LastKey(w.es), key) ==> Find(w.es, key) == None
    ensures !MayContain(h, w.l.filter, key) ==> Find(w.es, key) == None
  {
    if Less(key, FirstKey(w.es)) || Less(LastKey(w.es), key) {
      OutOfRange(w.es, key);
    }
    if key in KeySet(w.es) {
      NoFalseNegative(h, w.l.filter, KeySet(w.es), key);
    } else {
      NotAKey(w.es, key);
    }
  }

  lemma NoneEmpty(blocks: seq<seq<Entry>>, interval: nat)
    requires BlocksFit(blocks, interval)
    ensures NoEmptyBlock(blocks)
  {
    forall b | 0 <= b < |blocks| ensures blocks[b] != [] {
      assert BlockFits(blocks[b], interval);
    }
  }

  lemma {:induction false} RowKeys(h: Hashing, blocks: seq<seq<Entry>>, interval: nat, key: Key, p: nat)
    requires interval >= 1 && p == PartitionPoint(IndexOf(h, blocks, interval), key)
    ensures p <= |blocks| && (p > 0 ==> AtMost(FirstKey(blocks[p - 1]), key))
    ensures p < |blocks| ==> !AtMost(FirstKey(blocks[p]), key)
  {
    PartitionAt(IndexOf(h, blocks, interval), key, p);
  }

  /** The key is in block b, or nowhere. */
  ghost predicate OnlyIn(w: StoredTable, key: Key, b: nat) {
    b < |w.l.blocks| && Find(w.es, key) == Find(w.l.blocks[b], key) && Sorted(w.l.blocks[b])
  }

  /** Without a row the key is nowhere; else the row is that of the one block it can be in. */
  ghost predicate RowFound(h: Hashing, w: StoredTable, key: Key, row: Option<IndexEntry>, p: nat) {
    if row.None? then Find(w.es, key) == None
    else p > 0 && OnlyIn(w, key, p - 1) && IsRow(h, w, row.value.offset, row.value.length, p - 1)
  }

  lemma {:induction false} FoundInBlock(h: Hashing, id: nat, w: StoredTable, key: Key, ixs: seq<IndexEntry>)
    requires WellWritten(h, id, w) && ixs == IndexOf(h, w.l.blocks, w.l.interval)
    ensures RowFound(h, w, key, FindBlockForKey(ixs, key), PartitionPoint(ixs, key))
  {
    var p := PartitionPoint(ixs, key);
    NoneEmpty(w.l.blocks, w.l.interval);
    RowKeys(h, w.l.blocks, w.l.interval, key, p);
    FoundInRow(h, w, key, p, FindBlockForKey(ixs, key));
  }

  lemma FoundInRow(h: Hashing, w: StoredTable, key: Key, p: nat, row: Option<IndexEntry>)
    requires w.l.interval >= 1 && p <= |w.l.blocks|
    requires p > 0 ==> AtMost(FirstKey(w.l.blocks[p - 1]), key)
    requires p < |w.l.blocks| ==> !AtMost(FirstKey(w.l.blocks[p]), key)
    requires row == if p == 0 then None else Some(IndexRow(h, w.l.blocks, w.l.interval, p - 1))
    requires NoEmptyBlock(w.l.blocks) && Concat(w.l.blocks) == w.es && Sorted(w.es)
    ensures RowFound(h, w, key, row, p)
  {
    IndexedBlock(w.l.blocks, p, key);
  }

  lemma BlockIsBlock(h: Hashing, id: nat, w: StoredTable, b: nat)
    requires WellWritten(h, id, w) && b < |w.l.blocks|
    ensures B.IsBlock(B.BlockBody(w.l.blocks[b], w.l.interval), w.l.blocks[b], w.l.interval)
  {
    assert BlockFits(w.l.blocks[b], w.l.interval);
  }

  /** The last two stages of lookup_in_table: block, entry. */
  method LookupInBlock(h: Hashing, t: TableHandle, disk: Disk, key: Key, offset: nat, length: nat, cache: BlockCache,
                       ghost reg: Registry, ghost b: nat)
    returns (r: Result<Lookup>)
    requires CacheOk(h, cache, reg) && Opened(h, t, disk, reg)
    requires t.id in reg ==> IsRow(h, reg[t.id], offset, length, b) && OnlyIn(reg[t.id], key, b)
    modifies cache
    ensures CacheOk(h, cache, reg)
    ensures t.id in reg ==> r == Ok(AnswerOf(Find(reg[t.id].es, key)))
  {
    var block := LoadDataBlock(h, t, disk, offset, length, cache, reg, b);
    if block.Err? {
      return Err;
    }
    if t.id in reg {
      BlockIsBlock(h, t.id, reg[t.id], b);
    }
    var entry := B.SearchDataBlock(block.value, key);
    r := match entry case Err => Err case Ok(e) => Ok(AnswerOf(e));
  }

  method LookupAtRow(h: Hashing, t: TableHandle, disk: Disk, key: Key, row: Option<IndexEntry>, cache: BlockCache,
                     ghost reg: Registry, ghost p: nat)
    returns (r: Result<Lookup>)
    requires CacheOk(h, cache, reg) && Opened(h, t, disk, reg)
    requires t.id in reg ==> RowFound(h, reg[t.id], key, row, p)
    modifies cache
    ensures CacheOk(h, cache, reg)
    ensures t.id in reg ==> r == Ok(AnswerOf(Find(reg[t.id].es, key)))
  {
    if row.None? {
      return Ok(NotFound);
    }
    ghost var b: nat := if p > 0 then p - 1 else 0;
    r := LookupInBlock(h, t, disk, key, row.value.offset, row.value.length, cache, reg, b);
  }

  /** The last three stages of lookup_in_table: index, block, entry. */
  method LookupThroughIndex(h: Hashing, t: TableHandle, disk: Disk, key: Key, cache: BlockCache, cacheIndexBlocks: bool,
                            ghost reg: Registry)
    returns (r: Result<Lookup>)
    requires CacheOk(h, cache, reg) && Opened(h, t, disk, reg)
    modifies cache
    ensures CacheOk(h, cache, reg)
    ensures t.id in reg ==> r == Ok(AnswerOf(Find(reg[t.id].es, key)))
  {
    var index := LoadIndexBlock(h, t, disk, cache, cacheIndexBlocks, reg);
    if index.Err? {
      return Err;
    }
    if t.id in reg {
      FoundInBlock(h, t.id, reg[t.id], key, index.value);
    }
    var row := FindBlockForKey(index.value, key);
    r := LookupAtRow(h, t, disk, key, row, cache, reg, PartitionPoint(index.value, key));
  }

  /** lookup_in_table: range check, Bloom filter, index, block. For a table the writer made the
      answer is exactly what a search of its entry list finds, whatever the cache holds. */
  method LookupInTable(h: Hashing, t: TableHandle, disk: Disk, key: Key, cache: BlockCache, cacheIndexBlocks: bool,
                       ghost reg: Registry)
    returns (r: Result<Lookup>)
    requires CacheOk(h, cache, reg) && Opened(h, t, disk, reg) && 0 < t.bloom.numBits <= 8 * |t.bloom.bits|
    modifies cache
    ensures CacheOk(h, cache, reg)
    ensures t.id in reg ==> r == Ok(AnswerOf(Find(reg[t.id].es, key)))
  {
    if t.id in reg {
      RangeOrFilter(h, t.id, reg[t.id], key);
    }
    if Less(key, t.minKey) || Less(t.maxKey, key) {
      return Ok(NotFound);
    }
    if !MayContain(h, t.bloom, key) {
      return Ok(NotFound);
    }
    r := LookupThroughIndex(h, t, disk, key, cache, cacheIndexBlocks, reg);
  }
}
