/** Walking tables: newest to oldest for one key, and one table from end to end. */
module Scans {
  import opened Entries
  import opened ByteSeqs
  import opened SortedLists
  import opened Memtables
  import opened Levels
  import opened Sealing
  import opened Formats
  import opened Caches
  import B = Blocks
  import opened Tables
  import opened Readers

  // ---- search_sstables ------------------------------------------------------------------------

  ghost predicate AllOpened(h: Hashing, tables: seq<TableHandle>, disk: Disk, reg: Registry) {
    forall i :: 0 <= i < |tables| ==>
      Opened(h, tables[i], disk, reg) && 0 < tables[i].bloom.numBits <= 8 * |tables[i].bloom.bits|
  }

  ghost predicate AllRegistered(tables: seq<TableHandle>, reg: Registry) {
    forall i :: 0 <= i < |tables| ==> tables[i].id in reg
  }

  /** The contents of the tables, as maps. */
  function MapsOf(tables: seq<TableHandle>, reg: Registry): (ms: seq<Mem>)
    requires AllRegistered(tables, reg)
    ensures |ms| == |tables| && forall i :: 0 <= i < |tables| ==> ms[i] == ToMap(reg[tables[i].id].es)
  {
    seq(|tables|, i requires 0 <= i < |tables| => ToMap(reg[tables[i].id].es))
  }

  /** What a table's entry list answers is what its map holds. */
  lemma {:induction false} AnswerIsGet(es: seq<Entry>, key: Key)
    requires Sorted(es)
    ensures AnswerOf(Find(es, key)) == ToLookup(Get(ToMap(es), key))
  {
    FindIsGet(es, key);
  }

  /** search_sstables: the first table that knows the key answers. On registered tables this is
      the first hit over their maps, which is what the engine's steps are stated in. */
  method SearchTables(h: Hashing, tables: seq<TableHandle>, disk: Disk, key: Key, cache: BlockCache,
                      cacheIndexBlocks: bool,
                      ghost reg: Registry)
    returns (r: Result<Lookup>)
    requires CacheOk(h, cache, reg) && AllOpened(h, tables, disk, reg)
    modifies cache
    ensures CacheOk(h, cache, reg)
    ensures AllRegistered(tables, reg) ==> r == Ok(ToLookup(FirstHit(MapsOf(tables, reg), key)))
  {
    assert AllRegistered(tables, reg) ==> StillOpen(MapsOf(tables, reg), 0, key) by {
      AllLevels(if AllRegistered(tables, reg) then MapsOf(tables, reg) else []);
    }
    for i := 0 to |tables|
      invariant CacheOk(h, cache, reg)
      invariant AllRegistered(tables, reg) ==> StillOpen(MapsOf(tables, reg), i, key)
    {
      assert Opened(h, tables[i], disk, reg);
      var one := LookupInTable(h, tables[i], disk, key, cache, cacheIndexBlocks, reg);
      if AllRegistered(tables, reg) {
        assert WellWritten(h, tables[i].id, reg[tables[i].id]);
        OneTable(MapsOf(tables, reg), i, reg[tables[i].id].es, key);
      }
      if one != Ok(NotFound) {
        return one;
      }
    }
    r := Ok(NotFound);
  }

  lemma AllLevels(ms: seq<Mem>)
    ensures ms[0..] == ms && ms[|ms|..] == []
  {
  }

  /** No level in front of i knows the key. */
  ghost predicate StillOpen(ms: seq<Mem>, i: nat, key: Key) {
    i <= |ms| && FirstHit(ms, key) == FirstHit(ms[i..], key)
  }

  lemma {:induction false} OneTable(ms: seq<Mem>, i: nat, es: seq<Entry>, key: Key)
    requires i < |ms| && StillOpen(ms, i, key) && Sorted(es) && ms[i] == ToMap(es)
    ensures AnswerOf(Find(es, key)) == NotFound ==> StillOpen(ms, i + 1, key)
    ensures AnswerOf(Find(es, key)) != NotFound ==> AnswerOf(Find(es, key)) == ToLookup(FirstHit(ms, key))
  {
    AnswerIsGet(es, key);
    assert ms[i..][1..] == ms[i + 1..];
  }

  // ---- SsTableScanIterator ----------------------------------------------------------------------

  class SsTableScanIterator {
    const h: Hashing
    const file: Bytes
    const indexEntries: seq<IndexEntry>
    var nextIndexPos: nat
    var pending: seq<Entry>
    /** The table behind the file, if the writer made it. */
    ghost const id: nat
    ghost const source: Option<StoredTable>

    ghost predicate Valid()
      reads this
    {
      && nextIndexPos <= |indexEntries|
      && (source.Some? ==> WellWritten(h, id, source.value) && file == source.value.file
                           && indexEntries == IndexOf(h, source.value.l.blocks, source.value.l.interval))
    }

    /** The entries still to come. */
    ghost function Remaining(): seq<Entry>
      requires Valid() && source.Some?
      reads this
    {
      pending + Concat(source.value.l.blocks[nextIndexPos..])
    }

    constructor (hashing: Hashing, bytes: Bytes, rows: seq<IndexEntry>, ghost tableId: nat,
                 ghost from: Option<StoredTable>)
      requires from.Some? ==> WellWritten(hashing, tableId, from.value) && bytes == from.value.file
                              && rows == IndexOf(hashing, from.value.l.blocks, from.value.l.interval)
      ensures Valid() && h == hashing && file == bytes && indexEntries == rows && source == from && id == tableId
      ensures source.Some? ==> Remaining() == source.value.es
    {
      h, file, indexEntries, nextIndexPos, pending, id, source := hashing, bytes, rows, 0, [], tableId, from;
      new;
      if from.Some? {
        assert from.value.l.blocks[0..] == from.value.l.blocks;
        assert [] + from.value.es == from.value.es;
      }
    }

    /** load_next_block; false once every block was read. */
    method LoadNextBlock() returns (more: Result<bool>)
      requires Valid() && pending == []
      modifies this
      ensures Valid()
      ensures more == Ok(true) ==> nextIndexPos == old(nextIndexPos) + 1
      ensures more != Ok(true) ==> nextIndexPos == old(nextIndexPos) && pending == []
      ensures more == Ok(false) <==> old(nextIndexPos) == |indexEntries|
      ensures source.Some? ==> more.Ok? && Remaining() == old(Remaining())
    {
      if nextIndexPos >= |indexEntries| {
        return Ok(false);
      }
      var es := ReadBlock(nextIndexPos);
      if es.Err? {
        return Err;
      }
      if source.Some? {
        ConcatFrom(source.value.l.blocks, nextIndexPos);
      }
      pending := es.value;
      nextIndexPos := nextIndexPos + 1;
      more := Ok(true);
    }

    /** The entries of the block that index row b points to. */
    method ReadBlock(b: nat) returns (es: Result<seq<Entry>>)
      requires Valid() && b < |indexEntries|
      ensures source.Some? ==> es == Ok(source.value.l.blocks[b])
    {
      var row := indexEntries[b];
      if source.Some? {
        BlockComesBack(h, id, source.value, b);
      }
      var body := ReadVerified(h, file, row.offset, row.length);
      if body.Err? {
        return Err;
      }
      var parsed := B.ParseDataBlock(body.value);
      if parsed.Err? {
        return Err;
      }
      es := B.DecodeAll(parsed.value);
    }

    /** next: the first pending entry, after as many block loads as it takes. */
    method Next() returns (item: Option<Result<Entry>>)
      requires Valid()
      modifies this
      ensures Valid()
      ensures item.Some? && item.value.Ok? ==>
                nextIndexPos > old(nextIndexPos) || (nextIndexPos == old(nextIndexPos) && |pending| < |old(pending)|)
      ensures source.Some? ==>
                if old(Remaining()) == [] then item == None
                else item == Some(Ok(old(Remaining())[0])) && Remaining() == old(Remaining())[1..]
    {
      while true
        invariant Valid() && nextIndexPos >= old(nextIndexPos)
        invariant nextIndexPos == old(nextIndexPos) ==> pending == old(pending)
        invariant source.Some? ==> Remaining() == old(Remaining())
        decreases |indexEntries| - nextIndexPos
      {
        if pending != [] {
          var entry := pending[0];
          if source.Some? {
            FirstOfTwo(pending, Concat(source.value.l.blocks[nextIndexPos..]));
          }
          pending := pending[1..];
          return Some(Ok(entry));
        }
        var more := LoadNextBlock();
        match more {
          case Ok(true) =>
          case Ok(false) =>
            if source.Some? {
              assert source.value.l.blocks[nextIndexPos..] == [];
            }
            return None;
          case Err =>
            return Some(Err);
        }
      }
    }
  }

  lemma FirstOfTwo<T>(a: seq<T>, b: seq<T>)
    requires a != []
    ensures (a + b)[0] == a[0] && (a + b)[1..] == a[1..] + b
  {
  }

  lemma BlockDecodes(body: Bytes, es: seq<Entry>, interval: nat)
    requires B.IsBlock(body, es, interval)
    ensures B.ParseBlock(body).Ok? && B.DecodeFrom(B.ParseBlock(body).value.entriesBuf, 0, []) == Ok(es)
  {
    B.ParseBuilt(body, es, interval);
    B.BlockRoundTrip(es, interval);
  }

  lemma ConcatFrom(blocks: seq<seq<Entry>>, b: nat)
    requires b < |blocks|
    ensures [] + Concat(blocks[b..]) == blocks[b] + Concat(blocks[b + 1..])
  {
    assert blocks[b..] == [blocks[b]] + blocks[b + 1..];
    ConcatSplit([blocks[b]], blocks[b + 1..]);
    ConcatOne(blocks[b]);
  }

  lemma BlockComesBack(h: Hashing, id: nat, w: StoredTable, b: nat)
    requires WellWritten(h, id, w) && b < |w.l.blocks|
    ensures var row := IndexRow(h, w.l.blocks, w.l.interval, b);
            var body := B.BlockBody(w.l.blocks[b], w.l.interval);
            && ReadVerified(h, w.file, row.offset, row.length) == Ok(body)
            && B.ParseBlock(body).Ok? && B.DecodeFrom(B.ParseBlock(body).value.entriesBuf, 0, []) == Ok(w.l.blocks[b])
  {
    BlockReads(h, id, w, b);
    BlockIsBlock(h, id, w, b);
    BlockDecodes(B.BlockBody(w.l.blocks[b], w.l.interval), w.l.blocks[b], w.l.interval);
  }

  /** SsTableScanIterator::open, past the index. */
  method OpenScan(h: Hashing, t: TableHandle, disk: Disk, ghost reg: Registry) returns (r: Result<SsTableScanIterator>)
    requires AllWritten(h, reg) && Opened(h, t, disk, reg)
    ensures r.Ok? ==>
              (fresh(r.value) && r.value.Valid()
              && r.value.source == if t.id in reg then Some(reg[t.id]) else None)
    ensures t.id in reg ==> r.Ok? && r.value.Remaining() == reg[t.id].es
  {
    if t.id !in disk {
      return Err;
    }
    if t.id in reg {
      IndexReads(h, t.id, reg[t.id]);
    }
    var body := ReadVerified(h, disk[t.id], t.indexOffset, t.indexSize);
    if body.Err? {
      return Err;
    }
    var rows := ParseIndexBlock(body.value);
    if rows.Err? {
      return Err;
    }
    var it := new SsTableScanIterator(h, disk[t.id], rows.value, t.id, if t.id in reg then Some(reg[t.id]) else None);
    r := Ok(it);
  }

  /** What an iterator yields up to its end or its first error. */
  method Drain(it: SsTableScanIterator) returns (items: seq<Result<Entry>>)
    requires it.Valid()
    modifies it
    ensures it.source.Some? ==> items == AllOk(old(it.Remaining()))
    ensures ErrorsLast(items)
  {
    items := [];
    ghost var all := if it.source.Some? then it.Remaining() else [];
    ghost var rest := all;
    NothingScanned(all);
    while true
      invariant it.Valid() && NoErrors(items)
      invariant it.source.Some? ==> rest == it.Remaining() && Scanned(items, rest, all)
      decreases |it.indexEntries| - it.nextIndexPos, |it.pending|
    {
      if it.source.Some? {
        ScanOne(items, rest, all);
      }
      var item := it.Next();
      rest := if rest == [] then [] else rest[1..];
      if item.None? {
        return;
      }
      if item.value.Err? {
        items := items + [Err];
        return;
      }
      items := items + [item.value];
    }
  }

  /** A scan of a table. For a written table it yields exactly the writer's input. */
  method ScanTable(h: Hashing, t: TableHandle, disk: Disk, ghost reg: Registry) returns (items: seq<Result<Entry>>)
    requires AllWritten(h, reg) && Opened(h, t, disk, reg)
    ensures t.id in reg ==> items == AllOk(reg[t.id].es)
    ensures ErrorsLast(items)
  {
    var it := OpenScan(h, t, disk, reg);
    if it.Err? {
      return [Err];
    }
    items := Drain(it.value);
  }

  ghost predicate NoErrors(items: seq<Result<Entry>>) { forall i :: 0 <= i < |items| ==> items[i].Ok? }

  /** Nothing follows an error. */
  ghost predicate ErrorsLast(items: seq<Result<Entry>>) { forall i :: 0 <= i < |items| - 1 ==> items[i].Ok? }

  ghost predicate Scanned(items: seq<Result<Entry>>, rest: seq<Entry>, all: seq<Entry>) {
    items + AllOk(rest) == AllOk(all)
  }

  lemma NothingScanned(all: seq<Entry>)
    ensures Scanned([], all, all)
  {
    assert [] + AllOk(all) == AllOk(all);
  }

  lemma ScanOne(items: seq<Result<Entry>>, rest: seq<Entry>, all: seq<Entry>)
    requires Scanned(items, rest, all)
    ensures rest == [] ==> items == AllOk(all)
    ensures rest != [] ==> Scanned(items + [Ok(rest[0])], rest[1..], all)
  {
    if rest == [] {
      assert items + AllOk(rest) == items;
    } else {
      assert AllOk(rest) == [Ok(rest[0])] + AllOk(rest[1..]);
      assert items + ([Ok(rest[0])] + AllOk(rest[1..])) == items + [Ok(rest[0])] + AllOk(rest[1..]);
    }
  }

  function AllOk(es: seq<Entry>): (items: seq<Result<Entry>>)
    ensures |items| == |es| && forall i :: 0 <= i < |es| ==> items[i] == Ok(es[i])
  {
    seq(|es|, i requires 0 <= i < |es| => Ok(es[i]))
  }
}
