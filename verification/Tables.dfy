/** Table files: the writer, and what a file from it holds. */
module Tables {
  import opened Entries
  import opened ByteSeqs
  import opened SortedLists
  import opened Sealing
  import opened Blocks
  import opened Blooms
  import opened Formats
  import Varints

  /** The manifest's row about a table. */
  datatype TableMeta = TableMeta(id: nat, minKey: Key, maxKey: Key, minSeqNo: nat, maxSeqNo: nat,
                                 fileSize: nat, numEntries: nat)

  // ---- the layout of a file -----------------------------------------------------------------

  function Concat(blocks: seq<seq<Entry>>): seq<Entry> {
    if blocks == [] then [] else Concat(blocks[..|blocks| - 1]) + blocks[|blocks| - 1]
  }

  ghost predicate NoEmptyBlock(blocks: seq<seq<Entry>>) {
    forall b :: 0 <= b < |blocks| ==> blocks[b] != []
  }

  function BlockBytes(h: Hashing, blocks: seq<seq<Entry>>, interval: nat): (bs: seq<Bytes>)
    requires interval >= 1
    ensures |bs| == |blocks| && forall b :: 0 <= b < |blocks| ==> bs[b] == Seal(h, BlockBody(blocks[b], interval))
  {
    seq(|blocks|, b requires 0 <= b < |blocks| => Seal(h, BlockBody(blocks[b], interval)))
  }

  /** All data blocks, and where block b starts. */
  function DataBytes(h: Hashing, blocks: seq<seq<Entry>>, interval: nat): Bytes
    requires interval >= 1
  {
    Joined(BlockBytes(h, blocks, interval), |blocks|)
  }

  function BlockOffset(h: Hashing, blocks: seq<seq<Entry>>, interval: nat, b: nat): nat
    requires interval >= 1 && b <= |blocks|
  {
    |Joined(BlockBytes(h, blocks, interval), b)|
  }

  function FirstKey(es: seq<Entry>): Key { if es == [] then [] else es[0].key }

  function LastKey(es: seq<Entry>): Key { if es == [] then [] else es[|es| - 1].key }

  function IndexRow(h: Hashing, blocks: seq<seq<Entry>>, interval: nat, b: nat): IndexEntry
    requires interval >= 1 && b < |blocks|
  {
    IndexEntry(FirstKey(blocks[b]), BlockOffset(h, blocks, interval, b), |BlockBody(blocks[b], interval)| + 4)
  }

  function IndexOf(h: Hashing, blocks: seq<seq<Entry>>, interval: nat): (ixs: seq<IndexEntry>)
    requires interval >= 1
    ensures |ixs| == |blocks| && forall b :: 0 <= b < |blocks| ==> ixs[b] == IndexRow(h, blocks, interval, b)
  {
    seq(|blocks|, b requires 0 <= b < |blocks| => IndexRow(h, blocks, interval, b))
  }

  function MaxSeq(es: seq<Entry>): nat {
    if es == [] then 0
    else
      var m, last := MaxSeq(es[..|es| - 1]), es[|es| - 1].seqNo;
      if m < last then last else m
  }

  /** The smallest sequence number, or top when there is none. */
  function MinSeq(es: seq<Entry>, top: nat): nat {
    if es == [] then top
    else
      var m, last := MinSeq(es[..|es| - 1], top), es[|es| - 1].seqNo;
      if last < m then last else m
  }

  lemma {:induction false} SeqRange(es: seq<Entry>, top: nat)
    ensures forall i :: 0 <= i < |es| ==> MinSeq(es, top) <= es[i].seqNo <= MaxSeq(es)
    ensures MinSeq(es, top) <= top
    ensures es != [] ==> exists i :: 0 <= i < |es| && es[i].seqNo == MaxSeq(es)
    ensures es != [] && top >= MaxSeq(es) ==> exists i :: 0 <= i < |es| && es[i].seqNo == MinSeq(es, top)
  {
    if es != [] {
      var n := |es| - 1;
      SeqRange(es[..n], top);
      assert forall i :: 0 <= i < n ==> es[..n][i] == es[i];
      if n > 0 {
        var i :| 0 <= i < n && es[..n][i].seqNo == MaxSeq(es[..n]);
        assert es[i].seqNo == MaxSeq(es[..n]);
      }
      assert es[n].seqNo <= MaxSeq(es);
    }
  }

  function MinSeqOrZero(es: seq<Entry>): nat { if es == [] then 0 else MinSeq(es, U64 - 1) }

  function FooterOf(h: Hashing, blocks: seq<seq<Entry>>, interval: nat, f: Filter): Footer
    requires interval >= 1
  {
    var es, data, filter := Concat(blocks), |DataBytes(h, blocks, interval)|, |FilterBody(f)| + 4;
    Footer(data + filter, |IndexBody(IndexOf(h, blocks, interval))| + 4, data, filter,
           |es|, MinSeqOrZero(es), MaxSeq(es))
  }

  /** A whole table file. */
  function FileBytes(h: Hashing, blocks: seq<seq<Entry>>, interval: nat, f: Filter): Bytes
    requires interval >= 1
  {
    DataBytes(h, blocks, interval) + Seal(h, FilterBody(f)) + Seal(h, IndexBody(IndexOf(h, blocks, interval)))
    + FooterBytes(h, FooterOf(h, blocks, interval, f))
  }

  function MetaOf(id: nat, es: seq<Entry>, fileSize: nat): TableMeta {
    TableMeta(id, FirstKey(es), LastKey(es), MinSeqOrZero(es), MaxSeq(es), fileSize, |es|)
  }

  /** What the manifest's row says about a table with these entries. */
  ghost predicate Describes(meta: TableMeta, es: seq<Entry>, fileSize: nat) {
    && meta.numEntries == |es| && meta.fileSize == fileSize
    && (es == [] ==> meta.minKey == [] && meta.maxKey == [] && meta.minSeqNo == 0 && meta.maxSeqNo == 0)
    && (es != [] ==> meta.minKey == es[0].key && meta.maxKey == es[|es| - 1].key)
    && (forall i :: 0 <= i < |es| ==> meta.minSeqNo <= es[i].seqNo <= meta.maxSeqNo)
    && (es != [] ==> exists i :: 0 <= i < |es| && es[i].seqNo == meta.minSeqNo)
    && (es != [] ==> exists i :: 0 <= i < |es| && es[i].seqNo == meta.maxSeqNo)
  }

  lemma MetaDescribes(id: nat, es: seq<Entry>, fileSize: nat)
    requires AllFit(es)
    ensures Describes(MetaOf(id, es, fileSize), es, fileSize)
  {
    SeqRange(es, U64 - 1);
    if es != [] {
      var i :| 0 <= i < |es| && es[i].seqNo == MaxSeq(es);
      assert Fits(es[i]);
    }
  }

  function KeySet(es: seq<Entry>): (ks: set<Key>)
    ensures forall k :: k in ks <==> HasKey(es, k)
  {
    set i | 0 <= i < |es| :: es[i].key
  }

  ghost predicate BlockFits(es: seq<Entry>, interval: nat) {
    interval >= 1 && es != [] && IsBlock(BlockBody(es, interval), es, interval) && |FirstKey(es)| < U32
  }

  ghost predicate BlocksFit(blocks: seq<seq<Entry>>, interval: nat) {
    |blocks| < U32 / 2 && forall b :: 0 <= b < |blocks| ==> BlockFits(blocks[b], interval)
  }

  /** What the writer lays down for es: blocks, filter, index and footer, all within the
      widths of the numbers that describe them. */
  datatype Layout = Layout(blocks: seq<seq<Entry>>, interval: nat, filter: Filter)

  ghost predicate IsTable(h: Hashing, file: Bytes, meta: TableMeta, es: seq<Entry>, l: Layout) {
    && l.interval >= 1 && Concat(l.blocks) == es && BlocksFit(l.blocks, l.interval)
    && Marks(h, l.filter, KeySet(es))
    && FooterFits(FooterOf(h, l.blocks, l.interval, l.filter))
    && file == FileBytes(h, l.blocks, l.interval, l.filter)
    && meta == MetaOf(meta.id, es, |file|)
  }

  // ---- where the cuts fall --------------------------------------------------------------------

  /** estimated_size of a block with these entries. */
  function Estimate(es: seq<Entry>, interval: nat): nat
    requires interval >= 1
  {
    |BlockBody(es, interval)| + 4
  }

  /** The estimate is the size on disk: the finished block with its checksum. */
  lemma EstimateIsSize(h: Hashing, es: seq<Entry>, interval: nat)
    requires interval >= 1
    ensures |Seal(h, BlockBody(es, interval))| == Estimate(es, interval)
  {
  }

  /** A block is cut as soon as it reaches the block size, and not before. */
  ghost predicate CutRule(blocks: seq<seq<Entry>>, interval: nat, blockSize: nat) {
    && interval >= 1
    && (forall b :: 0 <= b < |blocks| ==> NotCutEarly(blocks[b], interval, blockSize))
    && (forall b :: 0 <= b < |blocks| - 1 ==> Estimate(blocks[b], interval) >= blockSize)
  }

  ghost predicate NotCutEarly(es: seq<Entry>, interval: nat, blockSize: nat)
    requires interval >= 1
  {
    forall n :: 0 < n < |es| ==> Estimate(es[..n], interval) < blockSize
  }

  // ---- the writer -----------------------------------------------------------------------------

  /** Small enough that no block outgrows its 32-bit offsets. */
  ghost predicate HasRoom(e: Entry, blockSize: nat) {
    Fits(e) && |e.key| + |ValueBytes(e)| + blockSize + 64 < U32
  }

  ghost predicate AllHaveRoom(es: seq<Entry>, blockSize: nat) {
    |es| < U32 / 2 && forall i :: 0 <= i < |es| ==> HasRoom(es[i], blockSize)
  }

  lemma SizeOfEntry(e: Entry, shared: nat)
    requires Fits(e) && shared <= |e.key|
    ensures |EntryBytes(e, shared)| <= 39 + |e.key| + |ValueBytes(e)|
  {
    Varints.Pow128Values();
    Varints.VarintLength(shared, 10);
    Varints.VarintLength(|e.key| - shared, 10);
    Varints.VarintLength(|ValueBytes(e)|, 10);
  }

  lemma BlockGrows(es: seq<Entry>, interval: nat, e: Entry)
    requires interval >= 1 && Fits(e)
    ensures |BlockBody(es + [e], interval)| <= |BlockBody(es, interval)| + 43 + |e.key| + |ValueBytes(e)|
  {
    PiecesFront(es, interval, e);
    JoinedFront(Pieces(es, interval), Piece(es + [e], interval, |es|), |es|);
    RestartsFront(es, interval, e);
    SizeOfEntry(e, Shared(es + [e], interval, |es|));
  }

  ghost predicate Cut(es: seq<Entry>, interval: nat, blockSize: nat) {
    BlockFits(es, interval) && NotCutEarly(es, interval, blockSize) && Estimate(es, interval) >= blockSize
  }

  ghost predicate AllCut(blocks: seq<seq<Entry>>, interval: nat, blockSize: nat) {
    forall b :: 0 <= b < |blocks| ==> Cut(blocks[b], interval, blockSize)
  }

  /** The blocks in done are written, current is in the builder; together they are es. */
  ghost predicate Writing(h: Hashing, es: seq<Entry>, done: seq<seq<Entry>>, current: seq<Entry>, interval: nat,
                          written: Bytes, index: seq<IndexEntry>) {
    && interval >= 1 && Concat(done) + current == es
    && written == DataBytes(h, done, interval) && index == IndexOf(h, done, interval)
  }

  /** What the builder holds is a block that has not reached the block size. */
  ghost predicate Unfinished(current: seq<Entry>, interval: nat, blockSize: nat) {
    && interval >= 1 && NotCutEarly(current, interval, blockSize)
    && (current != [] ==> BlockFits(current, interval) && Estimate(current, interval) < blockSize)
  }

  /** The builder after one more entry, before the size is looked at. */
  ghost predicate Filled(current: seq<Entry>, interval: nat, blockSize: nat) {
    BlockFits(current, interval) && NotCutEarly(current, interval, blockSize)
  }

  lemma StillFits(current: seq<Entry>, e: Entry, interval: nat, blockSize: nat)
    requires Unfinished(current, interval, blockSize) && HasRoom(e, blockSize)
    ensures BlockFits(current + [e], interval)
  {
    BlockGrows(current, interval, e);
    if current == [] {
      assert |BlockBody(current, interval)| == 4;
    } else {
      assert FirstKey(current + [e]) == FirstKey(current);
    }
    var es := current + [e];
    forall i | 0 <= i < |es| ensures Fits(es[i]) {
      if i < |current| {
        assert Fits(current[i]);
      }
    }
    assert IsBlock(BlockBody(es, interval), es, interval);
  }

  lemma NotYetCut(current: seq<Entry>, e: Entry, interval: nat, blockSize: nat)
    requires Unfinished(current, interval, blockSize)
    ensures NotCutEarly(current + [e], interval, blockSize)
  {
    forall n | 0 < n < |current + [e]| ensures Estimate((current + [e])[..n], interval) < blockSize {
      assert (current + [e])[..n] == current[..n];
      if n == |current| {
        assert current[..n] == current;
      }
    }
  }

  lemma FillOne(current: seq<Entry>, e: Entry, interval: nat, blockSize: nat)
    requires Unfinished(current, interval, blockSize) && HasRoom(e, blockSize)
    ensures Filled(current + [e], interval, blockSize)
  {
    StillFits(current, e, interval, blockSize);
    NotYetCut(current, e, interval, blockSize);
  }

  lemma WriteOne(h: Hashing, es: seq<Entry>, done: seq<seq<Entry>>, current: seq<Entry>, e: Entry,
                 interval: nat, written: Bytes, index: seq<IndexEntry>)
    requires Writing(h, es, done, current, interval, written, index)
    ensures Writing(h, es + [e], done, current + [e], interval, written, index)
  {
    assert Concat(done) + (current + [e]) == es + [e];
  }

  lemma BytesFront(h: Hashing, blocks: seq<seq<Entry>>, interval: nat, es: seq<Entry>)
    requires interval >= 1
    ensures BlockBytes(h, blocks + [es], interval) ==
              BlockBytes(h, blocks, interval) + [Seal(h, BlockBody(es, interval))]
  {
  }

  lemma OffsetsFront(h: Hashing, blocks: seq<seq<Entry>>, interval: nat, es: seq<Entry>, b: nat)
    requires interval >= 1 && b <= |blocks|
    ensures BlockOffset(h, blocks + [es], interval, b) == BlockOffset(h, blocks, interval, b)
  {
    BytesFront(h, blocks, interval, es);
    JoinedFront(BlockBytes(h, blocks, interval), Seal(h, BlockBody(es, interval)), b);
  }

  lemma DataGrows(h: Hashing, done: seq<seq<Entry>>, current: seq<Entry>, interval: nat)
    requires interval >= 1
    ensures DataBytes(h, done + [current], interval) ==
              DataBytes(h, done, interval) + Seal(h, BlockBody(current, interval))
  {
    BytesFront(h, done, interval, current);
    JoinedFront(BlockBytes(h, done, interval), Seal(h, BlockBody(current, interval)), |done|);
  }

  lemma LastRow(h: Hashing, done: seq<seq<Entry>>, interval: nat, current: seq<Entry>)
    requires interval >= 1
    ensures IndexRow(h, done + [current], interval, |done|) ==
            IndexEntry(FirstKey(current), |DataBytes(h, done, interval)|, |Seal(h, BlockBody(current, interval))|)
  {
    OffsetsFront(h, done, interval, current, |done|);
  }

  lemma IndexGrows(h: Hashing, done: seq<seq<Entry>>, current: seq<Entry>, interval: nat)
    requires interval >= 1
    ensures IndexOf(h, done + [current], interval) ==
            IndexOf(h, done, interval) + [IndexEntry(FirstKey(current), |DataBytes(h, done, interval)|,
                                                     |Seal(h, BlockBody(current, interval))|)]
  {
    forall b | 0 <= b < |done| ensures IndexRow(h, done + [current], interval, b) == IndexRow(h, done, interval, b) {
      OffsetsFront(h, done, interval, current, b);
    }
    OffsetsFront(h, done, interval, current, |done|);
    LastRow(h, done, interval, current);
    SnocByIndex(IndexOf(h, done + [current], interval), IndexOf(h, done, interval),
                IndexRow(h, done + [current], interval, |done|));
  }

  /** A finished block joins the ones written. */
  lemma FlushOne(h: Hashing, es: seq<Entry>, done: seq<seq<Entry>>, current: seq<Entry>,
                 interval: nat, written: Bytes, index: seq<IndexEntry>)
    requires Writing(h, es, done, current, interval, written, index)
    ensures var block := Seal(h, BlockBody(current, interval));
            Writing(h, es, done + [current], [], interval, written + block,
                    index + [IndexEntry(FirstKey(current), |written|, |block|)])
  {
    assert (done + [current])[..|done|] == done;
    DataGrows(h, done, current, interval);
    IndexGrows(h, done, current, interval);
  }

  /** flush_current_block: the builder starts anew, its block goes behind what was written. */
  method FlushCurrentBlock(h: Hashing, builder: BlockBuilder, writer: Bytes, indexEntries: seq<IndexEntry>,
                           firstKey: Key, offset: nat)
    returns (out: Bytes, index: seq<IndexEntry>, newOffset: nat)
    requires builder.Valid()
    modifies builder
    ensures builder.Valid() && builder.added == []
    ensures var block := Seal(h, BlockBody(old(builder.added), builder.restartInterval));
            && out == writer + block && index == indexEntries + [IndexEntry(firstKey, offset, |block|)]
            && newOffset == offset + |block|
  {
    var block := builder.Finish(h);
    builder.Renew();
    out := writer + block;
    index := indexEntries + [IndexEntry(firstKey, offset, |block|)];
    newOffset := offset + |block|;
  }

  /** Finished blocks, all but the last cut at the block size. */
  ghost predicate Finished(blocks: seq<seq<Entry>>, interval: nat, blockSize: nat) {
    CutRule(blocks, interval, blockSize) && forall b :: 0 <= b < |blocks| ==> BlockFits(blocks[b], interval)
  }

  lemma CutParts(blocks: seq<seq<Entry>>, interval: nat, blockSize: nat, b: nat)
    requires interval >= 1 && AllCut(blocks, interval, blockSize) && b < |blocks|
    ensures NotCutEarly(blocks[b], interval, blockSize) && BlockFits(blocks[b], interval)
    ensures Estimate(blocks[b], interval) >= blockSize
  {
    assert Cut(blocks[b], interval, blockSize);
  }

  lemma FinishedEven(done: seq<seq<Entry>>, interval: nat, blockSize: nat)
    requires interval >= 1 && AllCut(done, interval, blockSize)
    ensures Finished(done, interval, blockSize)
  {
    forall b | 0 <= b < |done|
      ensures NotCutEarly(done[b], interval, blockSize) && BlockFits(done[b], interval)
      ensures Estimate(done[b], interval) >= blockSize
    {
      CutParts(done, interval, blockSize, b);
    }
  }

  lemma FinishedRest(done: seq<seq<Entry>>, current: seq<Entry>, interval: nat, blockSize: nat)
    requires AllCut(done, interval, blockSize) && Filled(current, interval, blockSize)
    ensures Finished(done + [current], interval, blockSize)
  {
    var blocks := done + [current];
    forall b | 0 <= b < |blocks|
      ensures NotCutEarly(blocks[b], interval, blockSize) && BlockFits(blocks[b], interval)
      ensures b < |done| ==> Estimate(blocks[b], interval) >= blockSize
    {
      if b < |done| {
        CutParts(done, interval, blockSize, b);
      }
    }
  }

  // ---- sizes ----------------------------------------------------------------------------------

  lemma {:induction false} BlocksAtMostEntries(blocks: seq<seq<Entry>>)
    requires NoEmptyBlock(blocks)
    ensures |blocks| <= |Concat(blocks)|
  {
    if blocks != [] {
      BlocksAtMostEntries(blocks[..|blocks| - 1]);
      assert blocks[|blocks| - 1] != [];
    }
  }

  lemma {:induction false} JoinedAtMost(ps: seq<Bytes>, n: nat, max: nat)
    requires n <= |ps| && forall i :: 0 <= i < n ==> |ps[i]| <= max
    ensures |Joined(ps, n)| <= n * max
  {
    if n > 0 {
      JoinedAtMost(ps, n - 1, max);
    }
  }

  lemma {:induction false} RowsAtMost(ixs: seq<IndexEntry>)
    requires forall i :: 0 <= i < |ixs| ==> |ixs[i].firstKey| < U32
    ensures |Rows(ixs)| <= |ixs| * (U32 + 20)
  {
    if ixs != [] {
      RowsAtMost(ixs[..|ixs| - 1]);
    }
  }

  lemma DataAtMost(h: Hashing, blocks: seq<seq<Entry>>, interval: nat, b: nat)
    requires BlocksFit(blocks, interval) && interval >= 1 && b <= |blocks|
    ensures BlockOffset(h, blocks, interval, b) <= U32 / 2 * (U32 + 4)
  {
    var bs := BlockBytes(h, blocks, interval);
    forall i | 0 <= i < b ensures |bs[i]| <= U32 + 4 {
      assert BlockFits(blocks[i], interval);
    }
    JoinedAtMost(bs, b, U32 + 4);
    Product(b, U32 / 2, U32 + 4);
  }

  /** The index rows fit their fields, and so does the size of the index. */
  lemma IndexFits(h: Hashing, blocks: seq<seq<Entry>>, interval: nat)
    requires BlocksFit(blocks, interval) && interval >= 1
    ensures RowsFit(IndexOf(h, blocks, interval)) && |IndexBody(IndexOf(h, blocks, interval))| + 4 < U64
  {
    var ixs := IndexOf(h, blocks, interval);
    forall b | 0 <= b < |ixs| ensures RowFits(ixs[b]) {
      assert BlockFits(blocks[b], interval);
      DataAtMost(h, blocks, interval, b);
    }
    RowsAtMost(ixs);
    Product(|blocks|, U32 / 2, U32 + 20);
  }

  /** The numbers in the footer fit its fields. */
  lemma {:induction false} SizesFit(h: Hashing, blocks: seq<seq<Entry>>, interval: nat, f: Filter)
    requires BlocksFit(blocks, interval) && WellFormed(f) && interval >= 1
    requires |Concat(blocks)| < U32 / 2 && AllFit(Concat(blocks))
    ensures FooterFits(FooterOf(h, blocks, interval, f))
  {
    var es := Concat(blocks);
    DataAtMost(h, blocks, interval, |blocks|);
    IndexFits(h, blocks, interval);
    SeqRange(es, U64 - 1);
    assert MaxSeq(es) < U64 by {
      SeqRange(es, U64 - 1);
      if es != [] {
        var i :| 0 <= i < |es| && es[i].seqNo == MaxSeq(es);
        assert Fits(es[i]);
      }
    }
  }

  lemma Product(n: nat, m: nat, size: nat)
    requires n <= m
    ensures n * size <= m * size
  {
  }

  // ---- write_sstable_from_entries ---------------------------------------------------------------

  lemma KeySetGrows(es: seq<Entry>, e: Entry)
    ensures KeySet(es + [e]) == KeySet(es) + {e.key}
  {
    forall k ensures k in KeySet(es + [e]) <==> k in KeySet(es) + {e.key} {
      if HasKey(es, k) {
        var i :| 0 <= i < |es| && es[i].key == k;
        assert (es + [e])[i].key == k;
      }
      assert (es + [e])[|es|].key == e.key;
    }
  }

  /** The writer's running minimum, maximum and count. */
  datatype Stats = Stats(minKey: Option<Key>, maxKey: Option<Key>, minSeqNo: nat, maxSeqNo: nat, numEntries: nat)

  function StatsOf(es: seq<Entry>): Stats {
    if es == [] then Stats(None, None, U64 - 1, 0, 0)
    else Stats(Some(FirstKey(es)), Some(LastKey(es)), MinSeq(es, U64 - 1), MaxSeq(es), |es|)
  }

  lemma {:induction false} StatsGrow(es: seq<Entry>, e: Entry)
    ensures MinSeq(es + [e], U64 - 1) == if e.seqNo < MinSeq(es, U64 - 1) then e.seqNo else MinSeq(es, U64 - 1)
    ensures MaxSeq(es + [e]) == if MaxSeq(es) < e.seqNo then e.seqNo else MaxSeq(es)
    ensures LastKey(es + [e]) == e.key && FirstKey(es + [e]) == if es == [] then e.key else FirstKey(es)
  {
    assert (es + [e])[..|es|] == es;
  }

  method CountEntry(stats: Stats, entry: Entry, ghost es: seq<Entry>) returns (s: Stats)
    requires stats == StatsOf(es)
    ensures s == StatsOf(es + [entry])
  {
    StatsGrow(es, entry);
    s := Stats(if stats.minKey.None? then Some(entry.key) else stats.minKey, Some(entry.key),
               if entry.seqNo < stats.minSeqNo then entry.seqNo else stats.minSeqNo,
               if stats.maxSeqNo < entry.seqNo then entry.seqNo else stats.maxSeqNo, stats.numEntries + 1);
  }

  /** What the loop has written and counted, and the first key of the open block. */
  datatype Progress = Progress(writer: Bytes, index: seq<IndexEntry>, offset: nat, firstKey: Option<Key>, stats: Stats)

  ghost predicate InProgress(h: Hashing, es: seq<Entry>, done: seq<seq<Entry>>, current: seq<Entry>, interval: nat,
                             blockSize: nat, p: Progress) {
    && Writing(h, es, done, current, interval, p.writer, p.index) && p.offset == |p.writer|
    && AllCut(done, interval, blockSize) && Unfinished(current, interval, blockSize)
    && p.stats == StatsOf(es) && p.firstKey == if current == [] then None else Some(FirstKey(current))
  }

  lemma NothingWritten(h: Hashing, interval: nat, blockSize: nat)
    requires interval >= 1
    ensures InProgress(h, [], [], [], interval, blockSize, Progress([], [], 0, None, StatsOf([])))
  {
    assert IndexOf(h, [], interval) == [];
    var nothing: seq<Entry> := [];
    assert nothing + nothing == nothing;
  }

  lemma EntryAdded(h: Hashing, es: seq<Entry>, done: seq<seq<Entry>>, current: seq<Entry>, interval: nat,
                   blockSize: nat,
                   p: Progress, e: Entry)
    requires InProgress(h, es, done, current, interval, blockSize, p) && HasRoom(e, blockSize)
    ensures Writing(h, es + [e], done, current + [e], interval, p.writer, p.index)
    ensures Filled(current + [e], interval, blockSize)
    ensures FirstKey(current + [e]) == if p.firstKey.None? then e.key else p.firstKey.value
  {
    WriteOne(h, es, done, current, e, interval, p.writer, p.index);
    FillOne(current, e, interval, blockSize);
  }

  lemma BlockClosed(h: Hashing, es: seq<Entry>, done: seq<seq<Entry>>, current: seq<Entry>, interval: nat,
                    blockSize: nat,
                    p: Progress)
    requires Writing(h, es, done, current, interval, p.writer, p.index) && p.offset == |p.writer|
    requires AllCut(done, interval, blockSize)
    requires Filled(current, interval, blockSize) && Estimate(current, interval) >= blockSize
    requires p.stats == StatsOf(es)
    ensures var block := Seal(h, BlockBody(current, interval));
            InProgress(h, es, done + [current], [], interval, blockSize,
                       Progress(p.writer + block, p.index + [IndexEntry(FirstKey(current), p.offset, |block|)],
                                p.offset + |block|, None, p.stats))
  {
    FlushOne(h, es, done, current, interval, p.writer, p.index);
    assert AllCut(done + [current], interval, blockSize) by {
      forall b | 0 <= b < |done + [current]| ensures Cut((done + [current])[b], interval, blockSize) {
        assert b < |done| ==> Cut(done[b], interval, blockSize);
      }
    }
  }

  /** One turn of the loop: the entry goes into the block, and a full block is flushed. */
  method WriteEntry(h: Hashing, builder: BlockBuilder, bloom: BloomFilter, entry: Entry, p: Progress, blockSize: nat,
                    ghost es: seq<Entry>, ghost done: seq<seq<Entry>>)
    returns (q: Progress, ghost finished: seq<seq<Entry>>)
    requires builder.Valid() && bloom.Valid() && HasRoom(entry, blockSize)
    requires InProgress(h, es, done, builder.added, builder.restartInterval, blockSize, p)
    modifies builder, bloom, bloom.bits
    ensures bloom.Valid() && bloom.keys == old(bloom.keys) + {entry.key} && bloom.bits == old(bloom.bits)
    ensures builder.Valid()
    ensures InProgress(h, es + [entry], finished, builder.added, builder.restartInterval, blockSize, q)
  {
    var stats := CountEntry(p.stats, entry, es);
    EntryAdded(h, es, done, builder.added, builder.restartInterval, blockSize, p, entry);
    var firstKey := if p.firstKey.None? then entry.key else p.firstKey.value;
    bloom.Add(entry.key);
    builder.Add(entry);
    q, finished := CloseIfFull(h, builder, firstKey, p.(stats := stats), blockSize, es + [entry], done);
  }

  /** The second half of the turn. */
  method CloseIfFull(h: Hashing, builder: BlockBuilder, firstKey: Key, p: Progress, blockSize: nat,
                     ghost es: seq<Entry>, ghost done: seq<seq<Entry>>)
    returns (q: Progress, ghost finished: seq<seq<Entry>>)
    requires builder.Valid() && builder.added != [] && firstKey == FirstKey(builder.added)
    requires Writing(h, es, done, builder.added, builder.restartInterval, p.writer, p.index) && p.offset == |p.writer|
    requires AllCut(done, builder.restartInterval, blockSize)
    requires Filled(builder.added, builder.restartInterval, blockSize)
    requires p.stats == StatsOf(es)
    modifies builder
    ensures builder.Valid() && InProgress(h, es, finished, builder.added, builder.restartInterval, blockSize, q)
  {
    var size := builder.EstimatedSize();
    if size >= blockSize {
      BlockClosed(h, es, done, builder.added, builder.restartInterval, blockSize, p);
      finished := done + [builder.added];
      var writer, index, offset := FlushCurrentBlock(h, builder, p.writer, p.index, firstKey, p.offset);
      q := Progress(writer, index, offset, None, p.stats);
    } else {
      q, finished := p.(firstKey := Some(firstKey)), done;
    }
  }

  /** The blocks of a table: the loop of write_sstable_from_entries. */
  method WriteBlocks(h: Hashing, entries: seq<Entry>, blockSize: nat, builder: BlockBuilder, bloom: BloomFilter)
    returns (p: Progress, ghost done: seq<seq<Entry>>)
    requires AllHaveRoom(entries, blockSize) && builder.Valid() && builder.added == []
    requires bloom.Valid() && bloom.keys == {}
    modifies builder, bloom, bloom.bits
    ensures bloom.Valid() && bloom.keys == KeySet(entries) && bloom.bits == old(bloom.bits)
    ensures builder.Valid() && InProgress(h, entries, done, builder.added, builder.restartInterval, blockSize, p)
  {
    done := [];
    p := Progress([], [], 0, None, Stats(None, None, U64 - 1, 0, 0));
    ghost var seen: seq<Entry> := [];
    NothingWritten(h, builder.restartInterval, blockSize);
    for i := 0 to |entries|
      invariant bloom.Valid() && bloom.keys == KeySet(seen) && bloom.bits == old(bloom.bits)
      invariant seen == entries[..i] && builder.Valid()
      invariant InProgress(h, seen, done, builder.added, builder.restartInterval, blockSize, p)
    {
      TakeOneMore(entries, i);
      assert HasRoom(entries[i], blockSize);
      KeySetGrows(seen, entries[i]);
      p, done := WriteEntry(h, builder, bloom, entries[i], p, blockSize, seen, done);
      seen := seen + [entries[i]];
    }
    assert seen == entries;
  }

  /** What is left in the builder becomes the last block. */
  method WriteLast(h: Hashing, builder: BlockBuilder, p: Progress, blockSize: nat,
                   ghost es: seq<Entry>, ghost done: seq<seq<Entry>>)
    returns (writer: Bytes, index: seq<IndexEntry>, ghost blocks: seq<seq<Entry>>)
    requires builder.Valid() && InProgress(h, es, done, builder.added, builder.restartInterval, blockSize, p)
    modifies builder
    ensures Concat(blocks) == es && Finished(blocks, builder.restartInterval, blockSize)
    ensures writer == DataBytes(h, blocks, builder.restartInterval)
    ensures index == IndexOf(h, blocks, builder.restartInterval)
  {
    var empty := builder.IsEmpty();
    if empty {
      FinishedEven(done, builder.restartInterval, blockSize);
      assert Concat(done) + [] == Concat(done);
      writer, index, blocks := p.writer, p.index, done;
    } else {
      FlushOne(h, es, done, builder.added, builder.restartInterval, p.writer, p.index);
      FinishedRest(done, builder.added, builder.restartInterval, blockSize);
      blocks := done + [builder.added];
      assert Concat(blocks) + [] == Concat(blocks);
      var offset;
      writer, index, offset := FlushCurrentBlock(h, builder, p.writer, p.index, p.firstKey.value, p.offset);
    }
  }

  /** write_sstable_from_entries, with the filter sized as the caller's formulas chose. */
  method WriteTable(h: Hashing, id: nat, entries: seq<Entry>, blockSize: nat, restartInterval: nat,
                    bloomBits: nat, bloomHashes: nat)
    returns (file: Bytes, meta: TableMeta, ghost l: Layout)
    requires AllHaveRoom(entries, blockSize)
    requires 0 < bloomBits < U64 && bloomBits % 8 == 0 && 1 <= bloomHashes < U32
    ensures IsTable(h, file, meta, entries, l) && meta.id == id && Describes(meta, entries, |file|)
    ensures l.interval == (if restartInterval < 1 then 1 else restartInterval)
    ensures CutRule(l.blocks, l.interval, blockSize)
  {
    var interval := if restartInterval < 1 then 1 else restartInterval;
    var bloom := new BloomFilter(h, bloomBits, bloomHashes);
    var builder := new BlockBuilder(interval);
    var p, done := WriteBlocks(h, entries, blockSize, builder, bloom);
    var stats := p.stats;
    var index;
    ghost var blocks;
    file, index, blocks := WriteLast(h, builder, p, blockSize, entries, done);
    l := Layout(blocks, interval, bloom.Value());
    var filterOffset := |file|;
    var filterBytes := bloom.Serialize();
    file := file + filterBytes;
    var indexOffset := |file|;
    var indexBytes := SerializeIndexBlock(h, index);
    file := file + indexBytes;
    var minSeqNo := if stats.numEntries == 0 then 0 else stats.minSeqNo;
    var footer := Footer(indexOffset, |indexBytes|, filterOffset, |filterBytes|, stats.numEntries, minSeqNo,
                         stats.maxSeqNo);
    file := file + FooterBytes(h, footer);
    meta := TableMeta(id, if stats.minKey.Some? then stats.minKey.value else [],
                      if stats.maxKey.Some? then stats.maxKey.value else [],
                      minSeqNo, stats.maxSeqNo, |file|, stats.numEntries);
    WrittenFits(h, entries, l, blockSize);
    assert footer == FooterOf(h, blocks, interval, l.filter);
    TableDescribed(h, file, meta, entries, l, blockSize);
  }

  lemma TableDescribed(h: Hashing, file: Bytes, meta: TableMeta, es: seq<Entry>, l: Layout, blockSize: nat)
    requires IsTable(h, file, meta, es, l) && AllHaveRoom(es, blockSize)
    ensures Describes(meta, es, |file|)
  {
    forall i | 0 <= i < |es| ensures Fits(es[i]) {
      assert HasRoom(es[i], blockSize);
    }
    MetaDescribes(meta.id, es, |file|);
  }

  lemma WrittenFits(h: Hashing, entries: seq<Entry>, l: Layout, blockSize: nat)
    requires AllHaveRoom(entries, blockSize) && Concat(l.blocks) == entries && Finished(l.blocks, l.interval, blockSize)
    requires WellFormed(l.filter)
    ensures BlocksFit(l.blocks, l.interval) && FooterFits(FooterOf(h, l.blocks, l.interval, l.filter))
  {
    forall b | 0 <= b < |l.blocks| ensures l.blocks[b] != [] {
      assert BlockFits(l.blocks[b], l.interval);
    }
    BlocksAtMostEntries(l.blocks);
    forall i | 0 <= i < |entries| ensures Fits(entries[i]) {
      assert HasRoom(entries[i], blockSize);
    }
    SizesFit(h, l.blocks, l.interval, l.filter);
  }
}
