/** The in-memory table: latest cell per key, byte accounting, sorted iteration. */
module Memtables {
  import opened Entries
  import opened ByteSeqs
  import opened SortedLists

  datatype Lookup = Found(value: Value) | Tombstone | NotFound

  /** What a reader is told of the cell it hit. */
  function ToLookup(c: Option<Cell>): (r: Lookup)
    ensures r == NotFound <==> c.None?
    ensures r == Tombstone <==> c.Some? && c.value.value.None?
    ensures forall v :: r == Found(v) <==> c.Some? && c.value.value == Some(v)
  {
    if c.None? then NotFound
    else if c.value.value.None? then Tombstone
    else Found(c.value.value.value)
  }

  /** approx_size: a tombstone counts its key and the overhead. */
  function EntrySize(k: Key, c: Cell, overhead: nat): (n: nat)
    ensures c.value.None? ==> n == |k| + overhead
    ensures forall v :: c.value == Some(v) ==> n == |k| + |v| + overhead
  {
    |k| + (if c.value.Some? then |c.value.value| else 0) + overhead
  }

  /** The exact size of a memtable's entries. */
  ghost function TotalBytes(m: Mem, overhead: nat): nat
    decreases |m|
  {
    if m == map[] then 0
    else
      var k :| k in m;
      EntrySize(k, m[k], overhead) + TotalBytes(m - {k}, overhead)
  }

  lemma {:induction false} TotalWithout(m: Mem, overhead: nat, k: Key)
    requires k in m
    ensures TotalBytes(m, overhead) == EntrySize(k, m[k], overhead) + TotalBytes(m - {k}, overhead)
    decreases |m|
  {
    var x :| x in m && TotalBytes(m, overhead) == EntrySize(x, m[x], overhead) + TotalBytes(m - {x}, overhead);
    if x != k {
      TotalWithout(m - {x}, overhead, k);
      TotalWithout(m - {k}, overhead, x);
      assert (m - {x}) - {k} == (m - {k}) - {x};
    }
  }

  /** A memtable's entries and its running byte count. */
  datatype Sized = Sized(entries: Mem, bytes: nat)

  ghost predicate Exact(m: Sized, overhead: nat) { m.bytes == TotalBytes(m.entries, overhead) }

  /** Memtable::insert on a value: the count follows the entry that goes and the one that comes. */
  method InsertSized(m: Sized, overhead: nat, key: Key, cell: Cell)
    returns (r: Sized, bytesAdded: nat, bytesRemoved: nat)
    requires Exact(m, overhead)
    ensures Exact(r, overhead) && r.entries == m.entries[key := cell] && r.bytes == m.bytes + bytesAdded - bytesRemoved
    ensures bytesAdded == EntrySize(key, cell, overhead)
    ensures bytesRemoved == if key in m.entries then EntrySize(key, m.entries[key], overhead) else 0
  {
    bytesAdded, bytesRemoved := EntrySize(key, cell, overhead), 0;
    var bytes := m.bytes;
    ghost var rest := m.entries - {key};
    if key in m.entries {
      bytesRemoved := EntrySize(key, m.entries[key], overhead);
      TotalWithout(m.entries, overhead, key);
      bytes := SaturatingSub(bytes, bytesRemoved);
    } else {
      assert rest == m.entries;
    }
    r := Sized(m.entries[key := cell], bytes + bytesAdded);
    assert r.entries - {key} == rest;
    TotalWithout(r.entries, overhead, key);
  }

  class Memtable {
    var entries: Mem
    var approxSizeBytes: nat
    const overheadPerEntry: nat

    /** The running byte count is exact. */
    ghost predicate Valid() reads this { approxSizeBytes == TotalBytes(entries, overheadPerEntry) }

    constructor (overhead: nat)
      ensures Valid() && entries == map[] && overheadPerEntry == overhead && approxSizeBytes == 0
    {
      entries := map[];
      approxSizeBytes := 0;
      overheadPerEntry := overhead;
    }

    method Insert(key: Key, cell: Cell) returns (bytesAdded: nat, bytesRemoved: nat)
      requires Valid()
      modifies this
      ensures Valid() && entries == old(entries)[key := cell]
      ensures approxSizeBytes == old(approxSizeBytes) + bytesAdded - bytesRemoved
      ensures bytesAdded == |key| + (if cell.value.Some? then |cell.value.value| else 0) + overheadPerEntry
      ensures bytesRemoved == if key in old(entries) then EntrySize(key, old(entries)[key], overheadPerEntry) else 0
    {
      var m;
      m, bytesAdded, bytesRemoved := InsertSized(Sized(entries, approxSizeBytes), overheadPerEntry, key, cell);
      entries, approxSizeBytes := m.entries, m.bytes;
    }

    method Put(key: Key, value: Value, seqNo: nat)
      requires Valid()
      modifies this
      ensures Valid() && entries == old(entries)[key := Cell(seqNo, Some(value))]
    {
      var added, removed := Insert(key, Cell(seqNo, Some(value)));
    }

    method Delete(key: Key, seqNo: nat)
      requires Valid()
      modifies this
      ensures Valid() && entries == old(entries)[key := Cell(seqNo, None)]
    {
      var added, removed := Insert(key, Cell(seqNo, None));
    }

    method Get(key: Key) returns (r: Lookup)
      ensures r == NotFound <==> key !in entries
      ensures r == Tombstone <==> key in entries && entries[key].value.None?
      ensures forall v :: r == Found(v) <==> key in entries && entries[key].value == Some(v)
    {
      if key !in entries { return NotFound; }
      match entries[key].value {
        case None => r := Tombstone;
        case Some(v) => r := Found(v);
      }
    }

    /** All entries, keys strictly ascending: what a flush writes. */
    method Iter() returns (es: seq<Entry>)
      ensures Sorted(es) && ToMap(es) == entries
    {
      es := [];
      var rest := entries;
      while rest != map[]
        invariant Listed(es, rest, entries)
        decreases |rest|
      {
        var k := Smallest(rest);
        ListNext(es, rest, entries, k);
        es := es + [EntryOf(k, rest[k])];
        rest := rest - {k};
      }
      SortedContents(es, entries);
    }
  }

  /** es lists the entries of m outside rest, in order and before all of rest. */
  ghost predicate Listed(es: seq<Entry>, rest: Mem, m: Mem) {
    && Sorted(es) && (forall k :: k in rest ==> k in m && rest[k] == m[k])
    && (forall i :: 0 <= i < |es| ==> BeforeAll(es[i].key, rest))
    && (forall i :: 0 <= i < |es| ==> es[i].key in m && m[es[i].key] == CellOf(es[i]))
    && (forall k :: k in m && k !in rest ==> HasKey(es, k))
  }

  ghost predicate BeforeAll(k: Key, m: Mem) { forall x :: x in m ==> Less(k, x) }

  lemma ListNext(es: seq<Entry>, rest: Mem, m: Mem, k: Key)
    requires Listed(es, rest, m) && k in rest && BeforeAll(k, rest - {k})
    ensures Listed(es + [EntryOf(k, rest[k])], rest - {k}, m)
  {
    var es' := es + [EntryOf(k, rest[k])];
    forall x | x in m && x !in rest - {k} ensures HasKey(es', x) {
      if x == k {
        assert es'[|es|].key == x;
      } else {
        assert HasKey(es, x);
        var i :| 0 <= i < |es| && es[i].key == x;
        assert es'[i].key == x;
      }
    }
    assert forall i :: 0 <= i < |es| ==> BeforeAll(es[i].key, rest) && es'[i] == es[i];
  }

  method Smallest(m: Mem) returns (k: Key)
    requires m != map[]
    ensures k in m && BeforeAll(k, m - {k})
  {
    k :| k in m;
    var left := m.Keys - {k};
    while left != {}
      invariant k in m && left <= m.Keys && forall x :: x in m && x !in left && x != k ==> Less(k, x)
    {
      var y :| y in left;
      if Less(y, k) {
        forall x | x in m && x !in left && x != k ensures Less(y, x) { LessTrans(y, k, x); }
        k := y;
      } else {
        LessTotal(k, y);
      }
      left := left - {y};
    }
  }
}
