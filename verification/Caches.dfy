/** The block cache and the pool of open files: two least-recently-used maps. */
module Caches {
  import opened Entries

  // ---- recency lists ----------------------------------------------------------------------

  ghost predicate NoDup<T(!new)>(xs: seq<T>) {
    forall i, j :: 0 <= i < j < |xs| ==> xs[i] != xs[j]
  }

  /** order.iter().position, or the length when x is not there. */
  function Position<T(==)>(xs: seq<T>, x: T): (p: nat)
    ensures p <= |xs| && (forall i :: 0 <= i < p ==> xs[i] != x)
    ensures p < |xs| <==> x in xs
    ensures p < |xs| ==> xs[p] == x
  {
    if xs == [] || xs[0] == x then 0 else 1 + Position(xs[1..], x)
  }

  function Removed<T(==)>(xs: seq<T>, x: T): seq<T> {
    var p := Position(xs, x);
    if p < |xs| then xs[..p] + xs[p + 1..] else xs
  }

  /** x becomes the most recently used. */
  function Touched<T(==)>(xs: seq<T>, x: T): seq<T> { Removed(xs, x) + [x] }

  lemma RemovedMembers<T(!new)>(xs: seq<T>, x: T)
    requires NoDup(xs)
    ensures NoDup(Removed(xs, x)) && forall y :: y in Removed(xs, x) <==> y in xs && y != x
  {
    var p, r := Position(xs, x), Removed(xs, x);
    if p < |xs| {
      forall i | 0 <= i < |r| ensures r[i] == xs[if i < p then i else i + 1] {
      }
      forall y | y in xs && y != x ensures y in r {
        var i :| 0 <= i < |xs| && xs[i] == y;
        assert r[if i < p then i else i - 1] == y;
      }
    }
  }

  lemma TouchedMembers<T(!new)>(xs: seq<T>, x: T)
    requires NoDup(xs)
    ensures NoDup(Touched(xs, x)) && forall y :: y in Touched(xs, x) <==> y in xs || y == x
  {
    RemovedMembers(xs, x);
  }

  lemma DropFirst<T(!new)>(xs: seq<T>)
    requires NoDup(xs) && xs != []
    ensures NoDup(xs[1..]) && forall y :: y in xs[1..] <==> y in xs && y != xs[0]
  {
    forall y | y in xs && y != xs[0] ensures y in xs[1..] {
      var i :| 0 <= i < |xs| && xs[i] == y;
      assert xs[1..][i - 1] == y;
    }
  }

  // ---- BlockCache ---------------------------------------------------------------------------

  datatype BlockKey = BlockKey(tableId: nat, offset: nat)

  type CachedBlocks = map<BlockKey, Bytes>

  function SizeOf(m: CachedBlocks, k: BlockKey): nat { if k in m then |m[k]| else 0 }

  /** The bytes cached under the keys of order. */
  function Total(m: CachedBlocks, order: seq<BlockKey>): nat {
    if order == [] then 0 else SizeOf(m, order[0]) + Total(m, order[1..])
  }

  lemma {:induction false} TotalConcat(m: CachedBlocks, a: seq<BlockKey>, b: seq<BlockKey>)
    ensures Total(m, a + b) == Total(m, a) + Total(m, b)
  {
    if a == [] {
      assert a + b == b;
    } else {
      assert (a + b)[1..] == a[1..] + b;
      TotalConcat(m, a[1..], b);
    }
  }

  lemma {:induction false} TotalSame(m: CachedBlocks, n: CachedBlocks, order: seq<BlockKey>)
    requires forall k :: k in order ==> SizeOf(m, k) == SizeOf(n, k)
    ensures Total(m, order) == Total(n, order)
  {
    if order != [] {
      TotalSame(m, n, order[1..]);
    }
  }

  lemma {:induction false} OneTotal(m: CachedBlocks, k: BlockKey)
    ensures Total(m, [k]) == SizeOf(m, k)
  {
    assert [k][1..] == [];
  }

  lemma {:induction false} TotalRemoved(m: CachedBlocks, order: seq<BlockKey>, k: BlockKey)
    requires k in order
    ensures Total(m, order) == Total(m, Removed(order, k)) + SizeOf(m, k)
  {
    var p := Position(order, k);
    assert order == order[..p] + ([k] + order[p + 1..]);
    TotalConcat(m, order[..p], [k] + order[p + 1..]);
    TotalConcat(m, [k], order[p + 1..]);
    OneTotal(m, k);
    TotalConcat(m, order[..p], order[p + 1..]);
  }

  /** How many of the oldest keys must go for the rest to fit. */
  function EvictCount(m: CachedBlocks, order: seq<BlockKey>, capacity: nat): (n: nat)
    ensures n <= |order|
    ensures Total(m, order[n..]) <= capacity
    ensures forall i :: 0 <= i < n ==> Total(m, order[i..]) > capacity
  {
    if Total(m, order) <= capacity then
      assert order[0..] == order;
      0
    else
      var rest := EvictCount(m, order[1..], capacity);
      assert order[1 + rest..] == order[1..][rest..];
      assert forall i :: 0 < i < 1 + rest ==> order[i..] == order[1..][i - 1..];
      assert order[0..] == order;
      1 + rest
  }

  function Restricted(m: CachedBlocks, order: seq<BlockKey>): CachedBlocks {
    map k | k in m && k in order :: m[k]
  }

  class BlockCache {
    const capacityBytes: nat
    var entries: CachedBlocks
    /** Least recently used first. */
    var order: seq<BlockKey>
    var currentBytes: nat

    /** order lists the keys of the map once each, and the byte count is exact. */
    ghost predicate Consistent()
      reads this
    {
      && NoDup(order) && (forall k :: k in order <==> k in entries)
      && currentBytes == Total(entries, order)
    }

    ghost predicate Valid()
      reads this
    {
      Consistent() && currentBytes <= capacityBytes
    }

    constructor (capacity: nat)
      ensures Valid() && entries == map[] && capacityBytes == capacity
    {
      capacityBytes, entries, order, currentBytes := capacity, map[], [], 0;
    }

    method Get(key: BlockKey) returns (hit: Option<Bytes>)
      requires Valid()
      modifies this
      ensures Valid() && entries == old(entries)
      ensures hit == if key in entries then Some(entries[key]) else None
      ensures order == if hit.Some? then Touched(old(order), key) else old(order)
    {
      hit := if key in entries then Some(entries[key]) else None;
      if hit.Some? {
        TouchedMembers(order, key);
        TotalRemoved(entries, order, key);
        TotalConcat(entries, Removed(order, key), [key]);
        OneTotal(entries, key);
        var pos := Position(order, key);
        if pos < |order| {
          order := order[..pos] + order[pos + 1..];
        }
        order := order + [key];
      }
    }

    /** What stays is the most recently used part that fits, the new block last. */
    method Insert(key: BlockKey, bytes: Bytes)
      requires Valid()
      modifies this
      ensures Valid()
      ensures var all, full := old(entries)[key := bytes], Touched(old(order), key);
              var n := EvictCount(all, full, capacityBytes);
              order == full[n..] && entries == Restricted(all, order)
    {
      Replace(key, bytes);
      EvictUntilRoom();
    }

    method Replace(key: BlockKey, bytes: Bytes)
      requires Consistent()
      modifies this
      ensures Consistent() && entries == old(entries)[key := bytes] && order == Touched(old(order), key)
    {
      if key in entries {
        RemoveEntry(key);
      }
      assert order == Removed(old(order), key);
      AddEntry(key, bytes);
      assert entries == old(entries)[key := bytes];
    }

    method EvictUntilRoom()
      requires Consistent()
      modifies this
      ensures Valid()
      ensures order == old(order)[EvictCount(old(entries), old(order), capacityBytes)..]
      ensures entries == Restricted(old(entries), order)
    {
      ghost var all, full, n: nat := entries, order, 0;
      assert full[0..] == full && Restricted(all, full) == all;
      while currentBytes > capacityBytes && order != []
        invariant Consistent() && n <= |full| && order == full[n..] && entries == Restricted(all, order)
        invariant n <= EvictCount(all, full, capacityBytes)
        decreases |order|
      {
        RestrictedTotal(all, order);
        MustEvict(all, full, capacityBytes, n);
        RestrictedAgain(all, order, order[1..]);
        EvictOldest();
        n := n + 1;
      }
      RestrictedTotal(all, order);
      MayStay(all, full, capacityBytes, n);
    }

    method RemoveEntry(key: BlockKey)
      requires Consistent() && key in entries
      modifies this
      ensures Consistent() && entries == old(entries) - {key} && order == Removed(old(order), key)
    {
      RemovedMembers(order, key);
      TotalRemoved(entries, order, key);
      var removed := |entries[key]|;
      TotalSame(entries, entries - {key}, Removed(order, key));
      entries := entries - {key};
      currentBytes := SaturatingSub(currentBytes, removed);
      var pos := Position(order, key);
      if pos < |order| {
        order := order[..pos] + order[pos + 1..];
      }
    }

    method AddEntry(key: BlockKey, bytes: Bytes)
      requires Consistent() && key !in entries
      modifies this
      ensures Consistent() && entries == old(entries)[key := bytes] && order == old(order) + [key]
    {
      TotalSame(entries, entries[key := bytes], order);
      entries := entries[key := bytes];
      TotalConcat(entries, order, [key]);
      OneTotal(entries, key);
      order := order + [key];
      currentBytes := currentBytes + |bytes|;
    }

    method EvictOldest()
      requires Consistent() && order != []
      modifies this
      ensures Consistent() && order == old(order)[1..] && entries == old(entries) - {old(order)[0]}
    {
      var key := order[0];
      DropFirst(order);
      TotalSame(entries, entries - {key}, order[1..]);
      order := order[1..];
      if key in entries {
        var evicted := |entries[key]|;
        entries := entries - {key};
        currentBytes := SaturatingSub(currentBytes, evicted);
      }
    }
  }

  lemma {:induction false} MustEvict(m: CachedBlocks, order: seq<BlockKey>, capacity: nat, n: nat)
    requires n < |order| && n <= EvictCount(m, order, capacity) && Total(m, order[n..]) > capacity
    ensures n < EvictCount(m, order, capacity) && order[n..][1..] == order[n + 1..]
  {
  }

  lemma {:induction false} MayStay(m: CachedBlocks, order: seq<BlockKey>, capacity: nat, n: nat)
    requires n <= EvictCount(m, order, capacity)
    requires n == |order| || Total(m, order[n..]) <= capacity
    ensures n == EvictCount(m, order, capacity)
  {
  }

  /** What was just inserted stays, if it fits at all. */
  lemma {:induction false} NewestStays(m: CachedBlocks, order: seq<BlockKey>, capacity: nat, k: BlockKey)
    requires order != [] && order[|order| - 1] == k && SizeOf(m, k) <= capacity
    ensures k in order[EvictCount(m, order, capacity)..]
  {
    var n := EvictCount(m, order, capacity);
    OneTotal(m, k);
    assert order[|order| - 1..] == [k];
    assert n < |order|;
    assert order[n..][|order| - 1 - n] == k;
  }

  lemma {:induction false} RestrictedTotal(all: CachedBlocks, order: seq<BlockKey>)
    ensures Total(Restricted(all, order), order) == Total(all, order)
  {
    TotalSame(Restricted(all, order), all, order);
  }

  lemma RestrictedAgain(all: CachedBlocks, order: seq<BlockKey>, rest: seq<BlockKey>)
    requires NoDup(order) && order != [] && rest == order[1..]
    ensures Restricted(all, order) - {order[0]} == Restricted(all, rest)
  {
    DropFirst(order);
  }

  // ---- FileHandleCache ------------------------------------------------------------------------

  /** order lists the ids of the open files once each. */
  ghost predicate ListsOpen<H>(order: seq<nat>, handles: map<nat, H>) {
    NoDup(order) && (forall id :: id in order <==> id in handles) && |order| == |handles|
  }

  lemma DropHandle<H>(order: seq<nat>, handles: map<nat, H>)
    requires ListsOpen(order, handles) && order != []
    ensures ListsOpen(order[1..], handles - {order[0]})
  {
    DropFirst(order);
  }

  lemma AddHandle<H>(order: seq<nat>, handles: map<nat, H>, id: nat, handle: H)
    requires ListsOpen(order, handles) && id !in handles
    ensures ListsOpen(order + [id], handles[id := handle])
  {
  }

  /** Open files by table id. disk says which file a table's path names. */
  class FileHandleCache<H(==)> {
    const maxOpenFiles: nat
    ghost const disk: nat -> H
    var handles: map<nat, H>
    var order: seq<nat>

    ghost predicate Valid()
      reads this
    {
      ListsOpen(order, handles) && |handles| <= maxOpenFiles && maxOpenFiles >= 1 && Faithful()
    }

    constructor (max: nat, ghost files: nat -> H)
      ensures Valid() && handles == map[] && disk == files && maxOpenFiles == if max < 1 then 1 else max
    {
      maxOpenFiles := if max < 1 then 1 else max;
      disk, handles, order := files, map[], [];
    }

    /** The first section of get_or_open, under the lock. */
    method Lookup(id: nat) returns (r: Option<H>)
      requires Valid()
      modifies this
      ensures Valid() && handles == old(handles)
      ensures r == if id in handles then Some(disk(id)) else None
      ensures order == if id in handles then Touched(old(order), id) else old(order)
    {
      if id !in handles {
        return None;
      }
      TouchedMembers(order, id);
      r := Some(handles[id]);
      var pos := Position(order, id);
      if pos < |order| {
        order := order[..pos] + order[pos + 1..];
      }
      order := order + [id];
    }

    /** The second section, after the file was opened without the lock: another thread may
        have been faster. */
    method Admit(id: nat, handle: H) returns (r: H)
      requires Valid() && handle == disk(id)
      modifies this
      ensures Valid() && r == disk(id) && id in handles
      ensures id in old(handles) ==> handles == old(handles) && order == old(order)
      ensures id !in old(handles) ==>
                var all := old(order) + [id]; order == if |all| <= maxOpenFiles then all else all[1..]
    {
      if id in handles {
        return handles[id];
      }
      AddHandle(order, handles, id, handle);
      handles := handles[id := handle];
      order := order + [id];
      r := handle;
      EvictUntilRoom();
      assert id in order;
    }

    method EvictUntilRoom()
      requires ListsOpen(order, handles) && Faithful() && |order| <= maxOpenFiles + 1 && maxOpenFiles >= 1
      modifies this
      ensures Valid()
      ensures order == if |old(order)| <= maxOpenFiles then old(order) else old(order)[1..]
    {
      while |handles| > maxOpenFiles && order != []
        invariant ListsOpen(order, handles) && Faithful()
        invariant order == old(order) || (order == old(order)[1..] && |order| == maxOpenFiles)
        decreases |order|
      {
        EvictOldest();
      }
    }

    method EvictOldest()
      requires ListsOpen(order, handles) && Faithful() && order != []
      modifies this
      ensures ListsOpen(order, handles) && Faithful()
      ensures order == old(order)[1..] && handles == old(handles) - {old(order)[0]}
    {
      DropHandle(order, handles);
      var evict := order[0];
      order := order[1..];
      handles := handles - {evict};
    }

    ghost predicate Faithful()
      reads this
    {
      forall id :: id in handles ==> handles[id] == disk(id)
    }
  }
}
