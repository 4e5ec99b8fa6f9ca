/** Sorted entry lists, what they answer, and the map they stand for. */
module SortedLists {
  import opened Entries
  import opened ByteSeqs

  /** One entry of a table: DecodedEntry and SstEntryInput. A tombstone has no value. */
  datatype Entry = Entry(key: Key, seqNo: nat, value: Option<Value>)

  function CellOf(e: Entry): Cell { Cell(e.seqNo, e.value) }

  function EntryOf(k: Key, c: Cell): Entry { Entry(k, c.seqNo, c.value) }

  /** Keys strictly ascending, so at most one entry per key. */
  ghost predicate Sorted(es: seq<Entry>) {
    forall i, j :: 0 <= i < j < |es| ==> Less(es[i].key, es[j].key)
  }

  ghost predicate HasKey(es: seq<Entry>, k: Key) {
    exists i :: 0 <= i < |es| && es[i].key == k
  }

  /** The entry of k, found by looking at all of them. */
  function Find(es: seq<Entry>, k: Key): Option<Entry> {
    if es == [] then None
    else if es[0].key == k then Some(es[0])
    else Find(es[1..], k)
  }

  function ToMap(es: seq<Entry>): Mem {
    if es == [] then map[]
    else var e := es[|es| - 1]; ToMap(es[..|es| - 1])[e.key := CellOf(e)]
  }

  lemma {:induction false} FindIndex(es: seq<Entry>, k: Key) returns (i: nat)
    ensures i <= |es| && (forall j :: 0 <= j < i ==> es[j].key != k)
    ensures i < |es| ==> es[i].key == k && Find(es, k) == Some(es[i])
    ensures i == |es| ==> Find(es, k) == None
  {
    if es == [] || es[0].key == k {
      i := 0;
    } else {
      var j := FindIndex(es[1..], k);
      i := j + 1;
    }
  }

  lemma {:induction false} ToMapAt(es: seq<Entry>, k: Key)
    ensures k in ToMap(es) <==> HasKey(es, k)
    ensures k in ToMap(es) ==> exists i :: 0 <= i < |es| && es[i].key == k && CellOf(es[i]) == ToMap(es)[k]
  {
    if es != [] {
      var n := |es| - 1;
      ToMapAt(es[..n], k);
      if es[n].key != k && HasKey(es, k) {
        var i :| 0 <= i < |es| && es[i].key == k;
        assert es[..n][i].key == k;
      }
    }
  }

  lemma KeyOnce(es: seq<Entry>, i: nat, j: nat)
    requires Sorted(es) && i < |es| && j < |es| && es[i].key == es[j].key
    ensures i == j
  {
    LessTotal(es[i].key, es[j].key);
  }

  /** A sorted list stands for the map with its entries. */
  lemma {:induction false} SortedContents(es: seq<Entry>, m: Mem)
    requires Sorted(es)
    requires forall i :: 0 <= i < |es| ==> es[i].key in m && m[es[i].key] == CellOf(es[i])
    requires forall k :: k in m ==> HasKey(es, k)
    ensures ToMap(es) == m
  {
    forall k ensures k in ToMap(es) <==> k in m
      ensures k in m ==> ToMap(es)[k] == m[k]
    {
      ToMapAt(es, k);
    }
  }

  /** Searching a sorted list is looking the key up in its map. */
  lemma {:induction false} FindIsGet(es: seq<Entry>, k: Key)
    requires Sorted(es)
    ensures Get(ToMap(es), k) == if Find(es, k).Some? then Some(CellOf(Find(es, k).value)) else None
  {
    ToMapAt(es, k);
    var i := FindIndex(es, k);
    if k in ToMap(es) {
      var j :| 0 <= j < |es| && es[j].key == k && CellOf(es[j]) == ToMap(es)[k];
      KeyOnce(es, i, j);
    } else {
      assert i < |es| ==> HasKey(es, k);
    }
  }
}
