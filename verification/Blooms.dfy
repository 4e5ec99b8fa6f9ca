/** The Bloom filter of a table: built in place, sealed, read back. */
module Blooms {
  import opened Entries
  import opened ByteSeqs
  import opened Sealing

  /** A filter as bytes hold it. */
  datatype Filter = Filter(bits: Bytes, numBits: nat, numHashes: nat)

  ghost predicate WellFormed(f: Filter) {
    0 < f.numBits < U64 && f.numBits == 8 * |f.bits| && 1 <= f.numHashes < U32
  }

  // ---- bits -----------------------------------------------------------------------------

  predicate Masked(x: bv8, i: nat)
    requires i < 8
  {
    x & (1 << i) != 0
  }

  function WithMask(x: bv8, i: nat): bv8
    requires i < 8
  {
    x | (1 << i)
  }

  predicate BitSet(b: Byte, i: nat)
    requires i < 8
  {
    Masked(b as bv8, i)
  }

  function SetBit(b: Byte, i: nat): Byte
    requires i < 8
  {
    WithMask(b as bv8, i) as int
  }

  lemma SameBits(x: bv8)
    ensures (x as int) as bv8 == x
  {
  }

  lemma OneMask(x: bv8, i: nat, j: nat)
    requires i < 8 && j < 8
    ensures Masked(WithMask(x, i), j) <==> i == j || Masked(x, j)
  {
  }

  lemma SetOneBit(b: Byte, i: nat, j: nat)
    requires i < 8 && j < 8
    ensures BitSet(SetBit(b, i), j) <==> i == j || BitSet(b, j)
  {
    var x := b as bv8;
    var y := WithMask(x, i);
    OneMask(x, i, j);
    SameBits(y);
  }

  predicate TestBit(bits: Bytes, idx: nat)
    requires idx < 8 * |bits|
  {
    BitSet(bits[idx / 8], idx % 8)
  }

  /** A bit position of a key: double hashing in 64-bit arithmetic. */
  function BitIndex(h: Hashing, key: Key, numBits: nat, i: nat): (idx: nat)
    requires numBits > 0
    ensures idx < numBits
  {
    var h1 := h.first(key) % U64;
    var h2 := if h.second(key) % U64 < 1 then 1 else h.second(key) % U64;
    (h1 + i * h2 % U64) % U64 % numBits
  }

  /** The wrapping steps of bit_indices amount to one linear form: the positions of a key lie h2
      apart, modulo 2^64, from h1 on; a second hash of zero counts as one. */
  lemma IndexIsLinear(h: Hashing, key: Key, numBits: nat, i: nat)
    requires numBits > 0
    ensures var h1, h2 := h.first(key) % U64, Max(h.second(key) % U64, 1);
            BitIndex(h, key, numBits, i) == (h1 + i * h2) % U64 % numBits
  {
    var h1, h2 := h.first(key) % U64, Max(h.second(key) % U64, 1);
    AddMod(h1, i * h2, U64);
  }

  lemma AddMod(a: nat, b: nat, m: nat)
    requires m > 0
    ensures (a + b % m) % m == (a + b) % m
  {
    var c := a + b % m;
    assert a + b == (c / m + b / m) * m + c % m;
    QuotientOf(a + b, c / m + b / m, m, c % m);
  }

  /** may_contain. */
  predicate MayContain(h: Hashing, f: Filter, key: Key)
    requires 0 < f.numBits <= 8 * |f.bits|
  {
    forall i :: 0 <= i < f.numHashes ==> TestBit(f.bits, BitIndex(h, key, f.numBits, i))
  }

  /** idx is a bit position of key among its first n. */
  ghost predicate IsIndexOf(h: Hashing, key: Key, numBits: nat, n: nat, idx: nat)
    requires numBits > 0
  {
    exists i :: 0 <= i < n && idx == BitIndex(h, key, numBits, i)
  }

  ghost predicate IsIndexOfAny(h: Hashing, keys: set<Key>, numBits: nat, n: nat, idx: nat)
    requires numBits > 0
  {
    exists k :: k in keys && IsIndexOf(h, k, numBits, n, idx)
  }

  /** The filter's set bits are exactly the positions of keys. */
  ghost predicate Marks(h: Hashing, f: Filter, keys: set<Key>) {
    WellFormed(f) && forall idx :: 0 <= idx < f.numBits ==> MarkedAt(h, f, keys, idx)
  }

  ghost predicate MarkedAt(h: Hashing, f: Filter, keys: set<Key>, idx: nat)
    requires WellFormed(f) && idx < f.numBits
  {
    TestBit(f.bits, idx) <==> IsIndexOfAny(h, keys, f.numBits, f.numHashes, idx)
  }

  /** A key may be contained exactly if each of its positions belongs to some added key. */
  lemma MayContainExactly(h: Hashing, f: Filter, keys: set<Key>, key: Key)
    requires Marks(h, f, keys)
    ensures MayContain(h, f, key) <==>
            forall i :: 0 <= i < f.numHashes ==>
              IsIndexOfAny(h, keys, f.numBits, f.numHashes, BitIndex(h, key, f.numBits, i))
  {
    forall i | 0 <= i < f.numHashes ensures MarkedAt(h, f, keys, BitIndex(h, key, f.numBits, i)) {
    }
  }

  /** No false negatives. */
  lemma NoFalseNegative(h: Hashing, f: Filter, keys: set<Key>, key: Key)
    requires Marks(h, f, keys) && key in keys
    ensures MayContain(h, f, key)
  {
    forall i | 0 <= i < f.numHashes
      ensures IsIndexOfAny(h, keys, f.numBits, f.numHashes, BitIndex(h, key, f.numBits, i))
    {
      assert IsIndexOf(h, key, f.numBits, f.numHashes, BitIndex(h, key, f.numBits, i));
    }
    MayContainExactly(h, f, keys, key);
  }

  // ---- BloomFilter ------------------------------------------------------------------------

  class BloomFilter {
    const h: Hashing
    var bits: array<Byte>
    const numBits: nat
    const numHashes: nat
    /** The keys added so far. */
    ghost var keys: set<Key>

    function Value(): Filter
      reads this, bits
    {
      Filter(bits[..], numBits, numHashes)
    }

    ghost predicate Valid()
      reads this, bits
    {
      Marks(h, Value(), keys)
    }

    /** bits and hashes as the sizing formula chose them. */
    constructor (hashing: Hashing, sizeInBits: nat, hashes: nat)
      requires 0 < sizeInBits < U64 && sizeInBits % 8 == 0 && 1 <= hashes < U32
      ensures Valid() && fresh(bits) && keys == {} && h == hashing && numBits == sizeInBits && numHashes == hashes
    {
      h, numBits, numHashes, keys := hashing, sizeInBits, hashes, {};
      bits := new Byte[sizeInBits / 8](_ => 0);
      new;
      forall idx | 0 <= idx < numBits ensures MarkedAt(h, Value(), keys, idx) {
        assert bits[..][idx / 8] == 0;
        ZeroByte(idx % 8);
      }
    }

    method Add(key: Key)
      requires Valid()
      modifies this, bits
      ensures Valid() && keys == old(keys) + {key} && bits == old(bits)
    {
      ghost var before := Value();
      for i := 0 to numHashes
        invariant bits == old(bits) && keys == old(keys)
        invariant WellFormed(Value()) && Grown(h, before, Value(), key, i)
      {
        ghost var f := Value();
        var idx := BitIndex(h, key, numBits, i);
        bits[idx / 8] := SetBit(bits[idx / 8], idx % 8);
        assert bits[..] == f.bits[idx / 8 := SetBit(f.bits[idx / 8], idx % 8)];
        GrowOne(h, before, f, Value(), key, i);
      }
      GrownMarks(h, before, Value(), keys, key);
      keys := keys + {key};
    }

    method Serialize() returns (b: Bytes)
      requires Valid()
      ensures b == Seal(h, FilterBody(Value()))
    {
      var body := Le64(numBits) + Le32(numHashes) + bits[..];
      b := body + Le32(Checksum(h, body));
    }
  }

  lemma ZeroByte(i: nat)
    requires i < 8
    ensures !BitSet(0, i)
  {
  }

  /** f is before plus the first n positions of key. */
  ghost predicate Grown(h: Hashing, before: Filter, f: Filter, key: Key, n: nat)
    requires WellFormed(before)
  {
    && WellFormed(f) && f.numBits == before.numBits && f.numHashes == before.numHashes
    && forall idx :: 0 <= idx < f.numBits ==> GrownAt(h, before, f, key, n, idx)
  }

  ghost predicate GrownAt(h: Hashing, before: Filter, f: Filter, key: Key, n: nat, idx: nat)
    requires WellFormed(before) && WellFormed(f) && f.numBits == before.numBits && idx < f.numBits
  {
    TestBit(f.bits, idx) <==> TestBit(before.bits, idx) || IsIndexOf(h, key, f.numBits, n, idx)
  }

  lemma GrowOne(h: Hashing, before: Filter, f: Filter, g: Filter, key: Key, n: nat)
    requires WellFormed(before) && Grown(h, before, f, key, n)
    requires var at := BitIndex(h, key, f.numBits, n);
             g == f.(bits := f.bits[at / 8 := SetBit(f.bits[at / 8], at % 8)])
    ensures Grown(h, before, g, key, n + 1)
  {
    var at, m := BitIndex(h, key, f.numBits, n), n + 1;
    forall idx | 0 <= idx < g.numBits ensures GrownAt(h, before, g, key, m, idx) {
      assert GrownAt(h, before, f, key, n, idx);
      SetOneBit(f.bits[at / 8], at % 8, idx % 8);
      OneMoreIndex(h, key, f.numBits, n, idx);
    }
  }

  lemma OneMoreIndex(h: Hashing, key: Key, numBits: nat, n: nat, idx: nat)
    requires numBits > 0
    ensures IsIndexOf(h, key, numBits, n + 1, idx) <==>
              IsIndexOf(h, key, numBits, n, idx) || idx == BitIndex(h, key, numBits, n)
  {
  }

  lemma GrownMarks(h: Hashing, before: Filter, f: Filter, keys: set<Key>, key: Key)
    requires Marks(h, before, keys) && Grown(h, before, f, key, before.numHashes)
    ensures Marks(h, f, keys + {key})
  {
    forall idx | 0 <= idx < f.numBits ensures MarkedAt(h, f, keys + {key}, idx) {
      assert MarkedAt(h, before, keys, idx) && GrownAt(h, before, f, key, before.numHashes, idx);
      OneMoreKey(h, keys, key, f.numBits, f.numHashes, idx);
    }
  }

  lemma OneMoreKey(h: Hashing, keys: set<Key>, key: Key, numBits: nat, n: nat, idx: nat)
    requires numBits > 0
    ensures IsIndexOfAny(h, keys + {key}, numBits, n, idx) <==>
            IsIndexOfAny(h, keys, numBits, n, idx) || IsIndexOf(h, key, numBits, n, idx)
  {
    if IsIndexOf(h, key, numBits, n, idx) {
      assert key in keys + {key};
    }
    if IsIndexOfAny(h, keys, numBits, n, idx) {
      var k :| k in keys && IsIndexOf(h, k, numBits, n, idx);
      assert k in keys + {key};
    }
  }

  // ---- the filter block -------------------------------------------------------------------

  function FilterBody(f: Filter): Bytes {
    Le64(f.numBits) + Le32(f.numHashes) + f.bits
  }

  /** BloomFilter::deserialize. */
  function Deserialize(body: Bytes): Result<Filter> {
    if |body| < 12 then Err
    else
      var numBits := U64At(body, 0);
      var numHashes := U32At(body, 8);
      if |body| != 12 + (numBits + 7) / 8 then Err else Ok(Filter(body[12..], numBits, numHashes))
  }

  lemma FilterRoundTrip(f: Filter)
    requires WellFormed(f)
    ensures Deserialize(FilterBody(f)) == Ok(f)
  {
    var body := FilterBody(f);
    AtSelf([], Le64(f.numBits), Le32(f.numHashes) + f.bits);
    assert [] + Le64(f.numBits) + (Le32(f.numHashes) + f.bits) == body;
    AtSelf(Le64(f.numBits), Le32(f.numHashes), f.bits);
    Number64(body, 0, f.numBits);
    Number32(body, 8, f.numHashes);
    assert body[12..] == f.bits;
  }
}
