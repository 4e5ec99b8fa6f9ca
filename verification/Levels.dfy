/** Lookup through a stack of levels (newest first), and what replacing some tables by
    their merge does to it. */
module Levels {
  import opened Entries

  datatype Table = Table(id: nat, content: Mem)

  /** The specification of the store: the map left by a history of writes. */
  function Fold(h: seq<Record>): Mem {
    if h == [] then map[]
    else var r := h[|h| - 1]; Fold(h[..|h| - 1])[r.key := Cell(r.seqNo, r.value)]
  }

  /** The first level that holds k answers, as in lookup_key_traced and search_sstables. */
  function FirstHit(levels: seq<Mem>, k: Key): Option<Cell> {
    if levels == [] then None
    else if k in levels[0] then Some(levels[0][k])
    else FirstHit(levels[1..], k)
  }

  function Contents(ts: seq<Table>): (ms: seq<Mem>)
    ensures |ms| == |ts| && forall i :: 0 <= i < |ts| ==> ms[i] == ts[i].content
  {
    seq(|ts|, i requires 0 <= i < |ts| => ts[i].content)
  }

  function Ids(ts: seq<Table>): (ids: seq<nat>)
    ensures |ids| == |ts| && forall i :: 0 <= i < |ts| ==> ids[i] == ts[i].id
  {
    seq(|ts|, i requires 0 <= i < |ts| => ts[i].id)
  }

  function Reversed<T>(s: seq<T>): (r: seq<T>)
    ensures |r| == |s| && forall i :: 0 <= i < |s| ==> r[i] == s[|s| - 1 - i]
  {
    seq(|s|, i requires 0 <= i < |s| => s[|s| - 1 - i])
  }

  ghost predicate Holds(levels: seq<Mem>, k: Key) {
    exists i :: 0 <= i < |levels| && k in levels[i]
  }

  /** Every write of k in any level is at most as new as the first hit, and no two
      different cells of k share a sequence number with it. */
  ghost predicate FirstIsNewest(levels: seq<Mem>, k: Key) {
    forall i :: 0 <= i < |levels| && k in levels[i] ==>
      FirstHit(levels, k).Some? && NotNewer(levels[i][k], FirstHit(levels, k).value)
  }

  predicate NotNewer(c: Cell, d: Cell) {
    c.seqNo <= d.seqNo && (c.seqNo == d.seqNo ==> c == d)
  }

  // ---- first hits -------------------------------------------------------------------

  lemma {:induction false} FirstHitConcat(a: seq<Mem>, b: seq<Mem>, k: Key)
    ensures FirstHit(a + b, k) == if FirstHit(a, k).Some? then FirstHit(a, k) else FirstHit(b, k)
  {
    if a == [] {
      assert a + b == b;
    } else {
      assert (a + b)[1..] == a[1..] + b;
      FirstHitConcat(a[1..], b, k);
    }
  }

  lemma ReversedCons(m: Mem, ms: seq<Mem>)
    ensures Reversed([m] + ms) == Reversed(ms) + [m]
  {
    assert ([m] + ms)[1..] == ms;
  }

  /** Leaving out an empty level changes no answer. */
  lemma {:induction false} DropEmptyLevel(above: seq<Mem>, below: seq<Mem>, k: Key)
    ensures FirstHit(above + [map[]] + below, k) == FirstHit(above + below, k)
    ensures FirstIsNewest(above + [map[]] + below, k) ==> FirstIsNewest(above + below, k)
  {
    assert above + [map[]] + below == above + ([map[]] + below);
    assert ([map[]] + below)[1..] == below;
    FirstHitConcat(above, [map[]] + below, k);
    FirstHitConcat(above, below, k);
    forall i | 0 <= i < |above + below| && k in (above + below)[i]
      ensures (above + below)[i] in above + [map[]] + below
    {
      assert (above + below)[i] == (above + [map[]] + below)[if i < |above| then i else i + 1];
    }
  }

  lemma {:induction false} FirstHitIndex(levels: seq<Mem>, k: Key) returns (i: nat)
    ensures i <= |levels|
    ensures forall j :: 0 <= j < i ==> k !in levels[j]
    ensures i < |levels| ==> k in levels[i] && FirstHit(levels, k) == Some(levels[i][k])
    ensures i == |levels| <==> FirstHit(levels, k).None?
  {
    if levels == [] || k in levels[0] {
      i := 0;
    } else {
      var j := FirstHitIndex(levels[1..], k);
      i := j + 1;
      assert forall x :: 0 < x < |levels| ==> levels[x] == levels[1..][x - 1];
    }
  }

  lemma {:induction false} TablesHitConcat(a: seq<Table>, b: seq<Table>, k: Key)
    ensures FirstHit(Contents(a + b), k) ==
            if FirstHit(Contents(a), k).Some? then FirstHit(Contents(a), k) else FirstHit(Contents(b), k)
  {
    assert Contents(a + b) == Contents(a) + Contents(b);
    FirstHitConcat(Contents(a), Contents(b), k);
  }

  lemma {:induction false} OneTableHit(t: Table, k: Key)
    ensures FirstHit(Contents([t]), k) == Get(t.content, k)
  {
    assert Contents([t]) == [t.content];
  }

  lemma {:induction false} FirstHitNone(levels: seq<Mem>, k: Key)
    ensures FirstHit(levels, k).None? <==> !Holds(levels, k)
  {
    var i := FirstHitIndex(levels, k);
  }

  // ---- folds ------------------------------------------------------------------------

  /** Record number i (from 0) carries sequence number i + 1. */
  ghost predicate Numbered(h: seq<Record>) {
    forall i :: 0 <= i < |h| ==> h[i].seqNo == i + 1
  }

  /** The cell is one that history h wrote for k. */
  ghost predicate Genuine(h: seq<Record>, k: Key, c: Cell) {
    0 < c.seqNo <= |h| && h[c.seqNo - 1] == Record(c.seqNo, k, c.value)
  }

  ghost predicate GenuineMem(h: seq<Record>, m: Mem) {
    forall k :: k in m ==> Genuine(h, k, m[k])
  }

  ghost predicate GenuineLevels(h: seq<Record>, levels: seq<Mem>) {
    forall i :: 0 <= i < |levels| ==> GenuineMem(h, levels[i])
  }

  lemma {:induction false} FoldConcat(a: seq<Record>, b: seq<Record>, k: Key)
    ensures Get(Fold(a + b), k) == if k in Fold(b) then Get(Fold(b), k) else Get(Fold(a), k)
  {
    if b == [] {
      assert a + b == a;
    } else {
      assert (a + b)[..|a + b| - 1] == a + b[..|b| - 1];
      FoldConcat(a, b[..|b| - 1], k);
    }
  }

  /** m holds, for each key written in h[a..b], the last such write, and nothing else. */
  ghost predicate LastOfRange(h: seq<Record>, a: nat, b: nat, m: Mem)
    requires a <= b <= |h|
  {
    && GenuineMem(h, m)
    && (forall k :: k in m ==> a < m[k].seqNo <= b)
    && (forall i :: a <= i < b ==> h[i].key in m && i < m[h[i].key].seqNo)
  }

  lemma {:induction false} FoldRange(h: seq<Record>, a: nat, b: nat)
    requires Numbered(h) && a <= b <= |h|
    ensures LastOfRange(h, a, b, Fold(h[a..b]))
    ensures a < b ==> h[b - 1].key in Fold(h[a..b]) && Fold(h[a..b])[h[b - 1].key] == Cell(b, h[b - 1].value)
  {
    LastInFold(h, a, b);
    if a < b {
      FoldSlice(h, a, b - 1);
    }
  }

  lemma {:induction false} LastInFold(h: seq<Record>, a: nat, b: nat)
    requires Numbered(h) && a <= b <= |h|
    ensures LastOfRange(h, a, b, Fold(h[a..b]))
  {
    if a == b {
      LastOfNone(h, a, h[a..b]);
    } else {
      var n: nat := b - 1;
      LastInFold(h, a, n);
      FoldSlice(h, a, n);
      LastOfOneMore(h, a, n, b, Fold(h[a..n]), Fold(h[a..b]));
    }
  }

  lemma {:induction false} LastOfNone(h: seq<Record>, a: nat, none: seq<Record>)
    requires a <= |h| && none == []
    ensures LastOfRange(h, a, a, Fold(none))
  {
  }

  lemma {:induction false} FoldSnoc(h: seq<Record>, r: Record)
    ensures Fold(h + [r]) == Fold(h)[r.key := Cell(r.seqNo, r.value)]
  {
    assert (h + [r])[..|h|] == h;
  }

  lemma FoldSlice(h: seq<Record>, a: nat, b: nat)
    requires a <= b < |h|
    ensures Fold(h[a..b + 1]) == Fold(h[a..b])[h[b].key := Cell(h[b].seqNo, h[b].value)]
  {
    assert h[a..b + 1] == h[a..b] + [h[b]];
    FoldSnoc(h[a..b], h[b]);
  }

  lemma LastOfOneMore(h: seq<Record>, a: nat, n: nat, b: nat, m: Mem, more: Mem)
    requires Numbered(h) && a <= n < |h| && b == n + 1 && LastOfRange(h, a, n, m)
    requires more == m[h[n].key := Cell(h[n].seqNo, h[n].value)]
    ensures LastOfRange(h, a, b, more)
  {
  }

  lemma FoldBound(h: seq<Record>, a: nat, b: nat, k: Key)
    requires Numbered(h) && a <= b <= |h| && k in Fold(h[a..b])
    ensures a < Fold(h[a..b])[k].seqNo <= b
  {
    FoldRange(h, a, b);
  }

  lemma FoldCut(h: seq<Record>, a: nat, b: nat, c: nat, k: Key)
    requires a <= b <= c <= |h|
    ensures Get(Fold(h[a..c]), k) == if k in Fold(h[b..c]) then Get(Fold(h[b..c]), k) else Get(Fold(h[a..b]), k)
  {
    assert h[a..c] == h[a..b] + h[b..c];
    FoldConcat(h[a..b], h[b..c], k);
  }

  lemma {:induction false} FoldAll(h: seq<Record>)
    requires Numbered(h)
    ensures LastOfRange(h, 0, |h|, Fold(h))
  {
    assert h[0..|h|] == h;
    FoldRange(h, 0, |h|);
  }

  lemma GenuineExtends(h: seq<Record>, more: seq<Record>, levels: seq<Mem>)
    requires GenuineLevels(h, levels)
    ensures GenuineLevels(h + more, levels)
  {
    forall i | 0 <= i < |levels| ensures GenuineMem(h + more, levels[i]) {
      assert GenuineMem(h, levels[i]);
    }
  }

  /** When the first hit of k is what the history says, it is the newest cell of k. */
  lemma {:induction false} SpecIsNewest(h: seq<Record>, levels: seq<Mem>, k: Key)
    requires Numbered(h) && GenuineLevels(h, levels)
    requires FirstHit(levels, k) == Get(Fold(h), k)
    ensures FirstIsNewest(levels, k)
  {
    FoldAll(h);
    FirstHitNone(levels, k);
    forall i | 0 <= i < |levels| && k in levels[i]
      ensures FirstHit(levels, k).Some?
      ensures NotNewer(levels[i][k], FirstHit(levels, k).value)
    {
      GenuineNotNewer(h, levels[i], k);
    }
  }

  lemma {:induction false} GenuineNotNewer(h: seq<Record>, m: Mem, k: Key)
    requires Numbered(h) && GenuineMem(h, m) && k in m && LastOfRange(h, 0, |h|, Fold(h))
    ensures k in Fold(h) && NotNewer(m[k], Fold(h)[k])
  {
    var c := m[k];
    assert Genuine(h, k, c);
    assert h[c.seqNo - 1].key == k;
    assert Genuine(h, k, Fold(h)[k]);
  }

  // ---- merging ----------------------------------------------------------------------

  /** The winner of MergeIterator::next for k: highest sequence number, first source on a tie. */
  function Best(inputs: seq<Mem>, k: Key): Option<Cell> {
    if inputs == [] then None
    else
      var w := Best(inputs[..|inputs| - 1], k);
      var m := inputs[|inputs| - 1];
      if k in m && (w.None? || m[k].seqNo > w.value.seqNo) then Some(m[k]) else w
  }

  lemma {:induction false} BestIsNewest(inputs: seq<Mem>, k: Key)
    ensures Best(inputs, k).Some? <==> Holds(inputs, k)
    ensures Best(inputs, k).Some? ==>
      (exists i :: 0 <= i < |inputs| && k in inputs[i] && inputs[i][k] == Best(inputs, k).value) &&
      forall i :: 0 <= i < |inputs| && k in inputs[i] ==> inputs[i][k].seqNo <= Best(inputs, k).value.seqNo
  {
    if inputs != [] {
      var init := inputs[..|inputs| - 1];
      BestIsNewest(init, k);
      if Best(init, k).Some? {
        var i :| 0 <= i < |init| && k in init[i] && init[i][k] == Best(init, k).value;
        assert inputs[i] == init[i];
      }
      assert forall i :: 0 <= i < |init| ==> inputs[i] == init[i];
    }
  }

  /** On a tie the first source wins: everything in front of the winner is strictly older. */
  lemma {:induction false} BestIsFirst(inputs: seq<Mem>, k: Key) returns (i: nat)
    requires Best(inputs, k).Some?
    ensures i < |inputs| && k in inputs[i] && inputs[i][k] == Best(inputs, k).value
    ensures forall j :: 0 <= j < i && k in inputs[j] ==> inputs[j][k].seqNo < inputs[i][k].seqNo
  {
    var n := |inputs| - 1;
    var init := inputs[..n];
    assert forall j :: 0 <= j < n ==> init[j] == inputs[j];
    if Best(inputs, k) == Best(init, k) {
      i := BestIsFirst(init, k);
    } else {
      i := n;
      BestIsNewest(init, k);
    }
  }

  function KeysOf(inputs: seq<Mem>): (ks: set<Key>)
    ensures forall k :: k in ks <==> Holds(inputs, k)
  {
    set i, k | 0 <= i < |inputs| && k in inputs[i] :: k
  }

  /** The content of a compaction's output table. */
  function MergeAll(inputs: seq<Mem>): (m: Mem)
    ensures forall k :: Get(m, k) == Best(inputs, k)
  {
    assert forall k :: Best(inputs, k).Some? <==> Holds(inputs, k) by {
      forall k ensures Best(inputs, k).Some? <==> Holds(inputs, k) { BestIsNewest(inputs, k); }
    }
    map k | k in KeysOf(inputs) :: Best(inputs, k).value
  }

  // ---- replacing inputs by their merge ------------------------------------------------

  function FirstIn(ts: seq<Table>, ids: set<nat>): (p: nat)
    ensures p <= |ts|
    ensures forall i :: 0 <= i < p ==> ts[i].id !in ids
    ensures p < |ts| ==> ts[p].id in ids
  {
    if ts == [] || ts[0].id in ids then 0 else 1 + FirstIn(ts[1..], ids)
  }

  function Without(ts: seq<Table>, ids: set<nat>): seq<Table> {
    if ts == [] then []
    else if ts[0].id in ids then Without(ts[1..], ids)
    else [ts[0]] + Without(ts[1..], ids)
  }

  lemma {:induction false} WithoutIs(ts: seq<Table>, ids: set<nat>)
    ensures forall t :: t in Without(ts, ids) <==> t in ts && t.id !in ids
  {
    if ts != [] {
      WithoutIs(ts[1..], ids);
      assert ts == [ts[0]] + ts[1..];
    }
  }

  /** The table list after a compaction: the inputs go, the output takes the place of the
      newest of them. */
  function Replace(ts: seq<Table>, ids: set<nat>, out: Table): seq<Table> {
    var pos := FirstIn(ts, ids);
    var p := if pos == |ts| then 0 else pos;
    var rest := Without(ts, ids);
    var q := if p <= |rest| then p else |rest|;
    rest[..q] + [out] + rest[q..]
  }

  lemma {:induction false} WithoutConcat(a: seq<Table>, b: seq<Table>, ids: set<nat>)
    ensures Without(a + b, ids) == Without(a, ids) + Without(b, ids)
  {
    if a == [] {
      assert a + b == b;
    } else {
      assert (a + b)[1..] == a[1..] + b;
      WithoutConcat(a[1..], b, ids);
    }
  }

  lemma {:induction false} WithoutNone(ts: seq<Table>, ids: set<nat>)
    requires forall i :: 0 <= i < |ts| ==> ts[i].id !in ids
    ensures Without(ts, ids) == ts
  {
    if ts != [] {
      WithoutNone(ts[1..], ids);
    }
  }

  lemma {:induction false} ReplaceShape(ts: seq<Table>, ids: set<nat>, out: Table)
    requires FirstIn(ts, ids) < |ts|
    ensures var p := FirstIn(ts, ids);
            Replace(ts, ids, out) == ts[..p] + [out] + Without(ts[p..], ids)
  {
    var p := FirstIn(ts, ids);
    assert ts == ts[..p] + ts[p..];
    WithoutConcat(ts[..p], ts[p..], ids);
    WithoutNone(ts[..p], ids);
  }

  /** Table i is an input and holds k. */
  ghost predicate IsSource(ts: seq<Table>, ids: set<nat>, k: Key, i: int) {
    0 <= i < |ts| && ts[i].id in ids && k in ts[i].content
  }

  /** Table h is the newest one that holds k. */
  ghost predicate IsFirstHolder(ts: seq<Table>, k: Key, h: int) {
    0 <= h < |ts| && k in ts[h].content && forall j :: 0 <= j < h ==> k !in ts[j].content
  }

  ghost predicate InputHolds(ts: seq<Table>, ids: set<nat>, k: Key) {
    exists i :: IsSource(ts, ids, k, i)
  }

  /** The output holds, for each key of an input, the newest of the inputs' cells. */
  ghost predicate IsMergeOf(ts: seq<Table>, ids: set<nat>, m: Mem) {
    forall k :: MergedAt(ts, ids, m, k)
  }

  ghost predicate MergedAt(ts: seq<Table>, ids: set<nat>, m: Mem, k: Key) {
    && (k in m <==> InputHolds(ts, ids, k))
    && (k in m ==> exists i :: IsSource(ts, ids, k, i) && ts[i].content[k] == m[k])
    && (k in m ==> forall i :: IsSource(ts, ids, k, i) ==> ts[i].content[k].seqNo <= m[k].seqNo)
  }

  /** If an input holds k, the newest holder of k is not a table that stays behind the
      output's place. */
  ghost predicate SafeFor(ts: seq<Table>, ids: set<nat>, k: Key) {
    InputHolds(ts, ids, k) ==>
      forall h :: IsFirstHolder(ts, k, h) && FirstIn(ts, ids) <= h ==> ts[h].id in ids
  }

  ghost predicate SafeInputs(ts: seq<Table>, ids: set<nat>) {
    forall k :: SafeFor(ts, ids, k)
  }

  ghost predicate Contiguous(ts: seq<Table>, ids: set<nat>) {
    exists a, b :: InputsAre(ts, ids, a, b)
  }

  ghost predicate InputsAre(ts: seq<Table>, ids: set<nat>, a: int, b: int) {
    0 <= a <= b <= |ts| && forall i :: 0 <= i < |ts| ==> (ts[i].id in ids <==> a <= i < b)
  }

  ghost predicate StrictlyNewestFirst(levels: seq<Mem>) {
    forall i, j :: 0 <= i < j < |levels| ==> AllNewer(levels[i], levels[j])
  }

  ghost predicate AllNewer(m: Mem, older: Mem) {
    forall k :: k in m && k in older ==> m[k].seqNo > older[k].seqNo
  }

  lemma ContiguousIsSafe(ts: seq<Table>, ids: set<nat>)
    requires Contiguous(ts, ids)
    ensures SafeInputs(ts, ids)
  {
    var a, b :| InputsAre(ts, ids, a, b);
    forall k ensures SafeFor(ts, ids, k) {
      forall h, i | IsSource(ts, ids, k, i) && IsFirstHolder(ts, k, h) && FirstIn(ts, ids) <= h
        ensures ts[h].id in ids
      {
        assert a <= FirstIn(ts, ids) <= h <= i < b;
      }
    }
  }

  lemma InputHoldsTail(ts: seq<Table>, ids: set<nat>, p: nat, k: Key)
    requires p <= |ts|
    ensures InputHolds(ts[p..], ids, k) ==> InputHolds(ts, ids, k)
  {
    forall i | IsSource(ts[p..], ids, k, i) ensures IsSource(ts, ids, k, p + i) {}
  }

  lemma {:induction false} WithoutKeepsHit(ts: seq<Table>, ids: set<nat>, k: Key)
    requires !InputHolds(ts, ids, k)
    ensures FirstHit(Contents(Without(ts, ids)), k) == FirstHit(Contents(ts), k)
  {
    if ts != [] {
      InputHoldsTail(ts, ids, 1, k);
      assert !IsSource(ts, ids, k, 0);
      WithoutKeepsHit(ts[1..], ids, k);
      assert Contents(ts)[1..] == Contents(ts[1..]);
      if ts[0].id !in ids {
        var w := Without(ts, ids);
        assert w[1..] == Without(ts[1..], ids);
        assert Contents(w)[1..] == Contents(w[1..]);
      }
    }
  }

  lemma {:induction false} FrontHit(ts: seq<Table>, p: nat, k: Key)
    requires p <= |ts|
    ensures FirstHit(Contents(ts), k) ==
            if FirstHit(Contents(ts[..p]), k).Some? then FirstHit(Contents(ts[..p]), k)
            else FirstHit(Contents(ts[p..]), k)
  {
    assert ts == ts[..p] + ts[p..];
    TablesHitConcat(ts[..p], ts[p..], k);
  }

  /** What the replaced list answers for k. */
  lemma {:induction false} ReplacedHit(ts: seq<Table>, ids: set<nat>, out: Table, k: Key)
    requires MergedAt(ts, ids, out.content, k) && FirstIn(ts, ids) < |ts|
    ensures var front := FirstHit(Contents(ts[..FirstIn(ts, ids)]), k);
            FirstHit(Contents(Replace(ts, ids, out)), k) ==
            if front.Some? then front
            else if k in out.content then Some(out.content[k])
            else FirstHit(Contents(ts), k)
  {
    var p := FirstIn(ts, ids);
    ReplaceShape(ts, ids, out);
    TablesHitConcat(ts[..p] + [out], Without(ts[p..], ids), k);
    TablesHitConcat(ts[..p], [out], k);
    OneTableHit(out, k);
    FrontHit(ts, p, k);
    if k !in out.content {
      InputHoldsTail(ts, ids, p, k);
      WithoutKeepsHit(ts[p..], ids, k);
    }
  }

  /** A list answers from its newest holder; none before the front means it lies behind. */
  lemma {:induction false} HitIsFirstHolder(ts: seq<Table>, p: nat, k: Key)
    requires p <= |ts| && FirstHit(Contents(ts[..p]), k).None? && FirstHit(Contents(ts), k).Some?
    ensures exists h :: IsFirstHolder(ts, k, h) && p <= h && FirstHit(Contents(ts), k) == Some(ts[h].content[k])
  {
    var h := FirstHitIndex(Contents(ts), k);
    FirstHitNone(Contents(ts[..p]), k);
    forall j | 0 <= j < p ensures k !in ts[j].content {
      assert Contents(ts[..p])[j] == ts[j].content;
    }
    assert IsFirstHolder(ts, k, h);
  }

  lemma {:induction false} FirstHolderHits(ts: seq<Table>, k: Key, h: nat)
    requires IsFirstHolder(ts, k, h)
    ensures FirstHit(Contents(ts), k) == Some(ts[h].content[k])
    ensures forall p :: 0 <= p <= h ==> FirstHit(Contents(ts[..p]), k).None?
  {
    var h' := FirstHitIndex(Contents(ts), k);
    forall p | 0 <= p <= h ensures FirstHit(Contents(ts[..p]), k).None? {
      FirstHitNone(Contents(ts[..p]), k);
    }
  }

  /** A safe compaction keeps the first hit of k, whatever levels lie above the tables. */
  lemma {:induction false} CompactionKeepsHit(above: seq<Mem>, ts: seq<Table>, ids: set<nat>, out: Table, k: Key)
    requires MergedAt(ts, ids, out.content, k) && FirstIn(ts, ids) < |ts|
    requires FirstIsNewest(above + Contents(ts), k)
    requires SafeFor(ts, ids, k)
    ensures FirstHit(above + Contents(Replace(ts, ids, out)), k) == FirstHit(above + Contents(ts), k)
  {
    var p := FirstIn(ts, ids);
    FirstHitConcat(above, Contents(ts), k);
    FirstHitConcat(above, Contents(Replace(ts, ids, out)), k);
    ReplacedHit(ts, ids, out, k);
    FrontHit(ts, p, k);
    if FirstHit(above, k).None? && FirstHit(Contents(ts[..p]), k).None? && k in out.content {
      MergeAgrees(above, ts, ids, out, k);
    }
  }

  lemma {:induction false} MergeAgrees(above: seq<Mem>, ts: seq<Table>, ids: set<nat>, out: Table, k: Key)
    requires MergedAt(ts, ids, out.content, k) && FirstIn(ts, ids) < |ts| && k in out.content
    requires FirstIsNewest(above + Contents(ts), k) && SafeFor(ts, ids, k)
    requires FirstHit(Contents(ts[..FirstIn(ts, ids)]), k).None?
    requires FirstHit(above + Contents(ts), k) == FirstHit(Contents(ts), k)
    ensures FirstHit(Contents(ts), k) == Some(out.content[k])
  {
    var i :| IsSource(ts, ids, k, i) && ts[i].content[k] == out.content[k];
    assert (above + Contents(ts))[|above| + i] == ts[i].content;
    HitIsFirstHolder(ts, FirstIn(ts, ids), k);
    var h :| IsFirstHolder(ts, k, h) && FirstIn(ts, ids) <= h && FirstHit(Contents(ts), k) == Some(ts[h].content[k]);
    assert IsSource(ts, ids, k, h);
  }

  /** The exact condition: with tables newest-first per key, a compaction leaves every
      lookup alone if and only if its inputs are safe. */
  lemma {:induction false} CompactionExact(ts: seq<Table>, ids: set<nat>, out: Table)
    requires IsMergeOf(ts, ids, out.content) && FirstIn(ts, ids) < |ts|
    requires StrictlyNewestFirst(Contents(ts))
    ensures (forall k :: FirstHit(Contents(Replace(ts, ids, out)), k) == FirstHit(Contents(ts), k))
            <==> SafeInputs(ts, ids)
  {
    forall k
      ensures FirstHit(Contents(Replace(ts, ids, out)), k) == FirstHit(Contents(ts), k) <==> SafeFor(ts, ids, k)
    {
      assert MergedAt(ts, ids, out.content, k);
      CompactionExactAt(ts, ids, out, k);
    }
    if SafeInputs(ts, ids) {
      forall k ensures FirstHit(Contents(Replace(ts, ids, out)), k) == FirstHit(Contents(ts), k) {
        assert SafeFor(ts, ids, k);
      }
    } else {
      var k :| !SafeFor(ts, ids, k);
      assert FirstHit(Contents(Replace(ts, ids, out)), k) != FirstHit(Contents(ts), k);
    }
  }

  /** A non-input table h that holds k first, behind the output's place, is overtaken. */
  lemma {:induction false} UnsafeChanges(ts: seq<Table>, ids: set<nat>, out: Table, k: Key, h: nat)
    requires MergedAt(ts, ids, out.content, k) && InputHolds(ts, ids, k)
    requires IsFirstHolder(ts, k, h) && FirstIn(ts, ids) <= h && ts[h].id !in ids
    requires StrictlyNewestFirst(Contents(ts))
    ensures FirstHit(Contents(Replace(ts, ids, out)), k) == Some(out.content[k])
    ensures FirstHit(Contents(ts), k) == Some(ts[h].content[k])
    ensures out.content[k].seqNo < ts[h].content[k].seqNo
  {
    FirstHolderHits(ts, k, h);
    ReplacedHit(ts, ids, out, k);
    var i :| IsSource(ts, ids, k, i) && ts[i].content[k] == out.content[k];
    assert AllNewer(Contents(ts)[h], Contents(ts)[i]);
  }

  lemma {:induction false} CompactionExactAt(ts: seq<Table>, ids: set<nat>, out: Table, k: Key)
    requires MergedAt(ts, ids, out.content, k) && FirstIn(ts, ids) < |ts|
    requires StrictlyNewestFirst(Contents(ts))
    ensures FirstHit(Contents(Replace(ts, ids, out)), k) == FirstHit(Contents(ts), k) <==> SafeFor(ts, ids, k)
  {
    var ms := Contents(ts);
    if SafeFor(ts, ids, k) {
      OrderedFirstIsNewest(ms, k);
      assert [] + ms == ms;
      assert [] + Contents(Replace(ts, ids, out)) == Contents(Replace(ts, ids, out));
      CompactionKeepsHit([], ts, ids, out, k);
    } else {
      var h :| IsFirstHolder(ts, k, h) && FirstIn(ts, ids) <= h && ts[h].id !in ids;
      UnsafeChanges(ts, ids, out, k, h);
    }
  }

  lemma OrderedFirstIsNewest(levels: seq<Mem>, k: Key)
    requires StrictlyNewestFirst(levels)
    ensures FirstIsNewest(levels, k)
  {
    var h := FirstHitIndex(levels, k);
    forall i | 0 <= i < |levels| && k in levels[i]
      ensures FirstHit(levels, k).Some? && NotNewer(levels[i][k], FirstHit(levels, k).value)
    {
      assert h < i ==> AllNewer(levels[h], levels[i]);
    }
  }

  /** A compaction keeps the strict newest-first order when its inputs are contiguous. */
  lemma {:induction false} ContiguousKeepsOrder(ts: seq<Table>, ids: set<nat>, out: Table)
    requires IsMergeOf(ts, ids, out.content) && FirstIn(ts, ids) < |ts|
    requires Contiguous(ts, ids) && StrictlyNewestFirst(Contents(ts))
    ensures StrictlyNewestFirst(Contents(Replace(ts, ids, out)))
  {
    var a, b :| InputsAre(ts, ids, a, b);
    var p := FirstIn(ts, ids);
    assert ts[a].id in ids;
    ReplaceShape(ts, ids, out);
    var ts' := Replace(ts, ids, out);
    ContiguousTail(ts, ids, a, b);
    assert ts' == ts[..a] + [out] + ts[b..];
    forall i, j | 0 <= i < j < |ts'|
      ensures AllNewer(ts'[i].content, ts'[j].content)
    {
      forall k | k in ts'[i].content && k in ts'[j].content
        ensures ts'[i].content[k].seqNo > ts'[j].content[k].seqNo
      {
        var i0 := Origin(ts, ids, a, b, out, i, k);
        var j0 := Origin(ts, ids, a, b, out, j, k);
        assert AllNewer(Contents(ts)[i0], Contents(ts)[j0]);
      }
    }
    assert Contents(ts') == seq(|ts'|, i requires 0 <= i < |ts'| => ts'[i].content);
  }

  /** Where the cell of k at place i of the compacted list was before. */
  lemma Origin(ts: seq<Table>, ids: set<nat>, a: nat, b: nat, out: Table, i: nat, k: Key) returns (i0: nat)
    requires InputsAre(ts, ids, a, b) && a < b && MergedAt(ts, ids, out.content, k)
    requires var ts' := ts[..a] + [out] + ts[b..]; i < |ts'| && k in ts'[i].content
    ensures i0 < |ts| && k in ts[i0].content
    ensures ts[i0].content[k] == (ts[..a] + [out] + ts[b..])[i].content[k]
    ensures if i < a then i0 == i else if i == a then a <= i0 < b else i0 == i + b - a - 1
  {
    if i < a {
      i0 := i;
    } else if i == a {
      var w :| IsSource(ts, ids, k, w) && ts[w].content[k] == out.content[k];
      i0 := w;
    } else {
      i0 := i + b - a - 1;
    }
  }

  lemma {:induction false} ContiguousTail(ts: seq<Table>, ids: set<nat>, a: nat, b: nat)
    requires InputsAre(ts, ids, a, b)
    ensures Without(ts[a..], ids) == ts[b..]
  {
    assert ts[a..] == ts[a..b] + ts[b..];
    WithoutConcat(ts[a..b], ts[b..], ids);
    WithoutAll(ts[a..b], ids);
    WithoutNone(ts[b..], ids);
  }

  lemma {:induction false} WithoutAll(ts: seq<Table>, ids: set<nat>)
    requires forall i :: 0 <= i < |ts| ==> ts[i].id in ids
    ensures Without(ts, ids) == []
  {
    if ts != [] {
      WithoutAll(ts[1..], ids);
    }
  }
}
