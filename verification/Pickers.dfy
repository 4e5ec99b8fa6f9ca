/** Which tables to compact next, and why the worker's retry loop ends. */
module Pickers {
  import opened Entries
  import opened Engine

  datatype TableInfo = TableInfo(id: nat, fileSize: nat)

  // ---- the order of candidates ----------------------------------------------------------------

  /** Smaller files first; of equal files the newer one, which has the larger id. */
  predicate Before(a: TableInfo, b: TableInfo) {
    a.fileSize < b.fileSize || (a.fileSize == b.fileSize && a.id > b.id)
  }

  ghost predicate Ordered(ts: seq<TableInfo>) {
    forall i, j :: 0 <= i < j < |ts| ==> !Before(ts[j], ts[i])
  }

  function Eligible(ts: seq<TableInfo>, inProgress: set<nat>): (r: seq<TableInfo>)
    ensures forall t :: t in r <==> t in ts && t.id !in inProgress
    ensures |r| <= |ts|
  {
    if ts == [] then []
    else
      var rest := Eligible(ts[1..], inProgress);
      assert ts == [ts[0]] + ts[1..];
      if ts[0].id in inProgress then rest else [ts[0]] + rest
  }

  function Insert(t: TableInfo, ts: seq<TableInfo>): (r: seq<TableInfo>)
    ensures |r| == |ts| + 1 && multiset(r) == multiset{t} + multiset(ts)
  {
    if ts == [] || !Before(ts[0], t) then [t] + ts
    else
      assert ts == [ts[0]] + ts[1..];
      [ts[0]] + Insert(t, ts[1..])
  }

  /** candidates.sort_by. */
  function SortBySize(ts: seq<TableInfo>): (r: seq<TableInfo>)
    ensures |r| == |ts| && multiset(r) == multiset(ts)
  {
    if ts == [] then []
    else
      assert ts == [ts[0]] + ts[1..];
      Insert(ts[0], SortBySize(ts[1..]))
  }

  lemma {:induction false} InsertOrdered(t: TableInfo, ts: seq<TableInfo>)
    requires Ordered(ts)
    ensures Ordered(Insert(t, ts))
  {
    if ts != [] && Before(ts[0], t) {
      var rest := ts[1..];
      InsertOrdered(t, rest);
      var r := Insert(t, ts);
      forall i, j | 0 <= i < j < |r| ensures !Before(r[j], r[i]) {
        if i == 0 {
          InsertMember(t, rest, r[j]);
        } else {
          assert r[i] == Insert(t, rest)[i - 1] && r[j] == Insert(t, rest)[j - 1];
        }
      }
    } else {
      var r := [t] + ts;
      forall i, j | 0 <= i < j < |r| ensures !Before(r[j], r[i]) {
        if i == 0 && j > 1 {
          assert !Before(ts[j - 1], ts[0]);
        }
      }
    }
  }

  lemma {:induction false} InsertMember(t: TableInfo, ts: seq<TableInfo>, x: TableInfo)
    requires x in Insert(t, ts)
    ensures x == t || x in ts
  {
    assert x in multiset(Insert(t, ts));
  }

  lemma {:induction false} SortOrdered(ts: seq<TableInfo>)
    ensures Ordered(SortBySize(ts))
  {
    if ts != [] {
      SortOrdered(ts[1..]);
      InsertOrdered(ts[0], SortBySize(ts[1..]));
    }
  }

  // ---- windows ------------------------------------------------------------------------------------

  function AtLeastOne(n: nat): nat { if n < 1 then 1 else n }

  function Largest(ts: seq<TableInfo>): nat {
    if ts == [] then 0
    else if Largest(ts[1..]) < ts[0].fileSize then ts[0].fileSize
    else Largest(ts[1..])
  }

  /** In a listing from small to large the largest file is the last. */
  lemma {:induction false} LargestIsLast(ts: seq<TableInfo>)
    requires Ordered(ts) && ts != []
    ensures Largest(ts) == ts[|ts| - 1].fileSize
  {
    if |ts| > 1 {
      LargestIsLast(ts[1..]);
      assert !Before(ts[|ts| - 1], ts[0]);
    } else {
      assert ts[1..] == [];
    }
  }

  /** Every file of the window is within ratio of its first. */
  predicate Similar(window: seq<TableInfo>, ratio: real) {
    window != [] && AtLeastOne(Largest(window)) as real <= AtLeastOne(window[0].fileSize) as real * ratio
  }

  /** The window of n that starts at i is there, and its files are similar. */
  predicate SimilarAt(c: seq<TableInfo>, n: nat, ratio: real, i: nat) {
    i + n <= |c| && Similar(c[i..i + n], ratio)
  }

  /** No window that starts from a up to b is similar. */
  ghost predicate NoneSimilar(c: seq<TableInfo>, n: nat, ratio: real, a: nat, b: nat) {
    forall i: nat :: a <= i < b ==> !SimilarAt(c, n, ratio, i)
  }

  /** The first window of n from start on whose files are similar. */
  function FirstSimilar(c: seq<TableInfo>, n: nat, ratio: real, start: nat): (w: Option<nat>)
    ensures w.Some? ==> start <= w.value && SimilarAt(c, n, ratio, w.value) && NoneSimilar(c, n, ratio, start, w.value)
    ensures w.None? ==> NoneSimilar(c, n, ratio, start, |c| + 1)
    decreases |c| - start
  {
    if start + n > |c| then None
    else if SimilarAt(c, n, ratio, start) then Some(start)
    else if start == |c| then None
    else FirstSimilar(c, n, ratio, start + 1)
  }

  function IdsOf(ts: seq<TableInfo>): (ids: seq<nat>)
    ensures |ids| == |ts| && forall i :: 0 <= i < |ts| ==> ids[i] == ts[i].id
  {
    seq(|ts|, i requires 0 <= i < |ts| => ts[i].id)
  }

  function FanIn(configured: nat): (n: nat)
    ensures n == Max(configured, 2)
  {
    if configured < 2 then 2 else configured
  }

  /** Where the chosen window starts: the first similar one, else at the smallest files. */
  function PickStart(order: seq<TableInfo>, n: nat, ratio: real): (start: nat)
    requires n <= |order|
    ensures start + n <= |order|
  {
    match FirstSimilar(order, n, ratio, 0)
    case Some(w) => w
    case None => 0
  }

  /** The window of n that pick takes from the sorted candidates. */
  function Chosen(order: seq<TableInfo>, n: nat, ratio: real): Option<seq<nat>> {
    if |order| < n then None
    else
      var start := PickStart(order, n, ratio);
      Some(IdsOf(order[start..start + n]))
  }

  /** picker::pick. */
  function Pick(tables: seq<TableInfo>, inProgress: set<nat>, fanIn: nat, ratio: real): Option<seq<nat>> {
    var n := FanIn(fanIn);
    var eligible := Eligible(tables, inProgress);
    if |eligible| < n then None else Chosen(SortBySize(eligible), n, ratio)
  }

  // ---- what a pick is -------------------------------------------------------------------------------

  ghost predicate DistinctInfos(ts: seq<TableInfo>) {
    forall i, j :: 0 <= i < j < |ts| ==> ts[i].id != ts[j].id
  }

  ghost predicate Distinct(ids: seq<nat>) {
    forall i, j :: 0 <= i < j < |ids| ==> ids[i] != ids[j]
  }

  /** order lists the eligible tables, smallest first. */
  ghost predicate IsOrderOf(order: seq<TableInfo>, tables: seq<TableInfo>, inProgress: set<nat>) {
    Ordered(order) && multiset(order) == multiset(Eligible(tables, inProgress))
  }

  /** The documented rule, over any listing of the eligible tables in the documented order:
      the first window of similar sizes, else the smallest ones. */
  ghost predicate FollowsRule(ids: seq<nat>, order: seq<TableInfo>, n: nat, ratio: real) {
    |order| >= n &&
    ((exists w :: IsFirstWindow(ids, order, n, ratio, w))
     || (ids == IdsOf(order[..n]) && NoneSimilar(order, n, ratio, 0, |order| + 1)))
  }

  ghost predicate IsFirstWindow(ids: seq<nat>, order: seq<TableInfo>, n: nat, ratio: real, w: nat) {
    SimilarAt(order, n, ratio, w) && ids == IdsOf(order[w..w + n]) && NoneSimilar(order, n, ratio, 0, w)
  }

  lemma {:induction false} EligibleDistinct(ts: seq<TableInfo>, inProgress: set<nat>)
    requires DistinctInfos(ts)
    ensures DistinctInfos(Eligible(ts, inProgress))
  {
    if ts != [] {
      var rest := Eligible(ts[1..], inProgress);
      EligibleDistinct(ts[1..], inProgress);
      if ts[0].id !in inProgress {
        var r := Eligible(ts, inProgress);
        forall i, j | 0 <= i < j < |r| ensures r[i].id != r[j].id {
          assert r[j] == rest[j - 1] && rest[j - 1] in ts[1..];
          if i > 0 {
            assert r[i] == rest[i - 1];
          }
        }
      }
    }
  }

  lemma SameMembers(a: seq<TableInfo>, b: seq<TableInfo>)
    requires multiset(a) == multiset(b)
    ensures |a| == |b| && forall t :: t in a <==> t in b
  {
    assert |multiset(a)| == |a| && |multiset(b)| == |b|;
    forall t ensures t in a <==> t in b {
      assert t in multiset(a) <==> t in multiset(b);
    }
  }

  lemma {:induction false} DistinctById(a: seq<TableInfo>, b: seq<TableInfo>)
    requires multiset(a) == multiset(b) && DistinctInfos(a)
    ensures DistinctInfos(b)
  {
    SameMembers(a, b);
    forall i, j | 0 <= i < j < |b| ensures b[i].id != b[j].id {
      if b[i].id == b[j].id {
        SameInfo(a, b, b[i], b[j]);
        TwiceIn(b, i, j);
        OnceIn(a, b[i]);
        assert false;
      }
    }
  }

  lemma SameInfo(a: seq<TableInfo>, b: seq<TableInfo>, x: TableInfo, y: TableInfo)
    requires DistinctInfos(a) && (forall t :: t in b <==> t in a) && x in b && y in b && x.id == y.id
    ensures x == y
  {
    var i :| 0 <= i < |a| && a[i] == x;
    var j :| 0 <= j < |a| && a[j] == y;
  }

  lemma TwiceIn(b: seq<TableInfo>, i: nat, j: nat)
    requires i < j < |b| && b[i] == b[j]
    ensures multiset(b)[b[i]] >= 2
  {
    assert b == b[..j] + [b[j]] + b[j + 1..];
    assert b[i] in b[..j];
    assert multiset(b[..j])[b[i]] >= 1;
  }

  lemma {:induction false} OnceIn(a: seq<TableInfo>, x: TableInfo)
    requires DistinctInfos(a)
    ensures multiset(a)[x] <= 1
  {
    if a != [] {
      OnceIn(a[1..], x);
      assert a == [a[0]] + a[1..];
      if a[0] == x {
        assert x !in a[1..];
      }
    }
  }

  lemma ChosenWindow(order: seq<TableInfo>, n: nat, ratio: real)
    requires |order| >= n
    ensures var start := PickStart(order, n, ratio);
            FollowsRule(IdsOf(order[start..start + n]), order, n, ratio)
  {
    var w := FirstSimilar(order, n, ratio, 0);
    if w.Some? {
      assert IsFirstWindow(IdsOf(order[w.value..w.value + n]), order, n, ratio, w.value);
    } else {
      assert order[..n] == order[0..0 + n];
    }
  }

  /** The documented order, in file sizes: sizes never fall, and of two equal files the newer one
      comes first. */
  lemma OrderInSizes(c: seq<TableInfo>)
    ensures Ordered(c) <==> forall x, y :: 0 <= x < y < |c| ==>
              c[x].fileSize < c[y].fileSize || (c[x].fileSize == c[y].fileSize && c[x].id >= c[y].id)
  {
    if Ordered(c) {
      forall x, y | 0 <= x < y < |c|
        ensures c[x].fileSize < c[y].fileSize || (c[x].fileSize == c[y].fileSize && c[x].id >= c[y].id)
      {
        assert !Before(c[y], c[x]);
      }
    }
  }

  /** The documented similarity: no file of a window is larger than ratio times its first, an empty
      one counting as one byte. */
  lemma SimilarInSizes(window: seq<TableInfo>, ratio: real)
    ensures Similar(window, ratio) <==> window != [] && forall x :: 0 <= x < |window| ==>
              Max(window[x].fileSize, 1) as real <= Max(window[0].fileSize, 1) as real * ratio
  {
    if window != [] {
      AllWithin(window, Max(window[0].fileSize, 1) as real * ratio);
    }
  }

  /** The largest is within a bound exactly if all are. */
  lemma {:induction false} AllWithin(window: seq<TableInfo>, bound: real)
    requires window != []
    ensures AtLeastOne(Largest(window)) as real <= bound <==>
            forall x :: 0 <= x < |window| ==> Max(window[x].fileSize, 1) as real <= bound
  {
    LargestBounds(window);
    var m :| 0 <= m < |window| && window[m].fileSize == Largest(window);
    assert AtLeastOne(Largest(window)) == Max(window[m].fileSize, 1);
  }

  lemma {:induction false} LargestBounds(ts: seq<TableInfo>)
    ensures forall i :: 0 <= i < |ts| ==> ts[i].fileSize <= Largest(ts)
    ensures ts != [] ==> exists i :: 0 <= i < |ts| && ts[i].fileSize == Largest(ts)
  {
    if ts != [] {
      LargestBounds(ts[1..]);
      assert ts == [ts[0]] + ts[1..];
      if Largest(ts) != ts[0].fileSize {
        var i :| 0 <= i < |ts[1..]| && ts[1..][i].fileSize == Largest(ts[1..]);
        assert ts[i + 1].fileSize == Largest(ts);
      }
    }
  }

  /** fan_in different live tables that no job holds, chosen by the documented rule. */
  ghost predicate IsPick(ids: seq<nat>, tables: seq<TableInfo>, inProgress: set<nat>, n: nat, ratio: real,
                         order: seq<TableInfo>) {
    && |ids| == n && Distinct(ids) && AllFree(ids, tables, inProgress)
    && IsOrderOf(order, tables, inProgress) && FollowsRule(ids, order, n, ratio)
  }

  /** There is none exactly if too few tables are free. */
  ghost predicate IsChoice(r: Option<seq<nat>>, tables: seq<TableInfo>, inProgress: set<nat>, fanIn: nat, ratio: real) {
    && (r.None? <==> |Eligible(tables, inProgress)| < FanIn(fanIn))
    && (r.Some? ==> IsPick(r.value, tables, inProgress, FanIn(fanIn), ratio,
                           SortBySize(Eligible(tables, inProgress))))
  }

  lemma WindowIsPick(order: seq<TableInfo>, n: nat, ratio: real, tables: seq<TableInfo>, inProgress: set<nat>)
    requires |order| >= n && DistinctInfos(order) && IsOrderOf(order, tables, inProgress)
    requires forall t :: t in order ==> t in tables && t.id !in inProgress
    ensures var start := PickStart(order, n, ratio);
            IsPick(IdsOf(order[start..start + n]), tables, inProgress, n, ratio, order)
  {
    ChosenWindow(order, n, ratio);
    PartOf(order, PickStart(order, n, ratio), n, tables, inProgress);
  }

  /** What pick returns is such a choice; there is none exactly if too few tables are free. */
  lemma {:induction false} PickFollowsRule(tables: seq<TableInfo>, inProgress: set<nat>, fanIn: nat, ratio: real)
    requires DistinctInfos(tables)
    ensures IsChoice(Pick(tables, inProgress, fanIn, ratio), tables, inProgress, fanIn, ratio)
  {
    var n, order := FanIn(fanIn), SortBySize(Eligible(tables, inProgress));
    PickOfOrder(tables, inProgress, fanIn, ratio, order);
    OrderOfEligible(tables, inProgress, order);
    PickIfEnough(tables, inProgress, n, ratio, order);
  }

  lemma {:induction false} PickOfOrder(tables: seq<TableInfo>, inProgress: set<nat>, fanIn: nat, ratio: real,
                                       order: seq<TableInfo>)
    requires order == SortBySize(Eligible(tables, inProgress))
    ensures |order| == |Eligible(tables, inProgress)|
    ensures Pick(tables, inProgress, fanIn, ratio) == Chosen(order, FanIn(fanIn), ratio)
  {
  }

  lemma PickIfEnough(tables: seq<TableInfo>, inProgress: set<nat>, n: nat, ratio: real, order: seq<TableInfo>)
    requires DistinctInfos(order) && IsOrderOf(order, tables, inProgress)
    requires forall t :: t in order ==> t in tables && t.id !in inProgress
    ensures var r := Chosen(order, n, ratio);
            (r.None? <==> |order| < n) && (r.Some? ==> IsPick(r.value, tables, inProgress, n, ratio, order))
  {
    if |order| >= n {
      WindowIsPick(order, n, ratio, tables, inProgress);
    }
  }

  lemma {:induction false} OrderOfEligible(tables: seq<TableInfo>, inProgress: set<nat>, order: seq<TableInfo>)
    requires DistinctInfos(tables) && order == SortBySize(Eligible(tables, inProgress))
    ensures IsOrderOf(order, tables, inProgress) && DistinctInfos(order) && |order| == |Eligible(tables, inProgress)|
    ensures forall t :: t in order ==> t in tables && t.id !in inProgress
  {
    var eligible := Eligible(tables, inProgress);
    SortOrdered(eligible);
    EligibleDistinct(tables, inProgress);
    DistinctById(eligible, order);
    SameMembers(eligible, order);
  }

  /** Live tables, and none of them in a running job. */
  ghost predicate AllFree(ids: seq<nat>, tables: seq<TableInfo>, inProgress: set<nat>) {
    forall id :: id in ids ==> id !in inProgress && exists t :: t in tables && t.id == id
  }

  lemma PartOf(order: seq<TableInfo>, start: nat, n: nat, tables: seq<TableInfo>, inProgress: set<nat>)
    requires start + n <= |order| && DistinctInfos(order)
    requires forall t :: t in order ==> t in tables && t.id !in inProgress
    ensures Distinct(IdsOf(order[start..start + n])) && AllFree(IdsOf(order[start..start + n]), tables, inProgress)
  {
    var ids := IdsOf(order[start..start + n]);
    forall id | id in ids ensures id !in inProgress && exists t :: t in tables && t.id == id {
      var i :| 0 <= i < |ids| && ids[i] == id;
      assert order[start + i] in order && order[start + i].id == id;
    }
  }

  // ---- the compaction worker's retry loop ---------------------------------------------------------

  lemma {:induction false} NothingHeld(ts: seq<TableInfo>)
    ensures Eligible(ts, {}) == ts
  {
    if ts != [] {
      NothingHeld(ts[1..]);
      assert ts == [ts[0]] + ts[1..];
    }
  }

  /** should_auto_compact asks for trigger tables, pick for fan_in of them. The worker can only
      be sure of a pick, and so of progress, if the trigger is at least the fan-in; otherwise
      its loop goes round on the same tables. */
  lemma RetryAlwaysPicks(trigger: nat, fanIn: nat, ratio: real)
    ensures (forall ts :: DistinctInfos(ts) && |ts| >= trigger ==> Pick(ts, {}, fanIn, ratio).Some?)
            <==> trigger >= FanIn(fanIn)
  {
    if trigger >= FanIn(fanIn) {
      forall ts | DistinctInfos(ts) && |ts| >= trigger ensures Pick(ts, {}, fanIn, ratio).Some? {
        NothingHeld(ts);
      }
    } else {
      var ts := seq(trigger, i requires 0 <= i < trigger => TableInfo(i, 0));
      NothingHeld(ts);
      assert DistinctInfos(ts) && |ts| >= trigger && Pick(ts, {}, fanIn, ratio).None?;
    }
  }

  function InfosOf(ids: seq<nat>, sizes: map<nat, nat>): (ts: seq<TableInfo>)
    ensures |ts| == |ids| && forall i :: 0 <= i < |ids| ==> ts[i].id == ids[i]
  {
    seq(|ids|, i requires 0 <= i < |ids| => TableInfo(ids[i], if ids[i] in sizes then sizes[ids[i]] else 0))
  }

  lemma {:induction false} WithoutMembers(ts: seq<nat>, gone: set<nat>)
    requires Distinct(ts)
    ensures Distinct(WithoutIds(ts, gone)) && forall x :: x in WithoutIds(ts, gone) <==> x in ts && x !in gone
  {
    if ts != [] {
      assert ts == [ts[0]] + ts[1..] && ts[0] !in ts[1..];
      WithoutMembers(ts[1..], gone);
    }
  }

  lemma {:induction false} SetSize(ids: seq<nat>)
    requires Distinct(ids)
    ensures |SetOf(ids)| == |ids|
  {
    if ids == [] {
      assert SetOf(ids) == {};
    } else {
      SetSize(ids[1..]);
      assert ids == [ids[0]] + ids[1..] && ids[0] !in ids[1..];
      assert SetOf(ids) == {ids[0]} + SetOf(ids[1..]);
    }
  }

  ghost predicate AllBelow(ids: seq<nat>, bound: nat) { forall id :: id in ids ==> id < bound }

  lemma InsertAt(rest: seq<nat>, q: nat, out: nat)
    requires q <= |rest| && Distinct(rest) && out !in rest
    ensures Distinct(rest[..q] + [out] + rest[q..])
    ensures forall x :: x in rest[..q] + [out] + rest[q..] <==> x == out || x in rest
  {
    var r := rest[..q] + [out] + rest[q..];
    assert rest == rest[..q] + rest[q..];
    forall i, j | 0 <= i < j < |r| ensures r[i] != r[j] {
      assert i != q ==> r[i] == rest[if i < q then i else i - 1];
      assert j != q ==> r[j] == rest[if j < q then j else j - 1];
    }
  }

  /** A job shrinks the catalogue by one less than its inputs. */
  lemma JobShrinks(ts: seq<nat>, picked: seq<nat>, out: nat)
    requires Distinct(ts) && Distinct(picked) && out !in ts && forall id :: id in picked ==> id in ts
    ensures |ReplaceIds(ts, SetOf(picked), out)| == |ts| - |picked| + 1
    ensures Distinct(ReplaceIds(ts, SetOf(picked), out))
    ensures forall x :: x in ReplaceIds(ts, SetOf(picked), out) ==> x == out || x in ts
  {
    var gone := SetOf(picked);
    var rest := WithoutIds(ts, gone);
    WithoutMembers(ts, gone);
    assert SetOf(rest) == SetOf(ts) - gone && gone <= SetOf(ts);
    SetSize(rest);
    SetSize(ts);
    SetSize(picked);
    var pos := FirstIdIn(ts, gone);
    var p := if pos == |ts| then 0 else pos;
    InsertAt(rest, if p <= |rest| then p else |rest|, out);
  }

  lemma InfoIds(ids: seq<nat>, sizes: map<nat, nat>)
    requires Distinct(ids)
    ensures DistinctInfos(InfosOf(ids, sizes))
    ensures forall t :: t in InfosOf(ids, sizes) ==> t.id in ids
  {
    forall t | t in InfosOf(ids, sizes) ensures t.id in ids {
      var i :| 0 <= i < |ids| && InfosOf(ids, sizes)[i] == t;
      assert ids[i] == t.id;
    }
  }

  lemma PickedAreLive(ids: seq<nat>, sizes: map<nat, nat>, fanIn: nat, ratio: real)
    requires Distinct(ids) && |ids| >= FanIn(fanIn)
    ensures var r := Pick(InfosOf(ids, sizes), {}, fanIn, ratio);
            r.Some? && |r.value| == FanIn(fanIn) && Distinct(r.value) && forall id :: id in r.value ==> id in ids
  {
    var ts := InfosOf(ids, sizes);
    InfoIds(ids, sizes);
    NothingHeld(ts);
    PickFollowsRule(ts, {}, fanIn, ratio);
    FreeAreLive(Pick(ts, {}, fanIn, ratio).value, ts, ids);
  }

  lemma FreeAreLive(picked: seq<nat>, ts: seq<TableInfo>, ids: seq<nat>)
    requires AllFree(picked, ts, {}) && forall t :: t in ts ==> t.id in ids
    ensures forall id :: id in picked ==> id in ids
  {
  }
}
