/** The k-way merge of a compaction. */
module Merging {
  import opened Entries
  import opened ByteSeqs
  import opened SortedLists
  import opened Levels

  /** A source: what its iterator will still yield. */
  type Stream = seq<Result<Entry>>

  predicate Clean(s: Stream) { forall i :: 0 <= i < |s| ==> s[i].Ok? }

  predicate AllClean(ss: seq<Stream>) { forall i :: 0 <= i < |ss| ==> Clean(ss[i]) }

  function Values(s: Stream): (es: seq<Entry>)
    requires Clean(s)
    ensures |es| == |s| && forall i :: 0 <= i < |s| ==> s[i] == Ok(es[i])
  {
    seq(|s|, i requires 0 <= i < |s| => s[i].value)
  }

  function Lists(ss: seq<Stream>): (ls: seq<seq<Entry>>)
    requires AllClean(ss)
    ensures |ls| == |ss| && forall i :: 0 <= i < |ss| ==> ls[i] == Values(ss[i])
  {
    seq(|ss|, i requires 0 <= i < |ss| => Values(ss[i]))
  }

  function Remaining(ss: seq<Stream>): nat {
    if ss == [] then 0 else Remaining(ss[..|ss| - 1]) + |ss[|ss| - 1]|
  }

  // ---- one round over lists, as a specification -----------------------------------------------

  ghost predicate AllSorted(ls: seq<seq<Entry>>) { forall i :: 0 <= i < |ls| ==> Sorted(ls[i]) }

  /** The smallest key at the head of a list. */
  function MinHead(ls: seq<seq<Entry>>): Option<Key> {
    if ls == [] then None
    else
      var m, last := MinHead(ls[..|ls| - 1]), ls[|ls| - 1];
      if last != [] && (m.None? || Less(last[0].key, m.value)) then Some(last[0].key) else m
  }

  predicate Heads(l: seq<Entry>, k: Key) { l != [] && l[0].key == k }

  /** Of the heads with key k, the one with the highest sequence number, the first on a tie. */
  function WinnerHead(ls: seq<seq<Entry>>, k: Key): Option<Entry> {
    if ls == [] then None
    else
      var w, last := WinnerHead(ls[..|ls| - 1], k), ls[|ls| - 1];
      if Heads(last, k) && (w.None? || last[0].seqNo > w.value.seqNo) then Some(last[0]) else w
  }

  function Past(l: seq<Entry>, k: Key): seq<Entry> { if Heads(l, k) then l[1..] else l }

  function AllPast(ls: seq<seq<Entry>>, k: Key): (r: seq<seq<Entry>>)
    ensures |r| == |ls| && forall i :: 0 <= i < |ls| ==> r[i] == Past(ls[i], k)
  {
    seq(|ls|, i requires 0 <= i < |ls| => Past(ls[i], k))
  }

  function TotalLength(ls: seq<seq<Entry>>): nat {
    if ls == [] then 0 else TotalLength(ls[..|ls| - 1]) + |ls[|ls| - 1]|
  }

  lemma {:induction false} MinHeadIs(ls: seq<seq<Entry>>)
    ensures MinHead(ls).None? <==> forall i :: 0 <= i < |ls| ==> ls[i] == []
    ensures MinHead(ls).Some? ==> exists i :: 0 <= i < |ls| && Heads(ls[i], MinHead(ls).value)
    ensures MinHead(ls).Some? ==> forall i :: 0 <= i < |ls| && ls[i] != [] ==> AtMost(MinHead(ls).value, ls[i][0].key)
  {
    if ls != [] {
      var n := |ls| - 1;
      var init := ls[..n];
      MinHeadIs(init);
      assert forall i :: 0 <= i < n ==> init[i] == ls[i];
      if ls[n] != [] && MinHead(init).Some? {
        LessTotal(ls[n][0].key, MinHead(init).value);
      }
      forall i | 0 <= i < |ls| && ls[i] != [] && MinHead(ls).Some? ensures AtMost(MinHead(ls).value, ls[i][0].key) {
        if i < n && MinHead(ls) != MinHead(init) {
          MinBelow(MinHead(ls).value, MinHead(init).value, ls[i][0].key);
        }
      }
    }
  }

  lemma {:induction false} MinBelow(a: Key, b: Key, c: Key)
    requires Less(a, b) && AtMost(b, c)
    ensures AtMost(a, c)
  {
    if b != c {
      LessTrans(a, b, c);
    }
  }

  lemma {:induction false} PastShrinks(ls: seq<seq<Entry>>, k: Key)
    ensures TotalLength(AllPast(ls, k)) <= TotalLength(ls)
    ensures (exists i :: 0 <= i < |ls| && Heads(ls[i], k)) ==> TotalLength(AllPast(ls, k)) < TotalLength(ls)
  {
    if ls != [] {
      var n := |ls| - 1;
      PastShrinks(ls[..n], k);
      assert AllPast(ls, k)[..n] == AllPast(ls[..n], k);
      assert forall i :: 0 <= i < n ==> ls[..n][i] == ls[i];
    }
  }

  /** Everything the merge emits. */
  function Merged(ls: seq<seq<Entry>>): seq<Entry>
    decreases TotalLength(ls)
  {
    var k := MinHead(ls);
    if k.None? then []
    else
      MinHeadIs(ls);
      PastShrinks(ls, k.value);
      var w := WinnerHead(ls, k.value);
      (if w.Some? then [w.value] else []) + Merged(AllPast(ls, k.value))
  }

  // ---- what it means ----------------------------------------------------------------------------

  function Maps(ls: seq<seq<Entry>>): (ms: seq<Mem>)
    ensures |ms| == |ls| && forall i :: 0 <= i < |ls| ==> ms[i] == ToMap(ls[i])
  {
    seq(|ls|, i requires 0 <= i < |ls| => ToMap(ls[i]))
  }

  lemma {:induction false} WinnerIs(ls: seq<seq<Entry>>, k: Key)
    ensures WinnerHead(ls, k).Some? <==> exists i :: 0 <= i < |ls| && Heads(ls[i], k)
    ensures WinnerHead(ls, k).Some? ==> WinnerHead(ls, k).value.key == k
  {
    if ls != [] {
      var n := |ls| - 1;
      WinnerIs(ls[..n], k);
      assert forall i :: 0 <= i < n ==> ls[..n][i] == ls[i];
    }
  }

  /** A sorted list holds its smallest key only at its head. */
  lemma {:induction false} HeadHolds(l: seq<Entry>, k: Key)
    requires Sorted(l) && (l != [] ==> AtMost(k, l[0].key))
    ensures Get(ToMap(l), k) == if Heads(l, k) then Some(CellOf(l[0])) else None
  {
    FindIsGet(l, k);
    if l != [] {
      if !Heads(l, k) {
        var i := FindIndex(l, k);
        if 0 < i < |l| {
          LessTrans(k, l[0].key, l[i].key);
          LessTotal(k, k);
        }
      }
    }
  }

  /** The winner among the heads is the newest cell of that key in any source. */
  lemma {:induction false} WinnerIsBest(ls: seq<seq<Entry>>, k: Key)
    requires AllSorted(ls) && forall i :: 0 <= i < |ls| && ls[i] != [] ==> AtMost(k, ls[i][0].key)
    ensures Best(Maps(ls), k) == if WinnerHead(ls, k).Some? then Some(CellOf(WinnerHead(ls, k).value)) else None
  {
    if ls != [] {
      var n := |ls| - 1;
      assert forall i :: 0 <= i < n ==> ls[..n][i] == ls[i];
      WinnerIsBest(ls[..n], k);
      assert Maps(ls)[..n] == Maps(ls[..n]);
      HeadHolds(ls[n], k);
    }
  }

  lemma {:induction false} PastGet(l: seq<Entry>, k: Key, x: Key)
    requires Sorted(l) && x != k
    ensures Sorted(Past(l, k)) && Get(ToMap(Past(l, k)), x) == Get(ToMap(l), x)
  {
    FindIsGet(l, x);
    FindIsGet(Past(l, k), x);
  }

  /** Taking the heads with key k away leaves every other key's best cell. */
  lemma {:induction false} PastBest(ls: seq<seq<Entry>>, k: Key, x: Key)
    requires AllSorted(ls) && x != k
    ensures Best(Maps(AllPast(ls, k)), x) == Best(Maps(ls), x)
  {
    if ls != [] {
      var n := |ls| - 1;
      FrontSorted(ls, n);
      PastBest(ls[..n], k, x);
      PastFront(ls, k, n);
      PastGet(ls[n], k, x);
      SameLast(Maps(AllPast(ls, k)), Maps(ls), x);
    }
  }

  lemma FrontSorted(ls: seq<seq<Entry>>, n: nat)
    requires AllSorted(ls) && n <= |ls|
    ensures AllSorted(ls[..n])
  {
  }

  lemma PastFront(ls: seq<seq<Entry>>, k: Key, n: nat)
    requires n <= |ls|
    ensures Maps(ls)[..n] == Maps(ls[..n]) && Maps(AllPast(ls, k))[..n] == Maps(AllPast(ls[..n], k))
  {
  }

  lemma {:induction false} SameLast(a: seq<Mem>, b: seq<Mem>, x: Key)
    requires |a| == |b| > 0 && Best(a[..|a| - 1], x) == Best(b[..|b| - 1], x)
    requires Get(a[|a| - 1], x) == Get(b[|b| - 1], x)
    ensures Best(a, x) == Best(b, x)
  {
  }

  lemma PastSorted(ls: seq<seq<Entry>>, k: Key)
    requires AllSorted(ls)
    ensures AllSorted(AllPast(ls, k))
  {
  }

  /** Every key of the lists lies above bound. */
  ghost predicate AllAbove(ls: seq<seq<Entry>>, bound: Key) {
    forall i, j :: 0 <= i < |ls| && 0 <= j < |ls[i]| ==> Less(bound, ls[i][j].key)
  }

  lemma PastAbove(ls: seq<seq<Entry>>, k: Key)
    requires AllSorted(ls) && forall i :: 0 <= i < |ls| && ls[i] != [] ==> AtMost(k, ls[i][0].key)
    ensures AllAbove(AllPast(ls, k), k)
  {
    var r: seq<seq<Entry>> := AllPast(ls, k);
    forall i: nat, j: nat | i < |r| && j < |r[i]| ensures Less(k, r[i][j].key) {
      if Heads(ls[i], k) {
        assert r[i][j] == ls[i][j + 1];
      } else {
        assert r[i][j] == ls[i][j];
        if j > 0 {
          LessTrans(k, ls[i][0].key, ls[i][j].key);
        }
      }
    }
  }

  lemma {:induction false} MergedKeys(ls: seq<seq<Entry>>, bound: Key)
    requires AllAbove(ls, bound)
    ensures forall i :: 0 <= i < |Merged(ls)| ==> Less(bound, Merged(ls)[i].key)
    decreases TotalLength(ls)
  {
    var k := MinHead(ls);
    MinHeadIs(ls);
    if k.Some? {
      PastShrinks(ls, k.value);
      WinnerIs(ls, k.value);
      var i :| 0 <= i < |ls| && Heads(ls[i], k.value);
      assert Less(bound, ls[i][0].key);
      var r: seq<seq<Entry>> := AllPast(ls, k.value);
      forall i: nat, j: nat | i < |r| && j < |r[i]| ensures Less(bound, r[i][j].key) {
        assert r[i][j] == ls[i][if Heads(ls[i], k.value) then j + 1 else j];
      }
      MergedKeys(r, bound);
    }
  }

  /** The merged output is strictly ascending. */
  lemma {:induction false} MergedSorted(ls: seq<seq<Entry>>)
    requires AllSorted(ls)
    ensures Sorted(Merged(ls))
    decreases TotalLength(ls)
  {
    var k := MinHead(ls);
    MinHeadIs(ls);
    if k.Some? {
      PastShrinks(ls, k.value);
      WinnerIs(ls, k.value);
      PastSorted(ls, k.value);
      PastAbove(ls, k.value);
      MergedSorted(AllPast(ls, k.value));
      MergedKeys(AllPast(ls, k.value), k.value);
    }
  }

  lemma {:induction false} ConsGet(e: Entry, rest: seq<Entry>, x: Key)
    requires Sorted([e] + rest)
    ensures Sorted(rest)
    ensures Get(ToMap([e] + rest), x) == if x == e.key then Some(CellOf(e)) else Get(ToMap(rest), x)
  {
    var es := [e] + rest;
    assert es[1..] == rest;
    forall i, j | 0 <= i < j < |rest| ensures Less(rest[i].key, rest[j].key) {
      assert es[i + 1] == rest[i] && es[j + 1] == rest[j];
    }
    FindIsGet(es, x);
    FindIsGet(rest, x);
  }

  lemma {:induction false} MergedBest(ls: seq<seq<Entry>>, x: Key)
    requires AllSorted(ls)
    ensures Get(ToMap(Merged(ls)), x) == Best(Maps(ls), x)
    decreases TotalLength(ls)
  {
    var k := MinHead(ls);
    MinHeadIs(ls);
    if k.None? {
      AllEmpty(ls, x);
    } else {
      var r: seq<seq<Entry>> := AllPast(ls, k.value);
      PastShrinks(ls, k.value);
      WinnerIs(ls, k.value);
      PastSorted(ls, k.value);
      MergedSorted(ls);
      ConsGet(WinnerHead(ls, k.value).value, Merged(r), x);
      if x == k.value {
        WinnerIsBest(ls, x);
      } else {
        MergedBest(r, x);
        PastBest(ls, k.value, x);
      }
    }
  }

  lemma {:induction false} AllEmpty(ls: seq<seq<Entry>>, x: Key)
    requires forall i :: 0 <= i < |ls| ==> ls[i] == []
    ensures Best(Maps(ls), x) == None
  {
    if ls != [] {
      AllEmpty(ls[..|ls| - 1], x);
      assert Maps(ls)[..|ls| - 1] == Maps(ls[..|ls| - 1]);
    }
  }

  /** The merge of sorted sources is sorted, and as a map it is what the engine's steps call
      the merge: every key of any source, each with its newest cell. */
  lemma {:induction false} MergeIsMergeAll(ls: seq<seq<Entry>>)
    requires AllSorted(ls)
    ensures Sorted(Merged(ls)) && ToMap(Merged(ls)) == MergeAll(Maps(ls))
  {
    MergedSorted(ls);
    var a, b := ToMap(Merged(ls)), MergeAll(Maps(ls));
    forall x ensures (x in a <==> x in b) && (x in a ==> a[x] == b[x]) {
      MergedBest(ls, x);
      assert Get(a, x) == Get(b, x);
    }
  }

  /** Conservation: what is kept and what is dropped make up what came in. */
  lemma {:induction false} MergedLength(ls: seq<seq<Entry>>)
    ensures |Merged(ls)| <= TotalLength(ls)
    decreases TotalLength(ls)
  {
    var k := MinHead(ls);
    MinHeadIs(ls);
    if k.Some? {
      PastShrinks(ls, k.value);
      WinnerIs(ls, k.value);
      MergedLength(AllPast(ls, k.value));
    }
  }

  // ---- MergeIterator ----------------------------------------------------------------------------

  predicate HeadsClean(ss: seq<Stream>) {
    forall i :: 0 <= i < |ss| && ss[i] != [] ==> ss[i][0].Ok?
  }

  /** What can be peeked: the first entry of each source. */
  function HeadLists(ss: seq<Stream>): (ls: seq<seq<Entry>>)
    requires HeadsClean(ss)
    ensures |ls| == |ss| && forall i :: 0 <= i < |ss| ==> ls[i] == HeadList(ss[i])
  {
    seq(|ss|, i requires 0 <= i < |ss| => HeadList(ss[i]))
  }

  function HeadList(s: Stream): seq<Entry>
    requires s != [] ==> s[0].Ok?
  {
    if s == [] then [] else [s[0].value]
  }

  function PopMatch(s: Stream, k: Key): Stream {
    if s != [] && s[0].Ok? && s[0].value.key == k then s[1..] else s
  }

  function PopMatches(ss: seq<Stream>, k: Key): (r: seq<Stream>)
    ensures |r| == |ss| && forall i :: 0 <= i < |ss| ==> r[i] == PopMatch(ss[i], k)
  {
    seq(|ss|, i requires 0 <= i < |ss| => PopMatch(ss[i], k))
  }

  class MergeIterator {
    var sources: seq<Stream>
    var errored: bool

    constructor (streams: seq<Stream>)
      ensures sources == streams && !errored
    {
      sources, errored := streams, false;
    }

    /** next: an error at any head ends the merge; otherwise the smallest key comes out once,
        with its newest entry, and every source moves past it. */
    method Next() returns (item: Option<Result<Entry>>)
      modifies this
      ensures old(errored) ==> item == None && errored && sources == old(sources)
      ensures !old(errored) && !HeadsClean(old(sources)) ==> item == Some(Err) && errored
      ensures !old(errored) && HeadsClean(old(sources)) ==>
                var ls := HeadLists(old(sources)); var k := MinHead(ls);
                && !errored
                && (if k.None? then item == None && sources == old(sources)
                    else WinnerHead(ls, k.value).Some? && item == Some(Ok(WinnerHead(ls, k.value).value))
                         && sources == PopMatches(old(sources), k.value))
    {
      if errored {
        return None;
      }
      var minKey := PeekMin();
      if minKey.Err? {
        return Some(Err);
      }
      if minKey.value.None? {
        return None;
      }
      var winner := TakeMatches(minKey.value.value);
      MinHeadIs(HeadLists(old(sources)));
      WinnerIs(HeadLists(old(sources)), minKey.value.value);
      item := Some(Ok(winner.value));
    }

    /** The first loop of next: the smallest key at a head. An error there is taken and stops
        the merge for good. */
    method PeekMin() returns (r: Result<Option<Key>>)
      requires !errored
      modifies this
      ensures HeadsClean(old(sources)) ==> sources == old(sources) && r == Ok(MinHead(HeadLists(sources))) && !errored
      ensures !HeadsClean(old(sources)) ==> r == Err && errored
    {
      var minKey: Option<Key> := None;
      for i := 0 to |sources|
        invariant sources == old(sources) && !errored && PeekedTo(sources, i, minKey)
      {
        ghost var before := minKey;
        if sources[i] != [] {
          if sources[i][0].Err? {
            sources := sources[i := sources[i][1..]];
            errored := true;
            return Err;
          }
          var entry := sources[i][0].value;
          if minKey.None? || Less(entry.key, minKey.value) {
            minKey := Some(entry.key);
          }
        }
        PeekedNext(sources, i, before);
      }
      assert sources[..|sources|] == sources;
      r := Ok(minKey);
    }

    /** The second loop of next: every source whose head is k moves on. */
    method TakeMatches(k: Key) returns (winner: Option<Entry>)
      requires HeadsClean(sources)
      modifies this`sources
      ensures winner == WinnerHead(HeadLists(old(sources)), k) && sources == PopMatches(old(sources), k)
    {
      winner := None;
      for i := 0 to |sources|
        invariant |sources| == |old(sources)| && sources[i..] == old(sources)[i..]
        invariant sources[..i] == PopMatches(old(sources)[..i], k)
        invariant HeadsClean(old(sources)[..i]) && winner == WinnerHead(HeadLists(old(sources)[..i]), k)
      {
        ghost var all, before := old(sources), sources;
        assert all[..i + 1][..i] == all[..i] && sources[i] == sources[i..][0] == all[i];
        HeadsGrow(all, i);
        if sources[i] != [] && sources[i][0].Ok? && sources[i][0].value.key == k {
          var entry := sources[i][0].value;
          sources := sources[i := sources[i][1..]];
          if winner.None? || entry.seqNo > winner.value.seqNo {
            winner := Some(entry);
          }
        }
        PopOne(all, before, sources, i, k);
      }
      assert old(sources)[..|sources|] == old(sources) && sources[..|sources|] == sources;
    }
  }

  /** m is the smallest key at the heads of the first i sources, which are all readable. */
  ghost predicate PeekedTo(ss: seq<Stream>, i: nat, m: Option<Key>) {
    i <= |ss| && HeadsClean(ss[..i]) && m == MinHead(HeadLists(ss[..i]))
  }

  lemma PeekedNext(ss: seq<Stream>, i: nat, m: Option<Key>)
    requires PeekedTo(ss, i, m) && i < |ss| && (ss[i] != [] ==> ss[i][0].Ok?)
    ensures var smaller := ss[i] != [] && (m.None? || Less(ss[i][0].value.key, m.value));
            PeekedTo(ss, i + 1, if smaller then Some(ss[i][0].value.key) else m)
  {
    HeadsGrow(ss, i);
    MinHeadSnoc(HeadLists(ss[..i]), HeadList(ss[i]));
  }

  lemma {:induction false} MinHeadSnoc(ls: seq<seq<Entry>>, l: seq<Entry>)
    ensures var m := MinHead(ls);
            MinHead(ls + [l]) == if l != [] && (m.None? || Less(l[0].key, m.value)) then Some(l[0].key) else m
  {
    assert (ls + [l])[..|ls|] == ls;
  }

  lemma HeadsGrow(ss: seq<Stream>, i: nat)
    requires i < |ss| && HeadsClean(ss[..i]) && (ss[i] != [] ==> ss[i][0].Ok?)
    ensures HeadsClean(ss[..i + 1])
    ensures HeadLists(ss[..i + 1]) == HeadLists(ss[..i]) + [HeadList(ss[i])]
    ensures HeadLists(ss[..i + 1])[..i] == HeadLists(ss[..i])
  {
    assert forall j :: 0 <= j < i ==> ss[..i + 1][j] == ss[..i][j];
  }

  lemma PopOne(all: seq<Stream>, before: seq<Stream>, after: seq<Stream>, i: nat, k: Key)
    requires i < |all| == |before| && before[i..] == all[i..] && before[..i] == PopMatches(all[..i], k)
    requires after == before[i := PopMatch(all[i], k)]
    ensures after[i + 1..] == all[i + 1..] && after[..i + 1] == PopMatches(all[..i + 1], k)
  {
    assert after[i + 1..] == before[i..][1..];
    forall j | 0 <= j <= i ensures after[j] == PopMatch(all[j], k) {
      if j < i {
        assert before[..i][j] == PopMatch(all[..i][j], k);
      }
    }
  }

  // ---- the merge of a compaction job ------------------------------------------------------------

  lemma {:induction false} SameHeads(ss: seq<Stream>, k: Key)
    requires AllClean(ss)
    ensures HeadsClean(ss)
    ensures MinHead(HeadLists(ss)) == MinHead(Lists(ss)) && WinnerHead(HeadLists(ss), k) == WinnerHead(Lists(ss), k)
  {
    if ss != [] {
      var n := |ss| - 1;
      assert forall i :: 0 <= i < n ==> ss[..n][i] == ss[i];
      SameHeads(ss[..n], k);
      assert Clean(ss[n]);
      assert HeadLists(ss)[..n] == HeadLists(ss[..n]) && Lists(ss)[..n] == Lists(ss[..n]);
    }
  }

  lemma PopOneClean(s: Stream, k: Key)
    requires Clean(s)
    ensures Clean(PopMatch(s, k)) && Values(PopMatch(s, k)) == Past(Values(s), k)
  {
  }

  lemma PopClean(ss: seq<Stream>, k: Key)
    requires AllClean(ss)
    ensures AllClean(PopMatches(ss, k)) && Lists(PopMatches(ss, k)) == AllPast(Lists(ss), k)
  {
    forall i | 0 <= i < |ss|
      ensures Clean(PopMatches(ss, k)[i]) && Values(PopMatches(ss, k)[i]) == Past(Values(ss[i]), k)
    {
      PopOneClean(ss[i], k);
    }
  }

  /** Only good entries are ever popped: an error stays in its source. */
  lemma PopKeepsErrors(ss: seq<Stream>, k: Key)
    requires AllClean(PopMatches(ss, k))
    ensures AllClean(ss)
  {
    forall i | 0 <= i < |ss| ensures Clean(ss[i]) {
      var p := PopMatches(ss, k)[i];
      assert Clean(p);
      forall j | 0 <= j < |ss[i]| ensures ss[i][j].Ok? {
        if p != ss[i] && j > 0 {
          assert p[j - 1] == ss[i][j];
        }
      }
    }
  }

  lemma {:induction false} PopShrinks(ss: seq<Stream>, k: Key)
    requires HeadsClean(ss)
    ensures Remaining(PopMatches(ss, k)) <= Remaining(ss)
    ensures WinnerHead(HeadLists(ss), k).Some? ==> Remaining(PopMatches(ss, k)) < Remaining(ss)
  {
    if ss != [] {
      var n := |ss| - 1;
      assert forall i :: 0 <= i < n ==> ss[..n][i] == ss[i];
      PopShrinks(ss[..n], k);
      assert PopMatches(ss, k)[..n] == PopMatches(ss[..n], k);
      assert HeadLists(ss)[..n] == HeadLists(ss[..n]);
    }
  }

  lemma {:induction false} NothingLeft(ss: seq<Stream>)
    requires HeadsClean(ss) && MinHead(HeadLists(ss)).None?
    ensures AllClean(ss)
  {
    MinHeadIs(HeadLists(ss));
    forall i | 0 <= i < |ss| ensures ss[i] == [] {
      assert HeadLists(ss)[i] == [];
    }
  }

  /** out is what came out before ss remained of start. */
  ghost predicate Halfway(start: seq<Stream>, ss: seq<Stream>, out: seq<Entry>) {
    && (AllClean(start) <==> AllClean(ss))
    && (AllClean(start) ==> out + Merged(Lists(ss)) == Merged(Lists(start)))
  }

  lemma {:induction false} OneFurther(start: seq<Stream>, ss: seq<Stream>, out: seq<Entry>, k: Key, w: Entry)
    requires Halfway(start, ss, out) && HeadsClean(ss)
    requires MinHead(HeadLists(ss)) == Some(k) && WinnerHead(HeadLists(ss), k) == Some(w)
    ensures Halfway(start, PopMatches(ss, k), out + [w])
  {
    if AllClean(ss) {
      SameHeads(ss, k);
      PopClean(ss, k);
      OneOut(Lists(ss), out, k, w);
    } else if AllClean(PopMatches(ss, k)) {
      PopKeepsErrors(ss, k);
    }
  }

  lemma {:induction false} OneOut(ls: seq<seq<Entry>>, out: seq<Entry>, k: Key, w: Entry)
    requires MinHead(ls) == Some(k) && WinnerHead(ls, k) == Some(w)
    ensures out + Merged(ls) == out + [w] + Merged(AllPast(ls, k))
  {
    assert Merged(ls) == [w] + Merged(AllPast(ls, k));
    assert out + ([w] + Merged(AllPast(ls, k))) == out + [w] + Merged(AllPast(ls, k));
  }

  lemma MergeEnds(start: seq<Stream>, ss: seq<Stream>, out: seq<Entry>)
    requires Halfway(start, ss, out) && HeadsClean(ss) && MinHead(HeadLists(ss)).None?
    ensures AllClean(start) && out == Merged(Lists(start))
  {
    NothingLeft(ss);
    SameHeads(ss, []);
    assert Merged(Lists(ss)) == [];
  }

  function Tombstones(es: seq<Entry>): nat {
    if es == [] then 0 else Tombstones(es[..|es| - 1]) + if es[|es| - 1].value.None? then 1 else 0
  }

  /** Exactly the entries without a value are counted. */
  lemma {:induction false} TombstonesCount(es: seq<Entry>)
    ensures Tombstones(es) == |set i | 0 <= i < |es| && es[i].value.None?|
  {
    if es != [] {
      var n := |es| - 1;
      var front := set i | 0 <= i < n && es[..n][i].value.None?;
      TombstonesCount(es[..n]);
      assert (set i | 0 <= i < |es| && es[i].value.None?) == front + if es[n].value.None? then {n} else {};
    }
  }

  /** The loop of run_compaction_job over the merge. It fails exactly if some input does, and
      otherwise yields the whole merge, tombstones kept. */
  method MergeSources(streams: seq<Stream>) returns (r: Result<seq<Entry>>, tombstonesKept: nat)
    ensures r.Ok? <==> AllClean(streams)
    ensures AllClean(streams) ==>
              (r == Ok(Merged(Lists(streams)))
              && tombstonesKept == Tombstones(Merged(Lists(streams))))
  {
    var it := new MergeIterator(streams);
    var out: seq<Entry> := [];
    tombstonesKept := 0;
    if AllClean(streams) {
      assert [] + Merged(Lists(streams)) == Merged(Lists(streams));
    }
    while true
      invariant fresh(it) && !it.errored && Halfway(streams, it.sources, out) && tombstonesKept == Tombstones(out)
      decreases Remaining(it.sources)
    {
      ghost var before := it.sources;
      if HeadsClean(before) && MinHead(HeadLists(before)).Some? {
        PopShrinks(before, MinHead(HeadLists(before)).value);
      }
      var item := it.Next();
      match item {
        case None =>
          MergeEnds(streams, before, out);
          return Ok(out), tombstonesKept;
        case Some(Err) =>
          return Err, tombstonesKept;
        case Some(Ok(entry)) =>
          OneFurther(streams, before, out, MinHead(HeadLists(before)).value, entry);
          assert (out + [entry])[..|out|] == out;
          if entry.value.None? {
            tombstonesKept := tombstonesKept + 1;
          }
          out := out + [entry];
      }
    }
  }
}
