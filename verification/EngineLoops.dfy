/** The loops of engine.rs that hold no lock: replay, cleanup of the log at startup, list surgery
    and lookups. */
module EngineLoops {
  import opened Entries
  import opened Levels
  import opened Memtables
  import opened Engine
  import Durable
  import EngineView
  import Recovery

  /** effective_max: a quarter more while the grace period lasts. */
  function EffectiveMax(maxBytes: nat, grace: bool): (n: nat)
    ensures !grace ==> n == maxBytes
    ensures grace ==> 4 * n <= 5 * maxBytes < 4 * (n + 1)
  {
    if grace then maxBytes * 5 / 4 else maxBytes
  }

  // ---- LsmEngine::new -------------------------------------------------------------------------

  /** Once blocked, replay ignores whatever records are left. */
  lemma {:induction false} BlockedStays(recs: seq<Record>, fulls: seq<bool>, n: nat, max: nat)
    requires n <= |recs| == |fulls| && Replay(recs[..n], fulls[..n], max).blocked
    ensures Replay(recs, fulls, max) == Replay(recs[..n], fulls[..n], max)
    decreases |recs|
  {
    if n == |recs| {
      assert recs[..n] == recs && fulls[..n] == fulls;
    } else {
      var m := |recs| - 1;
      assert recs[..m][..n] == recs[..n] && fulls[..m][..n] == fulls[..n];
      BlockedStays(recs[..m], fulls[..m], n, max);
    }
  }

  lemma {:induction false} ReplayNext(recs: seq<Record>, fulls: seq<bool>, i: nat, full: bool, max: nat)
    requires i < |recs| && |fulls| == i
    ensures Replay(recs[..i + 1], fulls + [full], max) == ReplayOne(Replay(recs[..i], fulls, max), recs[i], full, max)
  {
    assert recs[..i + 1][..i] == recs[..i] && (fulls + [full])[..i] == fulls;
  }

  /** fulls[i] says whether the memtable, with record i in it, has reached its limit. */
  ghost predicate FullBySize(recs: seq<Record>, fulls: seq<bool>, maxBytes: nat, overhead: nat, max: nat, i: int)
    requires 0 <= i < |recs| && i < |fulls|
  {
    var b := Replay(recs[..i], fulls[..i], max);
    var filled := b.active[recs[i].key := Cell(recs[i].seqNo, recs[i].value)];
    fulls[i] <==> TotalBytes(filled, overhead) >= if b.grace then maxBytes * 5 / 4 else maxBytes
  }

  /** So it does for every record that replay gets to. */
  ghost predicate FillsBySize(recs: seq<Record>, fulls: seq<bool>, maxBytes: nat, overhead: nat, max: nat) {
    && |fulls| == |recs|
    && forall i :: 0 <= i < Replay(recs, fulls, max).used && i < |recs| ==>
         FullBySize(recs, fulls, maxBytes, overhead, max, i)
  }

  lemma {:induction false} UsedGrows(recs: seq<Record>, fulls: seq<bool>, max: nat, n: nat)
    requires n <= |recs| == |fulls|
    ensures Replay(recs[..n], fulls[..n], max).used <= Replay(recs, fulls, max).used <= |recs|
    decreases |recs|
  {
    UsedAtMost(recs, fulls, max);
    if n == |recs| {
      assert recs[..n] == recs && fulls[..n] == fulls;
    } else {
      var m := |recs| - 1;
      assert recs[..m][..n] == recs[..n] && fulls[..m][..n] == fulls[..n];
      UsedGrows(recs[..m], fulls[..m], max, n);
    }
  }

  lemma {:induction false} UsedAtMost(recs: seq<Record>, fulls: seq<bool>, max: nat)
    requires |recs| == |fulls|
    ensures Replay(recs, fulls, max).used <= |recs|
  {
    if recs != [] {
      UsedAtMost(recs[..|recs| - 1], fulls[..|recs| - 1], max);
    }
  }

  /** While it is not blocked, replay has used all it was given. */
  lemma {:induction false} UsesAll(recs: seq<Record>, fulls: seq<bool>, max: nat)
    requires |recs| == |fulls| && !Replay(recs, fulls, max).blocked
    ensures Replay(recs, fulls, max).used == |recs|
  {
    if recs != [] {
      var n := |recs| - 1;
      UsesAll(recs[..n], fulls[..n], max);
    }
  }

  lemma {:induction false} FillsFront(recs: seq<Record>, fulls: seq<bool>, maxBytes: nat, overhead: nat, max: nat,
                                      n: nat)
    requires FillsBySize(recs, fulls, maxBytes, overhead, max) && n <= |recs|
    ensures FillsBySize(recs[..n], fulls[..n], maxBytes, overhead, max)
  {
    UsedGrows(recs, fulls, max, n);
    forall i | 0 <= i < Replay(recs[..n], fulls[..n], max).used && i < n
      ensures FullBySize(recs[..n], fulls[..n], maxBytes, overhead, max, i)
    {
      assert FullBySize(recs, fulls, maxBytes, overhead, max, i);
      assert recs[..n][..i] == recs[..i] && fulls[..n][..i] == fulls[..i];
    }
  }

  /** The sizes leave replay no choice: what it rebuilds is a function of the log. */
  lemma {:induction false} SizesDecide(recs: seq<Record>, f: seq<bool>, g: seq<bool>, maxBytes: nat, overhead: nat,
                                       max: nat)
    requires FillsBySize(recs, f, maxBytes, overhead, max) && FillsBySize(recs, g, maxBytes, overhead, max)
    ensures Replay(recs, f, max) == Replay(recs, g, max)
  {
    if recs != [] {
      var n := |recs| - 1;
      FillsFront(recs, f, maxBytes, overhead, max, n);
      FillsFront(recs, g, maxBytes, overhead, max, n);
      SizesDecide(recs[..n], f[..n], g[..n], maxBytes, overhead, max);
      if !Replay(recs[..n], f[..n], max).blocked {
        UsesAll(recs[..n], f[..n], max);
        assert FullBySize(recs, f, maxBytes, overhead, max, n) && FullBySize(recs, g, maxBytes, overhead, max, n);
      }
    }
  }

  /** A log whose every prefix fits the memtable is replayed whole, into the active memtable. */
  lemma {:induction false} SmallLogStaysActive(recs: seq<Record>, fulls: seq<bool>, maxBytes: nat, overhead: nat,
                                               max: nat)
    requires FillsBySize(recs, fulls, maxBytes, overhead, max)
    requires forall i :: 0 < i <= |recs| ==> TotalBytes(Fold(recs[..i]), overhead) < maxBytes
    ensures Replay(recs, fulls, max) == Rebuilt(Fold(recs), [], false, false, [0], |recs|)
  {
    if recs != [] {
      var n := |recs| - 1;
      FillsFront(recs, fulls, maxBytes, overhead, max, n);
      forall i | 0 < i <= n ensures TotalBytes(Fold(recs[..n][..i]), overhead) < maxBytes {
        assert recs[..n][..i] == recs[..i];
      }
      SmallLogStaysActive(recs[..n], fulls[..n], maxBytes, overhead, max);
      assert recs[..n + 1] == recs;
      UsedGrows(recs, fulls, max, n);
      assert FullBySize(recs, fulls, maxBytes, overhead, max, n);
    }
  }

  /** The replay loop of LsmEngine::new. fulls says after which records the memtable had
      reached its limit; the loop breaks off as soon as writes are blocked. */
  method ReplayLog(recs: seq<Record>, maxBytes: nat, overhead: nat, maxImmutables: nat)
    returns (active: Sized, immutables: seq<Mem>, graceUsed: bool, writesBlocked: bool, ghost fulls: seq<bool>)
    ensures Exact(active, overhead) && FillsBySize(recs, fulls, maxBytes, overhead, maxImmutables)
    ensures var b := Replay(recs, fulls, maxImmutables);
            active.entries == b.active && immutables == b.immutables && graceUsed == b.grace
            && writesBlocked == b.blocked
  {
    active, immutables, graceUsed, writesBlocked, fulls := Sized(map[], 0), [], false, false, [];
    ghost var b := Replay([], [], maxImmutables);
    var i := 0;
    while i < |recs| && !writesBlocked
      invariant i <= |recs| && |fulls| == i && Exact(active, overhead)
      invariant b == Replay(recs[..i], fulls, maxImmutables)
      invariant active.entries == b.active && immutables == b.immutables
      invariant graceUsed == b.grace && writesBlocked == b.blocked
      invariant forall x :: 0 <= x < i ==> FullBySize(recs, fulls, maxBytes, overhead, maxImmutables, x)
    {
      var r := recs[i];
      var added, removed;
      active, added, removed := InsertSized(active, overhead, r.key, Cell(r.seqNo, r.value));
      var effectiveMax := EffectiveMax(maxBytes, graceUsed);
      var full := active.bytes >= effectiveMax;
      ReplayNext(recs, fulls, i, full, maxImmutables);
      FullNext(recs, fulls, maxBytes, overhead, maxImmutables, full);
      b := ReplayOne(b, r, full, maxImmutables);
      fulls := fulls + [full];
      i := i + 1;
      if full {
        if |immutables| >= maxImmutables {
          if !graceUsed {
            graceUsed := true;
          } else {
            writesBlocked := true;
          }
          continue;
        }
        immutables := immutables + [active.entries];
        active := Sized(map[], 0);
        graceUsed := false;
      }
    }
    ghost var rest := seq(|recs| - i, _ => false);
    assert (fulls + rest)[..i] == fulls;
    FullsFront(recs, fulls, rest, maxBytes, overhead, maxImmutables);
    UsedGrows(recs[..i], fulls, maxImmutables, i);
    if writesBlocked {
      BlockedStays(recs, fulls + rest, i, maxImmutables);
    } else {
      assert recs[..i] == recs && fulls + rest == fulls;
    }
    fulls := fulls + rest;
  }

  /** So a restart on such a log loses nothing, and leaves nobody waiting. */
  lemma {:induction false} SmallLogRecovers(s: State, fulls: seq<bool>, maxBytes: nat, overhead: nat,
                                            kept: map<nat, Mem>)
    requires Recovery.Sound(s) && CleansOrphans(s, kept)
    requires FillsBySize(LogOf(s.wal), fulls, maxBytes, overhead, s.cfg.maxImmutables)
    requires forall i :: 0 < i <= |LogOf(s.wal)| ==> TotalBytes(Fold(LogOf(s.wal)[..i]), overhead) < maxBytes
    ensures var t := Restart(s, fulls, kept);
            && EngineView.Answers(Durable.Accepted(s), View(t)) && t.active == Fold(LogOf(s.wal))
            && t.immutables == [] && !t.grace && !t.blocked
  {
    SmallLogStaysActive(LogOf(s.wal), fulls, maxBytes, overhead, s.cfg.maxImmutables);
    Recovery.CrashRecovery(s, fulls, kept);
  }

  lemma FullNext(recs: seq<Record>, fulls: seq<bool>, maxBytes: nat, overhead: nat, max: nat, full: bool)
    requires |fulls| < |recs|
    requires forall x :: 0 <= x < |fulls| ==> FullBySize(recs, fulls, maxBytes, overhead, max, x)
    requires var i := |fulls|; var b := Replay(recs[..i], fulls, max);
             full <==> TotalBytes(b.active[recs[i].key := Cell(recs[i].seqNo, recs[i].value)], overhead) >=
                       if b.grace then maxBytes * 5 / 4 else maxBytes
    ensures forall x :: 0 <= x <= |fulls| ==> FullBySize(recs, fulls + [full], maxBytes, overhead, max, x)
  {
    forall x | 0 <= x <= |fulls| ensures FullBySize(recs, fulls + [full], maxBytes, overhead, max, x) {
      assert (fulls + [full])[..x] == fulls[..x];
      assert fulls[..|fulls|] == fulls;
      assert x < |fulls| ==> FullBySize(recs, fulls, maxBytes, overhead, max, x);
    }
  }

  lemma FullsFront(recs: seq<Record>, fulls: seq<bool>, rest: seq<bool>, maxBytes: nat, overhead: nat, max: nat)
    requires |fulls| <= |recs|
    requires forall x :: 0 <= x < |fulls| ==> FullBySize(recs, fulls, maxBytes, overhead, max, x)
    ensures forall x :: 0 <= x < |fulls| ==> FullBySize(recs, fulls + rest, maxBytes, overhead, max, x)
  {
    forall x | 0 <= x < |fulls| ensures FullBySize(recs, fulls + rest, maxBytes, overhead, max, x) {
      assert (fulls + rest)[..x] == fulls[..x];
      assert FullBySize(recs, fulls, maxBytes, overhead, max, x);
    }
  }

  /** Startup cleanup of the log: delete_segments_below_watermark over all files. */
  method CleanLog(wal: seq<Segment>, watermark: nat) returns (kept: seq<Segment>)
    requires wal != []
    ensures kept == Kept(wal, watermark)
    ensures kept != [] && kept[|kept| - 1] == wal[|wal| - 1]
    ensures forall seg :: seg in kept[..|kept| - 1] <==> seg in wal[..|wal| - 1] && IsNew(seg, watermark)
  {
    kept := [];
    var n := |wal| - 1;
    assert wal[..n][0..] == wal[..n];
    for i := 0 to n
      invariant KeptOld(wal[..n], watermark) == kept + KeptOld(wal[..n][i..], watermark)
    {
      assert wal[..n][i..][1..] == wal[..n][i + 1..];
      if MaxSeqNo(wal[i].records) > watermark {
        assert kept + ([wal[i]] + KeptOld(wal[..n][i + 1..], watermark)) ==
            kept + [wal[i]] + KeptOld(wal[..n][i + 1..], watermark);
        kept := kept + [wal[i]];
      }
    }
    assert wal[..n][n..] == [];
    kept := kept + [wal[n]];
    KeptExactly(wal, watermark);
  }

  /** The first i segments of wal have been looked at, and what is kept in the end is kept. */
  ghost predicate CleanedTo(wal: seq<Segment>, i: nat, watermark: nat, kept: seq<Segment>) {
    && i < |wal|
    && wal[..i] + KeptOld(wal[i..|wal| - 1], watermark) + [wal[|wal| - 1]] == kept
  }

  lemma {:induction false} CleanBegins(wal: seq<Segment>, watermark: nat)
    requires wal != []
    ensures CleanedTo(wal, 0, watermark, Kept(wal, watermark))
  {
    assert wal[0..|wal| - 1] == wal[..|wal| - 1];
    assert wal[..0] + KeptOld(wal[..|wal| - 1], watermark) == KeptOld(wal[..|wal| - 1], watermark);
  }

  lemma {:induction false} CleanKeeps(wal: seq<Segment>, i: nat, watermark: nat, kept: seq<Segment>)
    requires CleanedTo(wal, i, watermark, kept) && i + 1 < |wal| && MaxSeqNo(wal[i].records) > watermark
    ensures CleanedTo(wal, i + 1, watermark, kept)
  {
    var rest := KeptOld(wal[i + 1..|wal| - 1], watermark);
    assert wal[i..|wal| - 1][1..] == wal[i + 1..|wal| - 1];
    assert wal[..i] + ([wal[i]] + rest) == wal[..i + 1] + rest;
  }

  lemma {:induction false} CleanDrops(wal: seq<Segment>, i: nat, watermark: nat, kept: seq<Segment>)
    requires CleanedTo(wal, i, watermark, kept) && i + 1 < |wal| && MaxSeqNo(wal[i].records) <= watermark
    ensures CleanedTo(wal[..i] + wal[i + 1..], i, watermark, kept)
  {
    assert wal[i..|wal| - 1][1..] == wal[i + 1..|wal| - 1];
    WithoutOne(wal, i);
  }

  lemma WithoutOne<T>(s: seq<T>, i: nat)
    requires i + 1 < |s|
    ensures var less := s[..i] + s[i + 1..];
            less[..i] == s[..i] && less[i..|less| - 1] == s[i + 1..|s| - 1] && less[|less| - 1] == s[|s| - 1]
  {
    var less := s[..i] + s[i + 1..];
    assert less[i..] == s[i + 1..];
    assert less[i..|less| - 1] == less[i..][..|less| - 1 - i] == s[i + 1..][..|less| - 1 - i];
  }

  lemma {:induction false} CleanEnds(wal: seq<Segment>, watermark: nat, kept: seq<Segment>)
    requires wal != [] && CleanedTo(wal, |wal| - 1, watermark, kept)
    ensures kept == wal
  {
    assert wal[|wal| - 1..|wal| - 1] == [];
    assert wal[..|wal| - 1] + [] + [wal[|wal| - 1]] == wal;
  }

  /** The segment holds a record above the watermark. */
  ghost predicate IsNew(seg: Segment, watermark: nat) {
    exists i :: 0 <= i < |seg.records| && seg.records[i].seqNo > watermark
  }

  lemma NewByMax(seg: Segment, watermark: nat)
    ensures IsNew(seg, watermark) <==> MaxSeqNo(seg.records) > watermark
  {
  }

  /** What stays is the current segment, as it was, and those with a record above the watermark. */
  lemma {:induction false} KeptExactly(wal: seq<Segment>, watermark: nat)
    requires wal != []
    ensures var kept := Kept(wal, watermark); var n := |kept| - 1;
            && n >= 0 && kept[n] == wal[|wal| - 1]
            && forall seg :: seg in kept[..n] <==> seg in wal[..|wal| - 1] && IsNew(seg, watermark)
  {
    var front := KeptOld(wal[..|wal| - 1], watermark);
    OldExactly(wal[..|wal| - 1], watermark);
    assert (front + [wal[|wal| - 1]])[..|front|] == front;
  }

  lemma {:induction false} OldExactly(wal: seq<Segment>, watermark: nat)
    ensures forall seg :: seg in KeptOld(wal, watermark) <==> seg in wal && IsNew(seg, watermark)
  {
    if wal != [] {
      OldExactly(wal[1..], watermark);
      NewByMax(wal[0], watermark);
      assert forall seg :: seg in wal <==> seg == wal[0] || seg in wal[1..];
    }
  }

  // ---- list surgery of run_compaction_job -----------------------------------------------------

  lemma {:induction false} WithoutSnoc(ts: seq<Table>, t: Table, ids: set<nat>)
    ensures Without(ts + [t], ids) == Without(ts, ids) + (if t.id in ids then [] else [t])
  {
    WithoutConcat(ts, [t], ids);
    assert [t][1..] == [];
  }

  /** position, retain and insert on the open tables. */
  method ReplaceTables(ts: seq<Table>, ids: set<nat>, out: Table) returns (r: seq<Table>)
    ensures r == Replace(ts, ids, out)
  {
    var pos := 0;
    while pos < |ts| && ts[pos].id !in ids
      invariant pos <= |ts| && FirstIn(ts, ids) >= pos
    {
      pos := pos + 1;
    }
    assert pos == FirstIn(ts, ids);
    var insertPos := if pos == |ts| then 0 else pos;
    var rest: seq<Table> := [];
    for i := 0 to |ts|
      invariant rest == Without(ts[..i], ids)
    {
      assert ts[..i + 1] == ts[..i] + [ts[i]];
      WithoutSnoc(ts[..i], ts[i], ids);
      if ts[i].id !in ids {
        rest := rest + [ts[i]];
      }
    }
    assert ts[..|ts|] == ts;
    var q := if insertPos <= |rest| then insertPos else |rest|;
    r := rest[..q] + [out] + rest[q..];
  }

  lemma {:induction false} WithoutIdsSnoc(ts: seq<nat>, t: nat, ids: set<nat>)
    ensures WithoutIds(ts + [t], ids) == WithoutIds(ts, ids) + (if t in ids then [] else [t])
  {
    if ts == [] {
      assert [t][1..] == [];
    } else {
      assert (ts + [t])[1..] == ts[1..] + [t];
      WithoutIdsSnoc(ts[1..], t, ids);
    }
  }

  lemma {:induction false} FirstIdStep(ts: seq<nat>, ids: set<nat>, pos: nat)
    requires pos < |ts| && FirstIdIn(ts, ids) >= pos
    ensures FirstIdIn(ts, ids) == pos <==> ts[pos] in ids
  {
    if pos > 0 {
      FirstIdStep(ts[1..], ids, pos - 1);
    }
  }

  /** The same on the catalogue's ids. */
  method ReplaceCatalogued(ts: seq<nat>, ids: set<nat>, out: nat) returns (r: seq<nat>)
    ensures r == ReplaceIds(ts, ids, out)
  {
    var pos := 0;
    while pos < |ts| && ts[pos] !in ids
      invariant pos <= |ts| && FirstIdIn(ts, ids) >= pos
    {
      FirstIdStep(ts, ids, pos);
      pos := pos + 1;
    }
    if pos < |ts| {
      FirstIdStep(ts, ids, pos);
    }
    var insertPos := if pos == |ts| then 0 else pos;
    var rest: seq<nat> := [];
    for i := 0 to |ts|
      invariant rest == WithoutIds(ts[..i], ids)
    {
      assert ts[..i + 1] == ts[..i] + [ts[i]];
      WithoutIdsSnoc(ts[..i], ts[i], ids);
      if ts[i] !in ids {
        rest := rest + [ts[i]];
      }
    }
    assert ts[..|ts|] == ts;
    var q := if insertPos <= |rest| then insertPos else |rest|;
    r := rest[..q] + [out] + rest[q..];
  }

  /** The handles of ids among the open tables, or nothing if one is not open. */
  method FindHandles(ts: seq<Table>, ids: seq<nat>) returns (r: Option<seq<Table>>)
    ensures r.Some? <==> forall i :: 0 <= i < |ids| ==> HasTable(ts, ids[i])
    ensures r.Some? ==> r.value == TablesOf(ts, ids)
  {
    var handles: seq<Table> := [];
    for i := 0 to |ids|
      invariant forall j :: 0 <= j < i ==> HasTable(ts, ids[j])
      invariant |handles| == i && forall j :: 0 <= j < i ==> handles[j] == TableOf(ts, ids[j])
    {
      var pos := 0;
      while pos < |ts| && ts[pos].id != ids[i]
        invariant pos <= |ts| && forall k :: 0 <= k < pos ==> ts[k].id != ids[i]
      {
        pos := pos + 1;
      }
      if pos == |ts| {
        assert !HasTable(ts, ids[i]);
        return None;
      }
      assert HasTable(ts, ids[i]);
      assert FirstIn(ts, {ids[i]}) == pos;
      handles := handles + [ts[pos]];
    }
    r := Some(handles);
  }

  /** The largest sequence number in a memtable. */
  method MaxSeqOf(m: Mem) returns (n: nat)
    requires m != map[]
    ensures IsMaxSeqNo(m, n)
  {
    var k :| k in m;
    n := m[k].seqNo;
    var left := m.Keys - {k};
    while left != {}
      invariant left <= m.Keys && (exists x :: x in m && m[x].seqNo == n)
      invariant forall x :: x in m && x !in left ==> m[x].seqNo <= n
    {
      var y :| y in left;
      n := Max(n, m[y].seqNo);
      left := left - {y};
    }
  }

  // ---- lookups ------------------------------------------------------------------------------

  /** The loop over a version's immutables. */
  method SearchMemtables(memtables: seq<Mem>, key: Key) returns (hit: Option<Cell>)
    ensures hit == FirstHit(memtables, key)
  {
    assert memtables[0..] == memtables;
    for i := 0 to |memtables|
      invariant FirstHit(memtables, key) == FirstHit(memtables[i..], key)
    {
      assert memtables[i..][1..] == memtables[i + 1..];
      if key in memtables[i] {
        return Some(memtables[i][key]);
      }
    }
    hit := None;
  }

  /** search_sstables, on the tables' contents. */
  method SearchTables(tables: seq<Table>, key: Key) returns (hit: Option<Cell>)
    ensures hit == FirstHit(Contents(tables), key)
  {
    assert Contents(tables)[0..] == Contents(tables);
    for i := 0 to |tables|
      invariant FirstHit(Contents(tables), key) == FirstHit(Contents(tables)[i..], key)
    {
      assert Contents(tables)[i..][1..] == Contents(tables)[i + 1..];
      if key in tables[i].content {
        return Some(tables[i].content[key]);
      }
    }
    hit := None;
  }

  /** Each of the first n segments holds a record above the watermark. */
  ghost predicate NoOldSegment(wal: seq<Segment>, n: nat, watermark: nat)
    requires n <= |wal|
  {
    forall j :: 0 <= j < n ==> MaxSeqNo(wal[j].records) > watermark
  }
}
