/** Backpressure: the immutable queue is bounded, and blocked writers are never forgotten. */
module Backpressure {
  import opened Entries
  import opened Levels
  import opened Engine
  import opened Frames
  import opened Catalog
  import opened Jobs
  import opened EngineView
  import opened Files
  import opened Durable
  import opened Reads
  import opened Recovery
  import opened Timelines

  /** The flusher has taken a memtable off the queue and has not yet looked for stalled writers. */
  predicate WillUnblock(f: FlushPhase) { f.Popped? || f.SawRoom? }

  predicate QueueFull(s: State) { |s.immutables| >= s.cfg.maxImmutables }

  ghost predicate StallOk(s: State) {
    && |s.immutables| <= s.cfg.maxImmutables
    && (s.writer == Counted(false) ==> !QueueFull(s))
    && (s.blocked || s.writer == Counted(true) ==> QueueFull(s) || WillUnblock(s.flusher))
  }

  lemma StallStep(a: Action, s: State)
    requires StallOk(s) && Enabled(a, s)
    ensures StallOk(Apply(a, s))
  {
    if IsJobAction(a) {
      JobFrame(a, s);
      StallFrame(s, Apply(a, s));
    }
  }

  lemma StallFrame(s: State, s': State)
    requires StallOk(s) && s'.immutables == s.immutables && s'.cfg == s.cfg
    requires s'.writer == s.writer && s'.blocked == s.blocked && s'.flusher == s.flusher
    ensures StallOk(s')
  {
  }

  lemma StallRestart(s: State, fulls: seq<bool>, kept: map<nat, Mem>)
    requires |fulls| == |LogOf(s.wal)| && CleansOrphans(s, kept)
    ensures StallOk(Restart(s, fulls, kept))
  {
    ReplayBuilds(LogOf(s.wal), fulls, s.cfg.maxImmutables);
  }

  lemma {:induction false} TimelineStallOk(life: seq<State>, i: nat)
    requires IsTimeline(life) && i < |life|
    ensures StallOk(life[i])
  {
    if i > 0 {
      TimelineStallOk(life, i - 1);
      assert TimelineAt(life, i);
      var s, s' := life[i - 1], life[i];
      if AnyStep(s, s') {
        var a :| Enabled(a, s) && s' == Apply(a, s);
        StallStep(a, s);
      } else {
        var c, fulls, kept :| RestartsAs(s.(cfg := c), fulls, kept, s');
        StallRestart(s.(cfg := c), fulls, kept);
      }
    }
  }

  /** No lost unblock: in every state of every timeline the queue respects its bound, and if
      writes are blocked then either the flusher is about to clear them, or a memtable is
      queued and the flusher is on it or free to take it. */
  lemma NoLostUnblock(life: seq<State>, i: nat)
    requires IsTimeline(life) && i < |life| && life[i].cfg.maxImmutables >= 1
    ensures |life[i].immutables| <= life[i].cfg.maxImmutables
    ensures life[i].blocked ==>
              WillUnblock(life[i].flusher)
              || (QueueFull(life[i]) && (Enabled(PeekFlush, life[i]) || !life[i].flusher.NoFlush?))
  {
    TimelineStallOk(life, i);
  }

  // ---- the end of a stall ---------------------------------------------------------------------------

  /** The flusher is between its pop and its rest in every state from i up to j. */
  ghost predicate Unblocking(life: seq<State>, i: nat, j: nat)
    requires j < |life|
  {
    forall x :: i <= x < j ==> WillUnblock(life[x].flusher)
  }

  /** A flusher that has seen room moves only to clear the stall; one that has not looked yet
      sees room exactly if the queue is not full. */
  lemma FlusherMoves(a: Action, s: State)
    requires Enabled(a, s) && WillUnblock(s.flusher)
    ensures var s' := Apply(a, s);
            s'.flusher == s.flusher || (s.flusher.Popped? && s'.flusher == if QueueFull(s) then NoFlush else SawRoom)
            || (s.flusher.SawRoom? && s'.flusher.NoFlush? && !s'.blocked)
  {
    if IsJobAction(a) {
      JobFrame(a, s);
    }
  }

  /** The same of whoever moves. */
  lemma StallMoves(s: State, s': State)
    requires AnyStep(s, s') && WillUnblock(s.flusher)
    ensures s'.flusher == s.flusher || (s.flusher.Popped? && s'.flusher == if QueueFull(s) then NoFlush else SawRoom)
            || (s.flusher.SawRoom? && s'.flusher.NoFlush? && !s'.blocked)
    ensures s.flusher.Popped? && s'.flusher.NoFlush? ==> QueueFull(s')
  {
    var a :| Enabled(a, s) && s' == Apply(a, s);
    FlusherMoves(a, s);
    if s.flusher.Popped? && s'.flusher.NoFlush? {
      RestsOnFull(a, s);
    }
  }

  lemma RestsOnFull(a: Action, s: State)
    requires Enabled(a, s) && s.flusher.Popped? && Apply(a, s).flusher.NoFlush?
    ensures QueueFull(Apply(a, s))
  {
    if IsJobAction(a) {
      JobFrame(a, s);
    }
  }

  lemma {:induction false} SeesRoomOnce(life: seq<State>, i: nat, j: nat)
    requires i <= j < |life| && Uninterrupted(life, i, j) && Unblocking(life, i, j)
    requires life[i].flusher.SawRoom? && WillUnblock(life[j].flusher)
    ensures life[j].flusher.SawRoom?
  {
    if i < j {
      SeesRoomOnce(life, i, j - 1);
      assert SteppedAt(life, j);
      StallMoves(life[j - 1], life[j]);
    }
  }

  /** Whatever others do in the meantime, a flusher that comes to rest after a pop leaves writes
      unblocked if it saw room on the way, even if the queue has filled up since; and if it saw
      none the queue is full. */
  lemma {:induction false} FlushEndsStall(life: seq<State>, i: nat, j: nat)
    requires IsTimeline(life) && i < j < |life| && Uninterrupted(life, i, j) && Unblocking(life, i, j)
    requires life[i].flusher.Popped? && life[j].flusher.NoFlush?
    ensures if exists x :: i <= x < j && life[x].flusher.SawRoom? then !life[j].blocked else QueueFull(life[j])
  {
    assert SteppedAt(life, j);
    StallMoves(life[j - 1], life[j]);
    if x :| i <= x < j && life[x].flusher.SawRoom? {
      SeesRoomOnce(life, x, j - 1);
    }
  }
}
