/** Runs of the engine's steps, end to end. */
module Reaching {
  import opened Engine
  import opened Reads
  import opened Recovery

  /** t is reached from s by some crash-free run. */
  ghost predicate Reaches(s: State, t: State) {
    exists run :: RunBetween(run, s, t)
  }

  ghost predicate RunBetween(run: seq<State>, s: State, t: State) {
    IsRun(run) && run[0] == s && run[|run| - 1] == t
  }

  lemma ReachesSelf(s: State)
    ensures Reaches(s, s)
  {
    assert RunBetween([s], s, s);
  }

  /** One more step. */
  lemma ReachesNext(s: State, t: State, a: Action)
    requires Reaches(s, t) && Enabled(a, t) && Benign(a, t)
    ensures Reaches(s, Apply(a, t))
  {
    var run :| RunBetween(run, s, t);
    var u := Apply(a, t);
    var more := run + [u];
    forall i | 0 < i < |more| ensures StepAt(more, i) {
      if i < |run| {
        assert StepAt(run, i);
      } else {
        assert Step(t, u);
      }
    }
    assert RunBetween(more, s, u);
  }

  lemma ReachesOver(s: State, t: State, u: State)
    requires Reaches(s, t) && Reaches(t, u)
    ensures Reaches(s, u)
  {
    var run :| RunBetween(run, t, u);
    ReachesAlong(s, run, |run| - 1);
  }

  lemma {:induction false} ReachesAlong(s: State, run: seq<State>, i: nat)
    requires IsRun(run) && Reaches(s, run[0]) && i < |run|
    ensures Reaches(s, run[i])
  {
    if i > 0 {
      ReachesAlong(s, run, i - 1);
      assert StepAt(run, i);
      var a :| Enabled(a, run[i - 1]) && Benign(a, run[i - 1]) && run[i] == Apply(a, run[i - 1]);
      ReachesNext(s, run[i - 1], a);
    }
  }

  lemma {:induction false} RunSound(run: seq<State>, i: nat)
    requires IsRun(run) && Sound(run[0]) && i < |run|
    ensures Sound(run[i])
  {
    if i > 0 {
      RunSound(run, i - 1);
      assert StepAt(run, i);
      SoundStep(run[i - 1], run[i]);
    }
  }

  lemma ReachesGood(s: State, t: State)
    requires Reaches(s, t) && Good(s)
    ensures Good(t)
  {
    var run :| RunBetween(run, s, t);
    RunGood(run, |run| - 1);
  }

  /** Everything that holds in every reachable state holds at the end of a run. */
  lemma ReachesSound(s: State, t: State)
    requires Reaches(s, t) && Sound(s)
    ensures Sound(t)
  {
    var run :| RunBetween(run, s, t);
    RunSound(run, |run| - 1);
  }
}
