/** The compaction manager: a counter of running jobs and the set of tables they hold. */
module CompactionManagers {
  import opened Entries
  import opened Engine

  class CompactionManager {
    var runningJobs: nat
    var inProgressFiles: set<nat>
    var paused: bool

    constructor ()
      ensures runningJobs == 0 && inProgressFiles == {} && !paused
    {
      runningJobs, inProgressFiles, paused := 0, {}, false;
    }

    /** try_reserve_slot: a compare-and-swap loop. between lists what other threads leave in the
        counter after this one has loaded it, attempt by attempt; then they rest. The slot is
        taken from the latest value, and only below the limit. */
    method TryReserveSlot(maxConcurrent: nat, between: seq<nat>) returns (ok: bool, ghost seen: nat)
      modifies this`runningJobs
      ensures between == [] ==> seen == old(runningJobs)
      ensures ok ==> seen < Max(maxConcurrent, 1) && runningJobs == seen + 1
      ensures !ok ==> seen >= Max(maxConcurrent, 1) && runningJobs == seen
      ensures seen == old(runningJobs) || seen in between
    {
      var limit := Max(maxConcurrent, 1);
      seen := runningJobs;
      var attempt := 0;
      while true
        invariant attempt <= |between| && seen == runningJobs
        invariant seen == old(runningJobs) || seen in between
        invariant between == [] ==> runningJobs == old(runningJobs)
        decreases |between| - attempt
      {
        var current := runningJobs;
        if current >= limit {
          return false, seen;
        }
        if attempt < |between| {
          runningJobs := between[attempt];
          seen := between[attempt];
          if runningJobs != current {
            attempt := attempt + 1;
            continue;
          }
        }
        runningJobs := current + 1;
        return true, seen;
      }
    }

    method ReleaseSlot()
      requires runningJobs > 0
      modifies this`runningJobs
      ensures runningJobs == old(runningJobs) - 1
    {
      runningJobs := runningJobs - 1;
    }

    /** try_mark_in_progress: all of ids or none. */
    method TryMarkInProgress(ids: seq<nat>) returns (ok: bool)
      modifies this`inProgressFiles
      ensures ok <==> SetOf(ids) !! old(inProgressFiles)
      ensures inProgressFiles == if ok then old(inProgressFiles) + SetOf(ids) else old(inProgressFiles)
    {
      for i := 0 to |ids|
        invariant inProgressFiles == old(inProgressFiles) && SetOf(ids[..i]) !! inProgressFiles
      {
        if ids[i] in inProgressFiles {
          assert ids[i] in SetOf(ids);
          return false;
        }
        NextOf(ids, i);
      }
      assert ids[..|ids|] == ids;
      for i := 0 to |ids|
        invariant inProgressFiles == old(inProgressFiles) + SetOf(ids[..i])
      {
        NextOf(ids, i);
        inProgressFiles := inProgressFiles + {ids[i]};
      }
      ok := true;
    }

    method ClearInProgress(ids: seq<nat>)
      modifies this`inProgressFiles
      ensures inProgressFiles == old(inProgressFiles) - SetOf(ids)
    {
      for i := 0 to |ids|
        invariant inProgressFiles == old(inProgressFiles) - SetOf(ids[..i])
      {
        NextOf(ids, i);
        inProgressFiles := inProgressFiles - {ids[i]};
      }
      assert ids[..|ids|] == ids;
    }
  }

  lemma NextOf(ids: seq<nat>, i: nat)
    requires i < |ids|
    ensures SetOf(ids[..i + 1]) == SetOf(ids[..i]) + {ids[i]}
  {
    assert ids[..i + 1] == ids[..i] + [ids[i]];
  }

  /** What a successful mark adds, clearing takes away: a failed reservation leaves no trace. */
  lemma ClearUndoesMark(held: set<nat>, ids: seq<nat>)
    requires SetOf(ids) !! held
    ensures held + SetOf(ids) - SetOf(ids) == held
  {
  }
}
