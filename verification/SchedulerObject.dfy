/** The scheduler object itself (background/scheduler.go): its fields, and the methods that change
    them step by step, proved against the steps of RunGuard. */
module SchedulerObject {
  import opened RunGuard

  class Scheduler {
    var jobs: seq<nat>
    var key: map<nat, string>
    var running: set<nat>
    var inFlight: set<nat>
    var watchers: set<(nat, nat)>
    var next: nat
    var lastMod: int
    var lastSize: int

    constructor ()
      ensures Snapshot() == INITIAL
    {
      jobs, key, running, inFlight, watchers, next := [], map[], {}, {}, {}, 0;
      lastMod, lastSize := 0, 0;
    }

    function Snapshot(): State
      reads this
    {
      State(jobs, key, running, inFlight, watchers, next)
    }

    /** What holds whatever the file says. */
    ghost predicate Valid()
      reads this
    {
      Base(Snapshot())
    }

    /** One pass over the jobs listed when the minute began. */
    method TickOnce(due: set<string>)
      requires Valid()
      modifies this`running, this`inFlight
      ensures Snapshot() == Tick(old(Snapshot()), due, |old(jobs)|)
      ensures Valid() && (old(Inv(Snapshot())) ==> Inv(Snapshot()))
    {
      hide Inv, FlagsExplained, Start;
      ghost var s := Snapshot();
      assert forall id :: id in s.jobs ==> id in s.key;
      var listed := jobs;
      for i := 0 to |listed|
        invariant listed == jobs == s.jobs && key == s.key
        invariant Snapshot() == Tick(s, due, i)
      {
        assert listed[i] in s.jobs;
        var id := listed[i];
        if key[id] in due {
          StartOne(id);
        }
      }
      TickKeepsBase(s, due, |listed|);
      if Inv(s) { TickKeepsInv(s, due, |listed|); }
    }

    /** The compare-and-swap on the running flag, and the request it lets through. */
    method StartOne(id: nat)
      modifies this`running, this`inFlight
      ensures Snapshot() == Start(old(Snapshot()), id)
    {
      if id in running {
        return;
      }
      running := running + {id};
      inFlight := inFlight + {id};
    }

    method FireReturned(id: nat)
      requires Valid() && id in inFlight
      modifies this`running, this`inFlight
      ensures Snapshot() == Finish(old(Snapshot()), id)
      ensures Valid() && (old(Inv(Snapshot())) ==> Inv(Snapshot()))
    {
      FinishKeepsBase(Snapshot(), id);
      if Inv(Snapshot()) { FinishKeepsInv(Snapshot(), id); }
      hide Inv, Base;
      running := running - {id};
      inFlight := inFlight - {id};
    }

    method WatcherLooks(w: (nat, nat))
      requires Valid() && w in watchers
      modifies this`running, this`watchers
      ensures Snapshot() == Poll(old(Snapshot()), w)
      ensures Valid() && (old(Inv(Snapshot())) ==> Inv(Snapshot()))
    {
      PollKeepsBase(Snapshot(), w);
      if Inv(Snapshot()) { PollKeepsInv(Snapshot(), w); }
      hide Inv, Base;
      if w.0 !in running {
        running := running - {w.1};
        watchers := watchers - {w};
      }
    }

    /** Re-reads the file when its time or size has changed; `keys` is what it parses to, whatever that
        is. The guard is kept when the file is safe. */
    method ReloadFile(modTime: int, size: int, keys: seq<string>) returns (ok: bool)
      requires Valid()
      modifies this
      ensures Valid()
      ensures old(Inv(Snapshot()) && SafeFile(Snapshot(), keys)) ==> Inv(Snapshot())
      ensures var same := modTime == old(lastMod) && size == old(lastSize) && old(jobs) != [];
              && (same ==> ok && Snapshot() == old(Snapshot()))
              && (!same ==> ok == (keys != []) && Snapshot() == Reload(old(Snapshot()), keys))
    {
      if modTime == lastMod && size == lastSize && jobs != [] {
        return true;
      }
      if |keys| == 0 {
        return false;
      }
      ghost var s := Snapshot();
      ReloadKeepsBase(s, keys);
      if Inv(s) && SafeFile(s, keys) { ReloadKeepsInv(s, keys); }
      hide Inv, Carry, Previous, SafeFile, FlagsExplained;
      CarryOver(keys);
      lastMod, lastSize := modTime, size;
      ok := true;
    }

    /** The last listed job of each key. */
    method PreviousJobs() returns (prev: map<string, nat>)
      requires forall id :: id in jobs ==> id in key
      ensures MapsPrevious(Snapshot(), prev, |jobs|)
    {
      ghost var s := Snapshot();
      prev := map[];
      MapsNothing(s);
      hide MapsPrevious;
      for i := 0 to |jobs|
        invariant MapsPrevious(s, prev, i)
      {
        assert jobs[i] in jobs;
        MapsNext(s, prev, i);
        prev := prev[key[jobs[i]] := jobs[i]];
      }
    }

    /** The flags of the old jobs are carried over, one new job at a time. */
    method CarryOver(keys: seq<string>)
      requires forall id :: id in jobs ==> id in key
      requires forall id :: id in jobs ==> id < next
      modifies this`jobs, this`key, this`running, this`watchers, this`next
      ensures Snapshot() == Carry(old(Snapshot()), keys, |keys|)
    {
      ghost var s := Snapshot();
      var prev := PreviousJobs();
      var added: seq<nat> := [];
      assert Carry(s, keys, 0) == s.(jobs := []);
      assert forall id :: id in s.jobs ==> id in s.key && id < s.next;
      hide *;
      for i := 0 to |keys|
        invariant next == s.next + i
        invariant State(added, key, running, inFlight, watchers, next) == Carry(s, keys, i)
      {
        CarryByMap(s, prev, keys, i);
        var id := AddOne(keys[i], prev);
        added := added + [id];
      }
      jobs := added;
    }

    /** One new job; a set flag of the job it replaces is taken over, to be cleared by a watcher. */
    method AddOne(k: string, prev: map<string, nat>) returns (id: nat)
      modifies this`key, this`running, this`watchers, this`next
      ensures id == old(next) && next == id + 1 && key == old(key)[id := k]
      ensures running == if k in prev && prev[k] in old(running) then old(running) + {id} else old(running)
      ensures watchers == if k in prev && prev[k] in old(running) then old(watchers) + {(prev[k], id)}
              else old(watchers)
    {
      id := next;
      if k in prev && prev[k] in running {
        running := running + {id};
        watchers := watchers + {(prev[k], id)};
      }
      key := key[id := k];
      next := next + 1;
    }
  }

  /** prev holds the last of the first n listed jobs of each key. */
  ghost predicate MapsPrevious(s: State, prev: map<string, nat>, n: nat)
    requires n <= |s.jobs| && forall id :: id in s.jobs ==> id in s.key
  {
    && (forall k :: k in prev <==> Previous(s, k, n) > 0)
    && (forall k :: k in prev ==> prev[k] == s.jobs[Previous(s, k, n) - 1])
  }

  lemma MapsNothing(s: State)
    requires forall id :: id in s.jobs ==> id in s.key
    ensures MapsPrevious(s, map[], 0)
  {
  }

  lemma MapsNext(s: State, prev: map<string, nat>, n: nat)
    requires n < |s.jobs| && (forall id :: id in s.jobs ==> id in s.key) && MapsPrevious(s, prev, n)
    ensures s.jobs[n] in s.key && MapsPrevious(s, prev[s.key[s.jobs[n]] := s.jobs[n]], n + 1)
  {
    assert s.jobs[n] in s.jobs;
  }

  lemma CarryByMap(s: State, prev: map<string, nat>, keys: seq<string>, i: nat)
    requires (forall id :: id in s.jobs ==> id in s.key && id < s.next) && MapsPrevious(s, prev, |s.jobs|) && i < |keys|
    ensures var k, t := keys[i], Carry(s, keys, i);
            var inherits := k in prev && prev[k] in t.running;
            Carry(s, keys, i + 1)
            == State(t.jobs + [t.next], t.key[t.next := k],
                     if inherits then t.running + {t.next} else t.running, t.inFlight,
                     if inherits then t.watchers + {(prev[k], t.next)} else t.watchers, t.next + 1)
  {
    InheritsByMap(s, prev, keys[i]);
    if keys[i] in prev {
      CarryOldFlags(s, keys, i, prev[keys[i]]);
    }
    hide MapsPrevious, Previous, Inherits, Heir;
  }

  /** The map over the old jobs says which flag a key inherits. */
  lemma InheritsByMap(s: State, prev: map<string, nat>, k: string)
    requires forall id :: id in s.jobs ==> id in s.key && id < s.next
    requires MapsPrevious(s, prev, |s.jobs|)
    ensures k in prev ==> prev[k] < s.next
    ensures Inherits(s, k) <==> k in prev && prev[k] in s.running
    ensures Inherits(s, k) ==> Heir(s, k) == prev[k]
  {
    var p := Previous(s, k, |s.jobs|);
    assert p > 0 ==> s.jobs[p - 1] in s.jobs;
  }
}
