/** What a tick and a reload of the scheduler do (background/scheduler.go), said by the listed jobs, their
    keys and their flags.

    A tick starts the due jobs whose flag is clear and no others; a reload numbers the jobs of the file
    anew, and each one takes over the flag of the last listed job with its key. */
module RunSteps {
  import opened RunGuard

  /** The listed jobs among the first n that are due and whose flag is clear. */
  ghost function Startable(s: State, due: set<string>, n: nat): set<nat>
    requires n <= |s.jobs| && forall id :: id in s.jobs ==> id in s.key
  {
    set id | id in s.jobs[..n] && id in s.key && s.key[id] in due && id !in s.running
  }

  lemma {:induction false} TickSome(s: State, due: set<string>, n: nat)
    requires n <= |s.jobs| && forall id :: id in s.jobs ==> id in s.key
    ensures Tick(s, due, n)
         == s.(running := s.running + Startable(s, due, n), inFlight := s.inFlight + Startable(s, due, n))
    decreases n
  {
    if n == 0 {
      assert Startable(s, due, 0) == {};
    } else {
      TickSome(s, due, n - 1);
      var id := s.jobs[n - 1];
      assert s.jobs[..n] == s.jobs[..n - 1] + [id] && id in s.jobs;
      assert Startable(s, due, n)
          == Startable(s, due, n - 1) + if s.key[id] in due && id !in s.running then {id} else {};
    }
  }

  /** A tick starts exactly the listed jobs that are due and whose flag is clear, and does nothing else. */
  lemma TickIs(s: State, due: set<string>)
    requires forall id :: id in s.jobs ==> id in s.key
    ensures var started := set id | id in s.jobs && id in s.key && s.key[id] in due && id !in s.running;
            Tick(s, due, |s.jobs|) == s.(running := s.running + started, inFlight := s.inFlight + started)
  {
    TickSome(s, due, |s.jobs|);
    assert s.jobs[..|s.jobs|] == s.jobs;
  }

  /** The j-th listed job is the last one with the key. */
  ghost predicate LastListed(s: State, k: string, j: nat)
    requires forall id :: id in s.jobs ==> id in s.key
  {
    j < |s.jobs| && s.key[s.jobs[j]] == k && forall i :: j < i < |s.jobs| ==> s.key[s.jobs[i]] != k
  }

  /** The last listed job with the key is x, and its flag is set. */
  ghost predicate LastIsRunning(s: State, k: string, x: nat)
    requires forall id :: id in s.jobs ==> id in s.key
  {
    exists j: nat :: LastListed(s, k, j) && s.jobs[j] == x && x in s.running
  }

  lemma {:induction false} PreviousIsLast(s: State, k: string, n: nat)
    requires n <= |s.jobs| && forall id :: id in s.jobs ==> id in s.key
    ensures forall i :: Previous(s, k, n) <= i < n ==> s.key[s.jobs[i]] != k
  {
    if n > 0 && s.key[s.jobs[n - 1]] != k {
      PreviousIsLast(s, k, n - 1);
    }
  }

  lemma HeirIsLast(s: State, k: string, x: nat)
    requires forall id :: id in s.jobs ==> id in s.key
    ensures LastIsRunning(s, k, x) <==> Inherits(s, k) && Heir(s, k) == x
  {
    PreviousIsLast(s, k, |s.jobs|);
    var p := Previous(s, k, |s.jobs|);
    hide Previous;
    if p > 0 {
      assert LastListed(s, k, p - 1);
    }
  }

  /** What a usable file makes of the jobs: the i-th line is a new job with the line's key; its flag is set
      exactly when that of the last listed job with the key was, and then it watches that job. */
  lemma ReloadIs(s: State, keys: seq<string>, i: nat, x: nat)
    requires WellNumbered(s) && i < |keys|
    ensures var t, id := Reload(s, keys), s.next + i;
            && |t.jobs| == |keys| && t.jobs[i] == id && id in t.key && t.key[id] == keys[i]
            && t.next == s.next + |keys| && t.inFlight == s.inFlight
            && (id in t.running <==> exists y :: LastIsRunning(s, keys[i], y))
            && ((x, id) in t.watchers <==> LastIsRunning(s, keys[i], x))
  {
    ReloadShape(s, keys);
    ReloadKeys(s, keys, s.next + i);
    ReloadWatchers(s, keys, (x, s.next + i));
    HeirIsLast(s, keys[i], x);
    if Inherits(s, keys[i]) {
      HeirIsLast(s, keys[i], Heir(s, keys[i]));
    }
    if y :| LastIsRunning(s, keys[i], y) {
      HeirIsLast(s, keys[i], y);
    }
  }

  /** And of older jobs it changes nothing but the list. */
  lemma ReloadLeaves(s: State, keys: seq<string>, id: nat, x: nat)
    requires WellNumbered(s) && id < s.next
    ensures var t := Reload(s, keys);
            && (id in t.key <==> id in s.key) && (id in s.key ==> t.key[id] == s.key[id])
            && (id in t.running <==> id in s.running) && ((x, id) in t.watchers <==> (x, id) in s.watchers)
            && (keys == [] ==> t == s)
  {
    if keys != [] {
      ReloadKeys(s, keys, id);
      ReloadWatchers(s, keys, (x, id));
    }
  }
}
