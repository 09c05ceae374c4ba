/** The scheduler's run guard (tick, reload and the flag watchers in background/scheduler.go): a
    job that is still running is not started again, also when the file is reloaded meanwhile. */
module RunGuard {

  /** Jobs are numbered in the order they are created. A running flag is set by a fire, and by a
      reload that replaces a running job; a watcher (old, cur) clears cur's flag once old's is. */
  datatype State = State(
    jobs: seq<nat>,
    key: map<nat, string>,
    running: set<nat>,
    inFlight: set<nat>,
    watchers: set<(nat, nat)>,
    next: nat)

  // ---------------------------------------------------------------- the steps

  function Start(s: State, id: nat): State {
    if id in s.running then s else s.(running := s.running + {id}, inFlight := s.inFlight + {id})
  }

  /** tick: every listed job whose key is due and whose flag is clear is started. */
  function Tick(s: State, due: set<string>, n: nat): State
    requires n <= |s.jobs| && forall id :: id in s.jobs ==> id in s.key
  {
    if n == 0 then s
    else
      var t := Tick(s, due, n - 1);
      if s.key[s.jobs[n - 1]] in due then Start(t, s.jobs[n - 1]) else t
  }

  /** The fired request has returned. */
  function Finish(s: State, id: nat): State {
    s.(running := s.running - {id}, inFlight := s.inFlight - {id})
  }

  /** The last listed job with the key, as the map built over the old jobs remembers it. */
  function Previous(s: State, k: string, n: nat): (r: nat)
    requires n <= |s.jobs| && forall id :: id in s.jobs ==> id in s.key
    ensures r <= n && (r > 0 ==> s.key[s.jobs[r - 1]] == k)
    ensures r == 0 ==> forall i :: 0 <= i < n ==> s.key[s.jobs[i]] != k
  {
    if n == 0 then 0 else if s.key[s.jobs[n - 1]] == k then n else Previous(s, k, n - 1)
  }

  /** The new job number of the i-th key takes over a set flag. */
  predicate Inherits(s: State, k: string)
    requires forall id :: id in s.jobs ==> id in s.key
  {
    var p := Previous(s, k, |s.jobs|);
    p > 0 && s.jobs[p - 1] in s.running
  }

  function Heir(s: State, k: string): nat
    requires (forall id :: id in s.jobs ==> id in s.key) && Inherits(s, k)
  {
    s.jobs[Previous(s, k, |s.jobs|) - 1]
  }

  /** t with one more job, for key k, that takes over the flag of `heir` if there is one to take. */
  function AddJob(t: State, k: string, inherits: bool, heir: nat): State {
    State(t.jobs + [t.next], t.key[t.next := k],
          if inherits then t.running + {t.next} else t.running, t.inFlight,
          if inherits then t.watchers + {(heir, t.next)} else t.watchers, t.next + 1)
  }

  /** The key given to the job numbered id by a reload. */
  function KeyFor(s: State, keys: seq<string>, id: nat): string
    requires s.next <= id < s.next + |keys|
  {
    keys[id - s.next]
  }

  /** reload with the first n of the parsed jobs carried over. */
  function Carry(s: State, keys: seq<string>, n: nat): (t: State)
    requires n <= |keys| && forall id :: id in s.jobs ==> id in s.key
    ensures t.next == s.next + n && t.inFlight == s.inFlight
    ensures |t.jobs| == n && forall i :: 0 <= i < n ==> t.jobs[i] == s.next + i
  {
    if n == 0 then s.(jobs := [])
    else
      var k := keys[n - 1];
      AddJob(Carry(s, keys, n - 1), k, Inherits(s, k), if Inherits(s, k) then Heir(s, k) else 0)
  }

  /** A file without usable jobs leaves the old ones in place. */
  function Reload(s: State, keys: seq<string>): State
    requires forall id :: id in s.jobs ==> id in s.key
  {
    if keys == [] then s else Carry(s, keys, |keys|)
  }

  /** One look of a watcher at the old job's flag. */
  function Poll(s: State, w: (nat, nat)): State {
    if w.0 in s.running then s else s.(running := s.running - {w.1}, watchers := s.watchers - {w})
  }

  // ---------------------------------------------------------------- the invariant

  ghost predicate WellNumbered(s: State) {
    && (forall id :: id in s.key ==> id < s.next)
    && (forall id :: id in s.jobs ==> id in s.key)
    && (forall id :: id in s.running ==> id in s.key)
    && (forall w :: w in s.watchers ==>
         w.0 < w.1 < s.next && w.0 in s.key && w.1 in s.key && s.key[w.0] == s.key[w.1]
         && w.0 !in s.jobs)
  }

  ghost predicate DistinctKeys(s: State)
    requires forall id :: id in s.jobs ==> id in s.key
  {
    forall i, j :: 0 <= i < j < |s.jobs| ==> s.key[s.jobs[i]] != s.key[s.jobs[j]]
  }

  ghost predicate Watched(s: State, id: nat) { exists w :: w in s.watchers && w.1 == id }

  ghost predicate Succeeded(s: State, id: nat) { exists w :: w in s.watchers && w.0 == id }

  /** A flag is set for one of two reasons: the job's own request is in flight, or one watcher
      has still to clear it. */
  ghost predicate FlagsExplained(s: State) {
    && (forall id :: id in s.running <==> id in s.inFlight || Watched(s, id))
    && (forall id :: id in s.inFlight ==> !Watched(s, id))
    && (forall v, w :: v in s.watchers && w in s.watchers && v.1 == w.1 ==> v == w)
  }

  /** What holds whatever the files say. */
  ghost predicate Base(s: State) { WellNumbered(s) && FlagsExplained(s) }

  /** The flag is set because of a request that is still in flight: the job's own, or that of a job it
      has replaced, directly or not. */
  ghost predicate Live(s: State, id: nat)
    decreases id
  {
    id in s.inFlight || exists w :: w in s.watchers && w.1 == id && w.0 < id && Live(s, w.0)
  }

  /** A job whose flag is live is listed, or has a successor that watches it. */
  ghost predicate Guarded(s: State) {
    forall id :: Live(s, id) ==> id in s.jobs || Succeeded(s, id)
  }

  /** No two requests of one job are in flight. */
  ghost predicate OneInFlight(s: State) {
    forall x, y :: x in s.inFlight && y in s.inFlight && x in s.key && y in s.key && s.key[x] == s.key[y] ==> x == y
  }

  ghost predicate Inv(s: State) {
    Base(s) && DistinctKeys(s) && Guarded(s) && OneInFlight(s)
  }

  lemma InvMeans(s: State)
    requires Inv(s)
    ensures Base(s) && WellNumbered(s) && FlagsExplained(s) && DistinctKeys(s) && Guarded(s) && OneInFlight(s)
  {
  }

  lemma LiveIsSet(s: State, id: nat)
    requires Base(s) && Live(s, id)
    ensures id in s.running && id in s.key
  {
    if id !in s.inFlight {
      assert Watched(s, id);
    }
  }

  lemma {:induction false} LiveOrigin(s: State, id: nat) returns (x: nat)
    requires Base(s) && Live(s, id)
    ensures x in s.inFlight && x in s.key && id in s.key && s.key[x] == s.key[id]
    decreases id
  {
    LiveIsSet(s, id);
    if id in s.inFlight {
      x := id;
    } else {
      var w :| w in s.watchers && w.1 == id && w.0 < id && Live(s, w.0);
      x := LiveOrigin(s, w.0);
    }
  }

  /** With fewer requests in flight and fewer watchers fewer flags are live, and starting a job that
      nobody watches adds its own. */
  lemma {:induction false} FewerLive(s: State, t: State, more: set<nat>, id: nat)
    requires t.inFlight <= s.inFlight + more && t.watchers <= s.watchers && Live(t, id)
    requires forall w :: w in t.watchers ==> w.0 !in more
    ensures Live(s, id) || id in more
    decreases id
  {
    if id !in t.inFlight {
      var w :| w in t.watchers && w.1 == id && w.0 < id && Live(t, w.0);
      FewerLive(s, t, more, w.0);
    }
  }

  /** Following successors from a live flag leads to a listed job with the same key and its flag live. */
  lemma {:induction false} ChainReachesListed(s: State, id: nat) returns (x: nat)
    requires Base(s) && Guarded(s) && Live(s, id)
    ensures x in s.jobs && x in s.running && Live(s, x) && id in s.key && s.key[x] == s.key[id]
    decreases s.next - id
  {
    LiveIsSet(s, id);
    if id in s.jobs {
      x := id;
    } else {
      var w :| w in s.watchers && w.0 == id;
      x := ChainReachesListed(s, w.1);
    }
  }

  lemma ListedJobUnique(s: State, x: nat, y: nat)
    requires WellNumbered(s) && DistinctKeys(s) && x in s.jobs && y in s.jobs && s.key[x] == s.key[y]
    ensures x == y
  {
    var i :| 0 <= i < |s.jobs| && s.jobs[i] == x;
    var j :| 0 <= j < |s.jobs| && s.jobs[j] == y;
    assert s.key[s.jobs[i]] == s.key[s.jobs[j]];
  }

  lemma StartKeepsBase(s: State, id: nat)
    requires Base(s) && id in s.key
    ensures Base(Start(s, id)) && Start(s, id).jobs == s.jobs && Start(s, id).key == s.key
  {
    if id !in s.running {
      var t := Start(s, id);
      assert forall j :: Watched(t, j) <==> Watched(s, j);
    }
  }

  lemma StartKeepsInv(s: State, id: nat)
    requires Inv(s) && id in s.jobs
    ensures Inv(Start(s, id)) && Start(s, id).jobs == s.jobs && Start(s, id).key == s.key
  {
    InvMeans(s);
    StartKeepsBase(s, id);
    if id !in s.running {
      var t := Start(s, id);
      hide Base, FlagsExplained, Live;
      forall j | Live(t, j) ensures j in t.jobs || Succeeded(t, j) {
        FewerLive(s, t, {id}, j);
        assert Succeeded(s, j) ==> Succeeded(t, j);
      }
      forall y | y in s.inFlight && y in s.key ensures s.key[y] != s.key[id] {
        NotAgain(s, id, y);
      }
    }
  }

  lemma NotAgain(s: State, id: nat, y: nat)
    requires Inv(s) && id in s.jobs && id !in s.running && y in s.inFlight
    ensures y in s.key && s.key[y] != s.key[id]
  {
    InvMeans(s);
    assert Live(s, y);
    hide Inv;
    var x := ChainReachesListed(s, y);
    if s.key[y] == s.key[id] {
      ListedJobUnique(s, x, id);
    }
  }

  lemma {:induction false} TickKeepsInv(s: State, due: set<string>, n: nat)
    requires Inv(s) && n <= |s.jobs|
    ensures Inv(Tick(s, due, n)) && Tick(s, due, n).jobs == s.jobs && Tick(s, due, n).key == s.key
    decreases n
  {
    hide Guarded, OneInFlight;
    if n > 0 {
      TickKeepsInv(s, due, n - 1);
      StartKeepsInv(Tick(s, due, n - 1), s.jobs[n - 1]);
    }
  }

  lemma {:induction false} TickKeepsBase(s: State, due: set<string>, n: nat)
    requires Base(s) && n <= |s.jobs|
    ensures Base(Tick(s, due, n)) && Tick(s, due, n).jobs == s.jobs && Tick(s, due, n).key == s.key
    decreases n
  {
    hide FlagsExplained;
    if n > 0 {
      TickKeepsBase(s, due, n - 1);
      assert s.jobs[n - 1] in s.jobs;
      StartKeepsBase(Tick(s, due, n - 1), s.jobs[n - 1]);
    }
  }

  lemma FinishKeepsBase(s: State, id: nat)
    requires Base(s) && id in s.inFlight
    ensures Base(Finish(s, id))
  {
    var t := Finish(s, id);
    assert forall j :: Watched(t, j) <==> Watched(s, j);
  }

  lemma FinishKeepsInv(s: State, id: nat)
    requires Inv(s) && id in s.inFlight
    ensures Inv(Finish(s, id))
  {
    var t := Finish(s, id);
    InvMeans(s);
    FinishKeepsBase(s, id);
    hide Base, WellNumbered, FlagsExplained, Live;
    forall j | Live(t, j) ensures j in t.jobs || Succeeded(t, j) {
      FewerLive(s, t, {}, j);
      assert Succeeded(s, j) ==> Succeeded(t, j);
    }
  }

  lemma PollKeepsBase(s: State, w: (nat, nat))
    requires Base(s) && w in s.watchers
    ensures Base(Poll(s, w))
  {
    if w.0 !in s.running {
      var t := Poll(s, w);
      forall j ensures Watched(t, j) <==> Watched(s, j) && j != w.1 {
        if v :| v in s.watchers && v.1 == j && j != w.1 {
          assert v in t.watchers;
        }
      }
      assert Watched(s, w.1);
    }
  }

  lemma PollKeepsInv(s: State, w: (nat, nat))
    requires Inv(s) && w in s.watchers
    ensures Inv(Poll(s, w))
  {
    InvMeans(s);
    PollKeepsBase(s, w);
    if w.0 !in s.running {
      var t := Poll(s, w);
      forall j | Live(t, j) ensures j in t.jobs || Succeeded(t, j) {
        FewerLive(s, t, {}, j);
        LiveIsSet(s, j);
        hide Base, WellNumbered, FlagsExplained, Live;
        if v :| v in s.watchers && v.0 == j {
          assert v in t.watchers;
        }
      }
    }
  }

  // ---------------------------------------------------------------- reload

  ghost predicate Distinct(keys: seq<string>) { forall i, j :: 0 <= i < j < |keys| ==> keys[i] != keys[j] }

  /** Every job with a request in flight is in the file that is being loaded. */
  ghost predicate InFlightStaysListed(s: State, keys: seq<string>) {
    forall id :: id in s.inFlight && id in s.key ==> s.key[id] in keys
  }

  /** A file that is safe to load: without usable jobs, which leaves the old ones in place, or with each
      job once and every job that has a request in flight. */
  ghost predicate SafeFile(s: State, keys: seq<string>) {
    keys != [] ==> Distinct(keys) && InFlightStaysListed(s, keys)
  }

  lemma HeirIs(s: State, id: nat)
    requires WellNumbered(s) && DistinctKeys(s) && id in s.jobs && id in s.running
    ensures Inherits(s, s.key[id]) && Heir(s, s.key[id]) == id
  {
    var k := s.key[id];
    var i :| 0 <= i < |s.jobs| && s.jobs[i] == id;
    var p := Previous(s, k, |s.jobs|);
    assert s.key[s.jobs[i]] == k;
    ListedJobUnique(s, s.jobs[p - 1], id);
  }

  lemma {:induction false} CarryWatchers(s: State, keys: seq<string>, n: nat, w: (nat, nat))
    requires n <= |keys| && forall id :: id in s.jobs ==> id in s.key
    ensures w in Carry(s, keys, n).watchers
            <==> w in s.watchers
                 || (s.next <= w.1 < s.next + n && Inherits(s, KeyFor(s, keys, w.1))
                     && w.0 == Heir(s, KeyFor(s, keys, w.1)))
  {
    hide Inherits, Heir;
    if n > 0 { CarryWatchers(s, keys, n - 1, w); }
  }

  lemma {:induction false} CarryMembers(s: State, keys: seq<string>, n: nat, id: nat)
    requires n <= |keys| && (forall id :: id in s.jobs ==> id in s.key) && (forall id :: id in s.key ==> id < s.next)
    ensures var t := Carry(s, keys, n);
            && (id in t.key <==> id in s.key || s.next <= id < s.next + n)
            && (id in s.key ==> t.key[id] == s.key[id])
            && (s.next <= id < s.next + n ==> t.key[id] == KeyFor(s, keys, id))
            && (id in t.running <==> id in s.running || (s.next <= id < s.next + n && Inherits(s, KeyFor(s, keys, id))))
  {
    hide Inherits, Heir;
    if n > 0 { CarryMembers(s, keys, n - 1, id); }
  }

  /** A watcher after a reload is an old one, or ties a new job to the running one it replaces. */
  lemma ReloadWatchers(s: State, keys: seq<string>, w: (nat, nat))
    requires WellNumbered(s) && keys != []
    ensures w in Reload(s, keys).watchers
            <==> w in s.watchers
                 || (s.next <= w.1 < s.next + |keys| && Inherits(s, KeyFor(s, keys, w.1))
                     && w.0 == Heir(s, KeyFor(s, keys, w.1)))
  {
    CarryWatchers(s, keys, |keys|, w);
  }

  lemma ReloadKeys(s: State, keys: seq<string>, id: nat)
    requires WellNumbered(s) && keys != []
    ensures id in Reload(s, keys).key <==> id in s.key || s.next <= id < s.next + |keys|
    ensures id in s.key ==> Reload(s, keys).key[id] == s.key[id]
    ensures s.next <= id < s.next + |keys| ==> Reload(s, keys).key[id] == KeyFor(s, keys, id)
    ensures id in Reload(s, keys).running
            <==> id in s.running || (s.next <= id < s.next + |keys| && Inherits(s, KeyFor(s, keys, id)))
    ensures id in Reload(s, keys).jobs <==> s.next <= id < s.next + |keys|
  {
    CarryMembers(s, keys, |keys|, id);
    var js := Reload(s, keys).jobs;
    if s.next <= id < s.next + |keys| { assert js[id - s.next] == id; }
  }

  lemma HeirFacts(s: State, k: string)
    requires WellNumbered(s) && Inherits(s, k)
    ensures Heir(s, k) in s.jobs && Heir(s, k) in s.running && s.key[Heir(s, k)] == k && Heir(s, k) < s.next
  {
  }

  lemma ReloadShape(s: State, keys: seq<string>)
    requires WellNumbered(s) && keys != []
    ensures Reload(s, keys).next == s.next + |keys| && Reload(s, keys).inFlight == s.inFlight
    ensures |Reload(s, keys).jobs| == |keys| && forall i :: 0 <= i < |keys| ==> Reload(s, keys).jobs[i] == s.next + i
  {
  }

  lemma ReloadWellNumbered(s: State, keys: seq<string>)
    requires WellNumbered(s) && keys != []
    ensures WellNumbered(Reload(s, keys))
  {
    var u := Reload(s, keys);
    ReloadShape(s, keys);
    hide Reload, Inherits, Heir;
    forall id: nat
      ensures id in u.key ==> id < u.next
      ensures id in u.jobs || id in u.running ==> id in u.key
    {
      ReloadKeys(s, keys, id);
    }
    forall w | w in u.watchers
      ensures w.0 < w.1 < u.next && w.0 in u.key && w.1 in u.key && u.key[w.0] == u.key[w.1] && w.0 !in u.jobs
    {
      ReloadWatcherNumbers(s, keys, w);
    }
  }

  lemma ReloadDistinct(s: State, keys: seq<string>)
    requires Inv(s) && keys != [] && Distinct(keys) && WellNumbered(Reload(s, keys))
    ensures DistinctKeys(Reload(s, keys))
  {
    InvMeans(s);
    var u := Reload(s, keys);
    ReloadShape(s, keys);
    hide Reload, Inv;
    forall i | 0 <= i < |keys| ensures u.key[u.jobs[i]] == keys[i] {
      ReloadKeys(s, keys, u.jobs[i]);
    }
  }

  lemma ReloadWatcherNumbers(s: State, keys: seq<string>, w: (nat, nat))
    requires WellNumbered(s) && keys != [] && w in Reload(s, keys).watchers
    ensures var u := Reload(s, keys);
            w.0 < w.1 < s.next + |keys| && w.0 in u.key && w.1 in u.key && u.key[w.0] == u.key[w.1] && w.0 !in u.jobs
  {
    hide Reload, Carry, Inherits, Heir;
    ReloadWatchers(s, keys, w);
    ReloadKeys(s, keys, w.0);
    ReloadKeys(s, keys, w.1);
    if w !in s.watchers { HeirFacts(s, KeyFor(s, keys, w.1)); }
  }

  lemma ReloadWatched(s: State, keys: seq<string>, id: nat)
    requires WellNumbered(s) && keys != []
    ensures Watched(Reload(s, keys), id)
            <==> Watched(s, id) || (s.next <= id < s.next + |keys| && Inherits(s, KeyFor(s, keys, id)))
  {
    hide Reload, Inherits, Heir;
    var u := Reload(s, keys);
    if w :| w in u.watchers && w.1 == id { ReloadWatchers(s, keys, w); }
    if w :| w in s.watchers && w.1 == id { ReloadWatchers(s, keys, w); }
    if s.next <= id < s.next + |keys| && Inherits(s, KeyFor(s, keys, id)) {
      ReloadWatchers(s, keys, (Heir(s, KeyFor(s, keys, id)), id));
    }
  }

  lemma ReloadFlags(s: State, keys: seq<string>)
    requires Base(s) && keys != []
    ensures FlagsExplained(Reload(s, keys))
  {
    var u := Reload(s, keys);
    assert u.inFlight == s.inFlight;
    hide Reload, Inherits, Heir, Watched, Succeeded;
    forall id: nat
      ensures id in u.running <==> id in u.inFlight || Watched(u, id)
      ensures id in u.inFlight ==> !Watched(u, id)
    {
      ReloadKeys(s, keys, id);
      ReloadWatched(s, keys, id);
    }
    forall v, w | v in u.watchers && w in u.watchers && v.1 == w.1 ensures v == w {
      ReloadWatchers(s, keys, v);
      ReloadWatchers(s, keys, w);
    }
  }

  /** A reload makes no flag live that does not belong to a request in flight before it. */
  lemma {:induction false} ReloadLive(s: State, keys: seq<string>, id: nat)
    requires Base(s) && keys != []
    ensures id < s.next ==> (Live(Reload(s, keys), id) <==> Live(s, id))
    decreases id
  {
    hide Reload, Inherits, Heir;
    var u := Reload(s, keys);
    ReloadShape(s, keys);
    if id < s.next && Live(u, id) && id !in s.inFlight {
      var w :| w in u.watchers && w.1 == id && w.0 < id && Live(u, w.0);
      ReloadWatchers(s, keys, w);
      ReloadLive(s, keys, w.0);
    }
    if Live(s, id) && id !in s.inFlight {
      var w :| w in s.watchers && w.1 == id && w.0 < id && Live(s, w.0);
      ReloadWatchers(s, keys, w);
      ReloadLive(s, keys, w.0);
    }
  }

  /** The guard survives a reload exactly when every job with a request in flight is still in the file. */
  lemma ReloadGuardedIff(s: State, keys: seq<string>)
    requires Inv(s) && keys != []
    ensures Guarded(Reload(s, keys)) <==> InFlightStaysListed(s, keys)
  {
    var u := Reload(s, keys);
    InvMeans(s);
    hide Reload, Inherits, Heir, Previous, Inv, FlagsExplained, Live;
    if InFlightStaysListed(s, keys) {
      ReloadFlags(s, keys);
      ReloadWellNumbered(s, keys);
      forall id | Live(u, id) ensures id in u.jobs || Succeeded(u, id) {
        LiveIsSet(u, id);
        ReloadKeys(s, keys, id);
        if id in s.key {
          ReloadLive(s, keys, id);
          LiveSucceeded(s, keys, id);
        }
      }
    }
    if Guarded(u) {
      forall id | id in s.inFlight && id in s.key ensures s.key[id] in keys {
        GuardedNeedsKey(s, keys, id);
      }
    }
  }

  lemma GuardedNeedsKey(s: State, keys: seq<string>, id: nat)
    requires Inv(s) && keys != [] && Guarded(Reload(s, keys)) && id in s.inFlight && id in s.key
    ensures s.key[id] in keys
  {
    var u := Reload(s, keys);
    InvMeans(s);
    assert Live(s, id);
    hide Reload, Inherits, Heir, Previous, Inv, FlagsExplained, Live;
    var x := ChainReachesListed(s, id);
    ReloadLive(s, keys, x);
    ReloadKeys(s, keys, x);
    var w :| w in u.watchers && w.0 == x;
    ReloadWatchers(s, keys, w);
    HeirFacts(s, KeyFor(s, keys, w.1));
  }

  lemma LiveSucceeded(s: State, keys: seq<string>, id: nat)
    requires Inv(s) && keys != [] && InFlightStaysListed(s, keys) && Live(s, id)
    ensures Succeeded(Reload(s, keys), id)
  {
    InvMeans(s);
    var x := LiveOrigin(s, id);
    LiveIsSet(s, id);
    hide Reload, Inherits, Heir, Previous, Inv, FlagsExplained, Live;
    if id in s.jobs {
      HeirIs(s, id);
      var i :| 0 <= i < |keys| && keys[i] == s.key[id];
      assert KeyFor(s, keys, s.next + i) == keys[i];
      ReloadWatchers(s, keys, (id, s.next + i));
    } else {
      var w :| w in s.watchers && w.0 == id;
      ReloadWatchers(s, keys, w);
    }
  }

  lemma ReloadKeepsBase(s: State, keys: seq<string>)
    requires Base(s)
    ensures Base(Reload(s, keys))
  {
    if keys != [] {
      hide Reload, WellNumbered, FlagsExplained;
      assert WellNumbered(s);
      ReloadWellNumbered(s, keys);
      ReloadFlags(s, keys);
    }
  }

  lemma ReloadKeepsInv(s: State, keys: seq<string>)
    requires Inv(s) && SafeFile(s, keys)
    ensures Inv(Reload(s, keys))
  {
    if keys != [] {
      var u := Reload(s, keys);
      InvMeans(s);
      ReloadShape(s, keys);
      ReloadKeepsBase(s, keys);
      hide Reload, Inherits, Heir, DistinctKeys, Guarded, FlagsExplained, Base;
      ReloadDistinct(s, keys);
      ReloadGuardedIff(s, keys);
      forall id | id in s.inFlight ensures id in s.key <==> id in u.key
        ensures id in s.key ==> u.key[id] == s.key[id]
      {
        ReloadKeys(s, keys, id);
        InFlightKnown(s, id);
      }
    }
  }

  lemma InFlightKnown(s: State, id: nat)
    requires Base(s) && id in s.inFlight
    ensures id in s.key
  {
  }

  lemma {:induction false} CarryOldFlags(s: State, keys: seq<string>, n: nat, id: nat)
    requires n <= |keys| && id < s.next && forall id :: id in s.jobs ==> id in s.key
    ensures id in Carry(s, keys, n).running <==> id in s.running
  {
    hide Inherits, Heir;
    if n > 0 { CarryOldFlags(s, keys, n - 1, id); }
  }

  // ---------------------------------------------------------------- runs

  datatype Event =
    | Ticked(due: set<string>)
    | Finished(id: nat)
    | Reloaded(keys: seq<string>)
    | Polled(w: (nat, nat))

  /** What may happen: a tick at any time, the end of a request in flight, a look of a watcher, and a
      reload of any file. */
  predicate Enabled(s: State, e: Event) {
    match e
    case Ticked(_) => true
    case Finished(id) => id in s.inFlight
    case Reloaded(_) => true
    case Polled(w) => w in s.watchers
  }

  /** No step but a reload can be unsafe. */
  ghost predicate Safe(s: State, e: Event) { e.Reloaded? ==> SafeFile(s, e.keys) }

  function Apply(s: State, e: Event): State
    requires forall id :: id in s.jobs ==> id in s.key
  {
    match e
    case Ticked(due) => Tick(s, due, |s.jobs|)
    case Finished(id) => Finish(s, id)
    case Reloaded(keys) => Reload(s, keys)
    case Polled(w) => Poll(s, w)
  }

  lemma StepKeepsBase(s: State, e: Event)
    requires Base(s) && Enabled(s, e)
    ensures Base(Apply(s, e))
  {
    match e
    case Ticked(due) => TickKeepsBase(s, due, |s.jobs|);
    case Finished(id) => FinishKeepsBase(s, id);
    case Reloaded(keys) => ReloadKeepsBase(s, keys);
    case Polled(w) => PollKeepsBase(s, w);
  }

  lemma StepKeepsInv(s: State, e: Event)
    requires Inv(s) && Enabled(s, e) && Safe(s, e)
    ensures Inv(Apply(s, e))
  {
    match e
    case Ticked(due) => TickKeepsInv(s, due, |s.jobs|);
    case Finished(id) => FinishKeepsInv(s, id);
    case Reloaded(keys) => ReloadKeepsInv(s, keys);
    case Polled(w) => PollKeepsInv(s, w);
  }

  ghost predicate Run(s: State, es: seq<Event>, t: State)
    requires Base(s)
    decreases |es|
  {
    if es == [] then s == t
    else Enabled(s, es[0]) && (StepKeepsBase(s, es[0]); Run(Apply(s, es[0]), es[1..], t))
  }

  /** Every file that is loaded on the way is safe when it is loaded. */
  ghost predicate AllSafe(s: State, es: seq<Event>)
    requires Base(s)
    decreases |es|
  {
    es != [] ==>
      Enabled(s, es[0]) && Safe(s, es[0]) && (StepKeepsBase(s, es[0]); AllSafe(Apply(s, es[0]), es[1..]))
  }

  const INITIAL: State := State([], map[], {}, {}, {}, 0)

  /** Over every run in which the files are safe at most one request per job is in flight. */
  lemma {:induction false} AtMostOneInFlight(s: State, es: seq<Event>, t: State)
    requires Inv(s) && Run(s, es, t) && AllSafe(s, es)
    ensures Inv(t) && OneInFlight(t)
    decreases |es|
  {
    if es != [] {
      StepKeepsInv(s, es[0]);
      AtMostOneInFlight(Apply(s, es[0]), es[1..], t);
    }
  }

  lemma InitialInv()
    ensures Inv(INITIAL)
  {
  }
}
