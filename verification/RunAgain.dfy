/** When a job is started a second time (reload and tick in background/scheduler.go): a file that is not
    safe to load is one after which ticks and safe files put two requests of one job in flight. */
module RunAgain {
  import opened RunGuard
  import opened RunFlags

  /** Whatever happens from here on, as long as the files are safe, no two requests of a job are in flight. */
  ghost predicate Secure(s: State)
    requires Base(s)
  {
    forall es, t :: Run(s, es, t) && AllSafe(s, es) ==> OneInFlight(t)
  }

  lemma InvIsSecure(s: State)
    requires Inv(s)
    ensures Secure(s)
  {
    InvMeans(s);
    hide Inv, Base, OneInFlight, Run, AllSafe;
    forall es, t | Run(s, es, t) && AllSafe(s, es) ensures OneInFlight(t) {
      AtMostOneInFlight(s, es, t);
    }
  }

  lemma StepThenRun(s: State, e: Event, rest: seq<Event>, t: State)
    requires Base(s) && Enabled(s, e) && Safe(s, e) && Base(Apply(s, e))
    requires Run(Apply(s, e), rest, t) && AllSafe(Apply(s, e), rest)
    ensures Run(s, [e] + rest, t) && AllSafe(s, [e] + rest)
  {
    assert ([e] + rest)[1..] == rest;
  }

  lemma NoStep(s: State)
    requires Base(s)
    ensures Run(s, [], s) && AllSafe(s, [])
  {
  }

  lemma {:induction false} RunJoins(s: State, es: seq<Event>, m: State, fs: seq<Event>, t: State)
    requires Base(s) && Base(m) && Run(s, es, m) && AllSafe(s, es) && Run(m, fs, t) && AllSafe(m, fs)
    ensures Run(s, es + fs, t) && AllSafe(s, es + fs)
    decreases |es|
  {
    assert forall id :: id in s.jobs ==> id in s.key;
    hide Base, Enabled, Safe, Apply;
    if es == [] {
      assert es + fs == fs;
    } else {
      assert (es + fs)[0] == es[0] && (es + fs)[1..] == es[1..] + fs;
      StepKeepsBase(s, es[0]);
      RunJoins(Apply(s, es[0]), es[1..], m, fs, t);
    }
  }

  /** A tick starts every listed job that is due and whose flag is clear. */
  lemma {:induction false} TickStarts(s: State, due: set<string>, n: nat)
    requires Base(s) && n <= |s.jobs|
    ensures var t := Tick(s, due, n);
            s.running <= t.running && s.inFlight <= t.inFlight && t.running - s.running <= t.inFlight
            && forall i :: 0 <= i < n && s.key[s.jobs[i]] in due ==> s.jobs[i] in t.running
    decreases n
  {
    if n > 0 {
      TickStarts(s, due, n - 1);
    }
  }

  // ---------------------------------------------------------------- a job that is dropped while it runs

  lemma {:induction false} ListOf(names: set<string>) returns (keys: seq<string>)
    ensures Distinct(keys) && forall k :: k in keys <==> k in names
    decreases names
  {
    if names == {} {
      keys := [];
    } else {
      var k :| k in names;
      var rest := ListOf(names - {k});
      keys := [k] + rest;
      assert forall i :: 0 <= i < |rest| ==> rest[i] in names - {k};
    }
  }

  lemma {:induction false} NoPrevious(s: State, k: string, n: nat)
    requires n <= |s.jobs| && (forall id :: id in s.jobs ==> id in s.key)
    requires forall i :: 0 <= i < n ==> s.key[s.jobs[i]] != k
    ensures Previous(s, k, n) == 0
  {
    if n > 0 { NoPrevious(s, k, n - 1); }
  }

  lemma DroppedIsUnlisted(s: State, keys: seq<string>, k: string)
    requires Base(s) && keys != [] && k !in keys
    ensures Base(Reload(s, keys)) && !Inherits(Reload(s, keys), k)
  {
    var u := Reload(s, keys);
    ReloadKeepsBase(s, keys);
    ReloadShape(s, keys);
    hide Reload, FlagsExplained;
    forall i | 0 <= i < |u.jobs| ensures u.key[u.jobs[i]] != k {
      ReloadKeys(s, keys, u.jobs[i]);
    }
    NoPrevious(u, k, |u.jobs|);
  }

  /** The file that has the job again makes it a new one whose flag is clear. */
  lemma DroppedRunsTwice(s: State, keys: seq<string>, x: nat) returns (es: seq<Event>, t: State)
    requires Base(s) && keys != [] && x in s.inFlight && x in s.key && s.key[x] !in keys
    ensures Base(Reload(s, keys)) && Run(Reload(s, keys), es, t) && AllSafe(Reload(s, keys), es) && !OneInFlight(t)
  {
    var k, u := s.key[x], Reload(s, keys);
    ReloadShape(s, keys);
    ReloadKeys(s, keys, x);
    DroppedIsUnlisted(s, keys, k);
    hide Reload, Base;
    var back := ListOf(set id | id in u.inFlight && id in u.key :: u.key[id]);
    assert SafeFile(u, back) && k in back;
    StartedAgain(u, back, x);
    var v := Reload(u, back);
    t := Tick(v, {k}, |v.jobs|);
    ReloadKeepsBase(u, back);
    StepKeepsBase(v, Ticked({k}));
    NoStep(t);
    StepThenRun(v, Ticked({k}), [], t);
    StepThenRun(u, Reloaded(back), [Ticked({k})] + [], t);
    es := [Reloaded(back)] + ([Ticked({k})] + []);
  }

  /** The new job of a key that nothing is inherited for starts beside the request in flight. */
  lemma StartedAgain(u: State, keys: seq<string>, x: nat)
    requires Base(u) && x in u.inFlight && x in u.key && u.key[x] in keys && !Inherits(u, u.key[x])
    ensures var v := Reload(u, keys); Base(v) && !OneInFlight(Tick(v, {u.key[x]}, |v.jobs|))
  {
    var k, v := u.key[x], Reload(u, keys);
    var i :| 0 <= i < |keys| && keys[i] == k;
    var y := u.next + i;
    ReloadShape(u, keys);
    ReloadKeepsBase(u, keys);
    ReloadKeys(u, keys, x);
    ReloadKeys(u, keys, y);
    assert x < u.next;
    hide Reload, Inherits, FlagsExplained;
    assert KeyFor(u, keys, y) == k && y !in u.running by { OldOnly(u, y); }
    BothStart(v, k, x, y);
  }

  lemma OldOnly(u: State, y: nat)
    requires Base(u) && y >= u.next
    ensures y !in u.running
  {
  }

  lemma BothStart(v: State, k: string, x: nat, y: nat)
    requires Base(v) && x != y && x in v.key && y in v.key && v.key[x] == v.key[y] == k
    requires y in v.jobs && y !in v.running && (x in v.inFlight || (x in v.jobs && x !in v.running))
    ensures !OneInFlight(Tick(v, {k}, |v.jobs|))
  {
    TickStarts(v, {k}, |v.jobs|);
    TickKeepsBase(v, {k}, |v.jobs|);
    hide Tick, Base;
    var t := Tick(v, {k}, |v.jobs|);
    assert x in t.inFlight && y in t.inFlight;
  }

  // ---------------------------------------------------------------- a job that is listed twice

  /** The requests of a job return. */
  lemma {:induction false} FinishAll(s: State, k: string) returns (es: seq<Event>, t: State)
    requires Base(s)
    ensures Base(t) && Run(s, es, t) && AllSafe(s, es) && Idle(t, k) && t.jobs == s.jobs && t.key == s.key
    decreases s.inFlight
  {
    if Idle(s, k) {
      es, t := [], s;
    } else {
      var x :| x in s.inFlight && s.key[x] == k;
      FinishKeepsBase(s, x);
      hide Base, Idle, WellNumbered, FlagsExplained;
      var rest;
      rest, t := FinishAll(Finish(s, x), k);
      StepThenRun(s, Finished(x), rest, t);
      es := [Finished(x)] + rest;
    }
  }

  /** The watchers of an idle job look, one that is ready after the other. */
  lemma {:induction false} ClearAll(s: State, k: string) returns (es: seq<Event>, t: State)
    requires Base(s) && Idle(s, k)
    ensures Base(t) && Run(s, es, t) && AllSafe(s, es) && AllClear(t, k) && t.jobs == s.jobs && t.key == s.key
    decreases |WatchersOf(s, k)|
  {
    if AllClear(s, k) {
      es, t := [], s;
    } else {
      var id :| id in s.running && s.key[id] == k;
      var w := SomeWatcherReady(s, k, id);
      PollKeepsBase(s, w);
      var u := Poll(s, w);
      CalmStep(s, Polled(w), k);
      assert u.jobs == s.jobs && u.key == s.key;
      ReadyWatches(s, Polled(w), k);
      hide Base, Idle, WellNumbered, FlagsExplained, AllClear, WatchersOf, Run, AllSafe;
      var rest;
      rest, t := ClearAll(u, k);
      StepThenRun(s, Polled(w), rest, t);
      es := [Polled(w)] + rest;
    }
  }

  /** Once all requests of the job have returned and all its flags are clear, both of its lines start it. */
  lemma ListedTwiceRunsTwice(s: State, keys: seq<string>, i: nat, j: nat) returns (es: seq<Event>, t: State)
    requires Base(s) && i < j < |keys| && keys[i] == keys[j]
    ensures Base(Reload(s, keys)) && Run(Reload(s, keys), es, t) && AllSafe(Reload(s, keys), es) && !OneInFlight(t)
  {
    var k, u, a, b := keys[i], Reload(s, keys), s.next + i, s.next + j;
    ReloadShape(s, keys);
    ReloadKeepsBase(s, keys);
    ReloadKeys(s, keys, a);
    ReloadKeys(s, keys, b);
    assert KeyFor(s, keys, a) == KeyFor(s, keys, b) == k;
    hide Reload, Base;
    var fs, m := FinishAll(u, k);
    var ps, v := ClearAll(m, k);
    BothClear(v, k, a, b);
    BothStart(v, k, a, b);
    t := Tick(v, {k}, |v.jobs|);
    StepKeepsBase(v, Ticked({k}));
    NoStep(t);
    hide OneInFlight, Tick;
    StepThenRun(v, Ticked({k}), [], t);
    RunJoins(m, ps, v, [Ticked({k})] + [], t);
    RunJoins(u, fs, m, ps + ([Ticked({k})] + []), t);
    es := fs + (ps + ([Ticked({k})] + []));
  }

  lemma BothClear(v: State, k: string, a: nat, b: nat)
    requires Base(v) && AllClear(v, k) && a in v.key && b in v.key && v.key[a] == v.key[b] == k
    ensures a !in v.running && b !in v.running
  {
  }

  // ---------------------------------------------------------------- the exact condition

  /** A file can be loaded without ever starting a running job again exactly when it is safe. */
  lemma ReloadSafeIff(s: State, keys: seq<string>)
    requires Inv(s)
    ensures Base(Reload(s, keys)) && (Secure(Reload(s, keys)) <==> SafeFile(s, keys))
  {
    InvMeans(s);
    ReloadKeepsBase(s, keys);
    hide Inv, Base, Reload, OneInFlight, Run, AllSafe;
    if SafeFile(s, keys) {
      ReloadKeepsInv(s, keys);
      InvIsSecure(Reload(s, keys));
    } else if !Distinct(keys) {
      var i, j :| 0 <= i < j < |keys| && keys[i] == keys[j];
      var es, t := ListedTwiceRunsTwice(s, keys, i, j);
    } else {
      var x :| x in s.inFlight && x in s.key && s.key[x] !in keys;
      var es, t := DroppedRunsTwice(s, keys, x);
    }
  }

  lemma StepSecureIff(s: State, e: Event)
    requires Inv(s) && Enabled(s, e)
    ensures Base(s) && Base(Apply(s, e)) && (Secure(Apply(s, e)) <==> Safe(s, e))
  {
    InvMeans(s);
    StepKeepsBase(s, e);
    hide Inv, Base, Secure, Reload, Tick, Finish, Poll;
    if e.Reloaded? {
      ReloadSafeIff(s, e.keys);
    } else {
      StepKeepsInv(s, e);
      InvIsSecure(Apply(s, e));
    }
  }

  /** Secure in every state on the way. */
  ghost predicate AllSecure(s: State, es: seq<Event>)
    requires Base(s)
    decreases |es|
  {
    Secure(s)
    && (es != [] ==> Enabled(s, es[0]) && (StepKeepsBase(s, es[0]); AllSecure(Apply(s, es[0]), es[1..])))
  }

  lemma NotSecure(s: State, es: seq<Event>)
    requires Base(s) && !Secure(s)
    ensures !AllSecure(s, es)
  {
  }

  /** Over any run: no job is started again while a request of it is in flight, nor can be from then on
      with safe files, exactly when every file was safe when it was loaded. */
  lemma {:induction false} NeverAgainIff(s: State, es: seq<Event>)
    requires Inv(s)
    ensures Base(s) && (AllSecure(s, es) <==> AllSafe(s, es))
    decreases |es|
  {
    InvMeans(s);
    InvIsSecure(s);
    hide Inv, Base, Secure, Apply, Enabled, Safe;
    if es != [] && Enabled(s, es[0]) {
      StepSecureIff(s, es[0]);
      if Safe(s, es[0]) {
        StepKeepsInv(s, es[0]);
        NeverAgainIff(Apply(s, es[0]), es[1..]);
      } else {
        NotSecure(Apply(s, es[0]), es[1..]);
      }
    }
  }

  // ---------------------------------------------------------------- two inputs

  /** A file that lists a job twice, loaded by an empty scheduler: the next tick starts it twice. */
  lemma TwoLinesRunTwice(k: string)
    ensures var s := Reload(INITIAL, [k, k]);
            (forall id :: id in s.jobs ==> id in s.key) && |s.jobs| == 2 && s.key == map[0 := k, 1 := k]
            && Tick(s, {k}, 2).inFlight == {0, 1} && !SafeFile(INITIAL, [k, k])
  {
    var one := AddJob(INITIAL, k, false, 0);
    var two := AddJob(one, k, false, 0);
    assert Carry(INITIAL, [k, k], 0) == INITIAL;
    assert Carry(INITIAL, [k, k], 1) == one;
    assert Carry(INITIAL, [k, k], 2) == two;
    assert two.jobs == [0, 1] && two.key == map[0 := k, 1 := k];
    assert Tick(two, {k}, 0) == two;
    assert Tick(two, {k}, 1) == Start(two, 0);
    assert [k, k][0] == [k, k][1];
  }

  /** One listed job, whose request is in flight. */
  function OneRunning(k: string): State { State([0], map[0 := k], {0}, {0}, {}, 1) }

  lemma OneRunningInv(k: string)
    ensures Inv(OneRunning(k))
  {
    assert forall id :: !Watched(OneRunning(k), id);
    assert forall id :: Live(OneRunning(k), id) ==> id == 0;
  }

  /** A job taken out of the file while it runs and put back before it ends is started twice. */
  lemma DroppedJobRunsTwice(k: string, other: string) returns (s: State, t: State, u: State, v: State)
    requires k != other
    ensures Inv(s) && !SafeFile(s, [other])
    ensures t == Reload(s, [other]) && (forall id :: id in t.jobs ==> id in t.key) && u == Reload(t, [k])
    ensures (forall id :: id in u.jobs ==> id in u.key) && |u.jobs| == 1 && v == Tick(u, {k}, 1)
    ensures v.inFlight == {0, 2} && v.key == map[0 := k, 1 := other, 2 := k]
  {
    s := OneRunning(k);
    OneRunningInv(k);
    ReloadOfAnother(s, 0, other);
    t := State([1], map[0 := k, 1 := other], {0}, {0}, {}, 2);
    hide Reload, Inv;
    assert s.key[1 := other] == t.key;
    ReloadOfAnother(t, 1, k);
    u := State([2], map[0 := k, 1 := other, 2 := k], {0}, {0}, {}, 3);
    assert t.key[2 := k] == u.key;
    TickOfOne(u, 2, {k});
    v := Start(u, 2);
  }

  lemma TickOfOne(s: State, id: nat, due: set<string>)
    requires s.jobs == [id] && id in s.key && s.key[id] in due
    ensures Tick(s, due, 1) == Start(s, id)
  {
    assert Tick(s, due, 0) == s;
  }

  lemma ReloadOfAnother(s: State, id: nat, k: string)
    requires s.jobs == [id] && id in s.key && s.key[id] != k
    ensures Reload(s, [k]) == State([s.next], s.key[s.next := k], s.running, s.inFlight, s.watchers, s.next + 1)
  {
    assert Previous(s, k, 1) == Previous(s, k, 0) == 0;
    assert Carry(s, [k], 1) == AddJob(Carry(s, [k], 0), k, false, 0);
  }
}
