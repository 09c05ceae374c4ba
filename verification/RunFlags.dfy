/** The watchers of the scheduler's run flags (background/scheduler.go): the flags of a job whose requests
    have returned clear, in whatever order the watchers look and whatever files were loaded. */
module RunFlags {
  import opened RunGuard

  lemma BaseMeans(s: State)
    requires Base(s)
    ensures WellNumbered(s) && FlagsExplained(s)
  {
  }

  ghost predicate Idle(s: State, k: string)
    requires WellNumbered(s) && FlagsExplained(s)
  {
    forall id :: id in s.inFlight ==> s.key[id] != k
  }

  ghost function WatchersOf(s: State, k: string): set<(nat, nat)>
    requires WellNumbered(s)
  {
    set w | w in s.watchers && s.key[w.1] == k
  }

  ghost predicate AllClear(s: State, k: string)
    requires WellNumbered(s)
  {
    forall id :: id in s.running ==> s.key[id] != k
  }

  /** While a flag of an idle job is set, some watcher of that job can clear one. */
  lemma {:induction false} SomeWatcherReady(s: State, k: string, id: nat) returns (w: (nat, nat))
    requires Base(s) && Idle(s, k) && id in s.running && s.key[id] == k
    ensures w in WatchersOf(s, k) && w.0 !in s.running
    decreases id
  {
    var v :| v in s.watchers && v.1 == id;
    if v.0 in s.running {
      w := SomeWatcherReady(s, k, v.0);
    } else {
      w := v;
    }
  }

  /** Nothing that starts the job or reads the file again: polls of any watchers in any order, requests
      that return, and ticks at which the job is not due. */
  predicate Calm(e: Event, k: string) {
    match e
    case Ticked(due) => k !in due
    case Reloaded(keys) => keys == []
    case _ => true
  }

  ghost predicate AllCalm(es: seq<Event>, k: string) { forall i :: 0 <= i < |es| ==> Calm(es[i], k) }

  ghost predicate Ready(s: State, k: string, w: (nat, nat))
    requires WellNumbered(s)
  {
    w in WatchersOf(s, k) && w.0 !in s.running
  }

  /** The event is a poll that clears a flag of the job. */
  ghost predicate Clears(s: State, e: Event, k: string)
    requires WellNumbered(s)
  {
    e.Polled? && Ready(s, k, e.w)
  }

  /** No flag of the job is set that was not set before. */
  ghost predicate NoNewFlags(s: State, t: State, k: string) {
    forall id :: id in t.running && id in t.key && t.key[id] == k ==> id in s.running
  }

  lemma {:induction false} TickCalm(s: State, due: set<string>, n: nat, k: string)
    requires n <= |s.jobs| && (forall id :: id in s.jobs ==> id in s.key) && k !in due
    ensures var t := Tick(s, due, n);
            t.jobs == s.jobs && t.key == s.key && t.watchers == s.watchers && t.next == s.next
            && (forall id :: id in t.key && t.key[id] == k ==> (id in t.running <==> id in s.running))
            && (forall id :: id in t.key && t.key[id] == k ==> (id in t.inFlight <==> id in s.inFlight))
  {
    if n > 0 {
      TickCalm(s, due, n - 1, k);
    }
  }

  /** A calm step leaves an idle job idle and its watchers as they are, but for the one it lets clear a
      flag. */
  lemma CalmStep(s: State, e: Event, k: string)
    requires Base(s) && Idle(s, k) && Enabled(s, e) && Calm(e, k) && Base(Apply(s, e))
    ensures var t := Apply(s, e);
            t.key == s.key && Idle(t, k) && NoNewFlags(s, t, k)
            && WatchersOf(t, k) == if Clears(s, e, k) then WatchersOf(s, k) - {e.w} else WatchersOf(s, k)
  {
    var t := Apply(s, e);
    BaseMeans(s);
    BaseMeans(t);
    match e
    case Ticked(due) =>
      TickCalm(s, due, |s.jobs|, k);
      hide Tick, Base;
      assert WatchersOf(t, k) == WatchersOf(s, k);
    case Finished(id) =>
      assert WatchersOf(t, k) == WatchersOf(s, k);
    case Reloaded(keys) =>
      assert t == s;
    case Polled(w) =>
      assert WatchersOf(t, k) == if Clears(s, e, k) then WatchersOf(s, k) - {w} else WatchersOf(s, k);
  }

  /** The number of flags of the job that a run clears. */
  ghost function Clearings(s: State, es: seq<Event>, t: State, k: string): nat
    requires Base(s) && Run(s, es, t)
    decreases |es|
  {
    if es == [] then 0
    else
      StepKeepsBase(s, es[0]);
      (if Clears(s, es[0], k) then 1 else 0) + Clearings(Apply(s, es[0]), es[1..], t, k)
  }

  /** Whatever the order of the polls, each flag that is cleared takes one watcher away and no other
      does: so no more polls change anything than there are watchers of the job. */
  lemma {:induction false} ClearingsAreBounded(s: State, es: seq<Event>, t: State, k: string)
    requires Base(s) && Idle(s, k) && Run(s, es, t) && AllCalm(es, k)
    ensures Base(t) && Idle(t, k) && NoNewFlags(s, t, k) && t.key == s.key && WatchersOf(t, k) <= WatchersOf(s, k)
    ensures Clearings(s, es, t, k) + |WatchersOf(t, k)| == |WatchersOf(s, k)|
    decreases |es|
  {
    if es != [] {
      assert Calm(es[0], k) && AllCalm(es[1..], k);
      StepKeepsBase(s, es[0]);
      CalmStep(s, es[0], k);
      BaseMeans(s);
      hide Base, Idle, Enabled, Apply, WatchersOf, WellNumbered, FlagsExplained;
      ClearingsAreBounded(Apply(s, es[0]), es[1..], t, k);
      ReadyWatches(s, es[0], k);
    }
  }

  lemma ReadyWatches(s: State, e: Event, k: string)
    requires WellNumbered(s)
    ensures Clears(s, e, k) ==> e.w in WatchersOf(s, k) && |WatchersOf(s, k) - {e.w}| == |WatchersOf(s, k)| - 1
  {
  }

  /** A watcher that can clear its flag can do so until it looks, whatever the others do; once it has
      looked it is gone. */
  lemma {:induction false} ReadyUntilPolled(s: State, es: seq<Event>, t: State, k: string, w: (nat, nat))
    requires Base(s) && Idle(s, k) && Run(s, es, t) && AllCalm(es, k) && Ready(s, k, w)
    ensures Base(t) && (if Polled(w) in es then w !in WatchersOf(t, k) else Ready(t, k, w))
    decreases |es|
  {
    ClearingsAreBounded(s, es, t, k);
    if es != [] {
      var u := Apply(s, es[0]);
      assert es == [es[0]] + es[1..] && Calm(es[0], k) && AllCalm(es[1..], k);
      StepKeepsBase(s, es[0]);
      CalmStep(s, es[0], k);
      BaseMeans(s);
      ReadyStep(s, es[0], k, w);
      hide Base, Idle, Enabled, Apply, WatchersOf, WellNumbered, FlagsExplained, Ready, Clears;
      ClearingsAreBounded(u, es[1..], t, k);
      if es[0] != Polled(w) {
        ReadyUntilPolled(u, es[1..], t, k, w);
      }
    }
  }

  lemma ReadyStep(s: State, e: Event, k: string, w: (nat, nat))
    requires Base(s) && Idle(s, k) && Enabled(s, e) && Calm(e, k) && Base(Apply(s, e)) && Ready(s, k, w)
    ensures if e == Polled(w) then w !in WatchersOf(Apply(s, e), k) else Ready(Apply(s, e), k, w)
  {
    CalmStep(s, e, k);
    BaseMeans(s);
    assert s.key[w.0] == k;
    hide Base, Idle;
    assert WellNumbered(Apply(s, e));
  }

  /** One round: a calm run in which each watcher the job has at its beginning looks at least once. */
  ghost predicate Round(s: State, es: seq<Event>, t: State, k: string)
    requires Base(s)
  {
    Run(s, es, t) && AllCalm(es, k) && forall w :: w in WatchersOf(s, k) ==> Polled(w) in es
  }

  /** Rounds one after the other, with the states between them. */
  ghost predicate Rounds(states: seq<State>, rounds: seq<seq<Event>>, k: string)
    requires |states| == |rounds| + 1
    decreases |rounds|
  {
    Base(states[0])
    && (rounds != [] ==> Round(states[0], rounds[0], states[1], k) && Rounds(states[1..], rounds[1..], k))
  }

  lemma RoundClears(s: State, es: seq<Event>, t: State, k: string)
    requires Base(s) && Idle(s, k) && Round(s, es, t, k)
    ensures Base(t) && Idle(t, k) && (AllClear(s, k) ==> AllClear(t, k))
    ensures AllClear(s, k) || |WatchersOf(t, k)| < |WatchersOf(s, k)|
  {
    ClearingsAreBounded(s, es, t, k);
    BaseMeans(s);
    BaseMeans(t);
    hide Base, Idle, Run, AllCalm, WellNumbered, FlagsExplained, WatchersOf;
    if AllClear(s, k) {
      assert AllClear(t, k) by { SameKeys(s, t, k); }
    } else {
      var id :| id in s.running && s.key[id] == k;
      var w := SomeWatcherReady(s, k, id);
      hide AllClear, NoNewFlags;
      ReadyUntilPolled(s, es, t, k, w);
      Fewer(WatchersOf(t, k), WatchersOf(s, k), w);
    }
  }

  lemma SameKeys(s: State, t: State, k: string)
    requires WellNumbered(s) && WellNumbered(t) && t.key == s.key && NoNewFlags(s, t, k) && AllClear(s, k)
    ensures AllClear(t, k)
  {
  }

  lemma Fewer(a: set<(nat, nat)>, b: set<(nat, nat)>, w: (nat, nat))
    requires a <= b - {w} && w in b
    ensures |a| < |b|
  {
    assert b - {w} == a + ((b - {w}) - a);
  }

  /** Once no request of a job is in flight its chain of carried flags clears in finitely many polls,
      made in any order and with anything calm between them: after as many rounds as there are
      watchers every flag of the job is clear. */
  lemma {:induction false} FlagsClearInFinitelyManyPolls(states: seq<State>, rounds: seq<seq<Event>>, k: string)
    requires |states| == |rounds| + 1 && Rounds(states, rounds, k) && Idle(states[0], k)
    requires |rounds| >= |WatchersOf(states[0], k)|
    ensures Base(states[|rounds|]) && AllClear(states[|rounds|], k)
    decreases |rounds|
  {
    hide *;
    RoundsBase(states, rounds, k);
    if rounds == [] {
      assert states[|rounds|] == states[0];
      NoWatcherNoFlag(states[0], k);
    } else {
      RoundsBegin(states, rounds, k);
      BaseMeans(states[1]);
      assert states[1..][|rounds[1..]|] == states[|rounds|];
      if AllClear(states[1], k) {
        ClearStays(states[1..], rounds[1..], k);
      } else {
        FlagsClearInFinitelyManyPolls(states[1..], rounds[1..], k);
      }
    }
  }

  lemma RoundsBase(states: seq<State>, rounds: seq<seq<Event>>, k: string)
    requires |states| == |rounds| + 1 && Rounds(states, rounds, k)
    ensures Base(states[0]) && WellNumbered(states[0]) && FlagsExplained(states[0])
  {
    BaseMeans(states[0]);
  }

  lemma RoundsBegin(states: seq<State>, rounds: seq<seq<Event>>, k: string)
    requires |states| == |rounds| + 1 && Rounds(states, rounds, k) && Idle(states[0], k) && rounds != []
    ensures Base(states[1]) && Idle(states[1], k) && Rounds(states[1..], rounds[1..], k)
    ensures AllClear(states[0], k) ==> AllClear(states[1], k)
    ensures AllClear(states[1], k) || |WatchersOf(states[1], k)| < |WatchersOf(states[0], k)|
  {
    hide Base, Idle, Round, WellNumbered, FlagsExplained, AllClear, WatchersOf;
    RoundClears(states[0], rounds[0], states[1], k);
  }

  lemma {:induction false} ClearStays(states: seq<State>, rounds: seq<seq<Event>>, k: string)
    requires |states| == |rounds| + 1 && Rounds(states, rounds, k) && Idle(states[0], k) && AllClear(states[0], k)
    ensures Base(states[|rounds|]) && AllClear(states[|rounds|], k)
    decreases |rounds|
  {
    BaseMeans(states[0]);
    hide Base, Idle, Round, WellNumbered, FlagsExplained, AllClear;
    if rounds != [] {
      RoundsBegin(states, rounds, k);
      hide Rounds;
      ClearStays(states[1..], rounds[1..], k);
    }
  }

  lemma NoWatcherNoFlag(s: State, k: string)
    requires Base(s) && Idle(s, k) && |WatchersOf(s, k)| == 0
    ensures AllClear(s, k)
  {
    if !AllClear(s, k) {
      var id :| id in s.running && s.key[id] == k;
      var w := SomeWatcherReady(s, k, id);
    }
  }
}
