/** FlushDirtyBuckets (filedb/admin.go) taken apart into its steps, with saves
    (filedb/writebucket.go) in between. */
module Flush {
  import opened Options

  /** dirty is the cache of waiting buckets. flushers hold what each flush has swapped out of it and
      has not dealt with; failed is a write that has failed and whose bucket is not back yet. last is
      what was saved last under each key. */
  datatype State = State(dirty: map<string, int>, flushers: map<nat, map<string, int>>, failed: map<nat, string>,
                         disk: map<string, int>, last: map<string, int>)

  const START := State(map[], map[], map[], map[], map[])

  datatype Event =
    | Save(key: string, version: int)
    | SaveEmpty(key: string, version: int)
    | Swap(flusher: nat)
    | WriteWorks(flusher: nat, key: string)
    | WriteFails(flusher: nat, key: string)
    | PutBack(flusher: nat)
    | End(flusher: nat)

  predicate Enabled(s: State, e: Event) {
    match e
    case Save(_, _) => true
    case SaveEmpty(_, _) => true
    case Swap(f) => f !in s.flushers
    case WriteWorks(f, k) => f in s.flushers && f !in s.failed && k in s.flushers[f]
    case WriteFails(f, k) => f in s.flushers && f !in s.failed && k in s.flushers[f]
    case PutBack(f) => f in s.failed && f in s.flushers && s.failed[f] in s.flushers[f]
    case End(f) => f in s.flushers && f !in s.failed && s.flushers[f] == map[]
  }

  /** The flush is done with the key. */
  function Without(s: State, f: nat, k: string): State
    requires f in s.flushers
  {
    s.(flushers := s.flushers[f := s.flushers[f] - {k}])
  }

  function Apply(s: State, e: Event): State
    requires Enabled(s, e)
  {
    match e
    case Save(k, v) => s.(dirty := s.dirty[k := v], last := s.last[k := v])
    case SaveEmpty(k, v) => s.(disk := s.disk[k := v], dirty := s.dirty - {k}, last := s.last[k := v])
    case Swap(f) => s.(flushers := s.flushers[f := s.dirty], dirty := map[])
    case WriteWorks(f, k) => Without(s, f, k).(disk := s.disk[k := s.flushers[f][k]])
    case WriteFails(f, k) => s.(failed := s.failed[f := k])
    case PutBack(f) =>
      var k := s.failed[f];
      var back := if k in s.dirty then s else s.(dirty := s.dirty[k := s.flushers[f][k]]);
      Without(back, f, k).(failed := s.failed - {f})
    case End(f) => s.(flushers := s.flushers - {f})
  }

  ghost predicate Runnable(s: State, events: seq<Event>)
    decreases |events|
  {
    events != [] ==> Enabled(s, events[0]) && Runnable(Apply(s, events[0]), events[1..])
  }

  ghost function Run(s: State, events: seq<Event>): State
    requires Runnable(s, events)
    decreases |events|
  {
    if events == [] then s else Run(Apply(s, events[0]), events[1..])
  }

  // ---------------------------------------------------------------- no version is lost

  predicate Holds(s: State, f: nat, k: string) { f in s.flushers && k in s.flushers[f] }

  ghost predicate Held(s: State, k: string) { exists f :: Holds(s, f, k) }

  ghost predicate HeldOnlyAs(s: State, k: string, v: int) { forall f :: Holds(s, f, k) ==> s.flushers[f][k] == v }

  predicate OnDisk(s: State, k: string) { k in s.last && k in s.disk && s.disk[k] == s.last[k] }

  /** A waiting version is the last one saved. With none waiting, every version a flush holds is the
      last one, and it is held or in its file. */
  ghost predicate Safe(s: State, k: string) {
    if k in s.dirty then k in s.last && s.dirty[k] == s.last[k]
    else if k in s.last then HeldOnlyAs(s, k, s.last[k]) && (Held(s, k) || OnDisk(s, k))
    else !Held(s, k)
  }

  ghost predicate Good(s: State) {
    && (forall k :: Safe(s, k))
    && (forall f :: f in s.failed ==> Holds(s, f, s.failed[f]))
  }

  /** The order of swaps and emptying saves that the source does not enforce: no flush still holds
      another version of what is swapped out, or of what an emptying save writes. */
  ghost predicate Guarded(s: State, e: Event) {
    match e
    case Swap(_) => forall k :: k in s.dirty ==> HeldOnlyAs(s, k, s.dirty[k])
    case SaveEmpty(k, v) => HeldOnlyAs(s, k, v)
    case _ => true
  }

  lemma StartGood()
    ensures Good(START)
  {
  }

  /** What is left of a flush once it has dealt with a key. */
  lemma Dealt(s: State, after: State, f: nat, key: string, k: string)
    requires Holds(s, f, key) && after.flushers == s.flushers[f := s.flushers[f] - {key}]
    ensures forall g :: Holds(after, g, k) <==> Holds(s, g, k) && !(g == f && k == key)
    ensures forall g :: Holds(after, g, k) ==> after.flushers[g][k] == s.flushers[g][k]
  {
  }

  lemma SwapSafe(s: State, f: nat, k: string)
    requires Good(s) && Enabled(s, Swap(f))
    ensures Safe(Apply(s, Swap(f)), k) <==> (k in s.dirty ==> HeldOnlyAs(s, k, s.dirty[k]))
  {
    var after := Apply(s, Swap(f));
    assert Safe(s, k);
    assert forall g :: Holds(after, g, k) <==> Holds(s, g, k) || (g == f && k in s.dirty);
    assert forall g :: Holds(s, g, k) ==> after.flushers[g][k] == s.flushers[g][k];
    if k in s.dirty {
      assert Holds(after, f, k);
    }
  }

  lemma SaveEmptySafe(s: State, k: string, v: int, j: string)
    requires Good(s)
    ensures Safe(Apply(s, SaveEmpty(k, v)), j) <==> (j == k ==> HeldOnlyAs(s, k, v))
  {
    var after := Apply(s, SaveEmpty(k, v));
    assert Safe(s, j);
    assert forall g :: Holds(after, g, j) <==> Holds(s, g, j);
  }

  lemma OtherStepsSafe(s: State, e: Event, k: string)
    requires Good(s) && Enabled(s, e) && !e.Swap? && !e.SaveEmpty?
    ensures Safe(Apply(s, e), k)
  {
    var after := Apply(s, e);
    assert Safe(s, k);
    match e
    case WriteWorks(f, key) => Dealt(s, after, f, key, k);
    case PutBack(f) => Dealt(s, after, f, s.failed[f], k);
    case End(f) => assert forall g :: Holds(after, g, k) <==> Holds(s, g, k);
    case Save(_, _) => assert forall g :: Holds(after, g, k) <==> Holds(s, g, k);
    case WriteFails(_, _) => assert forall g :: Holds(after, g, k) <==> Holds(s, g, k);
    case Swap(_) =>
    case SaveEmpty(_, _) =>
  }

  lemma FailedStay(s: State, e: Event)
    requires Good(s) && Enabled(s, e)
    ensures forall f :: f in Apply(s, e).failed ==> Holds(Apply(s, e), f, Apply(s, e).failed[f])
  {
    hide Safe;
  }

  /** A step keeps every last version safe exactly when it is guarded; only swaps and emptying saves
      can fail to be. */
  lemma StepKeepsGoodIff(s: State, e: Event)
    requires Good(s) && Enabled(s, e)
    ensures Good(Apply(s, e)) <==> Guarded(s, e)
  {
    FailedStay(s, e);
    match e
    case Swap(f) =>
      hide Safe, HeldOnlyAs;
      forall k ensures Safe(Apply(s, e), k) <==> (k in s.dirty ==> HeldOnlyAs(s, k, s.dirty[k])) { SwapSafe(s, f, k); }
    case SaveEmpty(k, v) =>
      hide Safe, HeldOnlyAs;
      forall j ensures Safe(Apply(s, e), j) <==> (j == k ==> HeldOnlyAs(s, k, v)) { SaveEmptySafe(s, k, v, j); }
      assert Safe(Apply(s, e), k) <==> HeldOnlyAs(s, k, v);
    case _ =>
      hide Safe;
      forall k ensures Safe(Apply(s, e), k) { OtherStepsSafe(s, e, k); }
  }

  ghost predicate AllGuarded(s: State, events: seq<Event>)
    requires Runnable(s, events)
    decreases |events|
  {
    events != [] ==> Guarded(s, events[0]) && AllGuarded(Apply(s, events[0]), events[1..])
  }

  /** Good before and after each step. */
  ghost predicate AlwaysGood(s: State, events: seq<Event>)
    requires Runnable(s, events)
    decreases |events|
  {
    Good(s) && (events != [] ==> AlwaysGood(Apply(s, events[0]), events[1..]))
  }

  /** Over any run, with any number of flushes, failed writes and emptying saves: the last saved version
      of every key is waiting, held or in its file all the time exactly when every step is guarded. */
  lemma {:induction false} NothingLostIff(s: State, events: seq<Event>)
    requires Good(s) && Runnable(s, events)
    ensures AlwaysGood(s, events) <==> AllGuarded(s, events)
    ensures AllGuarded(s, events) ==> Good(Run(s, events))
    decreases |events|
  {
    if events != [] {
      hide Good, Guarded, Apply, Enabled;
      StepKeepsGoodIff(s, events[0]);
      if Guarded(s, events[0]) {
        NothingLostIff(Apply(s, events[0]), events[1..]);
      } else {
        NotGoodAlways(Apply(s, events[0]), events[1..]);
      }
    }
  }

  lemma NotGoodAlways(s: State, events: seq<Event>)
    requires !Good(s) && Runnable(s, events)
    ensures !AlwaysGood(s, events)
  {
  }

  /** One flush at a time, and no emptying save of a key that it holds, is enough. */
  lemma OneFlushIsGuarded(s: State, e: Event)
    requires e.Swap? ==> s.flushers == map[]
    requires e.SaveEmpty? ==> !Held(s, e.key)
    ensures Guarded(s, e)
  {
  }

  /** When nothing is waiting and no flush is under way every file holds what was saved last. */
  lemma FlushedIsOnDisk(events: seq<Event>, k: string)
    requires Runnable(START, events) && AllGuarded(START, events)
    requires var s := Run(START, events); s.dirty == map[] && s.flushers == map[] && k in s.last
    ensures OnDisk(Run(START, events), k)
  {
    StartGood();
    NothingLostIff(START, events);
    assert Safe(Run(START, events), k);
  }

  // ---------------------------------------------------------------- an unguarded step leads to a loss

  /** The last version of a key is neither waiting nor held, and its file holds something else. */
  ghost predicate Lost(s: State, k: string) { k in s.last && k !in s.dirty && !Held(s, k) && !OnDisk(s, k) }

  predicate OnlyFlushing(e: Event) { !e.Save? && !e.SaveEmpty? }

  ghost predicate AllFlushing(events: seq<Event>) { forall i :: 0 <= i < |events| ==> OnlyFlushing(events[i]) }

  /** A version of the key that is not the last one waits, or is held by a flush that has not failed to
      write it. */
  ghost predicate Stale(s: State, k: string, g: nat) {
    k in s.last
    && if k in s.dirty && s.dirty[k] != s.last[k] then true
       else Holds(s, g, k) && s.flushers[g][k] != s.last[k] && !(g in s.failed && s.failed[g] == k)
  }

  ghost predicate FailedHold(s: State) { forall f :: f in s.failed ==> Holds(s, f, s.failed[f]) }

  lemma RunJoins(s: State, e: Event, rest: seq<Event>)
    requires Enabled(s, e) && Runnable(Apply(s, e), rest)
    ensures Runnable(s, [e] + rest) && Run(s, [e] + rest) == Run(Apply(s, e), rest)
    ensures OnlyFlushing(e) && AllFlushing(rest) ==> AllFlushing([e] + rest)
  {
    assert ([e] + rest)[1..] == rest;
  }

  lemma SomeMember<T(!new)>(a: set<T>) returns (x: T)
    requires a != {}
    ensures x in a
  {
    x :| x in a;
  }

  lemma {:induction false} Unused(a: set<nat>) returns (n: nat)
    ensures forall x :: x in a ==> x < n
    decreases a
  {
    if a == {} {
      n := 0;
    } else {
      var x := SomeMember(a);
      var m := Unused(a - {x});
      n := if x < m then m else x + 1;
      assert forall y :: y in a ==> y == x || y in a - {x};
    }
  }

  /** One failed write put back. */
  lemma PutOneBack(s: State, k: string, g: nat, f: nat)
    requires FailedHold(s) && f in s.failed
             && (Stale(s, k, g) || (f == g && s.failed[g] == k && k !in s.dirty && StaleIn(s, k, g)))
    ensures Enabled(s, PutBack(f)) && var t := Apply(s, PutBack(f));
            FailedHold(t) && t.failed.Keys == s.failed.Keys - {f} && t.last == s.last && Stale(t, k, g)
  {
    var t := Apply(s, PutBack(f));
    Dealt(s, t, f, s.failed[f], k);
    assert forall h :: h in t.failed ==> Holds(s, h, t.failed[h]) && h != f;
  }

  /** The flush g holds a version that is not the last one. */
  predicate StaleIn(s: State, k: string, g: nat) {
    Holds(s, g, k) && k in s.last && s.flushers[g][k] != s.last[k]
  }

  lemma {:induction false} PutAllBack(s: State, k: string, g: nat) returns (events: seq<Event>)
    requires FailedHold(s) && Stale(s, k, g)
    ensures Runnable(s, events) && AllFlushing(events)
    ensures var t := Run(s, events); t.failed == map[] && t.last == s.last && Stale(t, k, g)
    decreases s.failed.Keys
  {
    if s.failed == map[] {
      events := [];
    } else {
      assert s.failed.Keys != {};
      var f := SomeMember(s.failed.Keys);
      PutOneBack(s, k, g, f);
      hide Stale, FailedHold, Apply, Enabled;
      var rest := PutAllBack(Apply(s, PutBack(f)), k, g);
      RunJoins(s, PutBack(f), rest);
      events := [PutBack(f)] + rest;
    }
  }

  /** The flushes other than g that hold the key. */
  function Others(s: State, k: string, g: nat): set<nat> { set f | f in s.flushers && k in s.flushers[f] && f != g }

  lemma OthersHold(s: State, k: string, g: nat)
    ensures forall f :: Holds(s, f, k) && f != g ==> f in Others(s, k, g)
  {
  }

  /** All other flushes write the key, then g writes its stale version over it. */
  lemma {:induction false} WriteLast(s: State, k: string, g: nat) returns (events: seq<Event>)
    requires s.failed == map[] && k !in s.dirty && StaleIn(s, k, g)
    ensures Runnable(s, events) && AllFlushing(events) && Lost(Run(s, events), k)
    decreases Others(s, k, g)
  {
    if Others(s, k, g) == {} {
      var t := Apply(s, WriteWorks(g, k));
      Dealt(s, t, g, k, k);
      OthersHold(s, k, g);
      assert Lost(t, k);
      assert Run(t, []) == t;
      RunJoins(s, WriteWorks(g, k), []);
      events := [WriteWorks(g, k)] + [];
    } else {
      var f := SomeMember(Others(s, k, g));
      var t := Apply(s, WriteWorks(f, k));
      Dealt(s, t, f, k, k);
      assert Others(t, k, g) == Others(s, k, g) - {f};
      var rest := WriteLast(t, k, g);
      hide Lost;
      RunJoins(s, WriteWorks(f, k), rest);
      events := [WriteWorks(f, k)] + rest;
    }
  }

  /** Once a stale version waits or is held it can come to be written last. */
  lemma StaleCanWin(s: State, k: string, g: nat) returns (events: seq<Event>)
    requires s.failed == map[] && Stale(s, k, g)
    ensures Runnable(s, events) && AllFlushing(events) && Lost(Run(s, events), k)
  {
    if k in s.dirty {
      var n := Unused(s.flushers.Keys);
      assert n !in s.flushers;
      var t := Apply(s, Swap(n));
      var w := if s.dirty[k] != s.last[k] then n else g;
      assert StaleIn(t, k, w);
      hide Lost, StaleIn, Stale;
      var rest := WriteLast(t, k, w);
      RunJoins(s, Swap(n), rest);
      events := [Swap(n)] + rest;
    } else {
      hide Lost;
      events := WriteLast(s, k, g);
    }
  }

  lemma {:induction false} RunAppends(s: State, a: seq<Event>, b: seq<Event>)
    requires Runnable(s, a) && Runnable(Run(s, a), b)
    ensures Runnable(s, a + b) && Run(s, a + b) == Run(Run(s, a), b)
    ensures AllFlushing(a) && AllFlushing(b) ==> AllFlushing(a + b)
    decreases |a|
  {
    hide Apply, Enabled, OnlyFlushing;
    if a == [] {
      assert a + b == b;
    } else {
      assert (a + b)[1..] == a[1..] + b && (a + b)[0] == a[0];
      assert AllFlushing(a) ==> AllFlushing(a[1..]);
      RunAppends(Apply(s, a[0]), a[1..], b);
    }
  }

  lemma RunSingle(s: State, e: Event)
    requires Enabled(s, e)
    ensures Runnable(s, [e]) && Run(s, [e]) == Apply(s, e)
  {
    assert [e][1..] == [];
    assert Run(Apply(s, e), []) == Apply(s, e);
  }

  /** Once a flush holds a version that is not the last one of a key with none waiting, the key can be
      lost without any further save. */
  lemma StaleInLoses(s: State, k: string, g: nat) returns (events: seq<Event>)
    requires FailedHold(s) && StaleIn(s, k, g) && k !in s.dirty
    ensures Runnable(s, events) && AllFlushing(events) && Lost(Run(s, events), k)
  {
    var first: seq<Event> := [];
    if g in s.failed && s.failed[g] == k {
      PutOneBack(s, k, g, g);
      first := [PutBack(g)];
      RunSingle(s, PutBack(g));
    }
    var t := Run(s, first);
    assert FailedHold(t) && Stale(t, k, g);
    hide Lost, Apply, Enabled, Stale, StaleIn, FailedHold;
    var second := PutAllBack(t, k, g);
    var u := Run(t, second);
    var third := StaleCanWin(u, k, g);
    RunAppends(t, second, third);
    RunAppends(s, first, second + third);
    events := first + (second + third);
  }

  /** A step that is not guarded can be followed, with no save in between, by the loss of a key's last
      version. */
  lemma UnguardedStepLoses(s: State, e: Event) returns (k: string, rest: seq<Event>)
    requires Good(s) && Enabled(s, e) && !Guarded(s, e)
    ensures Runnable(Apply(s, e), rest) && AllFlushing(rest) && Lost(Run(Apply(s, e), rest), k)
  {
    var after := Apply(s, e);
    FailedStay(s, e);
    var g;
    if e.Swap? {
      k :| k in s.dirty && !HeldOnlyAs(s, k, s.dirty[k]);
      g :| Holds(s, g, k) && s.flushers[g][k] != s.dirty[k];
      assert Safe(s, k);
    } else {
      k := e.key;
      g :| Holds(s, g, k) && s.flushers[g][k] != e.version;
    }
    assert StaleIn(after, k, g) && k !in after.dirty;
    hide Good, Safe, Lost, Apply, Enabled, Guarded;
    rest := StaleInLoses(after, k, g);
  }

  // ---------------------------------------------------------------- two runs that lose a version

  /** Two flushes under way, the later one with the newer version. */
  function Racing(k: string): State { State(map[], map[0 := map[k := 1], 1 := map[k := 2]], map[], map[], map[k := 2]) }

  lemma RaceIsReached(k: string) returns (events: seq<Event>)
    ensures Runnable(START, events) && Run(START, events) == Racing(k)
  {
    var s1 := Apply(START, Save(k, 1));
    var s2 := Apply(s1, Swap(0));
    var s3 := Apply(s2, Save(k, 2));
    assert Apply(s3, Swap(1)) == Racing(k);
    hide Apply, Enabled;
    events := [];
    RunJoins(s3, Swap(1), events);
    events := [Swap(1)] + events;
    RunJoins(s2, Save(k, 2), events);
    events := [Save(k, 2)] + events;
    RunJoins(s1, Swap(0), events);
    events := [Swap(0)] + events;
    RunJoins(START, Save(k, 1), events);
    events := [Save(k, 1)] + events;
  }

  /** With two flushers the one that swapped first may write last, and an older version stays. */
  lemma TwoFlushersLoseAVersion(k: string) returns (events: seq<Event>)
    ensures Runnable(Racing(k), events)
    ensures var s := Run(Racing(k), events);
            s.dirty == map[] && s.flushers == map[] && s.last == map[k := 2]
            && s.disk == map[k := 1]
  {
    var s5 := Apply(Racing(k), WriteWorks(1, k));
    var s6 := Apply(s5, WriteWorks(0, k));
    assert s6.flushers[0] == map[] && s6.flushers[1] == map[];
    var s7 := Apply(s6, End(0));
    assert Apply(s7, End(1)) == State(map[], map[], map[], map[k := 1], map[k := 2]);
    hide Apply, Enabled;
    events := [];
    RunJoins(s7, End(1), events);
    events := [End(1)] + events;
    RunJoins(s6, End(0), events);
    events := [End(0)] + events;
    RunJoins(s5, WriteWorks(0, k), events);
    events := [WriteWorks(0, k)] + events;
    RunJoins(Racing(k), WriteWorks(1, k), events);
    events := [WriteWorks(1, k)] + events;
  }

  /** A save that empties a bucket while a flush holds it is undone by the flush. */
  lemma EmptyingSaveIsUndone(k: string) returns (events: seq<Event>)
    ensures Runnable(START, events)
    ensures var s := Run(START, events);
            s.dirty == map[] && s.flushers == map[] && s.last == map[k := 0]
            && s.disk == map[k := 1]
  {
    var s1 := Apply(START, Save(k, 1));
    var s2 := Apply(s1, Swap(0));
    var s3 := Apply(s2, SaveEmpty(k, 0));
    var s4 := Apply(s3, WriteWorks(0, k));
    assert s4.flushers[0] == map[];
    var s5 := Apply(s4, End(0));
    hide Apply, Enabled;
    events := [];
    RunJoins(s4, End(0), events);
    events := [End(0)] + events;
    RunJoins(s3, WriteWorks(0, k), events);
    events := [WriteWorks(0, k)] + events;
    RunJoins(s2, SaveEmpty(k, 0), events);
    events := [SaveEmpty(k, 0)] + events;
    RunJoins(s1, Swap(0), events);
    events := [Swap(0)] + events;
    RunJoins(START, Save(k, 1), events);
    events := [Save(k, 1)] + events;
  }
}
