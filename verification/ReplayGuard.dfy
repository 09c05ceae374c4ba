/** The two-strike guard on replaying a session's cookies (core/fetcher.go): a domain whose fresh
    clearance is challenged twice in a row goes through the browser, with a probe now and then. */
module ReplayGuard {
  import opened Options

  /** In seconds. */
  const STRIKE_WINDOW := 600
  const RETRY_INTERVAL := 300
  const HOSTILE_TTL := 21600

  /** What is remembered of a domain: when it was condemned, when a first strike was recorded, and
      when a condemned domain was last given a chance. */
  datatype Guard = Guard(hostile: Option<int>, strike: Option<int>, probe: Option<int>)

  const CLEAN := Guard(None, None, None)

  predicate Condemned(g: Guard, now: int) { g.hostile.Some? && now - g.hostile.value < HOSTILE_TTL }

  predicate Skips(g: Guard, now: int) {
    Condemned(g, now) && g.probe.Some? && now - g.probe.value < RETRY_INTERVAL
  }

  /** A condemned domain is let through as a probe. */
  predicate Probes(g: Guard, now: int) { Condemned(g, now) && !Skips(g, now) }

  function Asked(g: Guard, now: int): Guard { if Probes(g, now) then g.(probe := Some(now)) else g }

  predicate Condemns(g: Guard, now: int) { g.strike.Some? && now - g.strike.value < STRIKE_WINDOW }

  function Challenged(g: Guard, now: int): Guard {
    if Condemns(g, now) then g.(strike := None, hostile := Some(now)) else g.(strike := Some(now))
  }

  /** A request asks whether to skip the replay; a fresh clearance is challenged; a replay works. */
  datatype Event = Ask(at: int) | Challenge(at: int) | Work(at: int)

  function Step(g: Guard, e: Event): Guard {
    match e
    case Ask(at) => Asked(g, at)
    case Challenge(at) => Challenged(g, at)
    case Work(_) => CLEAN
  }

  function After(h: seq<Event>): Guard {
    if h == [] then CLEAN else Step(After(h[..|h| - 1]), h[|h| - 1])
  }

  // ---------------------------------------------------------------- what a history says

  ghost predicate InOrder(h: seq<Event>) { forall i, j :: 0 <= i <= j < |h| ==> h[i].at <= h[j].at }

  ghost predicate OnlyAsked(h: seq<Event>, i: int, n: nat) { forall k :: 0 <= k && i < k < n <= |h| ==> h[k].Ask? }

  ghost predicate NoWork(h: seq<Event>, i: int, n: nat) { forall k :: 0 <= k && i < k < n <= |h| ==> !h[k].Work? }

  /** The j-th event is a challenge less than ten minutes after a first strike, with nothing but
      questions in between. */
  ghost predicate SecondStrike(h: seq<Event>, j: nat)
    decreases j
  {
    && j < |h| && h[j].Challenge?
    && exists i: nat :: i < j && OnlyAsked(h, i, j) && h[i].Challenge? && !SecondStrike(h, i) && h[j].at - h[i].at < 600
  }

  /** A challenge that is no second strike is a first one. */
  ghost predicate FirstStrike(h: seq<Event>, i: nat) { i < |h| && h[i].Challenge? && !SecondStrike(h, i) }

  /** The i-th and the j-th event are two strikes. */
  ghost predicate TwoStrikes(h: seq<Event>, i: nat, j: nat) {
    i < j < |h| && FirstStrike(h, i) && OnlyAsked(h, i, j) && h[j].Challenge? && h[j].at - h[i].at < 600
  }

  lemma SecondOfTwo(h: seq<Event>, j: nat)
    ensures SecondStrike(h, j) <==> exists i: nat :: TwoStrikes(h, i, j)
  {
    if SecondStrike(h, j) {
      var i: nat :| i < j && OnlyAsked(h, i, j) && h[i].Challenge? && !SecondStrike(h, i) && h[j].at - h[i].at < 600;
      assert TwoStrikes(h, i, j);
    }
    if i: nat :| TwoStrikes(h, i, j) {
      assert OnlyAsked(h, i, j) && !SecondStrike(h, i);
    }
  }

  /** Among the first n events the j-th condemned the domain, and no replay has worked since. */
  ghost predicate Sentence(h: seq<Event>, n: nat, j: nat) { j < n <= |h| && SecondStrike(h, j) && NoWork(h, j, n) }

  /** There was a second strike less than six hours before now. */
  ghost predicate Serving(h: seq<Event>, n: nat, now: int) {
    exists j: nat :: Sentence(h, n, j) && now - h[j].at < 21600
  }

  /** The i-th event is a question that went through as a probe: the domain is condemned and was not
      probed in the five minutes before. */
  ghost predicate Probe(h: seq<Event>, i: nat)
    decreases i, 1
  {
    i < |h| && h[i].Ask? && Serving(h, i, h[i].at) && !JustProbed(h, i, h[i].at)
  }

  ghost predicate JustProbed(h: seq<Event>, n: nat, now: int)
    decreases n, 0
  {
    exists i: nat :: i < n <= |h| && Probe(h, i) && NoWork(h, i, n) && now - h[i].at < 300
  }

  // ---------------------------------------------------------------- strikes

  lemma AfterNext(h: seq<Event>, n: nat)
    requires n < |h|
    ensures After(h[..n + 1]) == Step(After(h[..n]), h[n])
  {
    assert h[..n + 1][..n] == h[..n];
  }

  lemma StrikeNext(h: seq<Event>, n: nat, m: nat)
    requires n < m == n + 1 <= |h|
    ensures After(h[..m]).strike == match h[n]
                                    case Ask(_) => After(h[..n]).strike
                                    case Challenge(at) => if Condemns(After(h[..n]), at) then None else Some(at)
                                    case Work(_) => None
    ensures forall i: nat :: i < n ==> (OnlyAsked(h, i, m) <==> OnlyAsked(h, i, n) && h[n].Ask?)
    ensures OnlyAsked(h, n, m)
  {
    AfterNext(h, n);
  }

  /** The strike remembered is the first strike nothing but questions came after. */
  lemma {:induction false} StrikeIs(h: seq<Event>, n: nat)
    requires n <= |h|
    ensures After(h[..n]).strike.Some? ==>
              exists i: nat :: i < n && FirstStrike(h, i) && OnlyAsked(h, i, n)
                               && After(h[..n]).strike == Some(h[i].at)
    ensures forall i: nat :: i < n && FirstStrike(h, i) && OnlyAsked(h, i, n) ==>
              After(h[..n]).strike == Some(h[i].at)
    decreases n, 0
  {
    if n > 0 {
      StrikeIs(h, n - 1);
      StrikeNext(h, n - 1, n);
      if h[n - 1].Challenge? {
        ChallengeCondemnsIff(h, n - 1);
      }
      hide After, SecondStrike, OnlyAsked, Condemns;
    }
  }

  /** A challenge condemns exactly when a first strike came less than ten minutes before it, with
      neither a working replay nor another challenge in between. */
  lemma {:induction false} ChallengeCondemnsIff(h: seq<Event>, n: nat)
    requires n < |h| && h[n].Challenge?
    ensures Condemns(After(h[..n]), h[n].at) <==> SecondStrike(h, n)
    decreases n, 1
  {
    StrikeIs(h, n);
    SecondOfTwo(h, n);
    hide SecondStrike, FirstStrike, OnlyAsked;
  }

  lemma WhatTheyAre(h: seq<Event>, n: nat)
    ensures SecondStrike(h, n) ==> n < |h| && h[n].Challenge?
    ensures Probe(h, n) ==> n < |h| && h[n].Ask?
  {
  }

  lemma NoWorkStep(h: seq<Event>, n: nat, m: nat)
    requires n < m == n + 1 <= |h|
    ensures forall j: nat :: j < n ==> (NoWork(h, j, m) <==> NoWork(h, j, n) && !h[n].Work?)
    ensures NoWork(h, n, m)
  {
  }

  /** No Sentence stands after n events, or the last one is of this time. */
  ghost predicate SentencedAt(h: seq<Event>, n: nat, at: Option<int>) {
    if at.None? then forall j: nat :: !Sentence(h, n, j)
    else exists j: nat :: Sentence(h, n, j) && (forall k: nat :: Sentence(h, n, k) ==> k <= j) && h[j].at == at.value
  }

  lemma SentencesKept(h: seq<Event>, n: nat, m: nat)
    requires n < m == n + 1 <= |h| && !h[n].Work? && !SecondStrike(h, n)
    ensures forall j: nat :: Sentence(h, m, j) <==> Sentence(h, n, j)
  {
    hide SecondStrike, NoWork;
    NoWorkStep(h, n, m);
  }

  lemma SentenceKept(h: seq<Event>, n: nat, m: nat, at: Option<int>)
    requires n < m == n + 1 <= |h| && SentencedAt(h, n, at) && !h[n].Work? && !SecondStrike(h, n)
    ensures SentencedAt(h, m, at)
  {
    hide SecondStrike, Sentence;
    SentencesKept(h, n, m);
  }

  lemma SentencePassed(h: seq<Event>, n: nat, m: nat)
    requires n < m == n + 1 <= |h| && SecondStrike(h, n)
    ensures SentencedAt(h, m, Some(h[n].at))
  {
    hide SecondStrike, NoWork;
    NoWorkStep(h, n, m);
    assert Sentence(h, m, n);
  }

  /** What is remembered is the time of the last second strike since a replay worked. */
  lemma {:induction false} SentenceIs(h: seq<Event>, n: nat)
    requires n <= |h|
    ensures SentencedAt(h, n, After(h[..n]).hostile)
  {
    if n > 0 {
      var e := h[n - 1];
      SentenceIs(h, n - 1);
      AfterNext(h, n - 1);
      WhatTheyAre(h, n - 1);
      NoWorkStep(h, n - 1, n);
      hide SecondStrike, Probe, NoWork, After;
      if e.Work? {
      } else if SecondStrike(h, n - 1) {
        ChallengeCondemnsIff(h, n - 1);
        SentencePassed(h, n - 1, n);
      } else {
        if e.Challenge? { ChallengeCondemnsIff(h, n - 1); }
        SentenceKept(h, n - 1, n, After(h[..n - 1]).hostile);
      }
    }
  }

  /** In every history a domain is condemned exactly when there were two strikes less than ten minutes
      apart, with nothing but questions between them and no working replay since. */
  lemma CondemnedByTwoStrikes(h: seq<Event>)
    ensures After(h).hostile.Some? <==> exists i: nat, j: nat :: TwoStrikes(h, i, j) && NoWork(h, j, |h|)
    ensures forall j: nat :: Sentence(h, |h|, j) && (forall k: nat :: Sentence(h, |h|, k) ==> k <= j) ==>
              After(h).hostile == Some(h[j].at)
  {
    assert h[..|h|] == h;
    SentenceIs(h, |h|);
    StrikesOfSentence(h, |h|, After(h).hostile);
  }

  lemma StrikesOfSentence(h: seq<Event>, n: nat, at: Option<int>)
    requires n <= |h| && SentencedAt(h, n, at)
    ensures at.Some? <==> exists i: nat, j: nat :: j < n && TwoStrikes(h, i, j) && NoWork(h, j, n)
    ensures forall j: nat :: Sentence(h, n, j) && (forall k: nat :: Sentence(h, n, k) ==> k <= j) ==>
              at == Some(h[j].at)
  {
    hide SecondStrike, TwoStrikes, NoWork;
    if at.Some? {
      var j: nat :| Sentence(h, n, j);
      SecondOfTwo(h, j);
      var i: nat :| TwoStrikes(h, i, j);
    }
    if i: nat, j: nat :| j < n && TwoStrikes(h, i, j) && NoWork(h, j, n) {
      SecondOfTwo(h, j);
      assert Sentence(h, n, j);
    }
  }

  /** The sentence counts for six hours. */
  lemma ServingIff(h: seq<Event>, n: nat, now: int)
    requires n <= |h| && InOrder(h)
    ensures Condemned(After(h[..n]), now) <==> Serving(h, n, now)
  {
    SentenceIs(h, n);
  }

  // ---------------------------------------------------------------- probes

  /** Some probe since a replay worked is of this time, and none is later; or there is none. */
  ghost predicate ProbedAt(h: seq<Event>, n: nat, at: Option<int>) {
    && (at.Some? ==> exists i: nat :: i < n <= |h| && Probe(h, i) && NoWork(h, i, n) && at.value == h[i].at)
    && forall i: nat :: i < n <= |h| && Probe(h, i) && NoWork(h, i, n) ==> at.Some? && at.value >= h[i].at
  }

  lemma ProbeKept(h: seq<Event>, n: nat, m: nat, at: Option<int>)
    requires n < m == n + 1 <= |h| && ProbedAt(h, n, at) && !h[n].Work? && !Probe(h, n)
    ensures ProbedAt(h, m, at)
  {
    hide Probe, NoWork;
    NoWorkStep(h, n, m);
  }

  lemma ProbeMade(h: seq<Event>, n: nat, m: nat)
    requires n < m == n + 1 <= |h| && InOrder(h) && Probe(h, n)
    ensures ProbedAt(h, m, Some(h[n].at))
  {
    hide Probe, NoWork;
    NoWorkStep(h, n, m);
  }

  lemma ProbesForgotten(h: seq<Event>, n: nat, m: nat)
    requires n < m == n + 1 <= |h| && h[n].Work?
    ensures ProbedAt(h, m, None)
  {
    WhatTheyAre(h, n);
    hide Probe, NoWork;
    NoWorkStep(h, n, m);
  }

  lemma ProbeNext(h: seq<Event>, n: nat, m: nat)
    requires n < m == n + 1 <= |h|
    ensures After(h[..m]).probe == if h[n].Work? then None
                                   else if h[n].Ask? && Probes(After(h[..n]), h[n].at) then Some(h[n].at)
                                   else After(h[..n]).probe
  {
    AfterNext(h, n);
  }

  /** What is remembered is the time of the last probe since a replay worked. */
  lemma {:induction false} ProbeIs(h: seq<Event>, n: nat)
    requires n <= |h| && InOrder(h)
    ensures ProbedAt(h, n, After(h[..n]).probe)
    decreases n, 0
  {
    if n > 0 {
      ProbeIs(h, n - 1);
      ProbeNext(h, n - 1, n);
      WhatTheyAre(h, n - 1);
      hide Probe, After, ProbedAt, InOrder, Probes;
      if h[n - 1].Work? {
        ProbesForgotten(h, n - 1, n);
      } else {
        if h[n - 1].Ask? { ProbesIff(h, n - 1); }
        if Probe(h, n - 1) {
          ProbeMade(h, n - 1, n);
        } else {
          ProbeKept(h, n - 1, n, After(h[..n - 1]).probe);
        }
      }
    }
  }

  lemma {:induction false} TurnedAwayIff(h: seq<Event>, n: nat, now: int)
    requires n <= |h| && InOrder(h)
    ensures Condemned(After(h[..n]), now) <==> Serving(h, n, now)
    ensures Skips(After(h[..n]), now) <==> Serving(h, n, now) && JustProbed(h, n, now)
    decreases n, 1
  {
    ServingIff(h, n, now);
    ProbeIs(h, n);
    hide Probe, NoWork, Serving, Condemned;
    var p := After(h[..n]).probe;
    if p.Some? {
      var i: nat :| i < n <= |h| && Probe(h, i) && NoWork(h, i, n) && p.value == h[i].at;
      assert now - p.value < 300 ==> JustProbed(h, n, now);
    }
  }

  /** A question goes through as a probe exactly when the domain is condemned then and was not probed
      in the five minutes before. */
  lemma {:induction false} ProbesIff(h: seq<Event>, n: nat)
    requires n < |h| && InOrder(h) && h[n].Ask?
    ensures Probes(After(h[..n]), h[n].at) <==> Probe(h, n)
    decreases n, 2
  {
    TurnedAwayIff(h, n, h[n].at);
  }

  /** Two probes with no working replay between them are at least five minutes apart. */
  lemma ProbesAreApart(h: seq<Event>, i: nat, j: nat)
    requires InOrder(h) && i < j < |h| && h[i].Ask? && h[j].Ask? && NoWork(h, i, j)
    requires Probes(After(h[..i]), h[i].at) && Probes(After(h[..j]), h[j].at)
    ensures h[j].at - h[i].at >= 300
  {
    ProbesIff(h, i);
    ProbesIff(h, j);
  }

  /** A request is turned to the browser exactly when there were two strikes, the second less than six
      hours before, and a probe less than five minutes before, no replay having worked since either. */
  lemma SkippedIff(h: seq<Event>, now: int)
    requires InOrder(h)
    ensures Skips(After(h), now) <==> Serving(h, |h|, now) && JustProbed(h, |h|, now)
  {
    assert h[..|h|] == h;
    TurnedAwayIff(h, |h|, now);
  }

  /** Challenged at 0 and at 60, probed at 61: from then on the replay is skipped until 361. */
  lemma TwoChallenges(now: int)
    ensures var h := [Challenge(0), Challenge(60), Ask(61)];
            Probes(After(h[..2]), 61) && (61 <= now < 361 ==> Skips(After(h), now))
                && (now >= 361 ==> !Skips(After(h), now))
  {
    var h := [Challenge(0), Challenge(60), Ask(61)];
    AfterNext(h, 0);
    AfterNext(h, 1);
    AfterNext(h, 2);
    assert h[..3] == h;
  }

  // ---------------------------------------------------------------- the maps

  function Lookup(m: map<string, int>, d: string): Option<int> { if d in m then Some(m[d]) else None }

  /** The three maps, under their mutex. */
  class ReplayMaps {
    var hostile: map<string, int>
    var strike: map<string, int>
    var probe: map<string, int>

    constructor ()
      ensures forall d :: Of(d) == CLEAN
    {
      hostile, strike, probe := map[], map[], map[];
    }

    function Of(d: string): Guard
      reads this
    {
      Guard(Lookup(hostile, d), Lookup(strike, d), Lookup(probe, d))
    }

    method SkipReplay(domain: string, now: int) returns (skip: bool)
      modifies this
      ensures skip <==> Skips(old(Of(domain)), now)
      ensures Of(domain) == Step(old(Of(domain)), Ask(now))
      ensures forall d :: d != domain ==> Of(d) == old(Of(d))
    {
      if domain !in hostile || now - hostile[domain] >= HOSTILE_TTL {
        return false;
      }
      if domain !in probe || now - probe[domain] >= RETRY_INTERVAL {
        probe := probe[domain := now];
        return false;
      }
      skip := true;
    }

    method MarkReplayHostile(domain: string, now: int) returns (condemned: bool)
      modifies this
      ensures condemned <==> Condemns(old(Of(domain)), now)
      ensures Of(domain) == Step(old(Of(domain)), Challenge(now))
      ensures forall d :: d != domain ==> Of(d) == old(Of(d))
    {
      if domain in strike && now - strike[domain] < STRIKE_WINDOW {
        strike := strike - {domain};
        hostile := hostile[domain := now];
        return true;
      }
      strike := strike[domain := now];
      condemned := false;
    }

    method ClearReplayHostile(domain: string, ghost now: int)
      modifies this
      ensures Of(domain) == Step(old(Of(domain)), Work(now))
      ensures forall d :: d != domain ==> Of(d) == old(Of(d))
    {
      hostile := hostile - {domain};
      probe := probe - {domain};
      strike := strike - {domain};
    }

    method ReplayHostile(domain: string, now: int) returns (yes: bool)
      ensures yes <==> Condemned(Of(domain), now)
    {
      yes := domain in hostile && now - hostile[domain] < HOSTILE_TTL;
    }
  }
}
