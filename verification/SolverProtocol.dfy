/** The callers of solveFlare (core/fetcher.go) as a state machine: one lock for each domain, two
    browser slots for all, a cooldown after a failed solve, and a cache of sessions. */
module SolverProtocol {
  import opened Blanks
  import opened Options

  /** In seconds. */
  const COOLDOWN := 180
  const SESSION_TTL := 3600
  const SLOTS := 2

  datatype Session = Session(cookies: string, obtained: int)

  datatype Result = ShuttingDown | InCooldown | Reused(session: Session) | Solved(session: Session) | SolveFailed

  /** How far a caller is: before its first checks, at the domain lock, inside it through the three
      re-checks, at the browser slots, in the browser, and on its way out. */
  datatype Pc =
    | Entered | Admitted | Waiting
    | Locked | Missed | Cool | Cleared
    | Navigating | Building(cookies: string)
    | Leaving(result: Result) | Unlocking(result: Result) | Returned(result: Result)

  datatype Caller = Caller(domain: string, force: bool, pc: Pc)

  /** failures remembers the last failed solve of each domain, whether or not its mark was cleared. */
  datatype State = State(callers: map<nat, Caller>, locks: map<string, nat>, slots: set<nat>,
                         lastFail: map<string, int>, sessions: map<string, Session>,
                         now: int, shutdown: bool, failures: map<string, int>)

  const INITIAL := State(map[], map[], {}, map[], map[], 0, false, map[])

  predicate Blocked(s: State, domain: string) { domain in s.lastFail && s.now - s.lastFail[domain] < COOLDOWN }

  /** The session a caller would be given: not expired and not without cookies. */
  predicate Usable(s: State, domain: string) {
    domain in s.sessions && s.now - s.sessions[domain].obtained <= SESSION_TTL
        && TrimSpace(s.sessions[domain].cookies) != ""
  }

  datatype Answer = Refused | Cookies(cookies: string)

  datatype Event =
    | Arrive(id: nat, domain: string, force: bool)
    | Step(id: nat)
    | Answered(id: nat, answer: Answer)
    | Pass(seconds: nat)
    | Shutdown
    | Forget(domain: string)

  function At(s: State, id: nat, pc: Pc): State
    requires id in s.callers
  {
    s.(callers := s.callers[id := s.callers[id].(pc := pc)])
  }

  function MarkFailure(s: State, domain: string): State {
    s.(lastFail := s.lastFail[domain := s.now], failures := s.failures[domain := s.now])
  }

  /** Whether a caller can go on by itself; in the browser it waits for the answer. */
  predicate CanStep(s: State, id: nat)
    requires id in s.callers
  {
    match s.callers[id].pc
    case Waiting => s.callers[id].domain !in s.locks
    case Cleared => |s.slots| < SLOTS
    case Navigating => false
    case Returned(_) => false
    case _ => true
  }

  predicate Enabled(s: State, e: Event) {
    match e
    case Arrive(id, _, _) => id !in s.callers
    case Step(id) => id in s.callers && CanStep(s, id)
    case Answered(id, _) => id in s.callers && s.callers[id].pc == Navigating
    case Pass(_) => true
    case Shutdown => true
    case Forget(_) => true
  }

  function Apply(s: State, e: Event): State
    requires Enabled(s, e)
  {
    match e
    case Arrive(id, domain, force) => s.(callers := s.callers[id := Caller(domain, force, Entered)])
    case Step(id) => Next(s, id)
    case Answered(id, Refused) => At(MarkFailure(s, s.callers[id].domain), id, Leaving(SolveFailed))
    case Answered(id, Cookies(c)) => At(s.(lastFail := s.lastFail - {s.callers[id].domain}), id, Building(c))
    case Pass(seconds) => s.(now := s.now + seconds)
    case Shutdown => s.(shutdown := true)
    case Forget(domain) => s.(sessions := s.sessions - {domain})
  }

  /** Where a caller goes next: the checks before the lock, the lock, the re-checks under it, the slot,
      the solution, and the way out. */
  function NextPc(s: State, id: nat): Pc
    requires id in s.callers && CanStep(s, id)
  {
    var c := s.callers[id];
    match c.pc
    case Entered => if s.shutdown then Returned(ShuttingDown) else Admitted
    case Admitted => if Blocked(s, c.domain) then Returned(InCooldown) else Waiting
    case Waiting => Locked
    case Locked => if !c.force && Usable(s, c.domain) then Leaving(Reused(s.sessions[c.domain])) else Missed
    case Missed => if Blocked(s, c.domain) then Leaving(InCooldown) else Cool
    case Cool => if s.shutdown then Leaving(ShuttingDown) else Cleared
    case Cleared => Navigating
    case Building(cookies) => Leaving(if cookies == "" then SolveFailed else Solved(Session(cookies, s.now)))
    case Leaving(result) => Unlocking(result)
    case Unlocking(result) => Returned(result)
  }

  /** What the step does to what the callers share. A solve without cookies counts as failed. */
  function Effects(s: State, id: nat): (r: State)
    requires id in s.callers && CanStep(s, id)
    ensures r.callers == s.callers
  {
    var c := s.callers[id];
    match c.pc
    case Waiting => s.(locks := s.locks[c.domain := id])
    case Cleared => s.(slots := s.slots + {id})
    case Building(cookies) =>
      if cookies == "" then MarkFailure(s, c.domain)
      else s.(sessions := s.sessions[c.domain := Session(cookies, s.now)])
    case Leaving(_) => s.(slots := s.slots - {id})
    case Unlocking(_) => s.(locks := s.locks - {c.domain})
    case _ => s
  }

  function Next(s: State, id: nat): State
    requires id in s.callers && CanStep(s, id)
  {
    At(Effects(s, id), id, NextPc(s, id))
  }

  // ---------------------------------------------------------------- the invariant

  /** Between taking the domain lock and giving it back. */
  predicate Inside(pc: Pc) { !(pc.Entered? || pc.Admitted? || pc.Waiting? || pc.Returned?) }

  /** In the browser, or holding its slot still. */
  predicate InBrowser(pc: Pc) { pc.Navigating? || pc.Building? }

  /** Past the re-checks under the lock. */
  predicate PastChecks(pc: Pc) { pc.Cool? || pc.Cleared? || InBrowser(pc) }

  /** No failed solve of the domain is as recent as the cooldown. */
  predicate Rested(s: State, domain: string) { domain in s.failures ==> s.now - s.failures[domain] >= COOLDOWN }

  ghost predicate CallerInv(s: State, id: nat, c: Caller) {
    && (Inside(c.pc) <==> c.domain in s.locks && s.locks[c.domain] == id)
    && (InBrowser(c.pc) ==> id in s.slots)
    && (PastChecks(c.pc) ==> Rested(s, c.domain))
    && (!c.force && (c.pc.Missed? || PastChecks(c.pc)) ==> !Usable(s, c.domain))
  }

  ghost predicate Inv(s: State) {
    && (forall id :: id in s.callers ==> CallerInv(s, id, s.callers[id]))
    && (forall d :: d in s.locks ==> s.locks[d] in s.callers && s.callers[s.locks[d]].domain == d)
    && (forall id :: id in s.slots ==> id in s.callers && (InBrowser(s.callers[id].pc) || s.callers[id].pc.Leaving?))
    && |s.slots| <= SLOTS
    && (forall d :: d in s.failures ==>
         s.failures[d] <= s.now
         && (Rested(s, d) || (d in s.lastFail && s.lastFail[d] == s.failures[d])))
  }

  lemma InitialInv()
    ensures Inv(INITIAL)
  {
  }

  ghost predicate LocksInv(s: State) {
    forall d :: d in s.locks ==> s.locks[d] in s.callers && s.callers[s.locks[d]].domain == d
  }

  ghost predicate SlotsInv(s: State) {
    |s.slots| <= SLOTS
    && forall id :: id in s.slots ==> id in s.callers && (InBrowser(s.callers[id].pc) || s.callers[id].pc.Leaving?)
  }

  ghost predicate FailuresInv(s: State) {
    forall d :: d in s.failures ==>
      s.failures[d] <= s.now && (Rested(s, d) || (d in s.lastFail && s.lastFail[d] == s.failures[d]))
  }

  /** after differs from s in the caller and in what belongs to its domain, which no other caller is
      inside of. */
  ghost predicate OnlyOwn(s: State, after: State, id: nat) {
    && id in s.callers && id in after.callers && after.callers == s.callers[id := after.callers[id]]
    && var d := s.callers[id].domain;
       after.callers[id].domain == d && after.now == s.now
       && (forall x :: x != d ==>
            (x in after.locks <==> x in s.locks)
            && (x in s.locks ==> after.locks[x] == s.locks[x]))
       && (forall x :: x != d ==>
            (x in after.sessions <==> x in s.sessions)
            && (x in s.sessions ==> after.sessions[x] == s.sessions[x]))
       && (forall x :: x != d ==>
            (x in after.failures <==> x in s.failures)
            && (x in s.failures ==> after.failures[x] == s.failures[x]))
       && (forall j :: j != id ==> (j in after.slots <==> j in s.slots))
       && (d in after.locks ==> after.locks[d] == id)
       && (forall j :: j in s.callers && j != id && s.callers[j].domain == d ==> !Inside(s.callers[j].pc))
  }

  lemma OthersKept(s: State, after: State, id: nat)
    requires Inv(s) && OnlyOwn(s, after, id)
    ensures forall j :: j in after.callers && j != id ==> CallerInv(after, j, after.callers[j])
  {
    forall j | j in after.callers && j != id ensures CallerInv(after, j, after.callers[j]) {
      assert CallerInv(s, j, s.callers[j]);
    }
  }

  /** No two callers are inside the same domain. */
  lemma OneInside(s: State, i: nat, j: nat)
    requires Inv(s) && i in s.callers && j in s.callers && Inside(s.callers[i].pc) && Inside(s.callers[j].pc)
    ensures s.callers[i].domain == s.callers[j].domain ==> i == j
  {
    assert CallerInv(s, i, s.callers[i]) && CallerInv(s, j, s.callers[j]);
  }

  /** Steps that change a caller and its slot only. */
  lemma OthersSame(s: State, after: State, id: nat)
    requires Inv(s) && id in s.callers && id in after.callers && after.callers == s.callers[id := after.callers[id]]
    requires after == s.(callers := after.callers, slots := after.slots)
    requires forall j :: j != id ==> (j in after.slots <==> j in s.slots)
    ensures forall j :: j in after.callers && j != id ==> CallerInv(after, j, after.callers[j])
    ensures FailuresInv(after)
  {
    SameFacts(s, after);
    hide Usable, Rested;
    forall j | j in after.callers && j != id ensures CallerInv(after, j, after.callers[j]) {
      assert CallerInv(s, j, s.callers[j]);
    }
  }

  /** What depends on the clock, the marks and the sessions only. */
  lemma SameFacts(s: State, after: State)
    requires after.now == s.now && after.lastFail == s.lastFail && after.sessions == s.sessions
             && after.failures == s.failures
    ensures forall d :: Usable(after, d) == Usable(s, d) && Rested(after, d) == Rested(s, d)
  {
  }

  lemma PcKeeps(s: State, id: nat, slots: set<nat>, pc: Pc)
    requires Inv(s) && id in s.callers && CallerInv(At(s.(slots := slots), id, pc), id, s.callers[id].(pc := pc))
    requires |slots| <= SLOTS && forall j :: j != id ==> (j in slots <==> j in s.slots)
    requires id in slots ==> InBrowser(pc) || pc.Leaving?
    ensures Inv(At(s.(slots := slots), id, pc))
  {
    OthersSame(s, At(s.(slots := slots), id, pc), id);
    hide CallerInv, Usable, Rested, InBrowser;
  }

  lemma Assemble(s: State, after: State, id: nat)
    requires Inv(s) && OnlyOwn(s, after, id) && CallerInv(after, id, after.callers[id])
    requires LocksInv(after) && SlotsInv(after) && FailuresInv(after)
    ensures Inv(after)
  {
    OthersKept(s, after, id);
    hide CallerInv, OnlyOwn, Rested, InBrowser;
  }

  lemma NobodyInside(s: State, d: string)
    requires Inv(s) && d !in s.locks
    ensures forall j :: j in s.callers && s.callers[j].domain == d ==> !Inside(s.callers[j].pc)
  {
    forall j | j in s.callers && s.callers[j].domain == d ensures !Inside(s.callers[j].pc) {
      assert CallerInv(s, j, s.callers[j]);
    }
  }

  lemma InvMeans(s: State, id: nat)
    requires Inv(s) && id in s.callers
    ensures LocksInv(s) && SlotsInv(s) && FailuresInv(s) && CallerInv(s, id, s.callers[id])
  {
  }

  lemma AcquireKeeps(s: State, id: nat)
    requires Inv(s) && id in s.callers && CanStep(s, id) && s.callers[id].pc.Waiting?
    ensures Inv(Next(s, id))
  {
    var after := Next(s, id);
    NobodyInside(s, s.callers[id].domain);
    InvMeans(s, id);
    SameFacts(s, after);
    hide Inv, Usable, Rested;
    AcquiredOwn(s, id);
    assert CallerInv(after, id, after.callers[id]);
    assert LocksInv(after) && SlotsInv(after);
    hide OnlyOwn, CallerInv, LocksInv, SlotsInv;
    Assemble(s, after, id);
  }

  lemma AcquiredOwn(s: State, id: nat)
    requires id in s.callers && CanStep(s, id) && s.callers[id].pc.Waiting?
    requires forall j :: j in s.callers && s.callers[j].domain == s.callers[id].domain ==> !Inside(s.callers[j].pc)
    ensures OnlyOwn(s, Next(s, id), id)
  {
    hide Usable, Rested, Blocked, NextPc;
    assert Next(s, id).callers[id] == s.callers[id].(pc := NextPc(s, id));
  }

  lemma TakeSlotKeeps(s: State, id: nat)
    requires Inv(s) && id in s.callers && CanStep(s, id) && s.callers[id].pc.Cleared?
    ensures Inv(Next(s, id))
  {
    assert CallerInv(s, id, s.callers[id]) && id !in s.slots;
    SameFacts(s, At(s.(slots := s.slots + {id}), id, Navigating));
    hide Inv, Usable, Rested;
    PcKeeps(s, id, s.slots + {id}, Navigating);
  }

  lemma GiveSlotKeeps(s: State, id: nat)
    requires Inv(s) && id in s.callers && s.callers[id].pc.Leaving?
    ensures Inv(Next(s, id))
  {
    var pc := Unlocking(s.callers[id].pc.result);
    assert CallerInv(s, id, s.callers[id]) && |s.slots| <= SLOTS;
    SmallerSet(s.slots, id);
    assert Next(s, id) == At(s.(slots := s.slots - {id}), id, pc);
    assert CallerInv(At(s.(slots := s.slots - {id}), id, pc), id, s.callers[id].(pc := pc));
    hide Inv, Next, NextPc, Effects, CallerInv, Usable, Rested;
    PcKeeps(s, id, s.slots - {id}, pc);
  }

  lemma SmallerSet(a: set<nat>, i: nat)
    ensures |a - {i}| <= |a|
  {
    SubsetSize(a - {i}, a);
  }

  lemma UnlockOther(s: State, after: State, id: nat, j: nat)
    requires Inv(s) && id in s.callers && s.callers[id].pc.Unlocking? && j in s.callers
    requires after == At(s.(locks := s.locks - {s.callers[id].domain}), id, Returned(s.callers[id].pc.result))
    ensures CallerInv(after, j, after.callers[j])
  {
    assert CallerInv(s, id, s.callers[id]) && CallerInv(s, j, s.callers[j]);
    SameFacts(s, after);
    if j != id && Inside(s.callers[j].pc) {
      OneInside(s, id, j);
    }
    hide Inv, Usable, Rested;
  }

  lemma UnlockKeeps(s: State, id: nat)
    requires Inv(s) && id in s.callers && s.callers[id].pc.Unlocking?
    ensures Inv(Next(s, id))
  {
    var after := Next(s, id);
    assert after == At(s.(locks := s.locks - {s.callers[id].domain}), id, Returned(s.callers[id].pc.result));
    InvMeans(s, id);
    SameFacts(s, after);
    hide Usable, Next, Rested, CallerInv;
    forall j | j in after.callers ensures CallerInv(after, j, after.callers[j]) {
      UnlockOther(s, after, id, j);
    }
  }

  /** What a caller in the browser does to the marks and the sessions of its domain. */
  lemma OutcomeKeeps(s: State, after: State, id: nat)
    requires Inv(s) && OnlyOwn(s, after, id) && Inside(s.callers[id].pc)
    requires CallerInv(after, id, after.callers[id]) && after.locks == s.locks && after.slots == s.slots
             && FailuresInv(after)
    requires InBrowser(after.callers[id].pc) || after.callers[id].pc.Leaving?
    ensures Inv(after)
  {
    OthersKept(s, after, id);
    hide Usable, Rested;
  }

  lemma BrowserFacts(s: State, id: nat)
    requires Inv(s) && id in s.callers && InBrowser(s.callers[id].pc)
    ensures forall j :: j in s.callers && j != id && s.callers[j].domain == s.callers[id].domain ==>
              !Inside(s.callers[j].pc)
    ensures var d := s.callers[id].domain;
            d in s.locks && s.locks[d] == id && id in s.slots && Rested(s, d)
            && FailuresInv(s)
    ensures !s.callers[id].force ==> !Usable(s, s.callers[id].domain)
  {
    assert CallerInv(s, id, s.callers[id]);
    forall j | j in s.callers && j != id && s.callers[j].domain == s.callers[id].domain
        ensures !Inside(s.callers[j].pc) {
      if Inside(s.callers[j].pc) {
        OneInside(s, id, j);
      }
    }
  }

  lemma MarkedFailures(s: State, d: string)
    requires FailuresInv(s)
    ensures FailuresInv(MarkFailure(s, d))
  {
  }

  lemma MarkKeeps(s: State, id: nat)
    requires Inv(s) && id in s.callers && InBrowser(s.callers[id].pc)
    ensures Inv(At(MarkFailure(s, s.callers[id].domain), id, Leaving(SolveFailed)))
  {
    BrowserFacts(s, id);
    MarkedFailures(s, s.callers[id].domain);
    assert FailuresInv(At(MarkFailure(s, s.callers[id].domain), id, Leaving(SolveFailed)));
    hide Inv, FailuresInv, Usable, Rested;
    OutcomeKeeps(s, At(MarkFailure(s, s.callers[id].domain), id, Leaving(SolveFailed)), id);
  }

  lemma ClearMarkKeeps(s: State, id: nat, cookies: string)
    requires Inv(s) && id in s.callers && InBrowser(s.callers[id].pc)
    ensures Inv(At(s.(lastFail := s.lastFail - {s.callers[id].domain}), id, Building(cookies)))
  {
    BrowserFacts(s, id);
    hide Inv;
    OutcomeKeeps(s, At(s.(lastFail := s.lastFail - {s.callers[id].domain}), id, Building(cookies)), id);
  }

  lemma CacheKeeps(s: State, id: nat, session: Session)
    requires Inv(s) && id in s.callers && InBrowser(s.callers[id].pc)
    ensures Inv(At(s.(sessions := s.sessions[s.callers[id].domain := session]), id, Leaving(Solved(session))))
  {
    BrowserFacts(s, id);
    hide Inv;
    OutcomeKeeps(s, At(s.(sessions := s.sessions[s.callers[id].domain := session]), id, Leaving(Solved(session))), id);
  }

  lemma BuildingKeeps(s: State, id: nat)
    requires Inv(s) && id in s.callers && s.callers[id].pc.Building?
    ensures Inv(Next(s, id))
  {
    hide Inv;
    if s.callers[id].pc.cookies == "" {
      MarkKeeps(s, id);
    } else {
      CacheKeeps(s, id, Session(s.callers[id].pc.cookies, s.now));
    }
  }

  lemma AnsweredKeeps(s: State, id: nat, answer: Answer)
    requires Inv(s) && Enabled(s, Answered(id, answer))
    ensures Inv(Apply(s, Answered(id, answer)))
  {
    hide Inv;
    match answer
    case Refused => MarkKeeps(s, id);
    case Cookies(c) => ClearMarkKeeps(s, id, c);
  }

  /** What the checks, before the lock and under it, find out. */
  lemma CheckedPc(s: State, id: nat)
    requires id in s.callers && CallerInv(s, id, s.callers[id]) && FailuresInv(s)
    requires var pc := s.callers[id].pc; pc.Entered? || pc.Admitted? || pc.Locked? || pc.Missed? || pc.Cool?
    ensures CallerInv(s, id, s.callers[id].(pc := NextPc(s, id)))
  {
    var d := s.callers[id].domain;
    assert d in s.failures ==>
             s.failures[d] <= s.now
             && (Rested(s, d) || (d in s.lastFail && s.lastFail[d] == s.failures[d]));
    hide FailuresInv, Usable;
  }

  lemma CheckKeeps(s: State, id: nat)
    requires Inv(s) && id in s.callers
    requires var pc := s.callers[id].pc; pc.Entered? || pc.Admitted? || pc.Locked? || pc.Missed? || pc.Cool?
    ensures Inv(Next(s, id))
  {
    var pc := NextPc(s, id);
    InvMeans(s, id);
    assert id !in s.slots && s.(slots := s.slots) == s && Next(s, id) == At(s, id, pc);
    CheckedPc(s, id);
    SameFacts(s, At(s, id, pc));
    hide Inv, NextPc, Next, FailuresInv, Usable, Rested;
    PcKeeps(s, id, s.slots, pc);
  }

  lemma NextKeeps(s: State, id: nat)
    requires Inv(s) && id in s.callers && CanStep(s, id)
    ensures Inv(Next(s, id))
  {
    hide Inv, Next;
    match s.callers[id].pc
    case Waiting => AcquireKeeps(s, id);
    case Cleared => TakeSlotKeeps(s, id);
    case Leaving(_) => GiveSlotKeeps(s, id);
    case Unlocking(_) => UnlockKeeps(s, id);
    case Building(_) => BuildingKeeps(s, id);
    case _ => CheckKeeps(s, id);
  }

  /** The invariant survives every step of every caller, the passing of time, and a session being
      dropped. */
  lemma StepKeepsInv(s: State, e: Event)
    requires Inv(s) && Enabled(s, e)
    ensures Inv(Apply(s, e))
  {
    match e
    case Step(id) => NextKeeps(s, id);
    case Answered(id, answer) => AnsweredKeeps(s, id, answer);
    case _ =>
      var after := Apply(s, e);
      forall j | j in after.callers ensures CallerInv(after, j, after.callers[j]) {
        assert j in s.callers ==> CallerInv(s, j, s.callers[j]);
      }
  }

  /** The mark, the last failure and the session of a domain. */
  ghost predicate SameMarks(s: State, t: State, d: string) {
    && (d in t.lastFail <==> d in s.lastFail) && (d in s.lastFail ==> t.lastFail[d] == s.lastFail[d])
    && (d in t.failures <==> d in s.failures) && (d in s.failures ==> t.failures[d] == s.failures[d])
  }

  ghost predicate SameSession(s: State, t: State, d: string) {
    (d in t.sessions <==> d in s.sessions) && (d in s.sessions ==> t.sessions[d] == s.sessions[d])
  }

  /** The marks of a domain change only by a step of the caller that holds its lock; so does its session,
      which may also be dropped. */
  lemma OnlyHolderChanges(s: State, e: Event, d: string)
    requires Inv(s) && Enabled(s, e)
    ensures var t := Apply(s, e);
            var holders := (e.Step? || e.Answered?) && d in s.locks && s.locks[d] == e.id;
            && (!holders ==> SameMarks(s, t, d))
            && (!holders && e != Forget(d) ==> SameSession(s, t, d))
            && (e == Forget(d) ==> d !in t.sessions)
  {
    if e.Step? {
      InvMeans(s, e.id);
      hide *;
      EffectsOn(s, e.id, d);
    } else if e.Answered? {
      InvMeans(s, e.id);
      hide Inv, LocksInv, SlotsInv, FailuresInv, NextPc, Effects, Usable, Rested;
    } else {
      hide Inv, NextPc, Effects;
    }
  }

  lemma EffectsOn(s: State, id: nat, d: string)
    requires id in s.callers && CanStep(s, id) && CallerInv(s, id, s.callers[id])
    ensures Enabled(s, Step(id))
    ensures !(d in s.locks && s.locks[d] == id)
            ==> SameMarks(s, Apply(s, Step(id)), d) && SameSession(s, Apply(s, Step(id)), d)
  {
    var c := s.callers[id];
    if c.pc.Building? {
      hide NextPc, Usable, Rested, CanStep;
      assert d == c.domain ==> d in s.locks && s.locks[d] == id;
    } else {
      hide CallerInv, NextPc, Usable, Rested;
      OnlyBuildingMarks(s, id);
      hide Effects;
    }
  }

  lemma OnlyBuildingMarks(s: State, id: nat)
    requires id in s.callers && CanStep(s, id) && !s.callers[id].pc.Building?
    ensures var t := Effects(s, id); t.lastFail == s.lastFail && t.failures == s.failures && t.sessions == s.sessions
  {
  }

  ghost predicate Runnable(s: State, events: seq<Event>)
    decreases |events|
  {
    events != [] ==> Enabled(s, events[0]) && Runnable(Apply(s, events[0]), events[1..])
  }

  ghost function Run(s: State, events: seq<Event>): State
    requires Runnable(s, events)
    decreases |events|
  {
    if events == [] then s else Run(Apply(s, events[0]), events[1..])
  }

  lemma {:induction false} RunKeepsInv(s: State, events: seq<Event>)
    requires Inv(s) && Runnable(s, events)
    ensures Inv(Run(s, events))
    decreases |events|
  {
    if events != [] {
      StepKeepsInv(s, events[0]);
      RunKeepsInv(Apply(s, events[0]), events[1..]);
    }
  }

  // ---------------------------------------------------------------- the promises

  function InTheBrowser(s: State): set<nat> { set id | id in s.callers && InBrowser(s.callers[id].pc) }

  /** In every interleaving at most two callers are in the browser, and at most one for a domain. */
  lemma AtMostTwoNavigate(events: seq<Event>)
    requires Runnable(INITIAL, events)
    ensures var s := Run(INITIAL, events);
            |InTheBrowser(s)| <= 2
            && forall i, j ::
                 i in InTheBrowser(s) && j in InTheBrowser(s) && s.callers[i].domain == s.callers[j].domain ==> i == j
  {
    InitialInv();
    RunKeepsInv(INITIAL, events);
    var s := Run(INITIAL, events);
    assert forall i :: i in InTheBrowser(s) ==> CallerInv(s, i, s.callers[i]);
    assert InTheBrowser(s) <= s.slots;
    SubsetSize(InTheBrowser(s), s.slots);
    forall i, j | i in InTheBrowser(s) && j in InTheBrowser(s) && s.callers[i].domain == s.callers[j].domain
        ensures i == j {
      OneInside(s, i, j);
    }
  }

  lemma {:induction false} SubsetSize(a: set<nat>, b: set<nat>)
    requires a <= b
    ensures |a| <= |b|
  {
    assert b == a + (b - a);
  }

  /** No navigation starts within the cooldown of the last failed solve of its domain, and none by an
      unforced caller while a usable session is cached. */
  lemma NavigationsAreDue(events: seq<Event>, id: nat)
    requires Runnable(INITIAL, events)
    requires var s := Run(INITIAL, events); Enabled(s, Step(id)) && s.callers[id].pc.Cleared?
    ensures var s := Run(INITIAL, events); var d := s.callers[id].domain;
            Apply(s, Step(id)).callers[id].pc == Navigating
            && (d in s.failures ==> s.now - s.failures[d] >= 180)
            && (!s.callers[id].force ==> !Usable(s, d))
  {
    InitialInv();
    RunKeepsInv(INITIAL, events);
    assert CallerInv(Run(INITIAL, events), id, Run(INITIAL, events).callers[id]);
  }

  predicate Bound(pc: Pc, result: Result) { pc == Leaving(result) || pc == Unlocking(result) || pc == Returned(result) }

  lemma StepsFall(s: State, id: nat)
    requires id in s.callers && CanStep(s, id)
    ensures StepsLeft(NextPc(s, id)) < StepsLeft(s.callers[id].pc)
  {
    hide Blocked, Usable;
  }

  lemma NextBound(s: State, id: nat, result: Result)
    requires id in s.callers && CanStep(s, id) && Bound(s.callers[id].pc, result)
    ensures Bound(NextPc(s, id), result)
  {
    hide Blocked, Usable;
  }

  lemma BoundStep(s: State, e: Event, id: nat, result: Result)
    requires Enabled(s, e) && id in s.callers && Bound(s.callers[id].pc, result)
    ensures id in Apply(s, e).callers && Bound(Apply(s, e).callers[id].pc, result)
  {
    if e.Step? && e.id == id {
      NextBound(s, id, result);
    }
    hide NextPc, Effects, CanStep;
  }

  /** Once on its way out a caller returns what it set out to return. */
  lemma {:induction false} ResultStands(s: State, events: seq<Event>, id: nat, result: Result)
    requires Runnable(s, events) && id in s.callers && Bound(s.callers[id].pc, result)
    ensures id in Run(s, events).callers && Bound(Run(s, events).callers[id].pc, result)
    decreases |events|
  {
    hide Apply, Bound;
    if events != [] {
      BoundStep(s, events[0], id, result);
      ResultStands(Apply(s, events[0]), events[1..], id, result);
    }
  }

  // ---------------------------------------------------------------- the re-check decides

  lemma {:induction false} RunSplits(s: State, es: seq<Event>, fs: seq<Event>)
    ensures Runnable(s, es + fs) <==> Runnable(s, es) && Runnable(Run(s, es), fs)
    ensures Runnable(s, es + fs) ==> Run(s, es + fs) == Run(Run(s, es), fs)
    decreases |es|
  {
    hide Enabled, Apply;
    if es == [] {
      assert es + fs == fs;
    } else {
      assert (es + fs)[0] == es[0] && (es + fs)[1..] == es[1..] + fs;
      if Enabled(s, es[0]) {
        RunSplits(Apply(s, es[0]), es[1..], fs);
      }
    }
  }

  lemma RunTo(s: State, events: seq<Event>, k: nat)
    requires Runnable(s, events) && k <= |events|
    ensures Runnable(s, events[..k]) && Runnable(Run(s, events[..k]), events[k..])
    ensures Run(s, events) == Run(Run(s, events[..k]), events[k..])
  {
    assert events == events[..k] + events[k..];
    RunSplits(s, events[..k], events[k..]);
  }

  /** The k-th state of a run. */
  ghost function StateAt(events: seq<Event>, k: nat): State
    requires Runnable(INITIAL, events) && k <= |events|
  {
    RunTo(INITIAL, events, k);
    Run(INITIAL, events[..k])
  }

  lemma StateAfter(events: seq<Event>, k: nat)
    requires Runnable(INITIAL, events) && k < |events|
    ensures Enabled(StateAt(events, k), events[k]) && StateAt(events, k + 1) == Apply(StateAt(events, k), events[k])
  {
    hide Enabled, Apply;
    RunTo(INITIAL, events, k);
    RunTo(INITIAL, events, k + 1);
    assert events[..k + 1] == events[..k] + [events[k]];
    RunSplits(INITIAL, events[..k], [events[k]]);
    assert [events[k]][1..] == [];
  }

  /** The k-th step is the caller's first look under the lock. */
  ghost predicate RecheckAt(events: seq<Event>, k: nat, id: nat)
    requires Runnable(INITIAL, events) && k < |events|
  {
    events[k] == Step(id) && id in StateAt(events, k).callers && StateAt(events, k).callers[id].pc.Locked?
  }

  /** A caller is who it was, and has never more steps to go than before. */
  lemma {:induction false} CallerGoesOn(events: seq<Event>, i: nat, j: nat, id: nat)
    requires Runnable(INITIAL, events) && i <= j <= |events| && id in StateAt(events, i).callers
    ensures id in StateAt(events, j).callers
    ensures var c, d := StateAt(events, i).callers[id], StateAt(events, j).callers[id];
            d.domain == c.domain && d.force == c.force && StepsLeft(d.pc) <= StepsLeft(c.pc)
    decreases j - i
  {
    if i < j {
      hide StateAt, Runnable, Run, StepsLeft;
      CallerGoesOn(events, i, j - 1, id);
      StateAfter(events, j - 1);
      StepsAreBounded(StateAt(events, j - 1), events[j - 1], id);
      SameCaller(StateAt(events, j - 1), events[j - 1], id);
    }
  }

  lemma SameCaller(s: State, e: Event, id: nat)
    requires Enabled(s, e) && id in s.callers && id in Apply(s, e).callers
    ensures Apply(s, e).callers[id].domain == s.callers[id].domain
            && Apply(s, e).callers[id].force == s.callers[id].force
  {
    hide NextPc, CanStep;
  }

  /** In the browser in the j-th state. */
  ghost predicate BrowsesAt(events: seq<Event>, j: nat, id: nat)
    requires Runnable(INITIAL, events) && j <= |events|
  {
    id in StateAt(events, j).callers && InBrowser(StateAt(events, j).callers[id].pc)
  }

  lemma StepsOfBrowsing(pc: Pc)
    ensures InBrowser(pc) ==> StepsLeft(pc) < 5
    ensures pc.Locked? ==> StepsLeft(pc) == 8
  {
  }

  lemma NotBrowsing(pc: Pc, result: Result)
    requires Bound(pc, result)
    ensures !InBrowser(pc)
  {
  }

  /** In every run: an unforced caller whose re-check finds a usable session sets out to return that
      session from then on, and is in the browser at no time, before or after. */
  lemma RecheckReuses(events: seq<Event>, k: nat, id: nat)
    requires Runnable(INITIAL, events) && k < |events| && RecheckAt(events, k, id)
    requires var s := StateAt(events, k); !s.callers[id].force && Usable(s, s.callers[id].domain)
    ensures var s := StateAt(events, k);
            forall j :: k < j <= |events| ==>
              id in StateAt(events, j).callers && Bound(StateAt(events, j).callers[id].pc,
                  Reused(s.sessions[s.callers[id].domain]))
    ensures forall j :: 0 <= j <= |events| ==> !BrowsesAt(events, j, id)
  {
    var s := StateAt(events, k);
    var result := Reused(s.sessions[s.callers[id].domain]);
    StateAfter(events, k);
    FoundSession(s, id);
    hide StateAt, Runnable, Run, StepsLeft, Apply, Enabled, Usable, InBrowser, Bound;
    forall j | k < j <= |events|
      ensures id in StateAt(events, j).callers && Bound(StateAt(events, j).callers[id].pc, result)
              && !BrowsesAt(events, j, id)
    {
      BoundStands(events, k + 1, j, id, result);
      NotBrowsing(StateAt(events, j).callers[id].pc, result);
    }
    forall j | 0 <= j <= k ensures !BrowsesAt(events, j, id) {
      if BrowsesAt(events, j, id) {
        CallerGoesOn(events, j, k, id);
        StepsOfBrowsing(StateAt(events, j).callers[id].pc);
        StepsOfBrowsing(s.callers[id].pc);
      }
    }
  }

  lemma FoundSession(s: State, id: nat)
    requires id in s.callers && s.callers[id].pc.Locked? && !s.callers[id].force && Usable(s, s.callers[id].domain)
    ensures Enabled(s, Step(id)) && id in Apply(s, Step(id)).callers
    ensures Bound(Apply(s, Step(id)).callers[id].pc, Reused(s.sessions[s.callers[id].domain]))
  {
  }

  lemma {:induction false} BoundStands(events: seq<Event>, i: nat, j: nat, id: nat, result: Result)
    requires Runnable(INITIAL, events) && i <= j <= |events|
    requires id in StateAt(events, i).callers && Bound(StateAt(events, i).callers[id].pc, result)
    ensures id in StateAt(events, j).callers && Bound(StateAt(events, j).callers[id].pc, result)
    decreases j - i
  {
    if i < j {
      hide StateAt, Runnable, Run, Bound, Apply, Enabled;
      BoundStands(events, i, j - 1, id, result);
      StateAfter(events, j - 1);
      BoundStep(StateAt(events, j - 1), events[j - 1], id, result);
    }
  }

  /** A re-check of the caller before the j-th state found no usable session. */
  ghost predicate MissedBefore(events: seq<Event>, j: nat, id: nat)
    requires Runnable(INITIAL, events) && j <= |events|
  {
    exists k :: 0 <= k < j && RecheckAt(events, k, id)
        && !Usable(StateAt(events, k), StateAt(events, k).callers[id].domain)
  }

  /** In every run: an unforced caller that is in the browser, or past its re-check on the way there,
      found no usable session at its re-check. */
  lemma {:induction false} BrowsersMissed(events: seq<Event>, j: nat, id: nat)
    requires Runnable(INITIAL, events) && j <= |events| && id in StateAt(events, j).callers
    requires var c := StateAt(events, j).callers[id]; !c.force && (c.pc.Missed? || PastChecks(c.pc))
    ensures MissedBefore(events, j, id)
    decreases j
  {
    RunTo(INITIAL, events, 0);
    assert j > 0;
    var s, e := StateAt(events, j - 1), events[j - 1];
    StateAfter(events, j - 1);
    CameFrom(s, e, id);
    hide StateAt, Runnable, Run, Apply, Enabled, Usable, PastChecks;
    if s.callers[id].pc.Locked? {
      assert RecheckAt(events, j - 1, id);
    } else {
      BrowsersMissed(events, j - 1, id);
      var k :| 0 <= k < j - 1 && RecheckAt(events, k, id)
          && !Usable(StateAt(events, k), StateAt(events, k).callers[id].domain);
    }
  }

  lemma CameFrom(s: State, e: Event, id: nat)
    requires Enabled(s, e) && id in Apply(s, e).callers
    requires var c := Apply(s, e).callers[id]; !c.force && (c.pc.Missed? || PastChecks(c.pc))
    ensures id in s.callers && !s.callers[id].force
    ensures if s.callers[id].pc.Locked? then e == Step(id) && !Usable(s, s.callers[id].domain)
            else s.callers[id].pc.Missed? || PastChecks(s.callers[id].pc)
  {
    hide Usable, Blocked;
  }

  // ---------------------------------------------------------------- what a result means

  /** A caller that is in the browser with an answer has cleared the mark of its domain. */
  ghost predicate MarksCleared(s: State) {
    forall id :: id in s.callers && s.callers[id].pc.Building? ==> s.callers[id].domain !in s.lastFail
  }

  lemma MarksStayCleared(s: State, e: Event)
    requires Inv(s) && Enabled(s, e) && MarksCleared(s)
    ensures MarksCleared(Apply(s, e))
  {
    var t := Apply(s, e);
    forall id | id in t.callers && t.callers[id].pc.Building? ensures t.callers[id].domain !in t.lastFail {
      BuildingFrom(s, e, id);
      if e.Answered? && e.id == id {
      } else {
        OnlyHolderChanges(s, e, t.callers[id].domain);
      }
    }
  }

  lemma BuildingFrom(s: State, e: Event, id: nat)
    requires Inv(s) && Enabled(s, e) && id in Apply(s, e).callers && Apply(s, e).callers[id].pc.Building?
    ensures id in s.callers && Apply(s, e).callers[id].domain == s.callers[id].domain
    ensures if e.Answered? && e.id == id then e.answer.Cookies?
            else s.callers[id].pc.Building? && !(e.Step? && e.id == id)
                 && s.callers[id].domain in s.locks && s.locks[s.callers[id].domain] == id
                 && !(e.Answered? && e.id == id)
  {
    if id in s.callers {
      InvMeans(s, id);
      hide Inv, LocksInv, SlotsInv, FailuresInv, Usable, Blocked, Rested, Effects, NextPc;
      if e.Step? && e.id == id {
        NoStepBuilds(s, id);
      } else {
        hide CanStep;
      }
    }
  }

  lemma NoStepBuilds(s: State, id: nat)
    requires id in s.callers && CanStep(s, id)
    ensures !NextPc(s, id).Building?
  {
    hide Usable, Blocked;
  }

  lemma {:induction false} RunClears(s: State, events: seq<Event>)
    requires Inv(s) && MarksCleared(s) && Runnable(s, events)
    ensures MarksCleared(Run(s, events))
    decreases |events|
  {
    hide Inv, MarksCleared, Enabled, Apply;
    if events != [] {
      StepKeepsInv(s, events[0]);
      MarksStayCleared(s, events[0]);
      RunClears(Apply(s, events[0]), events[1..]);
    }
  }

  ghost predicate Decided(pc: Pc) { pc.Leaving? || pc.Unlocking? || pc.Returned? }

  /** What a result says when it is decided by the step from s to t. */
  ghost predicate Stands(s: State, t: State, c: Caller, result: Result) {
    match result
    case ShuttingDown => s.shutdown
    case InCooldown => c.domain in s.lastFail && s.now - s.lastFail[c.domain] < 180
    case Reused(session) => !c.force && c.domain in s.sessions && s.sessions[c.domain] == session
                            && s.now - session.obtained <= 3600 && TrimSpace(session.cookies) != ""
    case Solved(session) => c.domain in t.sessions && t.sessions[c.domain] == session && session.obtained == s.now
                            && session.cookies != "" && c.domain !in t.lastFail
    case SolveFailed => c.domain in t.lastFail && t.lastFail[c.domain] == s.now
  }

  /** In every run, when a call's result is decided: a refusal has its reason, a session that is reused
      is the cached one, a solved one is cached with no mark left, and a failed solve is marked. */
  lemma DecidedFor(events: seq<Event>, k: nat, id: nat)
    requires Runnable(INITIAL, events) && k < |events|
    requires id in StateAt(events, k).callers && id in StateAt(events, k + 1).callers
    requires !Decided(StateAt(events, k).callers[id].pc) && Decided(StateAt(events, k + 1).callers[id].pc)
    ensures Stands(StateAt(events, k), StateAt(events, k + 1), StateAt(events, k).callers[id],
                   StateAt(events, k + 1).callers[id].pc.result)
  {
    StateAfter(events, k);
    RunTo(INITIAL, events, k);
    InitialInv();
    RunKeepsInv(INITIAL, events[..k]);
    RunClears(INITIAL, events[..k]);
    hide *;
    DecidedStep(StateAt(events, k), events[k], id);
  }

  lemma DecidedStep(s: State, e: Event, id: nat)
    requires Enabled(s, e) && MarksCleared(s) && id in s.callers && id in Apply(s, e).callers
    requires !Decided(s.callers[id].pc) && Decided(Apply(s, e).callers[id].pc)
    ensures Stands(s, Apply(s, e), s.callers[id], Apply(s, e).callers[id].pc.result)
  {
    if e.Step? && e.id == id {
      StepDecides(s, id);
    } else {
      hide NextPc, Effects, CanStep, TrimSpace;
    }
  }

  lemma StepDecides(s: State, id: nat)
    requires id in s.callers && CanStep(s, id) && MarksCleared(s)
    requires !Decided(s.callers[id].pc) && Decided(NextPc(s, id))
    ensures Stands(s, Next(s, id), s.callers[id], NextPc(s, id).result)
  {
    hide TrimSpace;
  }

  /** Whether a caller is not yet through its checks, or decided. */
  predicate ShortOfBrowser(pc: Pc) { !(pc.Cleared? || InBrowser(pc)) }

  /** Once a shutdown has begun no caller short of the browser slots ever reaches the browser. */
  lemma {:induction false} ShutdownStopsNavigation(s: State, events: seq<Event>, id: nat)
    requires s.shutdown && Runnable(s, events)
    requires id in s.callers ==> ShortOfBrowser(s.callers[id].pc)
    ensures Run(s, events).shutdown
    ensures id in Run(s, events).callers ==> ShortOfBrowser(Run(s, events).callers[id].pc)
    decreases |events|
  {
    if events != [] {
      ShortStep(s, events[0], id);
      hide Apply, Enabled, ShortOfBrowser;
      ShutdownStopsNavigation(Apply(s, events[0]), events[1..], id);
    }
  }

  lemma ShortStep(s: State, e: Event, id: nat)
    requires s.shutdown && Enabled(s, e) && (id in s.callers ==> ShortOfBrowser(s.callers[id].pc))
    ensures Apply(s, e).shutdown
    ensures id in Apply(s, e).callers ==> ShortOfBrowser(Apply(s, e).callers[id].pc)
  {
    hide Usable, Blocked;
  }

  /** A call that finds a shutdown or a cooldown before the lock is answered without waiting for anyone,
      whatever the locks and the slots. */
  lemma RefusedAtOnce(s: State, id: nat)
    requires id in s.callers && s.callers[id].pc.Entered? && Enabled(s, Step(id))
    ensures var t, d := Apply(s, Step(id)), s.callers[id].domain;
            if s.shutdown then t == At(s, id, Returned(ShuttingDown))
            else Enabled(t, Step(id))
                 && (d in s.lastFail && s.now - s.lastFail[d] < 180 ==>
                      Apply(t, Step(id)).callers[id].pc == Returned(InCooldown)
                      && Apply(t, Step(id)).locks == s.locks && Apply(t, Step(id)).slots == s.slots)
  {
    hide Usable;
  }

  // ---------------------------------------------------------------- no deadlock, and an end

  predicate Finished(pc: Pc) { pc.Returned? }

  ghost predicate SomeoneCanGo(s: State) {
    exists id :: id in s.callers && (CanStep(s, id) || s.callers[id].pc == Navigating)
  }

  lemma Moves(s: State, id: nat)
    requires id in s.callers
    ensures var pc := s.callers[id].pc; !(pc.Waiting? || pc.Cleared? || pc.Returned?) ==> SomeoneCanGo(s)
  {
    assert !(s.callers[id].pc.Waiting? || s.callers[id].pc.Cleared? || s.callers[id].pc.Returned?)
           ==> CanStep(s, id) || s.callers[id].pc == Navigating;
  }

  lemma TakesLock(s: State, id: nat)
    requires id in s.callers && s.callers[id].pc.Waiting? && s.callers[id].domain !in s.locks
    ensures SomeoneCanGo(s)
  {
    assert CanStep(s, id);
  }

  /** While a call has not returned, some caller can step, or is in the browser and will be answered. */
  lemma NoDeadlock(s: State, id: nat)
    requires Inv(s) && id in s.callers && !Finished(s.callers[id].pc)
    ensures SomeoneCanGo(s)
  {
    hide CanStep, SomeoneCanGo;
    match s.callers[id].pc
    case Waiting =>
      if s.callers[id].domain in s.locks {
        var holder := s.locks[s.callers[id].domain];
        assert CallerInv(s, holder, s.callers[holder]);
        if s.callers[holder].pc.Cleared? {
          SlotMoves(s, holder);
        } else {
          Moves(s, holder);
        }
      } else {
        TakesLock(s, id);
      }
    case Cleared => SlotMoves(s, id);
    case _ => Moves(s, id);
  }

  /** A caller at the browser slots can take one, or someone who has one can go on. */
  lemma SlotMoves(s: State, id: nat)
    requires Inv(s) && id in s.callers && s.callers[id].pc.Cleared?
    ensures SomeoneCanGo(s)
  {
    if |s.slots| < SLOTS {
      assert CanStep(s, id);
    } else {
      var j := Member(s.slots);
      assert CanStep(s, j) || s.callers[j].pc == Navigating;
    }
  }

  lemma Member(a: set<nat>) returns (i: nat)
    requires |a| > 0
    ensures i in a
  {
    i :| i in a;
  }

  /** The steps a caller has left at most. */
  function StepsLeft(pc: Pc): nat {
    match pc
    case Entered => 11
    case Admitted => 10
    case Waiting => 9
    case Locked => 8
    case Missed => 7
    case Cool => 6
    case Cleared => 5
    case Navigating => 4
    case Building(_) => 3
    case Leaving(_) => 2
    case Unlocking(_) => 1
    case Returned(_) => 0
  }

  lemma StepsAreBounded(s: State, e: Event, id: nat)
    requires Enabled(s, e) && id in s.callers
    ensures var after := Apply(s, e);
            id in after.callers
            && (if (e.Step? || e.Answered?) && e.id == id
               then StepsLeft(after.callers[id].pc) < StepsLeft(s.callers[id].pc)
                else after.callers[id] == s.callers[id])
  {
    if e.Step? && e.id == id {
      StepsFall(s, id);
      hide NextPc, Effects, CanStep, StepsLeft;
    } else {
      hide NextPc, Effects, CanStep;
    }
  }

  function StepsOf(events: seq<Event>, id: nat): nat {
    if events == [] then 0
    else (if (events[0].Step? || events[0].Answered?) && events[0].id == id then 1 else 0) + StepsOf(events[1..], id)
  }

  /** In any run a caller makes at most eleven steps; once they are used up its call has returned. */
  lemma {:induction false} EveryCallEnds(s: State, events: seq<Event>, id: nat)
    requires Runnable(s, events) && id in s.callers
    ensures id in Run(s, events).callers
            && StepsOf(events, id) + StepsLeft(Run(s, events).callers[id].pc) <= StepsLeft(s.callers[id].pc) <= 11
    decreases |events|
  {
    hide Apply, StepsLeft;
    if events != [] {
      StepsAreBounded(s, events[0], id);
      StepsLeftBound(s.callers[id].pc);
      EveryCallEnds(Apply(s, events[0]), events[1..], id);
    } else {
      StepsLeftBound(s.callers[id].pc);
    }
  }

  lemma StepsLeftBound(pc: Pc)
    ensures StepsLeft(pc) <= 11 && (StepsLeft(pc) == 0 <==> Finished(pc))
  {
  }
}
