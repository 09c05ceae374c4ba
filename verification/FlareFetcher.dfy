/** The maps solveFlare works on and one call of it from beginning to end (core/fetcher.go), with no
    other caller in between. */
module FlareFetcher {
  import opened Blanks
  import opened Options
  import opened SolverProtocol

  /** What a call comes back with, by what it finds and what the browser answers. */
  function Expected(s: State, domain: string, force: bool, answer: Answer): Result {
    if s.shutdown then ShuttingDown
    else if Blocked(s, domain) then InCooldown
    else if !force && Usable(s, domain) then Reused(s.sessions[domain])
    else match answer
      case Refused => SolveFailed
      case Cookies(cookies) => if cookies == "" then SolveFailed else Solved(Session(cookies, s.now))
  }

  class Fetcher {
    var lastFail: map<string, int>
    var sessions: map<string, Session>
    var held: set<string>
    var inBrowser: nat
    var now: int
    var shutdown: bool

    constructor (now: int)
      ensures lastFail == map[] && sessions == map[] && held == {} && inBrowser == 0 && !shutdown && this.now == now
    {
      lastFail, sessions, held, inBrowser, shutdown := map[], map[], {}, 0, false;
      this.now := now;
    }

    /** The shared state, without the callers. */
    function View(): State
      reads this
    {
      State(map[], map[], {}, lastFail, sessions, now, shutdown, map[])
    }

    method FlareCooldownRemaining(domain: string) returns (remaining: int, blocked: bool)
      ensures blocked <==> Blocked(View(), domain)
      ensures blocked <==> domain in lastFail && now - lastFail[domain] < 180
      ensures blocked ==> remaining == lastFail[domain] + COOLDOWN - now && remaining > 0
      ensures !blocked ==> remaining == 0
    {
      if domain !in lastFail {
        return 0, false;
      }
      var elapsed := now - lastFail[domain];
      if elapsed >= COOLDOWN {
        return 0, false;
      }
      return COOLDOWN - elapsed, true;
    }

    method GetFlareSession(domain: string) returns (session: Option<Session>)
      ensures session.Some? <==> Usable(View(), domain)
      ensures session.Some? <==> domain in sessions && now - sessions[domain].obtained <= 3600
                                 && TrimSpace(sessions[domain].cookies) != ""
      ensures session.Some? ==> session.value == sessions[domain]
    {
      if domain !in sessions || now - sessions[domain].obtained > SESSION_TTL {
        return None;
      }
      if TrimSpace(sessions[domain].cookies) == "" {
        return None;
      }
      session := Some(sessions[domain]);
    }

    method MarkFlareFailure(domain: string)
      modifies `lastFail
      ensures lastFail == old(lastFail)[domain := now]
    {
      lastFail := lastFail[domain := now];
    }

    method ClearFlareFailure(domain: string)
      modifies `lastFail
      ensures lastFail == old(lastFail) - {domain}
    {
      lastFail := lastFail - {domain};
    }

    /** A failed solve is marked, a solved one clears the mark and is cached; the lock and the slot are
        given back on every way out. */
    method SolveFlare(domain: string, force: bool, answer: Answer) returns (r: Result)
      requires domain !in held && inBrowser < SLOTS
      modifies this
      ensures r == Expected(old(View()), domain, force, answer)
      ensures r == ShuttingDown <==> old(shutdown)
      ensures r == InCooldown <==> !old(shutdown) && domain in old(lastFail) && now - old(lastFail)[domain] < 180
      ensures r.Reused? <==> && !old(shutdown) && !(domain in old(lastFail) && now - old(lastFail)[domain] < 180)
                             && !force && domain in old(sessions) && now - old(sessions)[domain].obtained <= 3600
                             && TrimSpace(old(sessions)[domain].cookies) != ""
      ensures r.Reused? ==> r.session == old(sessions)[domain]
      ensures r.Solved? ==> answer == Cookies(r.session.cookies) && r.session.cookies != "" && r.session.obtained == now
      ensures r == SolveFailed ==> answer == Refused || answer == Cookies("")
      ensures held == old(held) && inBrowser == old(inBrowser) && now == old(now) && shutdown == old(shutdown)
      ensures lastFail == match r
                          case SolveFailed => old(lastFail)[domain := now]
                          case Solved(_) => old(lastFail) - {domain}
                          case _ => old(lastFail)
      ensures sessions == if r.Solved? then old(sessions)[domain := r.session] else old(sessions)
    {
      hide TrimSpace;
      if shutdown {
        return ShuttingDown;
      }
      var remaining, blocked := FlareCooldownRemaining(domain);
      if blocked {
        return InCooldown;
      }
      held := held + {domain};
      r := SolveLocked(domain, force, answer);
      held := held - {domain};
    }

    method SolveLocked(domain: string, force: bool, answer: Answer) returns (r: Result)
      requires domain in held && inBrowser < SLOTS && !shutdown && !Blocked(View(), domain)
      modifies this
      ensures r == Expected(old(View()), domain, force, answer)
      ensures held == old(held) && inBrowser == old(inBrowser) && now == old(now) && shutdown == old(shutdown)
      ensures lastFail == match r
                          case SolveFailed => old(lastFail)[domain := now]
                          case Solved(_) => old(lastFail) - {domain}
                          case _ => old(lastFail)
      ensures sessions == if r.Solved? then old(sessions)[domain := r.session] else old(sessions)
    {
      hide TrimSpace;
      if !force {
        var session := GetFlareSession(domain);
        if session.Some? {
          return Reused(session.value);
        }
      }
      var remaining, blocked := FlareCooldownRemaining(domain);
      if blocked {
        return InCooldown;
      }
      if shutdown {
        return ShuttingDown;
      }
      inBrowser := inBrowser + 1;
      if answer.Refused? {
        MarkFlareFailure(domain);
        r := SolveFailed;
      } else {
        ClearFlareFailure(domain);
        if answer.cookies == "" {
          MarkFlareFailure(domain);
          assert lastFail == old(lastFail)[domain := now];
          r := SolveFailed;
        } else {
          var session := Session(answer.cookies, now);
          sessions := sessions[domain := session];
          r := Solved(session);
        }
      }
      inBrowser := inBrowser - 1;
    }
  }
}
