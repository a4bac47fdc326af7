/** The limiters as the objects the server shares between requests, composed as the `/mcp` route. */
module Route {
  import opened Wrappers
  import opened RateLimit
  import opened RateRuns
  import opened Admission

  class Semaphore {
    const limit: int
    var held: int

    constructor (limit: int)
      ensures this.limit == limit && held == 0
    {
      this.limit := limit;
      held := 0;
    }

    method TryAcquire() returns (ok: bool)
      modifies this`held
      ensures ok <==> old(held) < limit
      ensures held == if ok then old(held) + 1 else old(held)
    {
      ok := held < limit;
      if ok {
        held := held + 1;
      }
    }

    method Release()
      requires held > 0
      modifies this`held
      ensures held == old(held) - 1
    {
      held := held - 1;
    }
  }

  class InflightTable {
    const limit: int
    var inflight: map<Principal, int>

    constructor (limit: int)
      ensures this.limit == limit && inflight == map[]
    {
      this.limit := limit;
      inflight := map[];
    }

    method TryAcquire(p: Principal) returns (ok: bool)
      modifies this`inflight
      ensures ok <==> InflightOf(old(inflight), p) < limit
      ensures inflight == if ok then Acquired(old(inflight), p) else old(inflight)
    {
      var count := if p in inflight then inflight[p] else 0;
      if count >= limit {
        return false;
      }
      inflight := inflight[p := count + 1];
      return true;
    }

    method Release(p: Principal)
      modifies this`inflight
      ensures inflight == Released(old(inflight), p)
    {
      inflight := inflight[p := (if p in inflight then inflight[p] else 0) - 1];
      if inflight[p] == 0 {
        inflight := inflight - {p};
      }
    }
  }

  class McpRoute {
    const perMinute: int
    const semaphore: Semaphore
    const limiter: PrincipalRateLimiter
    const slots: InflightTable
    var stats: Stats
    // Where each request stands, in order of arrival.
    var requests: seq<Phase>
    ghost var log: seq<Arrival>

    ghost function Settings(): Config {
      Config(semaphore.limit, slots.limit, perMinute)
    }

    ghost function Current(): State
      reads this, semaphore, limiter, slots
    {
      State(requests, semaphore.held, limiter.windows, slots.inflight, stats, log)
    }

    // `settings` as loaded; unset values fall back here.
    constructor (settings: Config)
      ensures fresh(semaphore) && fresh(limiter) && fresh(slots)
      ensures Settings() == Effective(settings) && limiter.limit == perMinute
      ensures Current() == START
    {
      perMinute := settings.perMinute;
      semaphore := new Semaphore(if settings.maxConcurrent <= 0 then 8 else settings.maxConcurrent);
      slots := new InflightTable(if settings.perPrincipal <= 0 then 2 else settings.perPrincipal);
      limiter := new PrincipalRateLimiter(settings.perMinute);
      stats := Stats(0, 0, 0, 0, 0);
      requests := [];
      log := [];
    }

    method Enter() returns (id: nat)
      modifies this`stats, this`requests
      ensures Some(Current()) == Next(Settings(), old(Current()), Arrive)
      ensures id == old(|requests|) && |requests| == id + 1
    {
      id := |requests|;
      requests := requests + [Entered];
      stats := stats.(requests := stats.requests + 1);
    }

    // Runs the next atomic step of one request.
    method Step(id: nat, env: Env)
      requires id < |requests| && limiter.limit == perMinute
      requires Next(Settings(), Current(), Move(id, env)).Some?
      modifies this`stats, this`requests, this`log, semaphore`held, limiter`windows, slots`inflight
      ensures Some(Current()) == Next(Settings(), old(Current()), Move(id, env))
    {
      match requests[id] {
        case Entered =>
          stats := stats.(inflight := stats.inflight + 1);
          requests := requests[id := Observed];
        case Observed =>
          if !env.pass {
            requests := requests[id := Closing(TurnedAway, None)];
          } else {
            var ok := semaphore.TryAcquire();
            requests := requests[id := if ok then Guarding else SemaphoreFull];
          }
        case SemaphoreFull =>
          stats := stats.(rejected := stats.rejected + 1);
          requests := requests[id := Closing(SemaphoreRefused, None)];
        case Guarding =>
          requests := requests[id := if env.pass then Identified(env.who) else Leaving(GuardRefused, None)];
        case Identified(p) =>
          requests := requests[id := if perMinute <= 0 then RatePassed(p, None)
                                     else if p == "" then Leaving(GuardRefused, None) else Clocked(p, env.now)];
        case Clocked(p, now) =>
          var d := limiter.Admit(p, now);
          var seen := Some(Arrival(p, now));
          log := log + [Arrival(p, now)];
          requests := requests[id := if d.Admitted? then RatePassed(p, seen) else RateFull(seen)];
        case RateFull(seen) =>
          stats := stats.(rateRejected := stats.rateRejected + 1);
          requests := requests[id := Leaving(RateRefused, seen)];
        case RatePassed(p, seen) =>
          if p == "" {
            requests := requests[id := Leaving(GuardRefused, seen)];
          } else {
            var ok := slots.TryAcquire(p);
            requests := requests[id := if ok then Running(p, seen) else PrincipalFull(seen)];
          }
        case PrincipalFull(seen) =>
          stats := stats.(principalRejected := stats.principalRejected + 1);
          requests := requests[id := Leaving(PrincipalRefused, seen)];
        case Running(p, seen) =>
          requests := requests[id := Unwinding(p, seen)];
        case Unwinding(p, seen) =>
          slots.Release(p);
          requests := requests[id := Leaving(HandlerRan, seen)];
        case Leaving(o, seen) =>
          semaphore.Release();
          requests := requests[id := Closing(o, seen)];
        case Closing(o, seen) =>
          stats := stats.(inflight := stats.inflight - 1);
          requests := requests[id := Done(o, seen)];
        case Done(_, _) =>
          assert false;
      }
    }
  }
}
