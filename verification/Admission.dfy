/** The three nested limiters in front of `/mcp` as a protocol of atomic steps of many requests. */
module Admission {
  import opened Wrappers
  import opened RateLimit
  import opened RateRuns

  datatype Config = Config(maxConcurrent: int, perPrincipal: int, perMinute: int)

  // Unset or non-positive settings fall back, except that the rate stage is simply not installed.
  function Effective(settings: Config): (c: Config)
    ensures c.maxConcurrent >= 1 && c.perPrincipal >= 1
    ensures settings.maxConcurrent >= 1 ==> c.maxConcurrent == settings.maxConcurrent
    ensures settings.perPrincipal >= 1 ==> c.perPrincipal == settings.perPrincipal
    ensures settings.maxConcurrent < 1 ==> c.maxConcurrent == 8
    ensures settings.perPrincipal < 1 ==> c.perPrincipal == 2
    ensures c.perMinute == settings.perMinute
  {
    Config(
      if settings.maxConcurrent <= 0 then 8 else settings.maxConcurrent,
      if settings.perPrincipal <= 0 then 2 else settings.perPrincipal,
      settings.perMinute)
  }

  datatype Outcome =
    | TurnedAway          // refused before the semaphore: origin checks and other routes
    | SemaphoreRefused
    | GuardRefused        // authentication, host, key or client-address refusal, or no principal
    | RateRefused
    | PrincipalRefused
    | HandlerRan

  // Where one request stands between two of its atomic steps. From the rate stage on it remembers
  // what it brought there: its principal and its clock reading, or nothing if there is no such stage.
  datatype Phase =
    | Entered                                // request counted, gauge not yet raised
    | Observed                               // gauge raised, no permit
    | SemaphoreFull                          // refused by the semaphore, refusal not yet counted
    | Guarding                               // permit held, guards running
    | Identified(who: Principal)             // guards passed
    | Clocked(who: Principal, reading: int)  // clock read, mutex of the rate limiter not yet taken
    | RateFull(seen: Option<Arrival>)        // refused by the rate limiter, refusal not yet counted
    | RatePassed(who: Principal, seen: Option<Arrival>)
    | PrincipalFull(seen: Option<Arrival>)   // refused by the in-flight map, refusal not yet counted
    | Running(who: Principal, seen: Option<Arrival>)          // inside the handler
    | Unwinding(who: Principal, seen: Option<Arrival>)        // handler over, deferred slot release pending
    | Leaving(outcome: Outcome, seen: Option<Arrival>)        // deferred permit release pending
    | Closing(outcome: Outcome, seen: Option<Arrival>)        // deferred gauge decrement pending
    | Done(outcome: Outcome, seen: Option<Arrival>)

  datatype Stats = Stats(requests: int, inflight: int, rejected: int, principalRejected: int, rateRejected: int)

  // `log` remembers the arrivals at the rate limiter in the order in which they took its mutex.
  datatype State = State(requests: seq<Phase>, permits: int, table: Table, inflight: map<Principal, int>, stats: Stats, log: seq<Arrival>)

  const START := State([], 0, map[], map[], Stats(0, 0, 0, 0, 0), [])

  // What the outside decides in a step: guards, principal, clock reading. A handler that returns and
  // one that panics take the same step, because either way the deferred calls run next.
  datatype Env = Env(pass: bool, who: Principal, now: int)

  datatype Action = Arrive | Move(id: nat, env: Env)

  function InflightOf(m: map<Principal, int>, p: Principal): int {
    if p in m then m[p] else 0
  }

  function Acquired(m: map<Principal, int>, p: Principal): map<Principal, int> {
    m[p := InflightOf(m, p) + 1]
  }

  function Released(m: map<Principal, int>, p: Principal): map<Principal, int> {
    var left := InflightOf(m, p) - 1;
    if left == 0 then m - {p} else m[p := left]
  }

  // Where the next atomic step takes a request that stands at `ph`.
  function Target(cfg: Config, s: State, ph: Phase, env: Env): Phase {
    match ph
    case Entered => Observed
    case Observed =>
      if !env.pass then Closing(TurnedAway, None) else if s.permits < cfg.maxConcurrent then Guarding else SemaphoreFull
    case SemaphoreFull => Closing(SemaphoreRefused, None)
    case Guarding => if env.pass then Identified(env.who) else Leaving(GuardRefused, None)
    case Identified(p) =>
      if cfg.perMinute <= 0 then RatePassed(p, None) else if p == "" then Leaving(GuardRefused, None) else Clocked(p, env.now)
    case Clocked(p, now) =>
      var seen := Some(Arrival(p, now));
      if Attempt(cfg.perMinute, s.table, p, now).decision == Admitted then RatePassed(p, seen) else RateFull(seen)
    case RateFull(seen) => Leaving(RateRefused, seen)
    case RatePassed(p, seen) =>
      if p == "" then Leaving(GuardRefused, seen)
      else if InflightOf(s.inflight, p) >= cfg.perPrincipal then PrincipalFull(seen) else Running(p, seen)
    case PrincipalFull(seen) => Leaving(PrincipalRefused, seen)
    case Running(p, seen) => Unwinding(p, seen)
    case Unwinding(_, seen) => Leaving(HandlerRan, seen)
    case Leaving(o, seen) => Closing(o, seen)
    case Closing(o, seen) => Done(o, seen)
    case Done(_, _) => ph
  }

  // What that step does to each shared object.
  function PermitsAfter(permits: int, from: Phase, to: Phase): int {
    if from.Observed? && to.Guarding? then permits + 1 else if from.Leaving? then permits - 1 else permits
  }

  function TableAfterStep(cfg: Config, t: Table, from: Phase): Table {
    if from.Clocked? then Attempt(cfg.perMinute, t, from.who, from.reading).table else t
  }

  function SlotsAfter(m: map<Principal, int>, from: Phase, to: Phase): map<Principal, int> {
    if from.RatePassed? && to.Running? then Acquired(m, from.who) else if from.Unwinding? then Released(m, from.who) else m
  }

  function StatsAfter(st: Stats, from: Phase): Stats {
    match from
    case Entered => st.(inflight := st.inflight + 1)
    case SemaphoreFull => st.(rejected := st.rejected + 1)
    case RateFull(_) => st.(rateRejected := st.rateRejected + 1)
    case PrincipalFull(_) => st.(principalRejected := st.principalRejected + 1)
    case Closing(_, _) => st.(inflight := st.inflight - 1)
    case _ => st
  }

  function LogAfter(log: seq<Arrival>, from: Phase): seq<Arrival> {
    if from.Clocked? then log + [Arrival(from.who, from.reading)] else log
  }

  // One atomic step of request `id`; None where the step would block or the request is finished.
  function Advance(cfg: Config, s: State, id: nat, env: Env): Option<State>
    requires id < |s.requests|
  {
    var from := s.requests[id];
    if from.Done? || (from.Leaving? && s.permits <= 0) then None
    else
      var to := Target(cfg, s, from, env);
      Some(State(s.requests[id := to], PermitsAfter(s.permits, from, to), TableAfterStep(cfg, s.table, from),
                 SlotsAfter(s.inflight, from, to), StatsAfter(s.stats, from), LogAfter(s.log, from)))
  }

  function Next(cfg: Config, s: State, a: Action): Option<State> {
    match a
    case Arrive => Some(s.(requests := s.requests + [Entered], stats := s.stats.(requests := s.stats.requests + 1)))
    case Move(id, env) => if id < |s.requests| then Advance(cfg, s, id, env) else None
  }

  // The state after a run of steps from the empty server; None if some step was not enabled.
  function After(cfg: Config, actions: seq<Action>): Option<State> {
    if actions == [] then Some(START)
    else
      match After(cfg, actions[..|actions| - 1])
      case None => None
      case Some(s) => Next(cfg, s, actions[|actions| - 1])
  }
}
