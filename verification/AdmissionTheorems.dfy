/** The guarantees of the admission protocol, for every run of every interleaving. */
module AdmissionTheorems {
  import opened Wrappers
  import opened RateLimit
  import opened RateRuns
  import opened RateBounds
  import opened Admission
  import opened AdmissionProofs
  import opened Counting

  ghost predicate Installed(cfg: Config) {
    cfg.maxConcurrent >= 1 && cfg.perPrincipal >= 1
  }

  // --------------------------------------------------------------------- nested counters

  lemma {:induction false} TotalIsActiveAmong(requests: seq<Phase>, m: map<Principal, int>)
    requires forall p :: p in m ==> m[p] == HowMany(requests, ActiveAs(p))
    ensures Total(m) == HowMany(requests, ActiveAmong(m.Keys))
    decreases |m|
  {
    if m == map[] {
      NoneLeft(requests, ActiveAmong(m.Keys));
    } else {
      var p :| p in m;
      var rest := m - {p};
      TotalWithout(m, p);
      Smaller(m, p);
      TotalIsActiveAmong(requests, rest);
      assert rest.Keys == m.Keys - {p};
      Split(requests, ActiveAmong(m.Keys), ActiveAs(p), ActiveAmong(rest.Keys));
    }
  }

  lemma SlotsOfThePresent(cfg: Config, s: State)
    requires SlotsAgree(cfg, s)
    ensures forall p :: p in s.inflight ==> s.inflight[p] == HowMany(s.requests, ActiveAs(p))
    ensures forall p :: p in s.inflight <==> exists i :: 0 <= i < |s.requests| && ActiveAs(p)(s.requests[i])
  {
    hide HowMany;
    forall p
      ensures p in s.inflight ==> s.inflight[p] == HowMany(s.requests, ActiveAs(p))
      ensures p in s.inflight <==> exists i :: 0 <= i < |s.requests| && ActiveAs(p)(s.requests[i])
    {
      assert InflightOf(s.inflight, p) == HowMany(s.requests, ActiveAs(p));
      NoneLeft(s.requests, ActiveAs(p));
    }
  }

  lemma TotalIsActive(cfg: Config, s: State)
    requires SlotsAgree(cfg, s)
    ensures Total(s.inflight) == HowMany(s.requests, Active) <= HowMany(s.requests, HoldsPermit)
  {
    SlotsOfThePresent(cfg, s);
    hide HowMany, SlotsAgree;
    TotalIsActiveAmong(s.requests, s.inflight);
    forall i | 0 <= i < |s.requests| && Active(s.requests[i]) ensures s.requests[i].who in s.inflight {
      assert ActiveAs(s.requests[i].who)(s.requests[i]);
    }
    Included(s.requests, Active, ActiveAmong(s.inflight.Keys));
    Included(s.requests, ActiveAmong(s.inflight.Keys), Active);
    Included(s.requests, Active, HoldsPermit);
  }

  /** The in-flight map has exactly the principals with a request in the handler, each with its exact
      number of requests, between 1 and its limit. */
  lemma SlotsAreExact(cfg: Config, actions: seq<Action>)
    requires Installed(cfg) && After(cfg, actions).Some?
    ensures var s := After(cfg, actions).value;
            && (forall p :: p in s.inflight <==> exists i :: 0 <= i < |s.requests| && ActiveAs(p)(s.requests[i]))
            && (forall p :: p in s.inflight ==> s.inflight[p] == HowMany(s.requests, ActiveAs(p)) && 1 <= s.inflight[p] <= cfg.perPrincipal)
  {
    hide After, StatsAgree, RateAgrees, HowMany;
    Reachable(cfg, actions);
    SlotsOfThePresent(cfg, After(cfg, actions).value);
  }

  /** The three counts nest: requests in the handler, summed over all principals, hold permits, and
      permits stay under the global limit. */
  lemma LimitsNest(cfg: Config, actions: seq<Action>)
    requires Installed(cfg) && After(cfg, actions).Some?
    ensures var s := After(cfg, actions).value;
            && Total(s.inflight) == HowMany(s.requests, Active)
            && Total(s.inflight) <= s.permits <= cfg.maxConcurrent
            && s.permits == HowMany(s.requests, HoldsPermit)
  {
    hide After, StatsAgree, RateAgrees, HowMany;
    Reachable(cfg, actions);
    TotalIsActive(cfg, After(cfg, actions).value);
  }

  // Nobody is refused early: a refusal happens exactly when the limit is used up by others.
  lemma SemaphoreRefusesOnlyWhenFull(cfg: Config, actions: seq<Action>, id: nat, env: Env)
    requires Installed(cfg) && After(cfg, actions).Some? && env.pass
    requires id < |After(cfg, actions).value.requests| && After(cfg, actions).value.requests[id].Observed?
    ensures var s := After(cfg, actions).value;
            Advance(cfg, s, id, env).value.requests[id].SemaphoreFull? <==> HowMany(s.requests, HoldsPermit) == cfg.maxConcurrent
  {
    Reachable(cfg, actions);
  }

  lemma PrincipalRefusedOnlyWhenFull(cfg: Config, actions: seq<Action>, id: nat, env: Env)
    requires Installed(cfg) && After(cfg, actions).Some?
    requires id < |After(cfg, actions).value.requests| && After(cfg, actions).value.requests[id].RatePassed?
    requires After(cfg, actions).value.requests[id].who != ""
    ensures var s := After(cfg, actions).value;
            var p := s.requests[id].who;
            Advance(cfg, s, id, env).value.requests[id].PrincipalFull? <==> HowMany(s.requests, ActiveAs(p)) == cfg.perPrincipal
  {
    Reachable(cfg, actions);
    var s := After(cfg, actions).value;
    var p := s.requests[id].who;
    assert InflightOf(s.inflight, p) == HowMany(s.requests, ActiveAs(p));
  }

  // -------------------------------------------------------------------- conservation and drain

  lemma {:induction false} Partition(requests: seq<Phase>)
    ensures |requests| == HowMany(requests, Undecided)
      + HowMany(requests, Fated(TurnedAway)) + HowMany(requests, Fated(SemaphoreRefused)) + HowMany(requests, Fated(GuardRefused))
      + HowMany(requests, Fated(RateRefused)) + HowMany(requests, Fated(PrincipalRefused)) + HowMany(requests, Fated(HandlerRan))
  {
    if requests != [] {
      Partition(requests[..|requests| - 1]);
      var most, last := requests[..|requests| - 1], requests[|requests| - 1];
      assert most + [last] == requests;
      OneMore(most, last, Undecided);
      OneMore(most, last, Fated(TurnedAway));
      OneMore(most, last, Fated(SemaphoreRefused));
      OneMore(most, last, Fated(GuardRefused));
      OneMore(most, last, Fated(RateRefused));
      OneMore(most, last, Fated(PrincipalRefused));
      OneMore(most, last, Fated(HandlerRan));
      match Fate(last)
      case None =>
      case Some(TurnedAway) =>
      case Some(SemaphoreRefused) =>
      case Some(GuardRefused) =>
      case Some(RateRefused) =>
      case Some(PrincipalRefused) =>
      case Some(HandlerRan) =>
    }
  }

  ghost predicate Finished(s: State) {
    forall i :: 0 <= i < |s.requests| ==> s.requests[i].Done?
  }

  /** No request is lost or counted twice: all requests ever counted are the undecided ones plus the
      six disjoint fates, and once every request is done none is undecided. */
  lemma Conservation(cfg: Config, actions: seq<Action>)
    requires Installed(cfg) && After(cfg, actions).Some?
    ensures var s := After(cfg, actions).value;
            && s.stats.requests == HowMany(s.requests, Undecided)
              + HowMany(s.requests, Fated(TurnedAway)) + HowMany(s.requests, Fated(SemaphoreRefused)) + HowMany(s.requests, Fated(GuardRefused))
              + HowMany(s.requests, Fated(RateRefused)) + HowMany(s.requests, Fated(PrincipalRefused)) + HowMany(s.requests, Fated(HandlerRan))
            && (Finished(s) ==> HowMany(s.requests, Undecided) == 0)
  {
    hide After, HowMany;
    Reachable(cfg, actions);
    var s := After(cfg, actions).value;
    Partition(s.requests);
    NoneLeft(s.requests, Undecided);
  }

  ghost predicate Continues(was: Phase, now: Phase) {
    && (Fate(was).Some? ==> Fate(now) == Fate(was))
    && (SeenOf(was).Some? ==> SeenOf(now) == SeenOf(was))
  }

  lemma StepContinues(cfg: Config, s: State, a: Action, id: nat)
    requires Next(cfg, s, a).Some? && id < |s.requests|
    ensures id < |Next(cfg, s, a).value.requests| && Continues(s.requests[id], Next(cfg, s, a).value.requests[id])
  {
    hide Attempt, TableAfterStep, SlotsAfter, StatsAfter, LogAfter, PermitsAfter;
  }

  /** What is once decided about a request stays so in every continuation of the run: its fate, and
      what it brought to the rate limiter. */
  lemma {:induction false} FatesAreFinal(cfg: Config, actions: seq<Action>, more: seq<Action>, id: nat)
    requires After(cfg, actions).Some? && After(cfg, actions + more).Some?
    requires id < |After(cfg, actions).value.requests|
    ensures id < |After(cfg, actions + more).value.requests|
    ensures Continues(After(cfg, actions).value.requests[id], After(cfg, actions + more).value.requests[id])
    decreases |more|
  {
    if more == [] {
      assert actions + more == actions;
    } else {
      var n := |more| - 1;
      var all := actions + more;
      assert all[..|all| - 1] == actions + more[..n];
      FatesAreFinal(cfg, actions, more[..n], id);
      hide Next;
      StepContinues(cfg, After(cfg, actions + more[..n]).value, all[|all| - 1], id);
    }
  }

  // The point at which a request gets each fate.
  predicate Decides(ph: Phase, o: Outcome) {
    match o
    case TurnedAway => ph == Closing(TurnedAway, None)
    case SemaphoreRefused => ph.SemaphoreFull?
    case GuardRefused => ph.Leaving? && ph.outcome == GuardRefused
    case RateRefused => ph.RateFull?
    case PrincipalRefused => ph.PrincipalFull?
    case HandlerRan => ph.Running?
  }

  ghost predicate WasDecided(cfg: Config, actions: seq<Action>, k: nat, id: nat, o: Outcome) {
    && k <= |actions| && After(cfg, actions[..k]).Some? && id < |After(cfg, actions[..k]).value.requests|
    && Decides(After(cfg, actions[..k]).value.requests[id], o)
  }

  lemma StepDecides(cfg: Config, s: State, a: Action, id: nat)
    requires Next(cfg, s, a).Some? && id < |Next(cfg, s, a).value.requests|
    ensures var now := Next(cfg, s, a).value.requests[id];
            && |s.requests| <= |Next(cfg, s, a).value.requests|
            && (Fate(now).Some? ==> id < |s.requests|)
            && (Fate(now).Some? && Fate(s.requests[id]).None? ==> Decides(now, Fate(now).value))
  {
    hide Attempt, TableAfterStep, SlotsAfter, StatsAfter, LogAfter, PermitsAfter;
  }

  lemma {:induction false} DecidedBefore(cfg: Config, actions: seq<Action>, id: nat) returns (k: nat)
    requires After(cfg, actions).Some? && id < |After(cfg, actions).value.requests|
    requires Fate(After(cfg, actions).value.requests[id]).Some?
    ensures WasDecided(cfg, actions, k, id, Fate(After(cfg, actions).value.requests[id]).value)
    decreases |actions|
  {
    k := |actions|;
    assert actions[..k] == actions;
    if actions != [] {
      var n := |actions| - 1;
      var before, a := actions[..n], actions[n];
      var s := After(cfg, before).value;
      hide Next;
      StepDecides(cfg, s, a, id);
      if Fate(s.requests[id]).Some? {
        StepContinues(cfg, s, a, id);
        k := DecidedBefore(cfg, before, id);
        assert before[..k] == actions[..k];
      }
    }
  }

  /** A request has a fate exactly when its run has been at the point that decides it: the handler ran
      for exactly the requests that entered it, and each refusal is that of its own stage. */
  lemma EachFateHasItsCause(cfg: Config, actions: seq<Action>, id: nat, o: Outcome)
    requires After(cfg, actions).Some? && id < |After(cfg, actions).value.requests|
    ensures Fate(After(cfg, actions).value.requests[id]) == Some(o) <==> exists k: nat :: WasDecided(cfg, actions, k, id, o)
  {
    hide After;
    if Fate(After(cfg, actions).value.requests[id]) == Some(o) {
      var k := DecidedBefore(cfg, actions, id);
    }
    forall k: nat | WasDecided(cfg, actions, k, id, o) ensures Fate(After(cfg, actions).value.requests[id]) == Some(o) {
      assert actions[..k] + actions[k..] == actions;
      FatesAreFinal(cfg, actions[..k], actions[k..], id);
    }
  }

  predicate IsAdmission(d: Decision) { d.Admitted? }

  predicate IsRefusal(d: Decision) { !d.Admitted? }

  predicate Anything(a: Arrival) { true }

  lemma {:induction false} EntriesAreAnswers(entries: seq<Entry>, answers: seq<Decision>)
    requires |entries| == |answers| && forall i :: 0 <= i < |entries| ==> entries[i].decision == answers[i]
    ensures HowMany(entries, AdmittedWith(Anything)) == HowMany(answers, IsAdmission)
    ensures HowMany(entries, TurnedDownWith(Anything)) == HowMany(answers, IsRefusal)
  {
    if entries != [] {
      EntriesAreAnswers(entries[..|entries| - 1], answers[..|answers| - 1]);
    }
  }

  lemma RateTotals(cfg: Config, s: State)
    requires RateAgrees(cfg, s)
    ensures HowMany(s.requests, Fated(RateRefused)) == HowMany(Run(cfg.perMinute, map[], s.log), IsRefusal)
    ensures cfg.perMinute > 0 ==> HowMany(s.requests, PassedRate) == HowMany(Run(cfg.perMinute, map[], s.log), IsAdmission)
  {
    hide HowMany, Run, TableAfter, WellKept;
    EntriesAreAnswers(Entries(cfg.perMinute, s.log), Run(cfg.perMinute, map[], s.log));
    Included(s.requests, Fated(RateRefused), RefusedWith(Anything));
    Included(s.requests, RefusedWith(Anything), Fated(RateRefused));
    Included(s.requests, PassedWith(Anything), PassedRate);
    if cfg.perMinute > 0 {
      Included(s.requests, PassedRate, PassedWith(Anything));
    }
  }

  /** Each rejection counter is its share of the fates minus the increments still due, the gauge is
      the requests between its increment and its deferred decrement, and the rate limiter's refusals
      and admissions are the requests refused by it and past it. */
  lemma CountersAreTheirShares(cfg: Config, actions: seq<Action>)
    requires Installed(cfg) && After(cfg, actions).Some?
    ensures var s := After(cfg, actions).value;
            && s.stats.rejected == HowMany(s.requests, Fated(SemaphoreRefused)) - HowMany(s.requests, SemaphorePending)
            && s.stats.rateRejected == HowMany(s.requests, Fated(RateRefused)) - HowMany(s.requests, RatePending)
            && s.stats.principalRejected == HowMany(s.requests, Fated(PrincipalRefused)) - HowMany(s.requests, PrincipalPending)
            && s.stats.inflight == HowMany(s.requests, Gauged)
            && HowMany(s.requests, Fated(RateRefused)) == HowMany(Run(cfg.perMinute, map[], s.log), IsRefusal)
            && (cfg.perMinute > 0 ==> HowMany(s.requests, PassedRate) == HowMany(Run(cfg.perMinute, map[], s.log), IsAdmission))
  {
    hide After, HowMany, Run;
    Reachable(cfg, actions);
    RateTotals(cfg, After(cfg, actions).value);
  }

  /** When no request is active, however its handler ended, nothing is left held. */
  lemma Drained(cfg: Config, actions: seq<Action>)
    requires Installed(cfg) && After(cfg, actions).Some? && Finished(After(cfg, actions).value)
    ensures var s := After(cfg, actions).value;
            && s.permits == 0 && s.inflight == map[] && s.stats.inflight == 0
            && s.stats.rejected == HowMany(s.requests, Fated(SemaphoreRefused))
            && s.stats.rateRejected == HowMany(s.requests, Fated(RateRefused))
            && s.stats.principalRejected == HowMany(s.requests, Fated(PrincipalRefused))
  {
    hide After, Run, HowMany;
    SlotsAreExact(cfg, actions);
    LimitsNest(cfg, actions);
    CountersAreTheirShares(cfg, actions);
    var s := After(cfg, actions).value;
    NoneLeft(s.requests, HoldsPermit);
    NoneLeft(s.requests, Gauged);
    NoneLeft(s.requests, SemaphorePending);
    NoneLeft(s.requests, RatePending);
    NoneLeft(s.requests, PrincipalPending);
    assert forall p :: p !in s.inflight;
  }

  // ------------------------------------------------------------------------ progress

  function Rank(ph: Phase): nat {
    match ph
    case Entered => 10
    case Observed => 9
    case Guarding => 8
    case Identified(_) => 7
    case Clocked(_, _) => 6
    case RatePassed(_, _) => 5
    case Running(_, _) => 4
    case Unwinding(_, _) => 3
    case RateFull(_) => 3
    case PrincipalFull(_) => 3
    case SemaphoreFull => 2
    case Leaving(_, _) => 2
    case Closing(_, _) => 1
    case Done(_, _) => 0
  }

  function Work(requests: seq<Phase>): nat {
    if requests == [] then 0 else Work(requests[..|requests| - 1]) + Rank(requests[|requests| - 1])
  }

  lemma {:induction false} WorkChanged(requests: seq<Phase>, i: nat, ph: Phase)
    requires i < |requests|
    ensures Work(requests[i := ph]) == Work(requests) - Rank(requests[i]) + Rank(ph)
  {
    var last := |requests| - 1;
    if i == last {
      assert requests[i := ph][..last] == requests[..last];
    } else {
      assert requests[i := ph][..last] == requests[..last][i := ph];
      WorkChanged(requests[..last], i, ph);
    }
  }

  lemma EachStepIsWork(cfg: Config, s: State, id: nat, env: Env)
    requires id < |s.requests| && Advance(cfg, s, id, env).Some?
    ensures var t := Advance(cfg, s, id, env).value;
            |t.requests| == |s.requests| && Work(t.requests) < Work(s.requests)
  {
    hide Attempt, Work, TableAfterStep, SlotsAfter, StatsAfter, LogAfter, PermitsAfter;
    WorkChanged(s.requests, id, Target(cfg, s, s.requests[id], env));
  }

  /** No step of an unfinished request ever blocks: in particular a permit is there to be returned. */
  lemma NeverBlocked(cfg: Config, actions: seq<Action>, id: nat, env: Env)
    requires Installed(cfg) && After(cfg, actions).Some?
    requires id < |After(cfg, actions).value.requests| && !After(cfg, actions).value.requests[id].Done?
    ensures Advance(cfg, After(cfg, actions).value, id, env).Some?
  {
    Reachable(cfg, actions);
    var s := After(cfg, actions).value;
    hide After;
    NoneLeft(s.requests, HoldsPermit);
  }

  predicate IsArrival(a: Action) { a.Arrive? }

  predicate IsMove(a: Action) { a.Move? }

  /** Every run is finite without new arrivals: at most ten steps for each request that arrived. */
  lemma {:induction false} MovesAreBounded(cfg: Config, actions: seq<Action>)
    requires After(cfg, actions).Some?
    ensures HowMany(actions, IsMove) + Work(After(cfg, actions).value.requests) <= 10 * HowMany(actions, IsArrival)
  {
    if actions != [] {
      var before, a := actions[..|actions| - 1], actions[|actions| - 1];
      MovesAreBounded(cfg, before);
      var s := After(cfg, before).value;
      match a
      case Arrive =>
        assert (s.requests + [Entered])[..|s.requests|] == s.requests;
      case Move(id, env) =>
        EachStepIsWork(cfg, s, id, env);
    }
  }

  lemma {:induction false} NoWorkIsFinished(s: State)
    requires Work(s.requests) == 0
    ensures Finished(s)
    decreases |s.requests|
  {
    if s.requests != [] {
      var shorter := s.(requests := s.requests[..|s.requests| - 1]);
      NoWorkIsFinished(shorter);
      assert forall i :: 0 <= i < |s.requests| - 1 ==> s.requests[i] == shorter.requests[i];
    }
  }

  lemma OneMoreAction(cfg: Config, actions: seq<Action>, a: Action)
    requires After(cfg, actions).Some?
    ensures After(cfg, actions + [a]) == Next(cfg, After(cfg, actions).value, a)
  {
    hide Next;
    assert (actions + [a])[..|actions|] == actions;
  }

  lemma SomeStepLeft(cfg: Config, actions: seq<Action>) returns (step: Action)
    requires Installed(cfg) && After(cfg, actions).Some? && !Finished(After(cfg, actions).value)
    ensures After(cfg, actions + [step]).Some?
    ensures Work(After(cfg, actions + [step]).value.requests) < Work(After(cfg, actions).value.requests)
  {
    var s := After(cfg, actions).value;
    var id: nat :| id < |s.requests| && !s.requests[id].Done?;
    var env := Env(true, "", 0);
    NeverBlocked(cfg, actions, id, env);
    EachStepIsWork(cfg, s, id, env);
    step := Move(id, env);
    OneMoreAction(cfg, actions, step);
  }

  /** From every reachable state the server can always be emptied. */
  lemma {:induction false} CanAlwaysDrain(cfg: Config, actions: seq<Action>) returns (more: seq<Action>)
    requires Installed(cfg) && After(cfg, actions).Some?
    ensures After(cfg, actions + more).Some? && Finished(After(cfg, actions + more).value)
    ensures After(cfg, actions + more).value.permits == 0 && After(cfg, actions + more).value.inflight == map[]
    decreases Work(After(cfg, actions).value.requests)
  {
    hide *;
    if Finished(After(cfg, actions).value) {
      more := [];
      assert actions + more == actions;
      Drained(cfg, actions);
    } else {
      var step := SomeStepLeft(cfg, actions);
      var rest := CanAlwaysDrain(cfg, actions + [step]);
      more := [step] + rest;
      assert actions + more == actions + [step] + rest;
    }
  }

  // -------------------------------------------------------------------- rate limits on runs

  /** Whatever the interleaving and the clock, the table never outgrows its cap and stored counts
      stay in range. */
  lemma TableOnRuns(cfg: Config, actions: seq<Action>)
    requires Installed(cfg) && cfg.perMinute >= 1 && After(cfg, actions).Some?
    ensures WellKept(cfg.perMinute, After(cfg, actions).value.table)
  {
    hide After, WellKept, HowMany, Run, TableAfter;
    Reachable(cfg, actions);
  }

  /** A request is past the rate stage or refused by it exactly if it has been to the limiter, with its
      own principal. And whatever is asked of principal and reading, the requests with it that are past
      the stage number the arrivals with it that the limiter admitted, the refused those it refused. */
  lemma RequestsAreTheirArrivals(cfg: Config, actions: seq<Action>, f: Arrival -> bool)
    requires Installed(cfg) && cfg.perMinute >= 1 && After(cfg, actions).Some?
    ensures var s := After(cfg, actions).value;
            && HowMany(s.requests, PassedWith(f)) == HowMany(Entries(cfg.perMinute, s.log), AdmittedWith(f))
            && HowMany(s.requests, RefusedWith(f)) == HowMany(Entries(cfg.perMinute, s.log), TurnedDownWith(f))
            && forall i :: 0 <= i < |s.requests| ==>
                 var ph := s.requests[i];
                 && (SeenOf(ph).Some? <==> PassedRate(ph) || Fate(ph) == Some(RateRefused))
                 && (SeenOf(ph).Some? && (ph.RatePassed? || Active(ph)) ==> SeenOf(ph).value.who == ph.who)
  {
    hide After, HowMany, Entries;
    Reachable(cfg, actions);
  }

  function Within(p: Principal, lo: int, hi: int): Arrival -> bool {
    (a: Arrival) => a.who == p && lo <= a.now < hi
  }

  lemma {:induction false} AdmissionsAreEntries(log: seq<Arrival>, answers: seq<Decision>, entries: seq<Entry>, p: Principal, lo: int, hi: int)
    requires |entries| == |log| == |answers| && forall i :: 0 <= i < |log| ==> entries[i] == Entry(log[i], answers[i])
    ensures HowMany(entries, AdmittedWith(Within(p, lo, hi))) == Admissions(log, answers, p, lo, hi)
  {
    if log != [] {
      OneInFront(entries, AdmittedWith(Within(p, lo, hi)));
      AdmissionsAreEntries(log[1..], answers[1..], entries[1..], p, lo, hi);
      hide HowMany;
    }
  }

  lemma RequestsAreAdmissions(cfg: Config, actions: seq<Action>, p: Principal, lo: int, hi: int)
    requires Installed(cfg) && cfg.perMinute >= 1 && After(cfg, actions).Some?
    ensures var s := After(cfg, actions).value;
            HowMany(s.requests, PassedWith(Within(p, lo, hi))) == Admissions(s.log, Run(cfg.perMinute, map[], s.log), p, lo, hi)
  {
    hide After, HowMany, Run, Admissions;
    var log := After(cfg, actions).value.log;
    RequestsAreTheirArrivals(cfg, actions, Within(p, lo, hi));
    AdmissionsAreEntries(log, Run(cfg.perMinute, map[], log), Entries(cfg.perMinute, log), p, lo, hi);
  }

  /** If readings are in mutex order, at most (k+1)*limit - 1 requests of one principal with readings
      from the same k minutes ever get past the rate stage, whatever the interleaving. */
  lemma RateLimitOnRuns(cfg: Config, actions: seq<Action>, p: Principal, clock: int, lo: int, k: int)
    requires Installed(cfg) && cfg.perMinute >= 1 && After(cfg, actions).Some? && k >= 1
    requires Since(clock, After(cfg, actions).value.log)
    ensures HowMany(After(cfg, actions).value.requests, PassedWith(Within(p, lo, lo + k * MINUTE))) <= (k + 1) * cfg.perMinute - 1
  {
    hide After, HowMany, Run, Admissions;
    RequestsAreAdmissions(cfg, actions, p, lo, lo + k * MINUTE);
    SlidingBound(cfg.perMinute, After(cfg, actions).value.log, p, clock, lo, k);
  }

  /** And if requests wait for the mutex for less than a minute after reading the clock, so that no
      reading is more than `delay` older than an earlier one, at most n*limit - 1. */
  lemma LateRateLimitOnRuns(cfg: Config, actions: seq<Action>, p: Principal, top: int, delay: nat, lo: int, hi: int, n: nat)
    requires Installed(cfg) && cfg.perMinute >= 1 && After(cfg, actions).Some?
    requires Lagging(top, delay, After(cfg, actions).value.log) && delay < MINUTE
    requires lo <= hi && (hi - lo) + MINUTE + delay <= n * (MINUTE - delay)
    ensures HowMany(After(cfg, actions).value.requests, PassedWith(Within(p, lo, hi))) <= n * cfg.perMinute - 1
  {
    hide After, HowMany, Run, Admissions, Lagging;
    RequestsAreAdmissions(cfg, actions, p, lo, hi);
    LaggingBound(cfg.perMinute, After(cfg, actions).value.log, p, top, delay, lo, hi, n);
  }
}
