/** What every reachable state of the admission protocol satisfies. */
module AdmissionProofs {
  import opened Wrappers
  import opened RateLimit
  import opened RateRuns
  import opened Admission
  import opened Counting

  // ------------------------------------------------------------------ classes of requests

  predicate HoldsPermit(ph: Phase) {
    ph.Guarding? || ph.Identified? || ph.Clocked? || ph.RateFull? || ph.RatePassed? || ph.PrincipalFull?
    || ph.Running? || ph.Unwinding? || ph.Leaving?
  }

  // Between acquiring and releasing a slot of its principal.
  predicate Active(ph: Phase) {
    ph.Running? || ph.Unwinding?
  }

  function ActiveAs(p: Principal): Phase -> bool {
    (ph: Phase) => Active(ph) && ph.who == p
  }

  function ActiveAmong(ps: set<Principal>): Phase -> bool {
    (ph: Phase) => Active(ph) && ph.who in ps
  }

  predicate Gauged(ph: Phase) {
    !ph.Entered? && !ph.Done?
  }

  function Fate(ph: Phase): Option<Outcome> {
    match ph
    case SemaphoreFull => Some(SemaphoreRefused)
    case RateFull(_) => Some(RateRefused)
    case PrincipalFull(_) => Some(PrincipalRefused)
    case Running(_, _) => Some(HandlerRan)
    case Unwinding(_, _) => Some(HandlerRan)
    case Leaving(o, _) => Some(o)
    case Closing(o, _) => Some(o)
    case Done(o, _) => Some(o)
    case _ => None
  }

  function Fated(o: Outcome): Phase -> bool {
    (ph: Phase) => Fate(ph) == Some(o)
  }

  predicate Undecided(ph: Phase) {
    Fate(ph).None?
  }

  predicate SemaphorePending(ph: Phase) { ph.SemaphoreFull? }

  predicate RatePending(ph: Phase) { ph.RateFull? }

  predicate PrincipalPending(ph: Phase) { ph.PrincipalFull? }

  predicate PassedRate(ph: Phase) {
    ph.RatePassed? || Fate(ph) == Some(PrincipalRefused) || Fate(ph) == Some(HandlerRan)
  }

  // What a request brought to the rate limiter, once it has been there.
  function SeenOf(ph: Phase): Option<Arrival> {
    if ph.RateFull? || ph.RatePassed? || ph.PrincipalFull? || ph.Running? || ph.Unwinding? || ph.Leaving? || ph.Closing? || ph.Done?
    then ph.seen
    else None
  }

  predicate Brought(ph: Phase, f: Arrival -> bool) {
    SeenOf(ph).Some? && f(SeenOf(ph).value)
  }

  function PassedWith(f: Arrival -> bool): Phase -> bool {
    (ph: Phase) => PassedRate(ph) && Brought(ph, f)
  }

  function RefusedWith(f: Arrival -> bool): Phase -> bool {
    (ph: Phase) => Fate(ph) == Some(RateRefused) && Brought(ph, f)
  }

  // The log of the rate limiter with its answers.
  datatype Entry = Entry(arrival: Arrival, decision: Decision)

  function Entries(limit: int, log: seq<Arrival>): (r: seq<Entry>)
    ensures |r| == |log|
  {
    seq(|log|, i requires 0 <= i < |log| => Entry(log[i], Run(limit, map[], log)[i]))
  }

  predicate Admitting(e: Entry, f: Arrival -> bool) {
    e.decision.Admitted? && f(e.arrival)
  }

  predicate Refusing(e: Entry, f: Arrival -> bool) {
    !e.decision.Admitted? && f(e.arrival)
  }

  function AdmittedWith(f: Arrival -> bool): Entry -> bool {
    (e: Entry) => Admitting(e, f)
  }

  function TurnedDownWith(f: Arrival -> bool): Entry -> bool {
    (e: Entry) => Refusing(e, f)
  }

  // ------------------------------------------------------------------------ the invariant

  ghost predicate PermitsAgree(cfg: Config, s: State) {
    s.permits == HowMany(s.requests, HoldsPermit) && s.permits <= cfg.maxConcurrent
  }

  ghost predicate SlotsAgree(cfg: Config, s: State) {
    && (forall p :: InflightOf(s.inflight, p) == HowMany(s.requests, ActiveAs(p)))
    && (forall p :: p in s.inflight ==> 1 <= s.inflight[p] <= cfg.perPrincipal)
  }

  ghost predicate StatsAgree(s: State) {
    && s.stats.requests == |s.requests|
    && s.stats.inflight == HowMany(s.requests, Gauged)
    && s.stats.rejected + HowMany(s.requests, SemaphorePending) == HowMany(s.requests, Fated(SemaphoreRefused))
    && s.stats.rateRejected + HowMany(s.requests, RatePending) == HowMany(s.requests, Fated(RateRefused))
    && s.stats.principalRejected + HowMany(s.requests, PrincipalPending) == HowMany(s.requests, Fated(PrincipalRefused))
  }

  // Whatever is asked of principal and reading: as many requests are past the rate stage with it as
  // the log has admitted arrivals with it, and as many are refused by it as the log has refused ones.
  ghost predicate RateAgrees(cfg: Config, s: State) {
    && s.table == TableAfter(cfg.perMinute, map[], s.log)
    && (cfg.perMinute > 0 ==> WellKept(cfg.perMinute, s.table))
    && LogAgrees(cfg, s)
    && (forall i :: 0 <= i < |s.requests| ==> Placed(cfg, s.requests[i]))
  }

  ghost predicate LogAgrees(cfg: Config, s: State) {
    && (forall f: Arrival -> bool :: HowMany(s.requests, PassedWith(f)) == HowMany(Entries(cfg.perMinute, s.log), AdmittedWith(f)))
    && (forall f: Arrival -> bool :: HowMany(s.requests, RefusedWith(f)) == HowMany(Entries(cfg.perMinute, s.log), TurnedDownWith(f)))
  }

  predicate Placed(cfg: Config, ph: Phase) {
    && (ph.Clocked? ==> cfg.perMinute > 0 && ph.who != "")
    && (SeenOf(ph).Some? <==> cfg.perMinute > 0 && (PassedRate(ph) || Fate(ph) == Some(RateRefused)))
    && (Fate(ph) == Some(RateRefused) ==> cfg.perMinute > 0)
    && (SeenOf(ph).Some? ==> SeenOf(ph).value.who != "" && (ph.RatePassed? || Active(ph) ==> SeenOf(ph).value.who == ph.who))
  }

  ghost predicate Inv(cfg: Config, s: State) {
    PermitsAgree(cfg, s) && SlotsAgree(cfg, s) && StatsAgree(s) && RateAgrees(cfg, s)
  }

  function Bit(b: bool): int { if b then 1 else 0 }

  lemma PermitsKept(cfg: Config, s: State, id: nat, env: Env)
    requires id < |s.requests| && PermitsAgree(cfg, s) && Advance(cfg, s, id, env).Some?
    ensures PermitsAgree(cfg, Advance(cfg, s, id, env).value)
  {
    hide Attempt, HowMany, TableAfterStep, SlotsAfter, StatsAfter, LogAfter;
    OneChanged(s.requests, id, Target(cfg, s, s.requests[id], env), HoldsPermit);
  }

  // A step changes the slot count of each principal by what it changes about the stepping request.
  lemma SlotEffect(cfg: Config, s: State, from: Phase, env: Env, p: Principal)
    requires Active(from) ==> from.who in s.inflight && s.inflight[from.who] >= 1
    ensures var to := Target(cfg, s, from, env);
            InflightOf(SlotsAfter(s.inflight, from, to), p) == InflightOf(s.inflight, p) - Bit(ActiveAs(p)(from)) + Bit(ActiveAs(p)(to))
  {
    hide Attempt;
  }

  lemma SlotRange(cfg: Config, s: State, from: Phase, env: Env)
    requires cfg.perPrincipal >= 1
    requires forall p :: p in s.inflight ==> 1 <= s.inflight[p] <= cfg.perPrincipal
    requires Active(from) ==> from.who in s.inflight
    ensures var m := SlotsAfter(s.inflight, from, Target(cfg, s, from, env));
            forall p :: p in m ==> 1 <= m[p] <= cfg.perPrincipal
  {
    hide Attempt;
  }

  lemma SlotsKept(cfg: Config, s: State, id: nat, env: Env)
    requires id < |s.requests| && SlotsAgree(cfg, s) && Advance(cfg, s, id, env).Some? && cfg.perPrincipal >= 1
    ensures SlotsAgree(cfg, Advance(cfg, s, id, env).value)
  {
    hide Target, TableAfterStep, SlotsAfter, StatsAfter, LogAfter, PermitsAfter, HowMany;
    var t, from := Advance(cfg, s, id, env).value, s.requests[id];
    if Active(from) {
      assert InflightOf(s.inflight, from.who) == HowMany(s.requests, ActiveAs(from.who));
      NoneLeft(s.requests, ActiveAs(from.who));
      assert ActiveAs(from.who)(s.requests[id]);
    }
    SlotRange(cfg, s, from, env);
    forall p ensures InflightOf(t.inflight, p) == HowMany(t.requests, ActiveAs(p)) {
      SlotEffect(cfg, s, from, env, p);
      OneChanged(s.requests, id, t.requests[id], ActiveAs(p));
    }
  }

  lemma StatsKept(cfg: Config, s: State, id: nat, env: Env)
    requires id < |s.requests| && StatsAgree(s) && Advance(cfg, s, id, env).Some?
    ensures StatsAgree(Advance(cfg, s, id, env).value)
  {
    hide Target, TableAfterStep, SlotsAfter, StatsAfter, LogAfter, PermitsAfter, HowMany, Fate;
    var ph := Target(cfg, s, s.requests[id], env);
    StatsEffect(cfg, s, s.requests[id], env);
    OneChanged(s.requests, id, ph, Gauged);
    OneChanged(s.requests, id, ph, SemaphorePending);
    OneChanged(s.requests, id, ph, RatePending);
    OneChanged(s.requests, id, ph, PrincipalPending);
    OneChanged(s.requests, id, ph, Fated(SemaphoreRefused));
    OneChanged(s.requests, id, ph, Fated(RateRefused));
    OneChanged(s.requests, id, ph, Fated(PrincipalRefused));
  }

  lemma StatsEffect(cfg: Config, s: State, from: Phase, env: Env)
    requires !from.Done?
    ensures var to, before, after := Target(cfg, s, from, env), s.stats, StatsAfter(s.stats, from);
            && after.requests == before.requests
            && after.inflight - before.inflight == Bit(Gauged(to)) - Bit(Gauged(from))
            && after.rejected - before.rejected
               == Bit(Fate(to) == Some(SemaphoreRefused)) - Bit(SemaphorePending(to)) - Bit(Fate(from) == Some(SemaphoreRefused)) + Bit(SemaphorePending(from))
            && after.rateRejected - before.rateRejected
               == Bit(Fate(to) == Some(RateRefused)) - Bit(RatePending(to)) - Bit(Fate(from) == Some(RateRefused)) + Bit(RatePending(from))
            && after.principalRejected - before.principalRejected
               == Bit(Fate(to) == Some(PrincipalRefused)) - Bit(PrincipalPending(to)) - Bit(Fate(from) == Some(PrincipalRefused)) + Bit(PrincipalPending(from))
  {
    hide Attempt;
  }

  lemma EntriesOneMore(limit: int, log: seq<Arrival>, last: Arrival)
    ensures Entries(limit, log + [last])
         == Entries(limit, log) + [Entry(last, Attempt(limit, TableAfter(limit, map[], log), last.who, last.now).decision)]
  {
    hide Attempt, TableAfter, Run;
    RunOneMore(limit, map[], log, last);
  }

  lemma RateStepLogs(cfg: Config, s: State, id: nat, env: Env, f: Arrival -> bool)
    requires id < |s.requests| && RateAgrees(cfg, s) && s.requests[id].Clocked?
    ensures var t := Advance(cfg, s, id, env).value;
            && HowMany(t.requests, PassedWith(f)) == HowMany(Entries(cfg.perMinute, t.log), AdmittedWith(f))
            && HowMany(t.requests, RefusedWith(f)) == HowMany(Entries(cfg.perMinute, t.log), TurnedDownWith(f))
  {
    hide Attempt, HowMany, TableAfter, WellKept, SlotsAfter, StatsAfter, PermitsAfter, Entries;
    var from := s.requests[id];
    var to, last := Target(cfg, s, from, env), Arrival(from.who, from.reading);
    var d, entries := Attempt(cfg.perMinute, s.table, from.who, from.reading).decision, Entries(cfg.perMinute, s.log);
    OneChanged(s.requests, id, to, PassedWith(f));
    OneChanged(s.requests, id, to, RefusedWith(f));
    EntriesOneMore(cfg.perMinute, s.log, last);
    OneMore(entries, Entry(last, d), AdmittedWith(f));
    OneMore(entries, Entry(last, d), TurnedDownWith(f));
    assert HowMany(s.requests, PassedWith(f)) == HowMany(entries, AdmittedWith(f));
    assert HowMany(s.requests, RefusedWith(f)) == HowMany(entries, TurnedDownWith(f));
    assert !PassedWith(f)(from) && !RefusedWith(f)(from);
    assert PassedWith(f)(to) <==> AdmittedWith(f)(Entry(last, d));
    assert RefusedWith(f)(to) <==> TurnedDownWith(f)(Entry(last, d));
  }

  lemma RateStepKeeps(cfg: Config, s: State, id: nat, env: Env)
    requires id < |s.requests| && RateAgrees(cfg, s) && s.requests[id].Clocked?
    ensures RateAgrees(cfg, Advance(cfg, s, id, env).value)
  {
    hide Attempt;
    var from := s.requests[id];
    var t := Advance(cfg, s, id, env).value;
    CapacityIfRated(cfg, s, from);
    RunOneMore(cfg.perMinute, map[], s.log, Arrival(from.who, from.reading));
    assert Placed(cfg, Target(cfg, s, from, env));
    hide Target, HowMany, TableAfter, WellKept, SlotsAfter, StatsAfter, PermitsAfter, Entries, Placed, Run;
    forall f: Arrival -> bool
      ensures HowMany(t.requests, PassedWith(f)) == HowMany(Entries(cfg.perMinute, t.log), AdmittedWith(f))
      ensures HowMany(t.requests, RefusedWith(f)) == HowMany(Entries(cfg.perMinute, t.log), TurnedDownWith(f))
    {
      RateStepLogs(cfg, s, id, env, f);
    }
  }

  lemma OtherStepEffect(cfg: Config, s: State, from: Phase, env: Env)
    requires !from.Clocked? && Placed(cfg, from)
    ensures var to := Target(cfg, s, from, env);
            && Placed(cfg, to)
            && (Fate(to) == Some(RateRefused) <==> Fate(from) == Some(RateRefused))
            && (cfg.perMinute > 0 ==> (PassedRate(to) <==> PassedRate(from)))
            && SeenOf(to) == SeenOf(from)
  {
    hide Attempt;
  }

  lemma OtherStepKeeps(cfg: Config, s: State, id: nat, env: Env)
    requires id < |s.requests| && RateAgrees(cfg, s) && Advance(cfg, s, id, env).Some? && !s.requests[id].Clocked?
    ensures RateAgrees(cfg, Advance(cfg, s, id, env).value)
  {
    var from, to := s.requests[id], Target(cfg, s, s.requests[id], env);
    OtherStepEffect(cfg, s, from, env);
    assert SeenOf(from).Some? ==> cfg.perMinute > 0;
    hide Target, HowMany, Run, TableAfter, WellKept, SlotsAfter, StatsAfter, PermitsAfter, Fate, Placed, Entries, SeenOf, PassedRate;
    var t := Advance(cfg, s, id, env).value;
    forall f: Arrival -> bool
      ensures HowMany(t.requests, PassedWith(f)) == HowMany(Entries(cfg.perMinute, t.log), AdmittedWith(f))
      ensures HowMany(t.requests, RefusedWith(f)) == HowMany(Entries(cfg.perMinute, t.log), TurnedDownWith(f))
    {
      OneChanged(s.requests, id, to, PassedWith(f));
      OneChanged(s.requests, id, to, RefusedWith(f));
    }
  }

  lemma RateKept(cfg: Config, s: State, id: nat, env: Env)
    requires id < |s.requests| && RateAgrees(cfg, s) && Advance(cfg, s, id, env).Some?
    ensures RateAgrees(cfg, Advance(cfg, s, id, env).value)
  {
    hide *;
    if s.requests[id].Clocked? {
      RateStepKeeps(cfg, s, id, env);
    } else {
      OtherStepKeeps(cfg, s, id, env);
    }
  }

  lemma CapacityIfRated(cfg: Config, s: State, ph: Phase)
    requires ph.Clocked? && (cfg.perMinute > 0 ==> WellKept(cfg.perMinute, s.table))
    ensures cfg.perMinute > 0 ==> WellKept(cfg.perMinute, Attempt(cfg.perMinute, s.table, ph.who, ph.reading).table)
  {
    if cfg.perMinute > 0 {
      StoredIsBounded(cfg.perMinute, s.table, ph.who, ph.reading);
    }
  }

  lemma ArrivalKeeps(cfg: Config, s: State)
    requires Inv(cfg, s)
    ensures Inv(cfg, Next(cfg, s, Arrive).value)
  {
    hide HowMany, Run, TableAfter, WellKept, Entries;
    OneMore(s.requests, Entered, HoldsPermit);
    OneMore(s.requests, Entered, Gauged);
    OneMore(s.requests, Entered, SemaphorePending);
    OneMore(s.requests, Entered, RatePending);
    OneMore(s.requests, Entered, PrincipalPending);
    OneMore(s.requests, Entered, Fated(SemaphoreRefused));
    OneMore(s.requests, Entered, Fated(RateRefused));
    OneMore(s.requests, Entered, Fated(PrincipalRefused));
    var t := Next(cfg, s, Arrive).value;
    forall p ensures InflightOf(t.inflight, p) == HowMany(t.requests, ActiveAs(p)) {
      OneMore(s.requests, Entered, ActiveAs(p));
    }
    forall f: Arrival -> bool
      ensures HowMany(t.requests, PassedWith(f)) == HowMany(s.requests, PassedWith(f))
      ensures HowMany(t.requests, RefusedWith(f)) == HowMany(s.requests, RefusedWith(f))
    {
      OneMore(s.requests, Entered, PassedWith(f));
      OneMore(s.requests, Entered, RefusedWith(f));
      assert !PassedWith(f)(Entered) && !RefusedWith(f)(Entered);
    }
  }

  /** Every state that any interleaving of requests can reach satisfies the invariant. */
  lemma {:induction false} Reachable(cfg: Config, actions: seq<Action>)
    requires cfg.maxConcurrent >= 0 && cfg.perPrincipal >= 1 && After(cfg, actions).Some?
    ensures Inv(cfg, After(cfg, actions).value)
  {
    if actions != [] {
      var before := actions[..|actions| - 1];
      Reachable(cfg, before);
      var s, a := After(cfg, before).value, actions[|actions| - 1];
      StepKeeps(cfg, s, a);
    }
  }

  lemma StepKeeps(cfg: Config, s: State, a: Action)
    requires cfg.perPrincipal >= 1 && Inv(cfg, s) && Next(cfg, s, a).Some?
    ensures Inv(cfg, Next(cfg, s, a).value)
  {
    hide Advance, PermitsAgree, SlotsAgree, StatsAgree, RateAgrees;
    match a
    case Arrive =>
      ArrivalKeeps(cfg, s);
    case Move(id, env) =>
      PermitsKept(cfg, s, id, env);
      SlotsKept(cfg, s, id, env);
      StatsKept(cfg, s, id, env);
      RateKept(cfg, s, id, env);
  }
}
