/** Which course a request takes through the admission protocol, told from its own moves. */
module Courses {
  import opened Wrappers
  import opened RateLimit
  import opened RateRuns
  import opened Admission
  import opened AdmissionProofs

  // What the surroundings decided in the moves of one request, in order. The move out of Observed
  // is the one numbered 1; for a request with a permit, 2 leaves Guarding and 3 leaves Identified.
  function Moves(actions: seq<Action>, id: nat): seq<Env> {
    if actions == [] then []
    else
      var before, last := Moves(actions[..|actions| - 1], id), actions[|actions| - 1];
      if last.Move? && last.id == id then before + [last.env] else before
  }

  predicate Welcome(m: seq<Env>) {
    |m| >= 3 && m[1].pass && m[2].pass
  }

  predicate Admissible(m: seq<Env>) {
    Welcome(m) && m[2].who != ""
  }

  // The moves it takes to get from arrival past the rate stage.
  function Stages(cfg: Config): nat {
    if cfg.perMinute > 0 then 5 else 4
  }

  predicate BroughtBy(cfg: Config, seen: Option<Arrival>, m: seq<Env>) {
    if cfg.perMinute > 0 then |m| >= 4 && seen == Some(Arrival(m[2].who, m[3].now)) else seen == None
  }

  // What the moves so far must have been for a request to stand at `ph`.
  predicate OnCourse(cfg: Config, ph: Phase, m: seq<Env>) {
    match ph
    case Entered => |m| == 0
    case Observed => |m| == 1
    case SemaphoreFull => |m| == 2 && m[1].pass
    case Guarding => |m| == 2 && m[1].pass
    case Identified(p) => |m| == 3 && Welcome(m) && p == m[2].who
    case Clocked(p, now) => |m| == 4 && Admissible(m) && p == m[2].who && now == m[3].now && cfg.perMinute > 0
    case RateFull(seen) => |m| == 5 && Admissible(m) && BroughtBy(cfg, seen, m) && cfg.perMinute > 0
    case RatePassed(p, seen) =>
      |m| == Stages(cfg) && Welcome(m) && p == m[2].who && BroughtBy(cfg, seen, m) && (cfg.perMinute > 0 ==> Admissible(m))
    case PrincipalFull(seen) => |m| == Stages(cfg) + 1 && Admissible(m) && BroughtBy(cfg, seen, m)
    case Running(p, seen) => |m| == Stages(cfg) + 1 && Admissible(m) && p == m[2].who && BroughtBy(cfg, seen, m)
    case Unwinding(p, seen) => |m| == Stages(cfg) + 2 && Admissible(m) && p == m[2].who && BroughtBy(cfg, seen, m)
    case Leaving(o, seen) => Ended(cfg, o, seen, m)
    case Closing(o, seen) => Ended(cfg, o, seen, m)
    case Done(o, seen) => Ended(cfg, o, seen, m)
  }

  predicate Ended(cfg: Config, o: Outcome, seen: Option<Arrival>, m: seq<Env>) {
    match o
    case TurnedAway => |m| >= 2 && !m[1].pass && seen == None
    case SemaphoreRefused => |m| >= 3 && m[1].pass && seen == None
    case GuardRefused =>
      && |m| >= 3 && m[1].pass && seen == None
      && (m[2].pass ==> m[2].who == "" && |m| >= if cfg.perMinute > 0 then 4 else 5)
    case RateRefused => |m| >= 6 && Admissible(m) && BroughtBy(cfg, seen, m) && cfg.perMinute > 0
    case PrincipalRefused => |m| >= Stages(cfg) + 2 && Admissible(m) && BroughtBy(cfg, seen, m)
    case HandlerRan => |m| >= Stages(cfg) + 3 && Admissible(m) && BroughtBy(cfg, seen, m)
  }

  lemma StepOnCourse(cfg: Config, s: State, from: Phase, env: Env, m: seq<Env>)
    requires OnCourse(cfg, from, m) && !from.Done?
    ensures OnCourse(cfg, Target(cfg, s, from, env), m + [env])
  {
    hide Attempt;
    assert forall i :: 0 <= i < |m| ==> (m + [env])[i] == m[i];
  }

  ghost predicate AllOnCourse(cfg: Config, s: State, actions: seq<Action>) {
    && (forall id: nat :: id < |s.requests| ==> OnCourse(cfg, s.requests[id], Moves(actions, id)))
    && (forall id: nat :: id >= |s.requests| ==> Moves(actions, id) == [])
  }

  lemma OneMoreMove(before: seq<Action>, a: Action, id: nat)
    ensures Moves(before + [a], id) == if a.Move? && a.id == id then Moves(before, id) + [a.env] else Moves(before, id)
  {
    assert (before + [a])[..|before|] == before;
  }

  lemma StepKeepsCourses(cfg: Config, s: State, before: seq<Action>, a: Action)
    requires AllOnCourse(cfg, s, before) && Next(cfg, s, a).Some?
    ensures AllOnCourse(cfg, Next(cfg, s, a).value, before + [a])
  {
    var t := Next(cfg, s, a).value;
    assert OnCourse(cfg, Entered, []);
    if a.Move? {
      StepOnCourse(cfg, s, s.requests[a.id], a.env, Moves(before, a.id));
    }
    hide Target, OnCourse, PermitsAfter, TableAfterStep, SlotsAfter, StatsAfter, LogAfter, Moves;
    forall id: nat
      ensures if id < |t.requests| then OnCourse(cfg, t.requests[id], Moves(before + [a], id)) else Moves(before + [a], id) == []
    {
      OneMoreMove(before, a, id);
    }
  }

  lemma {:induction false} EverybodyOnCourse(cfg: Config, actions: seq<Action>)
    requires After(cfg, actions).Some?
    ensures AllOnCourse(cfg, After(cfg, actions).value, actions)
  {
    if actions != [] {
      var before, a := actions[..|actions| - 1], actions[|actions| - 1];
      EverybodyOnCourse(cfg, before);
      StepKeepsCourses(cfg, After(cfg, before).value, before, a);
      assert before + [a] == actions;
    }
  }

  // The principal a request is known to belong to, and its clock reading.
  function PrincipalOf(ph: Phase): Option<Principal> {
    if ph.Identified? || ph.Clocked? || ph.RatePassed? || ph.Running? || ph.Unwinding? then Some(ph.who)
    else if SeenOf(ph).Some? then Some(SeenOf(ph).value.who)
    else None
  }

  function ReadingOf(ph: Phase): Option<int> {
    if ph.Clocked? then Some(ph.reading) else if SeenOf(ph).Some? then Some(SeenOf(ph).value.now) else None
  }

  lemma CourseOf(cfg: Config, actions: seq<Action>, id: nat)
    requires After(cfg, actions).Some? && id < |After(cfg, actions).value.requests|
    ensures OnCourse(cfg, After(cfg, actions).value.requests[id], Moves(actions, id))
  {
    hide *;
    EverybodyOnCourse(cfg, actions);
    InParticular(cfg, After(cfg, actions).value, actions, id);
  }

  lemma InParticular(cfg: Config, s: State, actions: seq<Action>, id: nat)
    requires AllOnCourse(cfg, s, actions) && id < |s.requests|
    ensures OnCourse(cfg, s.requests[id], Moves(actions, id))
  {
    hide OnCourse, Moves;
  }

  lemma TurnedAwayAt(cfg: Config, ph: Phase, m: seq<Env>)
    requires OnCourse(cfg, ph, m)
    ensures Fate(ph) == Some(TurnedAway) <==> |m| >= 2 && !m[1].pass
  {
    hide BroughtBy;
  }

  lemma GuardRefusedAt(cfg: Config, ph: Phase, m: seq<Env>)
    requires OnCourse(cfg, ph, m)
    ensures Fate(ph) == Some(GuardRefused) <==>
              && |m| >= 3 && m[1].pass && Fate(ph) != Some(SemaphoreRefused)
              && (!m[2].pass || (m[2].who == "" && |m| >= if cfg.perMinute > 0 then 4 else 5))
  {
    hide BroughtBy;
  }

  lemma IdentityAt(cfg: Config, ph: Phase, m: seq<Env>)
    requires OnCourse(cfg, ph, m)
    ensures PrincipalOf(ph).Some? ==> |m| >= 3 && PrincipalOf(ph) == Some(m[2].who)
    ensures ReadingOf(ph).Some? ==> |m| >= 4 && ReadingOf(ph) == Some(m[3].now)
    ensures PassedRate(ph) || Fate(ph) == Some(RateRefused) ==>
              |m| >= 4 && SeenOf(ph) == if cfg.perMinute > 0 then Some(Arrival(m[2].who, m[3].now)) else None
  {
  }

  /** The guards alone decide who goes on. A request is turned away exactly when its move out of
      Observed does not pass. One with a permit is refused by the guards exactly when its move out of
      Guarding does not pass, or as soon as it is found to have no principal. */
  lemma GuardsDecide(cfg: Config, actions: seq<Action>, id: nat)
    requires After(cfg, actions).Some? && id < |After(cfg, actions).value.requests|
    ensures var ph, m := After(cfg, actions).value.requests[id], Moves(actions, id);
            && (Fate(ph) == Some(TurnedAway) <==> |m| >= 2 && !m[1].pass)
            && (Fate(ph) == Some(GuardRefused) <==>
                  && |m| >= 3 && m[1].pass && Fate(ph) != Some(SemaphoreRefused)
                  && (!m[2].pass || (m[2].who == "" && |m| >= if cfg.perMinute > 0 then 4 else 5)))
  {
    hide *;
    CourseOf(cfg, actions, id);
    var ph, m := After(cfg, actions).value.requests[id], Moves(actions, id);
    TurnedAwayAt(cfg, ph, m);
    GuardRefusedAt(cfg, ph, m);
  }

  /** From then on a request keeps the principal of its move out of Guarding and the reading of its
      move out of Identified, and with these it goes to the rate limiter, if there is one. */
  lemma IdentityIsKept(cfg: Config, actions: seq<Action>, id: nat)
    requires After(cfg, actions).Some? && id < |After(cfg, actions).value.requests|
    ensures var ph, m := After(cfg, actions).value.requests[id], Moves(actions, id);
            && (PrincipalOf(ph).Some? ==> |m| >= 3 && PrincipalOf(ph) == Some(m[2].who))
            && (ReadingOf(ph).Some? ==> |m| >= 4 && ReadingOf(ph) == Some(m[3].now))
            && (PassedRate(ph) || Fate(ph) == Some(RateRefused) ==>
                  && |m| >= 4
                  && SeenOf(ph) == if cfg.perMinute > 0 then Some(Arrival(m[2].who, m[3].now)) else None)
  {
    hide *;
    CourseOf(cfg, actions, id);
    IdentityAt(cfg, After(cfg, actions).value.requests[id], Moves(actions, id));
  }

  /** A request that passes both and has a principal ends as refused by one of the limiters or as run
      by the handler, so it is run whenever no limiter refuses it; and no other request ends so. */
  lemma WelcomeRequestsAreServed(cfg: Config, actions: seq<Action>, id: nat)
    requires After(cfg, actions).Some? && id < |After(cfg, actions).value.requests|
    requires After(cfg, actions).value.requests[id].Done?
    ensures var o, m := After(cfg, actions).value.requests[id].outcome, Moves(actions, id);
            && |m| >= 2
            && (o == SemaphoreRefused || o == RateRefused || o == PrincipalRefused || o == HandlerRan <==>
                  && m[1].pass
                  && (o == SemaphoreRefused || (|m| >= 3 && m[2].pass && m[2].who != "")))
            && (o == RateRefused ==> cfg.perMinute > 0)
  {
    hide After, Moves, BroughtBy;
    CourseOf(cfg, actions, id);
  }
}
