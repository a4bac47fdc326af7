/** What the `Retry-After` of a refusal by count means, and how a retry is answered. */
module Retrying {
  import opened RateLimit
  import opened RateRuns

  // ------------------------------------------------------------------------ the number sent

  ghost predicate NoLongerThanAMinute(t: Table, clock: int) {
    forall p :: p in t ==> t[p].resetAt <= clock + MINUTE
  }

  lemma {:induction false} WindowsAreAMinute(limit: int, t: Table, arrivals: seq<Arrival>, clock: int, later: int)
    requires Since(clock, arrivals) && NoLongerThanAMinute(t, clock) && clock <= later
    requires forall i :: 0 <= i < |arrivals| ==> arrivals[i].now <= later
    ensures NoLongerThanAMinute(TableAfter(limit, t, arrivals), later)
    decreases arrivals
  {
    if arrivals != [] {
      var now := arrivals[0].now;
      var a := Attempt(limit, t, arrivals[0].who, now);
      assert NoLongerThanAMinute(a.table, now);
      WindowsAreAMinute(limit, a.table, arrivals[1..], now, later);
    }
  }

  /** On a refusal by count, the number sent is the least positive number of whole seconds that
      reaches the end of the principal's window; where no window ends later than a minute from now,
      it lies in 1..60. The refusal changes nothing. */
  lemma RetryAfterIsExact(limit: int, t: Table, p: Principal, now: int)
    requires limit >= 1
    ensures var a := Attempt(limit, t, p, now);
            a.decision.Limited? ==>
              && Live(t, p, now) && t[p].count >= limit && a.table == t
              && a.decision.retryAfter >= 1 && now + a.decision.retryAfter * SECOND >= t[p].resetAt
              && (forall r :: r >= 1 && now + r * SECOND >= t[p].resetAt ==> r >= a.decision.retryAfter)
              && (NoLongerThanAMinute(t, now) ==> a.decision.retryAfter <= 60)
  {
    if Attempt(limit, t, p, now).decision.Limited? {
      assert Live(t, p, now);
      SecondsAreTheLeast(t[p].resetAt - now);
    }
  }

  /** After any run of ordered readings that is the case. */
  lemma RetryAfterOnRuns(limit: int, arrivals: seq<Arrival>, p: Principal, now: int, clock: int)
    requires limit >= 1 && Since(clock, arrivals + [Arrival(p, now)])
    ensures var d := Attempt(limit, TableAfter(limit, map[], arrivals), p, now).decision;
            d.Limited? ==> 1 <= d.retryAfter <= 60
  {
    var all := arrivals + [Arrival(p, now)];
    assert forall i :: 0 <= i < |arrivals| ==> arrivals[i] == all[i];
    assert all[|arrivals|].now == now;
    WindowsAreAMinute(limit, map[], arrivals, clock, now);
    RetryAfterIsExact(limit, TableAfter(limit, map[], arrivals), p, now);
  }

  lemma SecondsAreTheLeast(remaining: int)
    requires remaining > 0
    ensures var r := Seconds(remaining);
            r >= 1 && (r - 1) * SECOND < remaining <= r * SECOND
  {
  }

  // ----------------------------------------------------------------------------- the retry

  function From(start: int, times: seq<int>): seq<int> {
    if times == [] then [] else (if times[0] >= start then [times[0]] else []) + From(start, times[1..])
  }

  lemma {:induction false} AllFrom(start: int, times: seq<int>)
    requires forall i :: 0 <= i < |times| ==> times[i] >= start
    ensures From(start, times) == times
  {
    if times != [] {
      AllFrom(start, times[1..]);
    }
  }

  lemma SinceFirst(clock: int, between: seq<Arrival>, last: Arrival)
    requires between != [] && Since(clock, between + [last])
    ensures clock <= between[0].now <= last.now && Since(between[0].now, between[1..] + [last]) && Since(between[0].now, between[1..])
  {
    var all := between + [last];
    SinceRest(clock, all);
    assert all[1..] == between[1..] + [last];
    assert all[|between|] == last;
    assert forall i :: 0 <= i < |between[1..]| ==> between[1..][i] == all[i + 1];
  }

  // Inside an open window a request is refused by the count once the window is used up.
  lemma {:induction false} WindowFillsUp(limit: int, t: Table, between: seq<Arrival>, p: Principal, clock: int, at: int)
    requires limit >= 1 && p in t && 1 <= t[p].count <= limit && at < t[p].resetAt && Since(clock, between + [Arrival(p, at)])
    ensures Attempt(limit, TableAfter(limit, t, between), p, at).decision.Limited?
      <==> t[p].count + |TimesOf(limit, t, between, p)| >= limit
    decreases between
  {
    if between != [] {
      var first, rest := between[0], between[1..];
      var a := Attempt(limit, t, first.who, first.now);
      SinceFirst(clock, between, Arrival(p, at));
      EffectOnOne(limit, t, first, p);
      hide Attempt, Since, TimesOf;
      WindowFillsUp(limit, a.table, rest, p, first.now, at);
    } else {
      EffectOnOne(limit, t, Arrival(p, at), p);
    }
  }

  // The answer to p at `at`, where a full window ended at `end` and `counted` are the readings of p
  // from then on that were counted.
  ghost predicate RetryAnswer(limit: int, d: Decision, at: int, end: int, counted: seq<int>) {
    && (at < end ==> d.Limited?)
    && (at >= end && counted == [] ==> !d.Limited?)
    && (counted != [] && at < counted[0] + MINUTE ==> (d.Limited? <==> |counted| >= limit))
  }

  lemma {:induction false} AnswerAfterFullWindow(limit: int, t: Table, between: seq<Arrival>, p: Principal, w: Window, clock: int, at: int)
    requires limit >= 1 && w.count >= limit && Since(clock, between + [Arrival(p, at)])
    requires if p in t then t[p] == w else clock >= w.resetAt
    ensures RetryAnswer(limit, Attempt(limit, TableAfter(limit, t, between), p, at).decision, at, w.resetAt,
                        From(w.resetAt, TimesOf(limit, t, between, p)))
    decreases between
  {
    if between != [] {
      var first, rest := between[0], between[1..];
      var a := Attempt(limit, t, first.who, first.now);
      SinceFirst(clock, between, Arrival(p, at));
      EffectOnOne(limit, t, first, p);
      hide Attempt, Since, TimesOf, From, RetryAnswer;
      if p in a.table && a.table[p] != w {
        NewWindowAfter(limit, t, between, p, w.resetAt, at);
      } else {
        NothingNew(limit, t, between, p, w.resetAt);
        AnswerAfterFullWindow(limit, a.table, rest, p, w, first.now, at);
      }
    } else {
      assert (between + [Arrival(p, at)])[0].now == at;
      EffectOnOne(limit, t, Arrival(p, at), p);
      hide Attempt;
      assert TimesOf(limit, t, between, p) == [];
    }
  }

  // The first arrival is none of p's counted ones from `end` on.
  lemma NothingNew(limit: int, t: Table, between: seq<Arrival>, p: Principal, end: int)
    requires between != []
    requires Counts(between[0], Attempt(limit, t, between[0].who, between[0].now).decision, p) ==> between[0].now < end
    ensures var u := Attempt(limit, t, between[0].who, between[0].now).table;
            From(end, TimesOf(limit, t, between, p)) == From(end, TimesOf(limit, u, between[1..], p))
  {
    hide Attempt;
    var later := TimesOf(limit, Attempt(limit, t, between[0].who, between[0].now).table, between[1..], p);
    assert ([between[0].now] + later)[1..] == later;
  }

  // The first arrival opens a new window for p.
  lemma NewWindowAfter(limit: int, t: Table, between: seq<Arrival>, p: Principal, end: int, at: int)
    requires limit >= 1 && between != [] && Since(between[0].now, between[1..] + [Arrival(p, at)])
    requires Since(between[0].now, between[1..]) && between[0].now <= at
    requires between[0].who == p && between[0].now >= end
    requires Attempt(limit, t, p, between[0].now).decision == Admitted
    requires p in Attempt(limit, t, p, between[0].now).table
    requires Attempt(limit, t, p, between[0].now).table[p] == Window(1, between[0].now + MINUTE)
    ensures RetryAnswer(limit, Attempt(limit, TableAfter(limit, t, between), p, at).decision, at, end, From(end, TimesOf(limit, t, between, p)))
  {
    hide Attempt, Since;
    var first, rest := between[0], between[1..];
    var u := Attempt(limit, t, p, first.now).table;
    var times := TimesOf(limit, u, rest, p);
    TimesAreOrdered(limit, u, rest, p, first.now);
    AllFrom(end, [first.now] + times);
    hide TimesOf;
    if at < first.now + MINUTE {
      WindowFillsUp(limit, u, rest, p, first.now, at);
    }
  }

  /** A principal refused by the count is told r seconds. However it and others go on, in order, and
      with `counted` for its readings from the end of its window on that were counted: a retry before
      that end is refused; with nothing counted a later one is not refused by the count; and within a
      minute of the first counted reading, which includes the told instant, it is refused exactly
      when at least `limit` were counted. */
  lemma RetryAfterIsHonoured(limit: int, t: Table, p: Principal, now: int, between: seq<Arrival>, at: int)
    requires limit >= 1 && Live(t, p, now) && t[p].count >= limit
    requires Since(now, between + [Arrival(p, at)])
    ensures Attempt(limit, t, p, now).decision.Limited?
    ensures var told := now + Attempt(limit, t, p, now).decision.retryAfter * SECOND;
            var retried := Attempt(limit, TableAfter(limit, t, between), p, at).decision;
            var counted := From(t[p].resetAt, TimesOf(limit, t, between, p));
            && told - SECOND < t[p].resetAt <= told
            && (at < t[p].resetAt ==> retried.Limited?)
            && (at >= t[p].resetAt && counted == [] ==> !retried.Limited?)
            && (counted != [] && at < counted[0] + MINUTE ==> (retried.Limited? <==> |counted| >= limit))
            && (counted != [] ==> told < counted[0] + MINUTE)
  {
    RefusedNow(limit, t, p, now);
    SecondsAreTheLeast(t[p].resetAt - now);
    FromIsLater(t[p].resetAt, TimesOf(limit, t, between, p));
    hide Attempt, TableAfter, Since, From;
    AnswerAfterFullWindow(limit, t, between, p, t[p], now, at);
  }

  lemma {:induction false} FromIsLater(start: int, times: seq<int>)
    ensures From(start, times) != [] ==> From(start, times)[0] >= start
  {
    if times != [] {
      FromIsLater(start, times[1..]);
    }
  }

  lemma RefusedNow(limit: int, t: Table, p: Principal, now: int)
    requires Live(t, p, now) && t[p].count >= limit
    ensures Attempt(limit, t, p, now) == Attempted(t, Limited(Seconds(t[p].resetAt - now)))
  {
  }

  lemma {:induction false} NothingFrom(limit: int, t: Table, between: seq<Arrival>, p: Principal, end: int)
    requires forall i :: 0 <= i < |between| && between[i].who == p ==> between[i].now < end
    ensures From(end, TimesOf(limit, t, between, p)) == []
    decreases between
  {
    hide Attempt;
    if between != [] {
      NothingFrom(limit, Attempt(limit, t, between[0].who, between[0].now).table, between[1..], p, end);
    }
  }

  /** So a principal that stays away from the end of its window until the told instant is then not
      refused by the count, whatever others do, and any whole second earlier it is. */
  lemma PatientRetryIsHonoured(limit: int, t: Table, p: Principal, now: int, between: seq<Arrival>, at: int)
    requires limit >= 1 && Live(t, p, now) && t[p].count >= limit
    requires Since(now, between + [Arrival(p, at)])
    requires forall i :: 0 <= i < |between| && between[i].who == p ==> between[i].now < t[p].resetAt
    ensures Attempt(limit, t, p, now).decision.Limited?
    ensures var r := Attempt(limit, t, p, now).decision.retryAfter;
            var retried := Attempt(limit, TableAfter(limit, t, between), p, at).decision;
            && (at >= now + r * SECOND ==> !retried.Limited?)
            && (at <= now + (r - 1) * SECOND ==> retried.Limited?)
  {
    RetryAfterIsHonoured(limit, t, p, now, between, at);
    NothingFrom(limit, t, between, p, t[p].resetAt);
    hide Attempt, TableAfter, TimesOf, From, Since, Live;
  }

  lemma AloneWithLimitOne(p: Principal)
    ensures var w, w' := map[p := Window(1, MINUTE)], map[p := Window(1, 2 * MINUTE + 1)];
            && Attempt(1, map[], p, 0) == Attempted(w, Admitted)
            && Attempt(1, w, p, 58 * SECOND + SECOND / 2) == Attempted(w, Limited(2))
            && Attempt(1, w, p, MINUTE + 1) == Attempted(w', Admitted)
            && Attempt(1, w', p, MINUTE + SECOND / 2) == Attempted(w', Limited(60))
  {
    assert map[p := Window(1, MINUTE)] - {p} == map[];
  }

  /** Whole seconds overshoot the end of the window, and a request in between uses the new window up:
      told to wait two seconds at 58.5 s, a principal that also sends at 60 s and a nanosecond is
      refused at 60.5 s. */
  lemma EarlyRetryUsesTheNewWindow(p: Principal)
    ensures Run(1, map[], [Arrival(p, 0), Arrival(p, 58 * SECOND + SECOND / 2), Arrival(p, MINUTE + 1), Arrival(p, MINUTE + SECOND / 2)])
         == [Admitted, Limited(2), Admitted, Limited(60)]
  {
    var w, w' := map[p := Window(1, MINUTE)], map[p := Window(1, 2 * MINUTE + 1)];
    var a0, a1, a2, a3 := Arrival(p, 0), Arrival(p, 58 * SECOND + SECOND / 2), Arrival(p, MINUTE + 1), Arrival(p, MINUTE + SECOND / 2);
    AloneWithLimitOne(p);
    hide Attempt;
    assert [a0, a1, a2, a3][1..] == [a1, a2, a3] && [a1, a2, a3][1..] == [a2, a3] && [a2, a3][1..] == [a3] && [a3][1..] == [];
    assert Run(1, w', [a3]) == [Limited(60)];
    assert Run(1, w, [a2, a3]) == [Admitted, Limited(60)];
    assert Run(1, w, [a1, a2, a3]) == [Limited(2), Admitted, Limited(60)];
  }

  /** Without the ordering assumption: the number is still positive, and it stays within 60 exactly
      when the window was not opened by a later reading than this one. */
  lemma RetryAfterInAnyOrder(limit: int, t: Table, p: Principal, now: int)
    requires limit >= 1
    ensures var d := Attempt(limit, t, p, now).decision;
            d.Limited? ==>
              && p in t && d.retryAfter >= 1
              && (d.retryAfter <= 60 <==> t[p].resetAt - MINUTE <= now)
  {
    if Attempt(limit, t, p, now).decision.Limited? {
      assert Live(t, p, now);
      SecondsAreTheLeast(t[p].resetAt - now);
    }
  }

  /** The clock is read before the mutex is taken, so this order is possible: a window opened at one
      minute, and then a reading a second older. */
  lemma OlderReadingWaitsLonger(p: Principal)
    ensures Run(1, map[], [Arrival(p, MINUTE), Arrival(p, MINUTE - SECOND)]) == [Admitted, Limited(61)]
  {
    var arrivals := [Arrival(p, MINUTE), Arrival(p, MINUTE - SECOND)];
    var t := Attempt(1, map[], p, MINUTE).table;
    assert t == map[p := Window(1, 2 * MINUTE)];
    assert Live(t, p, MINUTE - SECOND);
    assert Attempt(1, t, p, MINUTE - SECOND).decision == Limited(61);
    assert arrivals[1..] == [Arrival(p, MINUTE - SECOND)];
    assert arrivals[1..][1..] == [];
    assert Run(1, t, arrivals[1..]) == [Limited(61)];
  }
}
