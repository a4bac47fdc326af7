/** When the bounded, evicting, shared table answers a principal like a private unbounded counter. */
module RateRefinement {
  import opened RateLimit
  import opened RateRuns

  // The table answers p like the counter that is shown only the requests of p it had room for.
  ghost predicate Refines(limit: int, arrivals: seq<Arrival>, p: Principal) {
    AnswersTo(limit, map[], arrivals, p) == CounterRun(limit, Idle, TimesOf(limit, map[], arrivals, p))
  }

  // -------------------------------------------------------------- readings in any order

  // The window of p that requests of others have swept out of the table, until p opens another.
  datatype Lost = Nothing | WindowUntil(resetAt: int)

  function LostAfter(limit: int, t: Table, lost: Lost, first: Arrival, p: Principal): Lost {
    var a := Attempt(limit, t, first.who, first.now);
    if first.who == p then (if a.decision == TableFull then lost else Nothing)
    else if p in t && p !in a.table then WindowUntil(t[p].resetAt)
    else lost
  }

  predicate InTime(limit: int, t: Table, lost: Lost, first: Arrival, p: Principal) {
    first.who == p && lost.WindowUntil? && Attempt(limit, t, p, first.now).decision != TableFull ==> first.now >= lost.resetAt
  }

  // No request of p comes with a reading from inside a window that was swept away before it.
  predicate Undisturbed(limit: int, t: Table, lost: Lost, arrivals: seq<Arrival>, p: Principal)
    decreases arrivals
  {
    arrivals != [] ==>
      var first := arrivals[0];
      && InTime(limit, t, lost, first, p)
      && Undisturbed(limit, Attempt(limit, t, first.who, first.now).table, LostAfter(limit, t, lost, first, p), arrivals[1..], p)
  }

  // The table and the counter hold the same window, except that a lost one is only in the counter.
  ghost predicate Synced(t: Table, p: Principal, c: Counter, lost: Lost) {
    if p in t then lost.Nothing? && c == Open(t[p])
    else if lost.Nothing? then c.Idle?
    else c.Open? && c.window.resetAt == lost.resetAt
  }

  lemma SyncedOwnStep(limit: int, t: Table, p: Principal, c: Counter, lost: Lost, now: int)
    requires limit >= 1 && |t| <= MAX_TRACKED && Synced(t, p, c, lost) && InTime(limit, t, lost, Arrival(p, now), p)
    ensures var a, s := Attempt(limit, t, p, now), Count(limit, c, now);
            if a.decision == TableFull then p !in t && a.table == t
            else s.decision == a.decision && Synced(a.table, p, s.counter, Nothing)
  {
    if Live(t, p, now) {
      assert MakeRoom(t, p, now) == t;
      hide MakeRoom, Seconds;
    } else {
      EffectOnOne(limit, t, Arrival(p, now), p);
      TableFullIsExact(limit, t, p, now);
      hide Attempt, Seconds;
    }
  }

  lemma SyncedStep(limit: int, t: Table, p: Principal, c: Counter, lost: Lost, first: Arrival)
    requires limit >= 1 && |t| <= MAX_TRACKED && Synced(t, p, c, lost) && InTime(limit, t, lost, first, p)
    ensures var a := Attempt(limit, t, first.who, first.now);
            var s := Count(limit, c, first.now);
            var counted := first.who == p && a.decision != TableFull;
            && (counted ==> s.decision == a.decision)
            && Synced(a.table, p, if counted then s.counter else c, LostAfter(limit, t, lost, first, p))
  {
    hide Attempt, Count;
    if first.who == p {
      SyncedOwnStep(limit, t, p, c, lost, first.now);
    } else {
      EffectOnOne(limit, t, first, p);
    }
  }

  lemma {:induction false} UndisturbedSimulation(limit: int, t: Table, arrivals: seq<Arrival>, p: Principal, c: Counter, lost: Lost)
    requires limit >= 1 && WellKept(limit, t) && Synced(t, p, c, lost) && Undisturbed(limit, t, lost, arrivals, p)
    ensures AnswersTo(limit, t, arrivals, p) == CounterRun(limit, c, TimesOf(limit, t, arrivals, p))
    decreases arrivals
  {
    if arrivals != [] {
      var first, rest := arrivals[0], arrivals[1..];
      var a, s := Attempt(limit, t, first.who, first.now), Count(limit, c, first.now);
      SyncedStep(limit, t, p, c, lost, first);
      StoredIsBounded(limit, t, first.who, first.now);
      hide Attempt, Count, Synced, InTime, LostAfter, WellKept;
      var counted := first.who == p && a.decision != TableFull;
      UndisturbedSimulation(limit, a.table, rest, p, if counted then s.counter else c, LostAfter(limit, t, lost, first, p));
      var times := TimesOf(limit, a.table, rest, p);
      if counted {
        assert ([first.now] + times)[1..] == times;
      } else {
        assert [] + times == times;
      }
    }
  }

  /** Readings in any order: the table refines the counter as long as no request of p comes with a
      reading from inside a window that a sweep for somebody else has removed. */
  lemma UndisturbedRefines(limit: int, arrivals: seq<Arrival>, p: Principal)
    requires limit >= 1 && Undisturbed(limit, map[], Nothing, arrivals, p)
    ensures Refines(limit, arrivals, p)
  {
    UndisturbedSimulation(limit, map[], arrivals, p, Idle, Nothing);
  }

  // ------------------------------------------------------------------- two cases of that

  lemma {:induction false} OrderedIsUndisturbed(limit: int, t: Table, lost: Lost, arrivals: seq<Arrival>, p: Principal, clock: int)
    requires limit >= 1 && WellKept(limit, t) && Since(clock, arrivals)
    requires lost.WindowUntil? ==> lost.resetAt <= clock
    ensures Undisturbed(limit, t, lost, arrivals, p)
    decreases arrivals
  {
    if arrivals != [] {
      var first := arrivals[0];
      SinceRest(clock, arrivals);
      StoredIsBounded(limit, t, first.who, first.now);
      if first.who != p {
        OthersUndisturbed(limit, t, first.who, first.now, p);
      }
      hide Attempt, WellKept, Since;
      OrderedIsUndisturbed(limit, Attempt(limit, t, first.who, first.now).table, LostAfter(limit, t, lost, first, p), arrivals[1..], p, first.now);
    }
  }

  /** Non-decreasing readings: the bounded, evicting, shared table answers each principal exactly as
      a private unbounded counter that is shown only that principal's requests. */
  lemma TableRefinesCounter(limit: int, arrivals: seq<Arrival>, p: Principal, clock: int)
    requires limit >= 1 && Since(clock, arrivals)
    ensures Refines(limit, arrivals, p)
  {
    OrderedIsUndisturbed(limit, map[], Nothing, arrivals, p, clock);
    UndisturbedRefines(limit, arrivals, p);
  }

  lemma RoomAmongFew(t: Table, everybody: set<Principal>, who: Principal)
    requires |everybody| <= MAX_TRACKED && t.Keys <= everybody && who in everybody
    ensures |t - {who}| < MAX_TRACKED
  {
    var mine := t - {who};
    Subset(mine.Keys, everybody - {who});
    assert |everybody - {who}| == |everybody| - 1;
  }

  lemma NoSweepAmongFew(limit: int, t: Table, everybody: set<Principal>, first: Arrival, p: Principal)
    requires |everybody| <= MAX_TRACKED && t.Keys <= everybody && first.who in everybody
    ensures var u := Attempt(limit, t, first.who, first.now).table;
            u.Keys <= everybody && (first.who != p && p in t ==> p in u)
  {
    var room := MakeRoom(t, first.who, first.now);
    assert room == t || room == t - {first.who} by {
      RoomAmongFew(t, everybody, first.who);
    }
    hide MakeRoom, Seconds;
  }

  lemma {:induction false} FewAreUndisturbed(limit: int, t: Table, arrivals: seq<Arrival>, p: Principal, everybody: set<Principal>)
    requires |everybody| <= MAX_TRACKED && t.Keys <= everybody
    requires forall i :: 0 <= i < |arrivals| ==> arrivals[i].who in everybody
    ensures Undisturbed(limit, t, Nothing, arrivals, p)
    decreases arrivals
  {
    if arrivals != [] {
      var first := arrivals[0];
      NoSweepAmongFew(limit, t, everybody, first, p);
      hide Attempt;
      FewAreUndisturbed(limit, Attempt(limit, t, first.who, first.now).table, arrivals[1..], p, everybody);
    }
  }

  /** Readings in any order: with at most 10000 principals in all, the table refines the counter. */
  lemma FewPrincipalsRefine(limit: int, arrivals: seq<Arrival>, p: Principal, everybody: set<Principal>)
    requires limit >= 1 && |everybody| <= MAX_TRACKED
    requires forall i :: 0 <= i < |arrivals| ==> arrivals[i].who in everybody
    ensures Refines(limit, arrivals, p)
  {
    FewAreUndisturbed(limit, map[], arrivals, p, everybody);
    UndisturbedRefines(limit, arrivals, p);
  }

  /** Two servers that see the same requests of p at the same instants give p the same answers,
      Retry-After included, whatever traffic of others each of them carries. */
  lemma OthersDoNotMatter(limit: int, here: seq<Arrival>, there: seq<Arrival>, p: Principal)
    requires limit >= 1 && Undisturbed(limit, map[], Nothing, here, p) && Undisturbed(limit, map[], Nothing, there, p)
    requires TimesOf(limit, map[], here, p) == TimesOf(limit, map[], there, p)
    ensures AnswersTo(limit, map[], here, p) == AnswersTo(limit, map[], there, p)
  {
    UndisturbedRefines(limit, here, p);
    UndisturbedRefines(limit, there, p);
  }

  // --------------------------------------------------------------- and the condition is exact

  function Again(p: Principal, now: int, n: nat): seq<Arrival> {
    if n == 0 then [] else [Arrival(p, now)] + Again(p, now, n - 1)
  }

  function Copies<T>(x: T, n: nat): (r: seq<T>)
    ensures |r| == n
  {
    if n == 0 then [] else [x] + Copies(x, n - 1)
  }

  lemma Associates<T>(x: T, a: seq<T>, b: seq<T>)
    ensures [x] + (a + b) == [x] + a + b
  {
  }

  lemma Front<T>(a: seq<T>, b: seq<T>)
    requires a != []
    ensures a + b != [] && (a + b)[0] == a[0] && (a + b)[1..] == a[1..] + b
  {
  }

  lemma {:induction false} TimesInTwoParts(limit: int, t: Table, a: seq<Arrival>, b: seq<Arrival>, p: Principal)
    ensures TimesOf(limit, t, a + b, p) == TimesOf(limit, t, a, p) + TimesOf(limit, TableAfter(limit, t, a), b, p)
    decreases a
  {
    hide Attempt, Counts;
    if a == [] {
      assert a + b == b;
    } else {
      var u := Attempt(limit, t, a[0].who, a[0].now).table;
      Front(a, b);
      TimesInTwoParts(limit, u, a[1..], b, p);
      Associates(a[0].now, TimesOf(limit, u, a[1..], p), TimesOf(limit, TableAfter(limit, t, a), b, p));
    }
  }

  lemma {:induction false} AnswersInTwoParts(limit: int, t: Table, a: seq<Arrival>, b: seq<Arrival>, p: Principal)
    ensures AnswersTo(limit, t, a + b, p) == AnswersTo(limit, t, a, p) + AnswersTo(limit, TableAfter(limit, t, a), b, p)
    decreases a
  {
    hide Attempt, Counts, TimesOf;
    if a == [] {
      assert a + b == b;
    } else {
      var u := Attempt(limit, t, a[0].who, a[0].now);
      Front(a, b);
      AnswersInTwoParts(limit, u.table, a[1..], b, p);
      Associates(u.decision, AnswersTo(limit, u.table, a[1..], p), AnswersTo(limit, TableAfter(limit, t, a), b, p));
    }
  }

  function CounterAfter(limit: int, c: Counter, times: seq<int>): Counter
    decreases times
  {
    if times == [] then c else CounterAfter(limit, Count(limit, c, times[0]).counter, times[1..])
  }

  lemma {:induction false} CounterInTwoParts(limit: int, c: Counter, a: seq<int>, b: seq<int>)
    ensures CounterRun(limit, c, a + b) == CounterRun(limit, c, a) + CounterRun(limit, CounterAfter(limit, c, a), b)
    decreases a
  {
    hide Count;
    if a == [] {
      assert a + b == b;
    } else {
      var s := Count(limit, c, a[0]);
      Front(a, b);
      CounterInTwoParts(limit, s.counter, a[1..], b);
      Associates(s.decision, CounterRun(limit, s.counter, a[1..]), CounterRun(limit, CounterAfter(limit, c, a), b));
    }
  }

  function LostAfterAll(limit: int, t: Table, lost: Lost, arrivals: seq<Arrival>, p: Principal): Lost
    decreases arrivals
  {
    if arrivals == [] then lost
    else LostAfterAll(limit, Attempt(limit, t, arrivals[0].who, arrivals[0].now).table, LostAfter(limit, t, lost, arrivals[0], p), arrivals[1..], p)
  }

  lemma {:induction false} UndisturbedInTwoParts(limit: int, t: Table, lost: Lost, a: seq<Arrival>, b: seq<Arrival>, p: Principal)
    ensures Undisturbed(limit, t, lost, a + b, p)
      <==> Undisturbed(limit, t, lost, a, p) && Undisturbed(limit, TableAfter(limit, t, a), LostAfterAll(limit, t, lost, a, p), b, p)
    decreases a
  {
    hide Attempt, InTime, LostAfter;
    if a == [] {
      assert a + b == b;
    } else {
      Front(a, b);
      UndisturbedInTwoParts(limit, Attempt(limit, t, a[0].who, a[0].now).table, LostAfter(limit, t, lost, a[0], p), a[1..], b, p);
    }
  }

  ghost predicate SoundCounter(limit: int, c: Counter) {
    c.Open? ==> 1 <= c.window.count <= limit
  }

  lemma {:induction false} SyncedAfterAll(limit: int, t: Table, arrivals: seq<Arrival>, p: Principal, c: Counter, lost: Lost)
    requires limit >= 1 && WellKept(limit, t) && Synced(t, p, c, lost) && Undisturbed(limit, t, lost, arrivals, p) && SoundCounter(limit, c)
    ensures var c' := CounterAfter(limit, c, TimesOf(limit, t, arrivals, p));
            Synced(TableAfter(limit, t, arrivals), p, c', LostAfterAll(limit, t, lost, arrivals, p)) && SoundCounter(limit, c')
    decreases arrivals
  {
    if arrivals != [] {
      var first, rest := arrivals[0], arrivals[1..];
      var a, s := Attempt(limit, t, first.who, first.now), Count(limit, c, first.now);
      SyncedStep(limit, t, p, c, lost, first);
      StoredIsBounded(limit, t, first.who, first.now);
      assert SoundCounter(limit, s.counter);
      hide Attempt, Count, Synced, InTime, LostAfter, WellKept, SoundCounter;
      var counted := first.who == p && a.decision != TableFull;
      SyncedAfterAll(limit, a.table, rest, p, if counted then s.counter else c, LostAfter(limit, t, lost, first, p));
      var times := TimesOf(limit, a.table, rest, p);
      if counted {
        assert ([first.now] + times)[1..] == times;
      } else {
        assert [] + times == times;
      }
    }
  }

  lemma OneMoreInWindow(limit: int, t: Table, p: Principal, now: int)
    requires Live(t, p, now) && t[p].count < limit
    ensures Attempt(limit, t, p, now) == Attempted(t[p := t[p].(count := t[p].count + 1)], Admitted)
  {
  }

  lemma AdmittedInFront(limit: int, t: Table, u: Table, p: Principal, now: int, n: nat)
    requires Attempt(limit, t, p, now) == Attempted(u, Admitted)
    requires TimesOf(limit, u, Again(p, now, n), p) == Copies(now, n) && AnswersTo(limit, u, Again(p, now, n), p) == Copies(Admitted, n)
    ensures TimesOf(limit, t, Again(p, now, n + 1), p) == Copies(now, n + 1)
    ensures AnswersTo(limit, t, Again(p, now, n + 1), p) == Copies(Admitted, n + 1)
  {
    hide Attempt;
    var again := Again(p, now, n + 1);
    assert again[0] == Arrival(p, now) && again[1..] == Again(p, now, n);
    hide Again;
    assert Counts(again[0], Admitted, p);
  }

  // With an open window the table admits the repetitions the window has room for ...
  lemma {:induction false} TableAdmitsAgain(limit: int, t: Table, p: Principal, now: int, n: nat)
    requires Live(t, p, now) && t[p].count + n <= limit
    ensures TimesOf(limit, t, Again(p, now, n), p) == Copies(now, n)
    ensures AnswersTo(limit, t, Again(p, now, n), p) == Copies(Admitted, n)
    decreases n
  {
    if n > 0 {
      var u := t[p := t[p].(count := t[p].count + 1)];
      OneMoreInWindow(limit, t, p, now);
      TableAdmitsAgain(limit, u, p, now, n - 1);
      AdmittedInFront(limit, t, u, p, now, n - 1);
    } else {
      assert TimesOf(limit, t, Again(p, now, n), p) == [] == Copies(now, n);
      assert AnswersTo(limit, t, Again(p, now, n), p) == [] == Copies(Admitted, n);
    }
  }

  // ... and the counter refuses one more than its own window has room for.
  lemma {:induction false} CounterRefusesAgain(limit: int, w: Window, now: int, n: nat)
    requires now < w.resetAt && w.count <= limit && w.count + n > limit
    ensures CounterRun(limit, Open(w), Copies(now, n)) != Copies(Admitted, n)
    decreases n
  {
    var times := Copies(now, n);
    assert times[1..] == Copies(now, n - 1);
    var s := Count(limit, Open(w), now);
    assert CounterRun(limit, Open(w), times) == [s.decision] + CounterRun(limit, s.counter, times[1..]);
    if w.count < limit {
      CounterRefusesAgain(limit, w.(count := w.count + 1), now, n - 1);
      assert Copies(Admitted, n)[1..] == Copies(Admitted, n - 1);
    } else {
      assert Copies(Admitted, n)[0] == Admitted;
    }
  }

  lemma SecondWindow(limit: int, t: Table, p: Principal, c: Counter, lost: Lost, now: int)
    requires limit >= 1 && WellKept(limit, t) && Synced(t, p, c, lost) && !InTime(limit, t, lost, Arrival(p, now), p)
    ensures c.Open? && now < c.window.resetAt
    ensures var a := Attempt(limit, t, p, now);
            a.decision == Admitted && p in a.table && a.table[p] == Window(1, now + MINUTE)
  {
    RoomMade(t, p, now);
    hide MakeRoom, Seconds;
  }

  // A request from inside a lost window opens a second one, and repeating it tells them apart.
  lemma DisturbanceShows(limit: int, t: Table, p: Principal, c: Counter, lost: Lost, now: int) returns (n: nat)
    requires limit >= 1 && WellKept(limit, t) && Synced(t, p, c, lost) && SoundCounter(limit, c)
    requires !InTime(limit, t, lost, Arrival(p, now), p)
    ensures n >= 1
    ensures AnswersTo(limit, t, Again(p, now, n), p) != CounterRun(limit, c, TimesOf(limit, t, Again(p, now, n), p))
  {
    SecondWindow(limit, t, p, c, lost, now);
    var w, u := c.window, Attempt(limit, t, p, now).table;
    assert Live(u, p, now) && u[p].count == 1 && w.count <= limit;
    n := limit - w.count + 1;
    hide *;
    TableAdmitsAgain(limit, u, p, now, n - 1);
    AdmittedInFront(limit, t, u, p, now, n - 1);
    CounterRefusesAgain(limit, w, now, n);
  }

  lemma RefinesInTwoParts(limit: int, a: seq<Arrival>, b: seq<Arrival>, p: Principal)
    requires Refines(limit, a, p)
    ensures var t, c := TableAfter(limit, map[], a), CounterAfter(limit, Idle, TimesOf(limit, map[], a, p));
            Refines(limit, a + b, p) <==> AnswersTo(limit, t, b, p) == CounterRun(limit, c, TimesOf(limit, t, b, p))
  {
    var t, c := TableAfter(limit, map[], a), CounterAfter(limit, Idle, TimesOf(limit, map[], a, p));
    TimesInTwoParts(limit, map[], a, b, p);
    AnswersInTwoParts(limit, map[], a, b, p);
    CounterInTwoParts(limit, Idle, TimesOf(limit, map[], a, p), TimesOf(limit, t, b, p));
    hide AnswersTo, CounterRun, TimesOf, TableAfter, CounterAfter;
    var before, x := AnswersTo(limit, map[], a, p), AnswersTo(limit, t, b, p);
    var y := CounterRun(limit, c, TimesOf(limit, t, b, p));
    if before + x == before + y {
      assert x == (before + x)[|before|..] == (before + y)[|before|..] == y;
    }
  }

  lemma {:induction false} AgainIsInTime(limit: int, t: Table, p: Principal, c: Counter, lost: Lost, now: int, n: nat)
    requires limit >= 1 && WellKept(limit, t) && Synced(t, p, c, lost) && InTime(limit, t, lost, Arrival(p, now), p)
    ensures Undisturbed(limit, t, lost, Again(p, now, n), p)
    decreases n
  {
    if n > 0 {
      var first := Arrival(p, now);
      var a, s := Attempt(limit, t, p, now), Count(limit, c, now);
      SyncedStep(limit, t, p, c, lost, first);
      StoredIsBounded(limit, t, p, now);
      TableFullIsExact(limit, t, p, now);
      var counted := a.decision != TableFull;
      var lost' := LostAfter(limit, t, lost, first, p);
      assert counted ==> lost'.Nothing?;
      assert !counted ==> a.table == t && lost' == lost;
      assert InTime(limit, a.table, lost', first, p);
      hide Attempt, Count, Synced, InTime, LostAfter, WellKept;
      AgainIsInTime(limit, a.table, p, if counted then s.counter else c, lost', now, n - 1);
      assert Again(p, now, n)[0] == first && Again(p, now, n)[1..] == Again(p, now, n - 1);
    }
  }

  ghost predicate RefinesRepeatedly(limit: int, arrivals: seq<Arrival>, p: Principal, now: int) {
    forall n: nat :: Refines(limit, arrivals + Again(p, now, n), p)
  }

  /** The condition is exact: after an undisturbed run, a request of p and all its repetitions are
      answered like the counter's if and only if the request does not come from inside a window that
      was swept away. */
  lemma RefinementIsExact(limit: int, arrivals: seq<Arrival>, p: Principal, now: int)
    requires limit >= 1 && Undisturbed(limit, map[], Nothing, arrivals, p)
    ensures RefinesRepeatedly(limit, arrivals, p, now) <==> Undisturbed(limit, map[], Nothing, arrivals + [Arrival(p, now)], p)
  {
    var t, lost := TableAfter(limit, map[], arrivals), LostAfterAll(limit, map[], Nothing, arrivals, p);
    var c := CounterAfter(limit, Idle, TimesOf(limit, map[], arrivals, p));
    CapacityOverRuns(limit, map[], arrivals);
    SyncedAfterAll(limit, map[], arrivals, p, Idle, Nothing);
    UndisturbedInTwoParts(limit, map[], Nothing, arrivals, [Arrival(p, now)], p);
    assert Undisturbed(limit, t, lost, [Arrival(p, now)], p) <==> InTime(limit, t, lost, Arrival(p, now), p) by {
      hide Attempt, InTime, LostAfter;
      assert [Arrival(p, now)][1..] == [];
    }
    UndisturbedRefines(limit, arrivals, p);
    if InTime(limit, t, lost, Arrival(p, now), p) {
      forall n: nat ensures Refines(limit, arrivals + Again(p, now, n), p) {
        AgainIsInTime(limit, t, p, c, lost, now, n);
        UndisturbedInTwoParts(limit, map[], Nothing, arrivals, Again(p, now, n), p);
        UndisturbedRefines(limit, arrivals + Again(p, now, n), p);
      }
    } else {
      var n := DisturbanceShows(limit, t, p, c, lost, now);
      RefinesInTwoParts(limit, arrivals, Again(p, now, n), p);
      assert !Refines(limit, arrivals + Again(p, now, n), p);
    }
  }

  /** So a whole run is undisturbed if and only if each request of p in it, and its repetitions in its
      place, are answered like the counter's. */
  lemma {:induction false} UndisturbedIsExact(limit: int, arrivals: seq<Arrival>, p: Principal)
    requires limit >= 1
    ensures Undisturbed(limit, map[], Nothing, arrivals, p)
      <==> forall k :: 0 <= k < |arrivals| && arrivals[k].who == p ==> RefinesRepeatedly(limit, arrivals[..k], p, arrivals[k].now)
    decreases |arrivals|
  {
    if arrivals != [] {
      var n := |arrivals| - 1;
      var before, last := arrivals[..n], arrivals[n];
      assert arrivals == before + [last];
      UndisturbedIsExact(limit, before, p);
      assert forall k :: 0 <= k < n ==> before[..k] == arrivals[..k] && before[k] == arrivals[k];
      UndisturbedInTwoParts(limit, map[], Nothing, before, [last], p);
      if last.who == p {
        if Undisturbed(limit, map[], Nothing, before, p) {
          RefinementIsExact(limit, before, p, last.now);
        }
      } else {
        OthersAreInTime(limit, TableAfter(limit, map[], before), LostAfterAll(limit, map[], Nothing, before, p), last, p);
      }
    }
  }

  lemma OthersAreInTime(limit: int, t: Table, lost: Lost, a: Arrival, p: Principal)
    requires a.who != p
    ensures Undisturbed(limit, t, lost, [a], p)
  {
    hide Attempt, LostAfter;
    assert [a][1..] == [];
  }

  // ---------------------------------------------------------- a run that does not refine

  function Name(i: nat): (p: Principal)
    ensures |p| == i + 1
  {
    Copies('a', i + 1)
  }

  // The first n principals, all with reading 0.
  function Crowd(n: nat): seq<Arrival> {
    if n == 0 then [] else Crowd(n - 1) + [Arrival(Name(n - 1), 0)]
  }

  lemma OneOfTheCrowd(t: Table, n: nat)
    requires n < MAX_TRACKED && |t| == n && forall p :: p in t ==> |p| <= n && t[p] == Window(1, MINUTE)
    ensures Attempt(1, t, Name(n), 0) == Attempted(t[Name(n) := Window(1, MINUTE)], Admitted)
  {
    assert Name(n) !in t;
    assert t - {Name(n)} == t;
  }

  lemma {:induction false} CrowdFillsTheTable(n: nat)
    requires n <= MAX_TRACKED
    ensures var t := TableAfter(1, map[], Crowd(n));
            && |t| == n && (n >= 1 ==> Name(0) in t)
            && forall p :: p in t ==> 1 <= |p| <= n && p[0] == 'a' && t[p] == Window(1, MINUTE)
    ensures n >= 1 ==> TimesOf(1, map[], Crowd(n), Name(0)) == [0] && AnswersTo(1, map[], Crowd(n), Name(0)) == [Admitted]
  {
    if n >= 1 {
      CrowdFillsTheTable(n - 1);
      var t, last := TableAfter(1, map[], Crowd(n - 1)), Arrival(Name(n - 1), 0);
      RunOneMore(1, map[], Crowd(n - 1), last);
      OneOfTheCrowd(t, n - 1);
      OneMoreKey(t, last.who, Window(1, MINUTE));
      TimesInTwoParts(1, map[], Crowd(n - 1), [last], Name(0));
      AnswersInTwoParts(1, map[], Crowd(n - 1), [last], Name(0));
      hide Attempt;
      var later := TableAfter(1, map[], Crowd(n));
      OneArrival(1, t, last, Name(0));
      if n > 1 {
        assert |Name(0)| != |Name(n - 1)|;
      } else {
        assert TimesOf(1, map[], Crowd(0), Name(0)) == [] && AnswersTo(1, map[], Crowd(0), Name(0)) == [];
      }
    }
  }

  lemma OneArrival(limit: int, t: Table, a: Arrival, p: Principal)
    ensures var d := Attempt(limit, t, a.who, a.now).decision;
            && TimesOf(limit, t, [a], p) == (if a.who == p && d != TableFull then [a.now] else [])
            && AnswersTo(limit, t, [a], p) == (if a.who == p && d != TableFull then [d] else [])
  {
    hide Attempt;
    assert [a][1..] == [];
  }

  lemma SweepAndReturn(t: Table)
    requires |t| == MAX_TRACKED && forall p :: p in t ==> p != "b" && t[p] == Window(1, MINUTE)
    ensures Attempt(1, t, "b", MINUTE) == Attempted(map["b" := Window(1, 2 * MINUTE)], Admitted)
    ensures Attempt(1, map["b" := Window(1, 2 * MINUTE)], Name(0), 0).decision == Admitted
  {
    assert t - {"b"} == t && Swept(t, MINUTE) == map[];
    var u := map["b" := Window(1, 2 * MINUTE)];
    assert Name(0)[0] == 'a' && "b"[0] == 'b';
    assert u - {Name(0)} == u;
    OneMoreKey(map[], "b", Window(1, 2 * MINUTE));
    assert u == map[]["b" := Window(1, 2 * MINUTE)];
  }

  lemma Differs(arrivals: seq<Arrival>, p: Principal)
    requires AnswersTo(1, map[], arrivals, p) != CounterRun(1, Idle, TimesOf(1, map[], arrivals, p))
    ensures !Refines(1, arrivals, p)
  {
  }

  lemma TwoMore(crowd: seq<Arrival>, u: Table, sweeper: Arrival, late: Arrival, p: Principal)
    requires Attempt(1, TableAfter(1, map[], crowd), sweeper.who, sweeper.now) == Attempted(u, Admitted) && sweeper.who != p
    requires Attempt(1, u, p, late.now).decision == Admitted && late.who == p
    ensures TimesOf(1, map[], crowd + [sweeper, late], p) == TimesOf(1, map[], crowd, p) + [late.now]
    ensures AnswersTo(1, map[], crowd + [sweeper, late], p) == AnswersTo(1, map[], crowd, p) + [Admitted]
  {
    var t, two := TableAfter(1, map[], crowd), [sweeper, late];
    TimesInTwoParts(1, map[], crowd, two, p);
    AnswersInTwoParts(1, map[], crowd, two, p);
    OneArrival(1, u, late, p);
    hide Attempt;
    assert two[1..] == [late];
    assert TimesOf(1, t, two, p) == [] + TimesOf(1, u, [late], p) == [late.now];
    assert AnswersTo(1, t, two, p) == [] + AnswersTo(1, u, [late], p) == [Admitted];
  }

  lemma CounterAnswers()
    ensures CounterRun(1, Idle, [0, 0]) == [Admitted, Limited(60)]
  {
    assert [0, 0][1..] == [0] && [0][1..] == [];
    assert CounterRun(1, Open(Window(1, MINUTE)), [0]) == [Limited(60)];
  }

  lemma SweptRun(n: nat, p: Principal)
    requires n == MAX_TRACKED && p == Name(0)
    ensures var arrivals := Crowd(n) + [Arrival("b", MINUTE), Arrival(p, 0)];
            && TimesOf(1, map[], arrivals, p) == [0] + [0]
            && AnswersTo(1, map[], arrivals, p) == [Admitted] + [Admitted]
  {
    CrowdFillsTheTable(n);
    SweepAndReturn(TableAfter(1, map[], Crowd(n)));
    assert p[0] == 'a';
    hide *;
    TwoMore(Crowd(n), map["b" := Window(1, 2 * MINUTE)], Arrival("b", MINUTE), Arrival(p, 0), p);
  }

  /** A table filled at one instant, a minute later swept for somebody else, and then a request that
      had read the clock before: the table admits it although its principal's minute is used up. */
  lemma SweptAndAdmittedAgain()
    ensures var arrivals := Crowd(MAX_TRACKED) + [Arrival("b", MINUTE), Arrival(Name(0), 0)];
            && TimesOf(1, map[], arrivals, Name(0)) == [0, 0]
            && AnswersTo(1, map[], arrivals, Name(0)) == [Admitted, Admitted]
            && CounterRun(1, Idle, [0, 0]) == [Admitted, Limited(60)]
            && !Refines(1, arrivals, Name(0))
  {
    hide Crowd, Name, Copies, TimesOf, AnswersTo, CounterRun, Count, Attempt, Refines;
    SweptRun(MAX_TRACKED, Name(0));
    CounterAnswers();
    assert [0] + [0] == [0, 0] && [Admitted] + [Admitted] == [Admitted, Admitted];
    assert [Admitted, Admitted][1] != [Admitted, Limited(60)][1];
    Differs(Crowd(MAX_TRACKED) + [Arrival("b", MINUTE), Arrival(Name(0), 0)], Name(0));
  }
}
