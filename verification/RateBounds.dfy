/** Sliding-interval bounds on the admissions of one principal. */
module RateBounds {
  import opened RateLimit
  import opened RateRuns
  import opened RateRefinement

  // How often p was admitted with a reading in [lo, hi).
  function Admissions(arrivals: seq<Arrival>, answers: seq<Decision>, p: Principal, lo: int, hi: int): nat
    requires |arrivals| == |answers|
  {
    if arrivals == [] then 0
    else
      (if arrivals[0].who == p && lo <= arrivals[0].now < hi && answers[0].Admitted? then 1 else 0)
      + Admissions(arrivals[1..], answers[1..], p, lo, hi)
  }

  lemma AdmissionsUnfold(limit: int, t: Table, arrivals: seq<Arrival>, p: Principal, lo: int, hi: int)
    requires arrivals != []
    ensures var first, rest := arrivals[0], arrivals[1..];
            var a := Attempt(limit, t, first.who, first.now);
            Admissions(arrivals, Run(limit, t, arrivals), p, lo, hi)
            == (if first.who == p && lo <= first.now < hi && a.decision.Admitted? then 1 else 0)
               + Admissions(rest, Run(limit, a.table, rest), p, lo, hi)
  {
    hide Attempt;
    var a := Attempt(limit, t, arrivals[0].who, arrivals[0].now);
    assert Run(limit, t, arrivals)[1..] == Run(limit, a.table, arrivals[1..]);
  }

  lemma NoArrivals(limit: int, t: Table, arrivals: seq<Arrival>, p: Principal, lo: int, hi: int)
    requires arrivals == []
    ensures Admissions(arrivals, Run(limit, t, arrivals), p, lo, hi) == 0
  {
  }

  // ---------------------------------------------------------------- readings that lag behind

  function Later(a: int, b: int): int {
    if a < b then b else a
  }

  lemma LateIsNewest(a: int, b: int)
    ensures Later(a, b) >= b
  {
  }

  // Every reading is at most `delay` older than the newest one seen before it (`top` to begin with).
  predicate Lagging(top: int, delay: nat, arrivals: seq<Arrival>)
    decreases arrivals
  {
    arrivals != [] ==> top - delay <= arrivals[0].now && Lagging(Later(top, arrivals[0].now), delay, arrivals[1..])
  }

  lemma {:induction false} NothingBefore(limit: int, t: Table, arrivals: seq<Arrival>, p: Principal, top: int, delay: nat, lo: int, hi: int)
    requires Lagging(top, delay, arrivals) && hi <= top - delay
    ensures Admissions(arrivals, Run(limit, t, arrivals), p, lo, hi) == 0
    decreases arrivals
  {
    hide Attempt;
    if arrivals != [] {
      AdmissionsUnfold(limit, t, arrivals, p, lo, hi);
      NothingBefore(limit, Attempt(limit, t, arrivals[0].who, arrivals[0].now).table, arrivals[1..], p,
        Later(top, arrivals[0].now), delay, lo, hi);
    } else {
      assert Run(limit, t, arrivals) == [];
    }
  }

  // The last window of p began at `begun`; where the table no longer has it, its end has been read.
  ghost predicate LastBegan(begun: int, limit: int, t: Table, p: Principal, top: int) {
    if p in t then t[p].resetAt == begun + MINUTE && 1 <= t[p].count <= limit else begun + MINUTE <= top
  }

  function RoomLeft(limit: int, t: Table, p: Principal): int {
    if p in t then limit - t[p].count else 0
  }

  // One arrival: either the last window goes on, or a new one begins, the gap later at the earliest.
  lemma LaggingStep(limit: int, t: Table, first: Arrival, p: Principal, top: int, delay: nat, begun: int)
    requires limit >= 1 && LastBegan(begun, limit, t, p, top) && delay < MINUTE && top - delay <= first.now
    ensures var a := Attempt(limit, t, first.who, first.now);
            var admitted := if first.who == p && a.decision.Admitted? then 1 else 0;
            || (LastBegan(begun, limit, a.table, p, Later(top, first.now)) && RoomLeft(limit, a.table, p) + admitted <= RoomLeft(limit, t, p))
            || (first.who == p && begun + MINUTE - delay <= first.now && admitted == 1
                && LastBegan(first.now, limit, a.table, p, Later(top, first.now)) && RoomLeft(limit, a.table, p) == limit - 1)
  {
    EffectOnOne(limit, t, first, p);
    hide Attempt;
  }

  function Product(n: int, x: int): int {
    n * x
  }

  lemma OneFactorMore(n: nat, x: int)
    ensures Product(n + 1, x) == Product(n, x) + x
    ensures x >= 0 ==> Product(n, x) >= 0
    ensures Product(0, x) == 0
  {
    assert (n + 1) * x == n * x + x;
  }

  // After a window that began at `begun`, n more can begin in time to hold a reading before `hi`.
  lemma {:induction false} LaggingRest(limit: int, t: Table, arrivals: seq<Arrival>, p: Principal, top: int, delay: nat, begun: int,
                                       lo: int, hi: int, n: nat)
    requires limit >= 1 && LastBegan(begun, limit, t, p, top) && Lagging(top, delay, arrivals) && delay < MINUTE
    requires hi + delay <= begun + Product(n + 1, MINUTE - delay)
    ensures Admissions(arrivals, Run(limit, t, arrivals), p, lo, hi) <= RoomLeft(limit, t, p) + Product(n, limit)
    decreases arrivals
  {
    hide Attempt, Admissions, Run, Product;
    OneFactorMore(n, limit);
    assert RoomLeft(limit, t, p) >= 0;
    if arrivals == [] {
      NoArrivals(limit, t, arrivals, p, lo, hi);
    } else {
      var first, rest := arrivals[0], arrivals[1..];
      var a, newest := Attempt(limit, t, first.who, first.now), Later(top, first.now);
      AdmissionsUnfold(limit, t, arrivals, p, lo, hi);
      LaggingStep(limit, t, first, p, top, delay, begun);
      assert Lagging(newest, delay, rest);
      hide LastBegan, RoomLeft, Lagging, Later;
      var admitted := if first.who == p && a.decision.Admitted? then 1 else 0;
      if LastBegan(begun, limit, a.table, p, newest) && RoomLeft(limit, a.table, p) + admitted <= RoomLeft(limit, t, p) {
        LaggingRest(limit, a.table, rest, p, newest, delay, begun, lo, hi, n);
      } else if hi + delay <= first.now {
        LateIsNewest(top, first.now);
        NothingBefore(limit, a.table, rest, p, newest, delay, lo, hi);
      } else {
        OneFactorMore(n, MINUTE - delay);
        OneFactorMore(0, MINUTE - delay);
        assert n >= 1;
        OneFactorMore(n - 1, limit);
        LaggingRest(limit, a.table, rest, p, newest, delay, first.now, lo, hi, n - 1);
      }
    }
  }

  // So far no window of p reaches into the interval.
  ghost predicate AllBefore(lo: int, limit: int, t: Table, p: Principal) {
    p in t ==> t[p].resetAt <= lo
  }

  lemma EarlyStep(limit: int, t: Table, first: Arrival, p: Principal, lo: int)
    requires limit >= 1 && AllBefore(lo, limit, t, p)
    ensures var a := Attempt(limit, t, first.who, first.now);
            || (AllBefore(lo, limit, a.table, p) && (first.who == p && a.decision.Admitted? ==> first.now < lo))
            || (first.who == p && a.decision.Admitted? && lo - MINUTE < first.now && p in a.table && a.table[p] == Window(1, first.now + MINUTE))
  {
    EffectOnOne(limit, t, first, p);
    hide Attempt;
  }

  // The first window that reaches into the interval began at `now`.
  lemma FirstToReach(limit: int, t: Table, arrivals: seq<Arrival>, p: Principal, top: int, delay: nat, lo: int, hi: int, n: nat, now: int)
    requires limit >= 1 && p in t && t[p] == Window(1, now + MINUTE) && lo - MINUTE < now && Lagging(top, delay, arrivals)
    requires delay < MINUTE && lo <= hi && (hi - lo) + MINUTE + delay <= Product(n, MINUTE - delay)
    ensures (if lo <= now < hi then 1 else 0) + Admissions(arrivals, Run(limit, t, arrivals), p, lo, hi) <= Product(n, limit) - 1
  {
    hide Product, Admissions, Run, Lagging;
    OneFactorMore(0, MINUTE - delay);
    OneFactorMore(n - 1, MINUTE - delay);
    OneFactorMore(n - 1, limit);
    assert LastBegan(now, limit, t, p, top) && RoomLeft(limit, t, p) == limit - 1;
    hide LastBegan, RoomLeft;
    if now < lo || n == 1 {
      LaggingRest(limit, t, arrivals, p, top, delay, now, lo, hi, n - 1);
    } else {
      OneFactorMore(n - 2, limit);
      LaggingRest(limit, t, arrivals, p, top, delay, now, lo, hi, n - 2);
    }
  }

  lemma {:induction false} LaggingFromTheStart(limit: int, t: Table, arrivals: seq<Arrival>, p: Principal, top: int, delay: nat,
                                               lo: int, hi: int, n: nat)
    requires limit >= 1 && AllBefore(lo, limit, t, p) && Lagging(top, delay, arrivals) && delay < MINUTE
    requires lo <= hi && (hi - lo) + MINUTE + delay <= Product(n, MINUTE - delay)
    ensures Admissions(arrivals, Run(limit, t, arrivals), p, lo, hi) <= Product(n, limit) - 1
    decreases arrivals
  {
    if arrivals != [] {
      var first, rest := arrivals[0], arrivals[1..];
      var a, newest := Attempt(limit, t, first.who, first.now), Later(top, first.now);
      EarlyStep(limit, t, first, p, lo);
      AdmissionsUnfold(limit, t, arrivals, p, lo, hi);
      assert Lagging(newest, delay, rest);
      hide Attempt, Lagging, Admissions, Run, Product;
      if AllBefore(lo, limit, a.table, p) && (first.who == p && a.decision.Admitted? ==> first.now < lo) {
        LaggingFromTheStart(limit, a.table, rest, p, newest, delay, lo, hi, n);
      } else {
        FirstToReach(limit, a.table, rest, p, newest, delay, lo, hi, n, first.now);
      }
    } else {
      assert n >= 1;
      OneFactorMore(n - 1, limit);
      assert Run(limit, t, arrivals) == [];
    }
  }

  /** If readings lag behind by less than a minute, windows of one principal begin at least a minute
      less that delay apart: in any interval it is admitted at most n*limit - 1 times, where n such
      gaps span the interval, one minute and the delay. */
  lemma LaggingBound(limit: int, arrivals: seq<Arrival>, p: Principal, top: int, delay: nat, lo: int, hi: int, n: nat)
    requires limit >= 1 && Lagging(top, delay, arrivals) && delay < MINUTE
    requires lo <= hi && (hi - lo) + MINUTE + delay <= n * (MINUTE - delay)
    ensures Admissions(arrivals, Run(limit, map[], arrivals), p, lo, hi) <= n * limit - 1
  {
    LaggingFromTheStart(limit, map[], arrivals, p, top, delay, lo, hi, n);
  }

  lemma {:induction false} OrderedDoNotLag(clock: int, arrivals: seq<Arrival>)
    requires Since(clock, arrivals)
    ensures Lagging(clock, 0, arrivals)
    decreases arrivals
  {
    if arrivals != [] {
      SinceRest(clock, arrivals);
      OrderedDoNotLag(arrivals[0].now, arrivals[1..]);
    }
  }

  /** Non-decreasing readings: in any half-open interval of k minutes one principal is admitted at
      most (k+1)*limit - 1 times, whatever everybody else does and whatever eviction removes. */
  lemma SlidingBound(limit: int, arrivals: seq<Arrival>, p: Principal, clock: int, lo: int, k: int)
    requires limit >= 1 && k >= 1 && Since(clock, arrivals)
    ensures Admissions(arrivals, Run(limit, map[], arrivals), p, lo, lo + k * MINUTE) <= (k + 1) * limit - 1
  {
    OrderedDoNotLag(clock, arrivals);
    hide Admissions, Run, Since, Lagging;
    assert Product(k + 1, MINUTE - 0) == k * MINUTE + MINUTE;
    assert Admissions(arrivals, Run(limit, map[], arrivals), p, lo, lo + k * MINUTE) <= Product(k + 1, limit) - 1 by {
      hide Product, Attempt;
      LaggingFromTheStart(limit, map[], arrivals, p, clock, 0, lo, lo + k * MINUTE, k + 1);
    }
  }

  // ------------------------------------------------------------- the bound cannot be improved

  function Tally(times: seq<int>, answers: seq<Decision>, lo: int, hi: int): nat
    requires |times| == |answers|
  {
    if times == [] then 0
    else (if lo <= times[0] < hi && answers[0].Admitted? then 1 else 0) + Tally(times[1..], answers[1..], lo, hi)
  }

  function Burst(at: int, n: nat): seq<int> {
    if n == 0 then [] else [at] + Burst(at, n - 1)
  }

  // `limit` requests at the start of each of the minutes first..last.
  function Minutes(limit: nat, first: int, last: int): seq<int>
    decreases last - first
  {
    if first > last then [] else Burst(first * MINUTE, limit) + Minutes(limit, first + 1, last)
  }

  lemma {:induction false} BurstIsAdmitted(limit: int, w: Window, at: int, n: nat, rest: seq<int>, lo: int, hi: int)
    requires at < w.resetAt && w.count + n <= limit && lo <= at < hi
    ensures var full := Open(w.(count := w.count + n));
            Tally(Burst(at, n) + rest, CounterRun(limit, Open(w), Burst(at, n) + rest), lo, hi)
            == n + Tally(rest, CounterRun(limit, full, rest), lo, hi)
    decreases n
  {
    if n == 0 {
      assert Burst(at, n) + rest == rest;
      assert w.(count := w.count + n) == w;
    } else {
      var next := w.(count := w.count + 1);
      OneAdmission(limit, w, at);
      hide Count;
      var times, fewer := Burst(at, n) + rest, Burst(at, n - 1) + rest;
      assert times[0] == at && times[1..] == fewer;
      assert CounterRun(limit, Open(w), times) == [Admitted] + CounterRun(limit, Open(next), fewer);
      BurstIsAdmitted(limit, next, at, n - 1, rest, lo, hi);
      assert next.(count := next.count + (n - 1)) == w.(count := w.count + n);
    }
  }

  lemma OneAdmission(limit: int, w: Window, at: int)
    requires at < w.resetAt && w.count < limit
    ensures Count(limit, Open(w), at) == Counted(Open(w.(count := w.count + 1)), Admitted)
  {
  }

  lemma {:induction false} EachMinuteIsFilled(limit: int, w: Window, first: int, last: int, lo: int, hi: int)
    requires limit >= 1 && w.resetAt <= first * MINUTE && first <= last + 1
    requires lo <= first * MINUTE && last * MINUTE < hi
    ensures Tally(Minutes(limit, first, last), CounterRun(limit, Open(w), Minutes(limit, first, last)), lo, hi)
            == (last - first + 1) * limit
    decreases last - first
  {
    if first <= last {
      var at := first * MINUTE;
      var later := Minutes(limit, first + 1, last);
      var all := Minutes(limit, first, last);
      assert all == [at] + (Burst(at, limit - 1) + later) by {
        assert Burst(at, limit) == [at] + Burst(at, limit - 1);
      }
      assert all[1..] == Burst(at, limit - 1) + later;
      var begun := Window(1, at + MINUTE);
      assert Count(limit, Open(w), at) == Counted(Open(begun), Admitted);
      BurstIsAdmitted(limit, begun, at, limit - 1, later, lo, hi);
      EachMinuteIsFilled(limit, Window(limit, at + MINUTE), first + 1, last, lo, hi);
      assert (last - first + 1) * limit == (last - first) * limit + limit;
    }
  }

  function Worst(limit: nat, k: nat): seq<int>
    requires limit >= 1
  {
    [0] + (Burst(MINUTE - 1, limit - 1) + Minutes(limit, 1, k))
  }

  // A principal with the table to itself.
  function Alone(p: Principal, times: seq<int>): (r: seq<Arrival>)
    ensures |r| == |times| && forall i :: 0 <= i < |r| ==> r[i] == Arrival(p, times[i])
  {
    seq(|times|, i requires 0 <= i < |times| => Arrival(p, times[i]))
  }

  lemma {:induction false} AloneIsTheCounter(limit: int, t: Table, c: Counter, p: Principal, times: seq<int>)
    requires limit >= 1 && t.Keys <= {p} && Synced(t, p, c, Nothing)
    ensures Run(limit, t, Alone(p, times)) == CounterRun(limit, c, times)
    decreases times
  {
    if times != [] {
      var now, rest := times[0], times[1..];
      var first, a, s := Arrival(p, now), Attempt(limit, t, p, now), Count(limit, c, now);
      Subset(t.Keys, {p});
      SyncedStep(limit, t, p, c, Nothing, first);
      NoSweepAmongFew(limit, t, {p}, first, p);
      TableFullIsExact(limit, t, p, now);
      hide Attempt, Count, Synced, LostAfter;
      assert Alone(p, times)[1..] == Alone(p, rest);
      AloneIsTheCounter(limit, a.table, s.counter, p, rest);
    }
  }

  lemma WorstIsTheBound(limit: int, k: int)
    requires limit >= 1 && k >= 1
    ensures var times := Worst(limit, k);
            Tally(times, CounterRun(limit, Idle, times), MINUTE - 1, MINUTE - 1 + k * MINUTE) == (k + 1) * limit - 1
  {
    var lo, hi := MINUTE - 1, MINUTE - 1 + k * MINUTE;
    var times := Worst(limit, k);
    assert times[1..] == Burst(MINUTE - 1, limit - 1) + Minutes(limit, 1, k);
    BurstIsAdmitted(limit, Window(1, MINUTE), MINUTE - 1, limit - 1, Minutes(limit, 1, k), lo, hi);
    EachMinuteIsFilled(limit, Window(limit, MINUTE), 1, k, lo, hi);
    assert (k + 1) * limit == k * limit + limit;
  }

  lemma {:induction false} BurstIsOneInstant(at: int, n: nat)
    ensures forall i :: 0 <= i < |Burst(at, n)| ==> Burst(at, n)[i] == at
  {
    if n > 0 {
      BurstIsOneInstant(at, n - 1);
    }
  }

  lemma {:induction false} MinutesAreOrdered(limit: nat, first: int, last: int)
    ensures SinceTimes(first * MINUTE, Minutes(limit, first, last))
    decreases last - first
  {
    if first <= last {
      BurstIsOneInstant(first * MINUTE, limit);
      MinutesAreOrdered(limit, first + 1, last);
    }
  }

  lemma {:induction false} AloneIsTallied(p: Principal, times: seq<int>, answers: seq<Decision>, lo: int, hi: int)
    requires |times| == |answers|
    ensures Admissions(Alone(p, times), answers, p, lo, hi) == Tally(times, answers, lo, hi)
  {
    if times != [] {
      AloneIsTallied(p, times[1..], answers[1..], lo, hi);
      assert Alone(p, times)[1..] == Alone(p, times[1..]);
    }
  }

  lemma WorstIsOrdered(limit: int, k: int, p: Principal)
    requires limit >= 1 && k >= 1
    ensures Since(0, Alone(p, Worst(limit, k)))
  {
    BurstIsOneInstant(MINUTE - 1, limit - 1);
    MinutesAreOrdered(limit, 1, k);
    assert SinceTimes(0, Worst(limit, k));
  }

  /** The sliding bound is the best possible: one early request, the rest of its window in the
      window's last nanosecond, then k full windows reach it for every limit and every k. */
  lemma SlidingBoundIsAttained(limit: int, p: Principal, k: int)
    requires limit >= 1 && k >= 1
    ensures var arrivals := Alone(p, Worst(limit, k));
            && Since(0, arrivals)
            && Admissions(arrivals, Run(limit, map[], arrivals), p, MINUTE - 1, MINUTE - 1 + k * MINUTE) == (k + 1) * limit - 1
  {
    var times := Worst(limit, k);
    WorstIsOrdered(limit, k, p);
    assert Synced(map[], p, Idle, Nothing);
    hide *;
    WorstIsTheBound(limit, k);
    AloneIsTheCounter(limit, map[], Idle, p, times);
    AloneIsTallied(p, times, CounterRun(limit, Idle, times), MINUTE - 1, MINUTE - 1 + k * MINUTE);
  }

  // ------------------------------------------------------------------ readings that lag too far

  // A delayed reading is charged to the window that is open when it gets the mutex.
  lemma DelayedReadingIsCharged(limit: int, t: Table, w: Window, p: Principal, now: int)
    requires limit >= 1 && t == map[p := w] && now < w.resetAt && w.count < limit
    ensures Attempt(limit, t, p, now) == Attempted(map[p := w.(count := w.count + 1)], Admitted)
  {
  }

  lemma NewWindow(limit: int, t: Table, w: Window, p: Principal, now: int)
    requires limit >= 1 && t == map[p := w] && now >= w.resetAt
    ensures Attempt(limit, t, p, now) == Attempted(map[p := Window(1, now + MINUTE)], Admitted)
  {
    RoomMade(t, p, now);
    assert MakeRoom(t, p, now) == map[];
  }

  lemma OneMoreInFront(limit: int, t: Table, next: Table, first: Arrival, rest: seq<Arrival>, p: Principal, lo: int, hi: int)
    requires Attempt(limit, t, first.who, first.now) == Attempted(next, Admitted) && first.who == p
    ensures var all := [first] + rest;
            Admissions(all, Run(limit, t, all), p, lo, hi)
            == (if lo <= first.now < hi then 1 else 0) + Admissions(rest, Run(limit, next, rest), p, lo, hi)
  {
    var all := [first] + rest;
    assert all[1..] == rest;
    assert Run(limit, t, all)[1..] == Run(limit, next, rest);
  }

  lemma LaggingInFront(top: int, first: Arrival, rest: seq<Arrival>)
    requires top - 2 <= first.now
    ensures Lagging(Later(top, first.now), 2, rest) ==> Lagging(top, 2, [first] + rest)
  {
    assert ([first] + rest)[1..] == rest;
  }

  // Windows from 1 - MINUTE, from 1 and from MINUTE + 1, and a last reading two nanoseconds late.
  function LateByTwo(p: Principal): seq<Arrival> {
    [Arrival(p, 1 - MINUTE)] + ([Arrival(p, 0)] + ([Arrival(p, 1)] + ([Arrival(p, 1)] + ([Arrival(p, MINUTE + 1)] + ([Arrival(p, MINUTE - 1)] + [])))))
  }

  /** The ordering assumption matters to the sliding bound: limit 2 allows 3 admissions in a minute,
      and with readings at most two nanoseconds late this run has 4. */
  lemma DelayedReadingsBreakTheBound(p: Principal)
    ensures Lagging(1 - MINUTE, 2, LateByTwo(p))
    ensures Admissions(LateByTwo(p), Run(2, map[], LateByTwo(p)), p, 0, MINUTE) == 4
  {
    var w1, w2 := map[p := Window(1, 1)], map[p := Window(2, 1)];
    var w3, w4 := map[p := Window(1, MINUTE + 1)], map[p := Window(2, MINUTE + 1)];
    var w5, w6 := map[p := Window(1, 2 * MINUTE + 1)], map[p := Window(2, 2 * MINUTE + 1)];
    assert Attempt(2, map[], p, 1 - MINUTE) == Attempted(w1, Admitted);
    DelayedReadingIsCharged(2, w1, Window(1, 1), p, 0);
    NewWindow(2, w2, Window(2, 1), p, 1);
    DelayedReadingIsCharged(2, w3, Window(1, MINUTE + 1), p, 1);
    NewWindow(2, w4, Window(2, MINUTE + 1), p, MINUTE + 1);
    DelayedReadingIsCharged(2, w5, Window(1, 2 * MINUTE + 1), p, MINUTE - 1);
    hide Attempt, Run, Admissions;
    var a5: seq<Arrival> := [];
    OneMoreInFront(2, w5, w6, Arrival(p, MINUTE - 1), a5, p, 0, MINUTE);
    var a4 := [Arrival(p, MINUTE - 1)] + a5;
    OneMoreInFront(2, w4, w5, Arrival(p, MINUTE + 1), a4, p, 0, MINUTE);
    var a3 := [Arrival(p, MINUTE + 1)] + a4;
    OneMoreInFront(2, w3, w4, Arrival(p, 1), a3, p, 0, MINUTE);
    var a2 := [Arrival(p, 1)] + a3;
    OneMoreInFront(2, w2, w3, Arrival(p, 1), a2, p, 0, MINUTE);
    var a1 := [Arrival(p, 1)] + a2;
    OneMoreInFront(2, w1, w2, Arrival(p, 0), a1, p, 0, MINUTE);
    var a0 := [Arrival(p, 0)] + a1;
    OneMoreInFront(2, map[], w1, Arrival(p, 1 - MINUTE), a0, p, 0, MINUTE);
    NoArrivals(2, w6, a5, p, 0, MINUTE);
    LaggingInFront(1 - MINUTE, Arrival(p, 1 - MINUTE), a0);
    LaggingInFront(1 - MINUTE, Arrival(p, 0), a1);
    LaggingInFront(0, Arrival(p, 1), a2);
    LaggingInFront(1, Arrival(p, 1), a3);
    LaggingInFront(1, Arrival(p, MINUTE + 1), a4);
    LaggingInFront(MINUTE + 1, Arrival(p, MINUTE - 1), a5);
  }
}
