/** What the rate limiter guarantees over whole runs of its critical section. */
module RateRuns {
  import opened RateLimit

  // Arrivals are listed in the order in which they take the mutex.
  datatype Arrival = Arrival(who: Principal, now: int)

  function Run(limit: int, t: Table, arrivals: seq<Arrival>): (r: seq<Decision>)
    ensures |r| == |arrivals|
    decreases arrivals
  {
    if arrivals == [] then []
    else
      var a := Attempt(limit, t, arrivals[0].who, arrivals[0].now);
      [a.decision] + Run(limit, a.table, arrivals[1..])
  }

  function TableAfter(limit: int, t: Table, arrivals: seq<Arrival>): Table
    decreases arrivals
  {
    if arrivals == [] then t
    else TableAfter(limit, Attempt(limit, t, arrivals[0].who, arrivals[0].now).table, arrivals[1..])
  }

  lemma {:induction false} RunOneMore(limit: int, t: Table, arrivals: seq<Arrival>, last: Arrival)
    ensures var a := Attempt(limit, TableAfter(limit, t, arrivals), last.who, last.now);
            && Run(limit, t, arrivals + [last]) == Run(limit, t, arrivals) + [a.decision]
            && TableAfter(limit, t, arrivals + [last]) == a.table
    decreases arrivals
  {
    hide Attempt;
    var longer := arrivals + [last];
    var a := Attempt(limit, t, longer[0].who, longer[0].now);
    assert Run(limit, t, longer) == [a.decision] + Run(limit, a.table, longer[1..]);
    assert TableAfter(limit, t, longer) == TableAfter(limit, a.table, longer[1..]);
    if arrivals == [] {
      assert longer[1..] == [];
    } else {
      assert longer[1..] == arrivals[1..] + [last];
      RunOneMore(limit, a.table, arrivals[1..], last);
    }
  }

  // ---------------------------------------------------------------- capacity, under any clock order

  ghost predicate WellKept(limit: int, t: Table) {
    && |t| <= MAX_TRACKED
    && forall p :: p in t ==> 1 <= t[p].count <= limit
  }

  lemma Subset<T>(a: set<T>, b: set<T>)
    requires a <= b
    ensures |a| <= |b|
    ensures |a| == |b| ==> a == b
  {
    assert |b - a| == |b| - |a|;
  }

  // What the eviction in front of an attempt leaves behind.
  lemma RoomMade(t: Table, p: Principal, now: int)
    requires |t| <= MAX_TRACKED
    ensures var room := MakeRoom(t, p, now);
            && |room| <= MAX_TRACKED
            && (p in room <==> Live(t, p, now))
            && (forall q :: q in room ==> q in t && room[q] == t[q])
            && (forall q :: Live(t, q, now) ==> q in room)
            && (p !in room && |room| == MAX_TRACKED ==> p !in t && room == t && forall k :: k in t ==> !Expired(t[k], now))
            && (p !in t && (forall k :: k in t ==> !Expired(t[k], now)) ==> room == t)
  {
    var mine := t - {p};
    Subset(mine.Keys, t.Keys);
    if !Live(t, p, now) {
      var swept := Swept(mine, now);
      Subset(swept.Keys, mine.Keys);
      if |mine| == MAX_TRACKED {
        assert mine.Keys == t.Keys;
        assert mine == t;
        if |swept| == MAX_TRACKED {
          assert swept.Keys == mine.Keys;
        }
      }
    }
  }

  /** Any clock reading: a table-full refusal is exactly "no entry of my own and 10000 unexpired
      entries of others", and it leaves the table as it was. */
  lemma TableFullIsExact(limit: int, t: Table, p: Principal, now: int)
    requires limit >= 1 && |t| <= MAX_TRACKED
    ensures var a := Attempt(limit, t, p, now);
            && (a.decision == TableFull <==> p !in t && |t| == 10_000 && forall k :: k in t ==> !Expired(t[k], now))
            && (a.decision == TableFull ==> a.table == t)
  {
    RoomMade(t, p, now);
    hide MakeRoom, Seconds;
  }

  /** Any clock reading: nobody else's unexpired entry is disturbed, and no entry of another appears
      or changes. */
  lemma OthersUndisturbed(limit: int, t: Table, p: Principal, now: int, q: Principal)
    requires q != p && |t| <= MAX_TRACKED
    ensures var u := Attempt(limit, t, p, now).table;
            && (Live(t, q, now) ==> q in u)
            && (q in u ==> q in t && u[q] == t[q])
  {
    RoomMade(t, p, now);
    hide MakeRoom, Seconds;
  }

  // What one attempt does to the window of p.
  lemma EffectOnOne(limit: int, t: Table, first: Arrival, p: Principal)
    requires limit >= 1
    ensures var a := Attempt(limit, t, first.who, first.now);
            if first.who != p then
              && (p in a.table ==> p in t && a.table[p] == t[p])
              && (p in t && p !in a.table ==> first.now >= t[p].resetAt)
            else if Live(t, p, first.now) then
              && p in a.table && a.table[p].resetAt == t[p].resetAt && a.decision != TableFull
              && (a.decision == Admitted <==> t[p].count < limit)
              && a.table[p].count == if t[p].count < limit then t[p].count + 1 else t[p].count
            else
              if p in a.table then a.decision == Admitted && a.table[p] == Window(1, first.now + MINUTE)
              else a.decision == TableFull
  {
    var room := MakeRoom(t, first.who, first.now);
    if first.who == p {
      assert p in room <==> Live(t, p, first.now);
      assert p in room ==> room[p] == t[p];
    } else {
      assert p in room ==> p in t && room[p] == t[p];
      assert p in t && p !in room ==> first.now >= t[p].resetAt;
    }
    hide MakeRoom, Seconds;
  }

  /** Any clock reading: the table keeps its size and its counts in range. */
  lemma StoredIsBounded(limit: int, t: Table, p: Principal, now: int)
    requires limit >= 1 && WellKept(limit, t)
    ensures WellKept(limit, Attempt(limit, t, p, now).table)
  {
    RoomMade(t, p, now);
    hide MakeRoom, Seconds;
    var room, a := MakeRoom(t, p, now), Attempt(limit, t, p, now);
    assert forall k :: k in room ==> 1 <= room[k].count <= limit;
    if a.decision == Admitted {
      assert a.table == room[p := a.table[p]] && 1 <= a.table[p].count <= limit;
      hide Attempt;
      OneMoreKey(room, p, a.table[p]);
    }
  }

  lemma OneMoreKey<K, V>(m: map<K, V>, k: K, v: V)
    ensures |m[k := v]| == if k in m then |m| else |m| + 1
  {
    assert m[k := v].Keys == m.Keys + {k};
  }

  lemma {:induction false} CapacityOverRuns(limit: int, t: Table, arrivals: seq<Arrival>)
    requires limit >= 1 && WellKept(limit, t)
    ensures WellKept(limit, TableAfter(limit, t, arrivals))
    decreases arrivals
  {
    if arrivals != [] {
      StoredIsBounded(limit, t, arrivals[0].who, arrivals[0].now);
      CapacityOverRuns(limit, Attempt(limit, t, arrivals[0].who, arrivals[0].now).table, arrivals[1..]);
    }
  }

  // ------------------------------------------------------- refinement of an unbounded counter

  /** The reference: one principal, one window, no table and no eviction. */
  datatype Counter = Idle | Open(window: Window)

  datatype Counted = Counted(counter: Counter, decision: Decision)

  function Count(limit: int, c: Counter, now: int): Counted {
    var w := if c.Open? && now < c.window.resetAt then c.window else Window(0, now + MINUTE);
    if w.count >= limit then Counted(c, Limited(Seconds(w.resetAt - now)))
    else Counted(Open(w.(count := w.count + 1)), Admitted)
  }

  function CounterRun(limit: int, c: Counter, times: seq<int>): (r: seq<Decision>)
    ensures |r| == |times|
    decreases times
  {
    if times == [] then []
    else
      var step := Count(limit, c, times[0]);
      [step.decision] + CounterRun(limit, step.counter, times[1..])
  }

  // The requests of p that the table had room for, and what the table answered them.
  predicate Counts(first: Arrival, d: Decision, p: Principal) {
    first.who == p && d != TableFull
  }

  function TimesOf(limit: int, t: Table, arrivals: seq<Arrival>, p: Principal): seq<int>
    decreases arrivals
  {
    if arrivals == [] then []
    else
      var a := Attempt(limit, t, arrivals[0].who, arrivals[0].now);
      var later := TimesOf(limit, a.table, arrivals[1..], p);
      if Counts(arrivals[0], a.decision, p) then [arrivals[0].now] + later else later
  }

  function AnswersTo(limit: int, t: Table, arrivals: seq<Arrival>, p: Principal): (r: seq<Decision>)
    ensures |r| == |TimesOf(limit, t, arrivals, p)|
    decreases arrivals
  {
    if arrivals == [] then []
    else
      var a := Attempt(limit, t, arrivals[0].who, arrivals[0].now);
      var later := AnswersTo(limit, a.table, arrivals[1..], p);
      if Counts(arrivals[0], a.decision, p) then [a.decision] + later else later
  }

  ghost predicate Since(clock: int, arrivals: seq<Arrival>) {
    && (forall i :: 0 <= i < |arrivals| ==> clock <= arrivals[i].now)
    && (forall i, j :: 0 <= i < j < |arrivals| ==> arrivals[i].now <= arrivals[j].now)
  }

  ghost predicate SinceTimes(clock: int, times: seq<int>) {
    && (forall i :: 0 <= i < |times| ==> clock <= times[i])
    && (forall i, j :: 0 <= i < j < |times| ==> times[i] <= times[j])
  }

  lemma SinceRest(clock: int, arrivals: seq<Arrival>)
    requires Since(clock, arrivals) && arrivals != []
    ensures clock <= arrivals[0].now && Since(arrivals[0].now, arrivals[1..])
  {
  }

  lemma SinceMore(clock: int, now: int, times: seq<int>)
    requires clock <= now && SinceTimes(now, times)
    ensures SinceTimes(clock, times) && SinceTimes(clock, [now] + times)
  {
  }

  lemma {:induction false} TimesAreOrdered(limit: int, t: Table, arrivals: seq<Arrival>, p: Principal, clock: int)
    requires Since(clock, arrivals)
    ensures SinceTimes(clock, TimesOf(limit, t, arrivals, p))
    decreases arrivals
  {
    if arrivals != [] {
      var first := arrivals[0];
      SinceRest(clock, arrivals);
      hide Attempt, Since, SinceTimes;
      var a := Attempt(limit, t, first.who, first.now);
      TimesAreOrdered(limit, a.table, arrivals[1..], p, first.now);
      SinceMore(clock, first.now, TimesOf(limit, a.table, arrivals[1..], p));
    } else {
      assert TimesOf(limit, t, arrivals, p) == [];
    }
  }
}
