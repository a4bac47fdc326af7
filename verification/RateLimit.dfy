/** The per-principal fixed-window rate limiter with its bounded, evicting table. */
module RateLimit {

  type Principal = string

  // Durations and instants are integer nanoseconds.
  const SECOND := 1_000_000_000
  const MINUTE := 60_000_000_000
  const MAX_TRACKED := 10_000

  datatype Window = Window(count: int, resetAt: int)

  type Table = map<Principal, Window>

  datatype Decision = Admitted | TableFull | Limited(retryAfter: int)

  datatype Attempted = Attempted(table: Table, decision: Decision)

  predicate Expired(w: Window, now: int) {
    now >= w.resetAt
  }

  predicate Live(t: Table, p: Principal, now: int) {
    p in t && !Expired(t[p], now)
  }

  function Swept(t: Table, now: int): Table {
    map k | k in t && !Expired(t[k], now) :: t[k]
  }

  // The principal's own expired entry goes first; the sweep of everybody else's
  // expired entries happens only when the table is full without it.
  function MakeRoom(t: Table, p: Principal, now: int): Table {
    if Live(t, p, now) then t
    else
      var mine := t - {p};
      if |mine| >= MAX_TRACKED then Swept(mine, now) else mine
  }

  function Seconds(remaining: int): int
    requires remaining > 0
  {
    var r := (remaining + SECOND - 1) / SECOND;
    if r < 1 then 1 else r
  }

  // One critical section of the limiter, run with the clock reading `now`.
  function Attempt(limit: int, t: Table, p: Principal, now: int): Attempted {
    var room := MakeRoom(t, p, now);
    if p !in room && |room| >= MAX_TRACKED then Attempted(room, TableFull)
    else
      var w := if p in room then room[p] else Window(0, now + MINUTE);
      if w.count >= limit then Attempted(room, Limited(Seconds(w.resetAt - now)))
      else Attempted(room[p := w.(count := w.count + 1)], Admitted)
  }

  /** The limiter as the server holds it: one table, changed in place under a mutex. */
  class PrincipalRateLimiter {
    const limit: int
    var windows: Table

    constructor (limit: int)
      ensures this.limit == limit && windows == map[]
    {
      this.limit := limit;
      windows := map[];
    }

    method Sweep(now: int)
      modifies this`windows
      ensures windows == Swept(old(windows), now)
    {
      var pending := windows.Keys;
      while pending != {}
        invariant pending <= windows.Keys
        invariant windows == map k | k in old(windows) && (k in pending || !Expired(old(windows)[k], now)) :: old(windows)[k]
        decreases pending
      {
        var key :| key in pending;
        if now >= windows[key].resetAt {
          windows := windows - {key};
        }
        pending := pending - {key};
      }
    }

    method Evict(p: Principal, now: int)
      modifies this`windows
      ensures windows == MakeRoom(old(windows), p, now)
    {
      if p in windows && now < windows[p].resetAt {
        return;
      }
      windows := windows - {p};
      if |windows| >= MAX_TRACKED {
        Sweep(now);
      }
    }

    method Admit(p: Principal, now: int) returns (d: Decision)
      modifies this`windows
      ensures Attempted(windows, d) == Attempt(limit, old(windows), p, now)
    {
      Evict(p, now);
      var window := Window(0, now + MINUTE);
      if p in windows {
        window := windows[p];
      } else if |windows| >= MAX_TRACKED {
        return TableFull;
      }
      if window.count >= limit {
        return Limited(Seconds(window.resetAt - now));
      }
      window := window.(count := window.count + 1);
      windows := windows[p := window];
      return Admitted;
    }
  }
}
