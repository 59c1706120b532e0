/** The sliding-window limiter of the relay's entry point
    (relay/src/index.ts): one list of timestamps per address, pruned on every
    check.  Times are milliseconds. */
module RateLimiter {

  const WINDOW: int := 60 * 60 * 1000

  const MAX_SESSIONS: nat := 10

  /** The timestamps later than a cutoff, in order. */
  function After(ts: seq<int>, cutoff: int): (r: seq<int>)
    ensures |r| <= |ts|
  {
    if ts == [] then []
    else After(ts[..|ts| - 1], cutoff) + if ts[|ts| - 1] > cutoff then [ts[|ts| - 1]] else []
  }

  /** The timestamps in the window that ends at t. */
  function Within(ts: seq<int>, t: int): seq<int> {
    if ts == [] then []
    else Within(ts[..|ts| - 1], t) + if t - WINDOW < ts[|ts| - 1] <= t then [ts[|ts| - 1]] else []
  }

  lemma AfterAppend(ts: seq<int>, x: int, cutoff: int)
    ensures After(ts + [x], cutoff) == After(ts, cutoff) + if x > cutoff then [x] else []
  {
  }

  lemma WithinAppend(ts: seq<int>, x: int, t: int)
    ensures Within(ts + [x], t) == Within(ts, t) + if t - WINDOW < x <= t then [x] else []
  {
  }

  /** Pruning twice is pruning once with the later cutoff. */
  lemma {:induction false} AfterAfter(ts: seq<int>, c: int, d: int)
    requires c <= d
    ensures After(After(ts, c), d) == After(ts, d)
    decreases |ts|
  {
    if ts == [] {
    } else {
      var front, x := ts[..|ts| - 1], ts[|ts| - 1];
      AfterAfter(front, c, d);
      AfterAppend(After(front, c), x, d);
      assert After(front, c) + [] == After(front, c);
    }
  }

  // ---------------------------------------------------------------------
  // One address over a whole run
  // ---------------------------------------------------------------------

  /** A request: the clock at the check and at the recording. */
  datatype Request = Request(checked: int, recorded: int)

  /** The sessions ever recorded, decided on the full history. */
  function Admit(history: seq<int>, r: Request): seq<int> {
    if |After(history, r.checked - WINDOW)| >= MAX_SESSIONS then history else history + [r.recorded]
  }

  function AdmitAll(history: seq<int>, requests: seq<Request>): seq<int>
    decreases |requests|
  {
    if requests == [] then history else AdmitAll(Admit(history, requests[0]), requests[1..])
  }

  ghost predicate ClockRuns(now: int, requests: seq<Request>)
    decreases |requests|
  {
    requests == [] ||
    (now <= requests[0].checked <= requests[0].recorded && ClockRuns(requests[0].recorded, requests[1..]))
  }

  ghost predicate Bounded(history: seq<int>) { forall t: int :: |Within(history, t)| <= MAX_SESSIONS }

  lemma {:induction false} LaterWindowIsSmaller(history: seq<int>, now: int, t: int)
    requires t >= now
    ensures |Within(history, t)| <= |After(history, now - WINDOW)|
    decreases |history|
  {
    if history == [] {
    } else {
      LaterWindowIsSmaller(history[..|history| - 1], now, t);
    }
  }

  lemma AdmitKeepsBound(history: seq<int>, r: Request)
    requires Bounded(history) && r.checked <= r.recorded
    ensures Bounded(Admit(history, r))
  {
    if |After(history, r.checked - WINDOW)| < MAX_SESSIONS {
      forall t: int
        ensures |Within(history + [r.recorded], t)| <= MAX_SESSIONS
      {
        WithinAppend(history, r.recorded, t);
        if t >= r.recorded {
          LaterWindowIsSmaller(history, r.checked, t);
        }
      }
    }
  }

  /** With a clock that never runs backwards, no window of one hour, wherever
      it lies, holds more than ten recorded sessions of an address. */
  lemma {:induction false} WindowBound(history: seq<int>, now: int, requests: seq<Request>)
    requires Bounded(history) && ClockRuns(now, requests)
    ensures Bounded(AdmitAll(history, requests))
    decreases |requests|
  {
    hide Bounded, Admit;
    if requests == [] {
    } else {
      AdmitKeepsBound(history, requests[0]);
      WindowBound(Admit(history, requests[0]), requests[0].recorded, requests[1..]);
    }
  }

  lemma {:induction false} AfterCounts(ts: seq<int>, cutoff: int)
    ensures |After(ts, cutoff)| == |set i | 0 <= i < |ts| && ts[i] > cutoff|
    decreases |ts|
  {
    if ts == [] {
    } else {
      var n := |ts| - 1;
      AfterCounts(ts[..n], cutoff);
      var front := set i | 0 <= i < n && ts[..n][i] > cutoff;
      assert (set i | 0 <= i < |ts| && ts[i] > cutoff) == front + if ts[n] > cutoff then {n} else {};
    }
  }

  lemma {:induction false} WithinCounts(ts: seq<int>, t: int)
    ensures |Within(ts, t)| == |set i | 0 <= i < |ts| && t - 3_600_000 < ts[i] <= t|
    decreases |ts|
  {
    if ts == [] {
    } else {
      var n := |ts| - 1;
      WithinCounts(ts[..n], t);
      var front := set i | 0 <= i < n && t - 3_600_000 < ts[..n][i] <= t;
      assert (set i | 0 <= i < |ts| && t - 3_600_000 < ts[i] <= t)
          == front + if t - 3_600_000 < ts[n] <= t then {n} else {};
    }
  }

  /** From the first request of an address on: of all its recorded sessions, no
      more than ten lie in the hour that ends at t, whatever t. */
  lemma TenPerHour(now: int, requests: seq<Request>, t: int)
    requires ClockRuns(now, requests)
    ensures var history := AdmitAll([], requests);
            |set i | 0 <= i < |history| && t - 3_600_000 < history[i] <= t| <= 10
  {
    assert Bounded([]);
    WindowBound([], now, requests);
    WithinCounts(AdmitAll([], requests), t);
  }

  /** A request is let through, and recorded, exactly if fewer than ten sessions
      were recorded since an hour before the check. */
  lemma AdmittedExactly(history: seq<int>, r: Request)
    ensures Admit(history, r)
         == if |set i | 0 <= i < |history| && history[i] > r.checked - 3_600_000| < 10
            then history + [r.recorded] else history
  {
    AfterCounts(history, r.checked - 3_600_000);
  }

  // ---------------------------------------------------------------------
  // The limiter
  // ---------------------------------------------------------------------

  class Limiter {
    var timestamps: map<string, seq<int>>
    ghost var history: map<string, seq<int>>
    ghost var clock: int

    ghost function Sessions(ip: string): seq<int>
      reads this
    {
      if ip in history then history[ip] else []
    }

    /** The stored list is the history after some cutoff that no later check
        reaches back to. */
    ghost predicate Valid()
      reads this
    {
      && timestamps.Keys == history.Keys
      && forall ip :: ip in timestamps ==> Suffix(timestamps[ip], history[ip], clock)
    }

    constructor (now: int)
      ensures Valid() && clock == now && history == map[]
    {
      timestamps, history, clock := map[], map[], now;
    }

    /** Decides on the pruned list exactly as on the full history. */
    method IsRateLimited(ip: string, now: int) returns (limited: bool)
      requires Valid() && clock <= now
      modifies this
      ensures Valid() && clock == now
      ensures history == old(history)[ip := old(Sessions(ip))]
      ensures limited <==> |After(old(Sessions(ip)), now - WINDOW)| >= MAX_SESSIONS
    {
      var ts := if ip in timestamps then timestamps[ip] else [];
      var pruned := After(ts, now - WINDOW);
      Pruned(ts, Sessions(ip), clock, now);
      history := history[ip := Sessions(ip)];
      timestamps := timestamps[ip := pruned];
      clock := now;
      limited := |pruned| >= MAX_SESSIONS;
    }

    method RecordSession(ip: string, now: int)
      requires Valid() && clock <= now
      modifies this
      ensures Valid() && clock == now
      ensures history == old(history)[ip := old(Sessions(ip)) + [now]]
    {
      var ts := if ip in timestamps then timestamps[ip] else [];
      Recorded(ts, Sessions(ip), clock, now);
      history := history[ip := Sessions(ip) + [now]];
      timestamps := timestamps[ip := ts + [now]];
      clock := now;
    }

    /** The daemon route: a session is recorded only if the check lets it pass. */
    method AdmitDaemon(ip: string, r: Request) returns (admitted: bool)
      requires Valid() && clock <= r.checked <= r.recorded
      modifies this
      ensures Valid()
      ensures history == old(history)[ip := Admit(old(Sessions(ip)), r)]
      ensures admitted <==> |After(old(Sessions(ip)), r.checked - WINDOW)| < MAX_SESSIONS
    {
      hide After, Suffix, Valid;
      var limited := IsRateLimited(ip, r.checked);
      if limited {
        return false;
      }
      assert Sessions(ip) == old(Sessions(ip));
      RecordSession(ip, r.recorded);
      admitted := true;
    }
  }

  ghost predicate Suffix(stored: seq<int>, history: seq<int>, clock: int) {
    exists cutoff :: cutoff <= clock - WINDOW && stored == After(history, cutoff)
  }

  lemma Pruned(stored: seq<int>, history: seq<int>, clock: int, now: int)
    requires (Suffix(stored, history, clock) || stored == history == []) && clock <= now
    ensures After(stored, now - WINDOW) == After(history, now - WINDOW)
    ensures Suffix(After(stored, now - WINDOW), history, now)
  {
    if Suffix(stored, history, clock) {
      var cutoff :| cutoff <= clock - WINDOW && stored == After(history, cutoff);
      AfterAfter(history, cutoff, now - WINDOW);
    }
  }

  lemma Recorded(stored: seq<int>, history: seq<int>, clock: int, now: int)
    requires (Suffix(stored, history, clock) || stored == history == []) && clock <= now
    ensures Suffix(stored + [now], history + [now], now)
  {
    var cutoff := clock - WINDOW;
    if Suffix(stored, history, clock) {
      cutoff :| cutoff <= clock - WINDOW && stored == After(history, cutoff);
    }
    AfterAppend(history, now, cutoff);
  }
}
