/** The fixed-window limiter on the credential endpoints (server/internal/api/ratelimit.go). */
module RateLimit {

  datatype Window = Window(count: int, reset: int)

  /** The verdict and the key's window after a hit, given the window on record. */
  function Hit(hits: map<string, Window>, key: string, now: int, max: int, window: int): (bool, Window) {
    if key !in hits || now > hits[key].reset then (true, Window(1, now + window))
    else if hits[key].count >= max then (false, hits[key])
    else (true, hits[key].(count := hits[key].count + 1))
  }

  function Swept(hits: map<string, Window>, now: int): map<string, Window> {
    map k | k in hits && now <= hits[k].reset :: hits[k]
  }

  class Limiter {
    const max: int
    const window: int
    var hits: map<string, Window>

    constructor (max: int, window: int)
      ensures this.max == max && this.window == window && hits == map[]
    {
      this.max, this.window := max, window;
      hits := map[];
    }

    /** allow, at clock reading `now`. */
    method Allow(key: string, now: int) returns (ok: bool)
      modifies this
      ensures var swept := Swept(old(hits), now);
              var (verdict, w) := Hit(swept, key, now, max, window);
              ok == verdict && hits == swept[key := w]
      ensures key in hits && (0 <= window ==> now <= hits[key].reset)
      ensures forall k | k != key ::
                if k in old(hits) && now <= old(hits)[k].reset then k in hits && hits[k] == old(hits)[k] else k !in hits
    {
      var keys := hits.Keys;
      while keys != {}
        invariant keys <= old(hits).Keys
        invariant hits == map k | k in old(hits) && (k in keys || now <= old(hits)[k].reset) :: old(hits)[k]
        decreases keys
      {
        var k :| k in keys;
        if now > hits[k].reset {
          hits := hits - {k};
        }
        keys := keys - {k};
      }
      if key !in hits || now > hits[key].reset {
        hits := hits[key := Window(1, now + window)];
        return true;
      }
      var w := hits[key];
      if w.count >= max {
        assert hits == hits[key := w];
        return false;
      }
      hits := hits[key := w.(count := w.count + 1)];
      return true;
    }
  }

  // ---- histories ----

  datatype Call = Call(key: string, now: int)

  ghost predicate ClockMonotone(calls: seq<Call>) {
    forall i, j | 0 <= i < j < |calls| :: calls[i].now <= calls[j].now
  }

  /** The map after some calls, sweeping before each one or never. */
  function After(calls: seq<Call>, max: int, window: int, sweeps: bool): map<string, Window> {
    if calls == [] then map[]
    else
      var hits := After(calls[..|calls| - 1], max, window, sweeps);
      var c := calls[|calls| - 1];
      var kept := if sweeps then Swept(hits, c.now) else hits;
      kept[c.key := Hit(kept, c.key, c.now, max, window).1]
  }

  /** Whether the `i`-th call is let through. */
  function Allowed(calls: seq<Call>, i: nat, max: int, window: int, sweeps: bool): bool
    requires i < |calls|
  {
    var hits := After(calls[..i], max, window, sweeps);
    var kept := if sweeps then Swept(hits, calls[i].now) else hits;
    Hit(kept, calls[i].key, calls[i].now, max, window).0
  }

  lemma AfterStep(calls: seq<Call>, n: nat, max: int, window: int, sweeps: bool)
    requires n < |calls|
    ensures var hits := After(calls[..n], max, window, sweeps);
            var kept := if sweeps then Swept(hits, calls[n].now) else hits;
            After(calls[..n + 1], max, window, sweeps)
              == kept[calls[n].key := Hit(kept, calls[n].key, calls[n].now, max, window).1]
  {
    assert calls[..n + 1][..n] == calls[..n];
  }

  /** The swept map `s` lacks only windows of the full map `u` that ended before `now`. */
  ghost predicate ForgetsExpired(s: map<string, Window>, u: map<string, Window>, now: int) {
    && (forall k | k in s :: k in u && s[k] == u[k])
    && (forall k | k in u :: k in s || u[k].reset < now)
  }

  lemma HitForgetsExpired(s: map<string, Window>, u: map<string, Window>, c: Call, max: int, window: int)
    requires ForgetsExpired(s, u, c.now)
    ensures var kept := Swept(s, c.now);
            && Hit(kept, c.key, c.now, max, window) == Hit(u, c.key, c.now, max, window)
            && ForgetsExpired(kept[c.key := Hit(kept, c.key, c.now, max, window).1],
                              u[c.key := Hit(u, c.key, c.now, max, window).1], c.now)
  {
  }

  /** Sweeping loses only windows that no later call would have counted. */
  lemma {:induction false} SweepForgetsExpired(calls: seq<Call>, n: nat, max: int, window: int, now: int)
    requires n <= |calls| && ClockMonotone(calls)
    requires n > 0 ==> calls[n - 1].now <= now
    ensures ForgetsExpired(After(calls[..n], max, window, true), After(calls[..n], max, window, false), now)
  {
    if n > 0 {
      var c := calls[n - 1];
      SweepForgetsExpired(calls, n - 1, max, window, c.now);
      AfterStep(calls, n - 1, max, window, true);
      AfterStep(calls, n - 1, max, window, false);
      HitForgetsExpired(After(calls[..n - 1], max, window, true), After(calls[..n - 1], max, window, false), c, max,
          window);
      hide Hit, Swept;
    }
  }

  /** For a clock that does not go back, no verdict depends on sweeping. */
  lemma SweepChangesNoVerdict(calls: seq<Call>, i: nat, max: int, window: int)
    requires i < |calls| && ClockMonotone(calls)
    ensures Allowed(calls, i, max, window, true) == Allowed(calls, i, max, window, false)
  {
    SweepForgetsExpired(calls, i, max, window, calls[i].now);
    HitForgetsExpired(After(calls[..i], max, window, true), After(calls[..i], max, window, false), calls[i], max,
        window);
  }

  // ---- the bound ----

  /** How many of the first `n` calls for `key` were let through at or after `t`. */
  function CountSince(calls: seq<Call>, n: nat, key: string, t: int, max: int, window: int): nat
    requires n <= |calls|
  {
    if n == 0 then 0
    else CountSince(calls, n - 1, key, t, max, window) +
         if calls[n - 1].key == key && calls[n - 1].now >= t && Allowed(calls, n - 1, max, window, false) then 1 else 0
  }

  /** How many calls for `key` were let through in the closed interval from `t` to `t + window`. */
  function CountIn(calls: seq<Call>, n: nat, key: string, t: int, max: int, window: int): nat
    requires n <= |calls|
  {
    if n == 0 then 0
    else CountIn(calls, n - 1, key, t, max, window) +
         if calls[n - 1].key == key && t <= calls[n - 1].now <= t + window && Allowed(calls, n - 1, max, window, true)
             then 1 else 0
  }

  /** A window lets at least one call through, even when max is not positive. */
  function Quota(max: int): int {
    if max < 1 then 1 else max
  }

  lemma {:induction false} CountSinceMonotone(calls: seq<Call>, n: nat, key: string, t: int, t': int, max: int,
                                              window: int)
    requires n <= |calls| && t <= t'
    ensures CountSince(calls, n, key, t', max, window) <= CountSince(calls, n, key, t, max, window)
  {
    if n > 0 {
      CountSinceMonotone(calls, n - 1, key, t, t', max, window);
    }
  }

  ghost predicate OpenedBy(calls: seq<Call>, n: nat, start: int)
    requires n <= |calls|
  {
    exists i | 0 <= i < n :: calls[i].now == start
  }

  ghost predicate NoneAfter(calls: seq<Call>, n: nat, key: string, end: int, max: int, window: int)
    requires n <= |calls|
  {
    forall t | t > end :: CountSince(calls, n, key, t, max, window) == 0
  }

  /** What a key's open window `w` knows about the past: exactly its count since it opened, and at
      most one more quota in the window's length before that. */
  ghost predicate Tells(calls: seq<Call>, n: nat, key: string, w: Window, max: int, window: int)
    requires n <= |calls|
  {
    var start := w.reset - window;
    && 1 <= w.count <= Quota(max)
    && OpenedBy(calls, n, start)
    && NoneAfter(calls, n, key, w.reset, max, window)
    && CountSince(calls, n, key, start, max, window) == w.count
    && CountSince(calls, n, key, start - window, max, window) <= Quota(max) + w.count
  }

  ghost predicate WindowTells(calls: seq<Call>, n: nat, key: string, max: int, window: int)
    requires n <= |calls|
  {
    var hits := After(calls[..n], max, window, false);
    if key in hits then Tells(calls, n, key, hits[key], max, window)
    else forall t :: CountSince(calls, n, key, t, max, window) == 0
  }

  lemma OpenedEarlier(calls: seq<Call>, n: nat, start: int)
    requires n < |calls| && ClockMonotone(calls) && OpenedBy(calls, n, start)
    ensures start <= calls[n].now && OpenedBy(calls, n + 1, start)
  {
    var i :| 0 <= i < n && calls[i].now == start;
    assert calls[i].now <= calls[n].now;
  }

  /** A hit in the open window. */
  lemma HitInWindow(calls: seq<Call>, n: nat, w: Window, max: int, window: int)
    requires n < |calls| && ClockMonotone(calls) && window >= 0
    requires Tells(calls, n, calls[n].key, w, max, window) && calls[n].now <= w.reset
    requires Allowed(calls, n, max, window, false) == (w.count < max)
    ensures Tells(calls, n + 1, calls[n].key, if w.count < max then w.(count := w.count + 1) else w, max, window)
  {
    OpenedEarlier(calls, n, w.reset - window);
    hide Allowed;
    var m := n + 1;
    forall t | t > w.reset ensures CountSince(calls, m, calls[n].key, t, max, window) == 0 {}
  }

  /** A hit that opens a new window. */
  lemma HitOpensWindow(calls: seq<Call>, n: nat, w: Window, max: int, window: int)
    requires n < |calls| && window >= 0
    requires Tells(calls, n, calls[n].key, w, max, window) && w.reset < calls[n].now
    requires Allowed(calls, n, max, window, false)
    ensures Tells(calls, n + 1, calls[n].key, Window(1, calls[n].now + window), max, window)
  {
    hide Allowed;
    var c, m := calls[n], n + 1;
    assert OpenedBy(calls, m, c.now);
    CountSinceMonotone(calls, n, c.key, w.reset - window, c.now - window, max, window);
    forall t | t > c.now + window ensures CountSince(calls, m, c.key, t, max, window) == 0 {}
    assert NoneAfter(calls, m, c.key, c.now + window, max, window);
    assert CountSince(calls, n, c.key, c.now, max, window) == 0;
    assert CountSince(calls, m, c.key, c.now, max, window) == 1;
  }

  lemma OtherKey(calls: seq<Call>, n: nat, key: string, w: Window, max: int, window: int)
    requires n < |calls| && ClockMonotone(calls) && calls[n].key != key
    requires Tells(calls, n, key, w, max, window)
    ensures Tells(calls, n + 1, key, w, max, window)
  {
    OpenedEarlier(calls, n, w.reset - window);
    var m := n + 1;
    forall t | t > w.reset ensures CountSince(calls, m, key, t, max, window) == 0 {}
  }

  lemma FirstHit(calls: seq<Call>, n: nat, max: int, window: int)
    requires n < |calls| && window >= 0
    requires forall t :: CountSince(calls, n, calls[n].key, t, max, window) == 0
    requires Allowed(calls, n, max, window, false)
    ensures Tells(calls, n + 1, calls[n].key, Window(1, calls[n].now + window), max, window)
  {
    hide Allowed;
    var c, m := calls[n], n + 1;
    assert OpenedBy(calls, m, c.now);
    forall t | t > c.now + window ensures CountSince(calls, m, c.key, t, max, window) == 0 {}
    assert NoneAfter(calls, m, c.key, c.now + window, max, window);
    assert CountSince(calls, m, c.key, c.now, max, window) == 1;
    assert CountSince(calls, m, c.key, c.now - window, max, window) == 1;
  }

  lemma WindowStep(calls: seq<Call>, n: nat, key: string, max: int, window: int)
    requires n < |calls| && ClockMonotone(calls) && window >= 0
    requires WindowTells(calls, n, key, max, window)
    ensures WindowTells(calls, n + 1, key, max, window)
  {
    var c, hits, m := calls[n], After(calls[..n], max, window, false), n + 1;
    AfterStep(calls, n, max, window, false);
    if key in hits {
      if c.key != key {
        OtherKey(calls, n, key, hits[key], max, window);
      } else if c.now <= hits[key].reset {
        HitInWindow(calls, n, hits[key], max, window);
      } else {
        HitOpensWindow(calls, n, hits[key], max, window);
      }
    } else if c.key == key {
      FirstHit(calls, n, max, window);
    } else {
      forall t ensures CountSince(calls, m, key, t, max, window) == 0 {}
    }
    hide Tells, CountSince;
  }

  /** At the moment of a call, the last `window` seconds hold at most two quotas. */
  lemma WindowBound(calls: seq<Call>, n: nat, key: string, t: int, max: int, window: int)
    requires n < |calls| && ClockMonotone(calls) && window >= 0
    requires WindowTells(calls, n, key, max, window) && t >= calls[n].now - window
    ensures CountSince(calls, n + 1, key, t, max, window) <= 2 * Quota(max)
  {
    var hits := After(calls[..n], max, window, false);
    if key in hits {
      var w := hits[key];
      OpenedEarlier(calls, n, w.reset - window);
      CountSinceMonotone(calls, n, key, w.reset - 2 * window, t, max, window);
      if calls[n].now > w.reset {
        CountSinceMonotone(calls, n, key, w.reset - window, t, max, window);
      }
    }
  }

  lemma {:induction false} WindowsTell(calls: seq<Call>, n: nat, key: string, max: int, window: int)
    requires n <= |calls| && ClockMonotone(calls) && window >= 0
    ensures WindowTells(calls, n, key, max, window)
  {
    if n > 0 {
      WindowsTell(calls, n - 1, key, max, window);
      WindowStep(calls, n - 1, key, max, window);
    }
  }

  lemma {:induction false} InIsSince(calls: seq<Call>, n: nat, key: string, t: int, max: int, window: int)
    requires n <= |calls| && ClockMonotone(calls)
    ensures CountIn(calls, n, key, t, max, window) <= CountSince(calls, n, key, t, max, window)
  {
    if n > 0 {
      InIsSince(calls, n - 1, key, t, max, window);
      SweepChangesNoVerdict(calls, n - 1, max, window);
    }
  }

  /** Over any history with a clock that does not go back, no closed interval as long as the window
      sees more than twice the quota of one key's calls let through. */
  lemma {:induction false} LimiterBound(calls: seq<Call>, n: nat, key: string, t: int, max: int, window: int)
    requires n <= |calls| && ClockMonotone(calls) && window >= 0
    ensures CountIn(calls, n, key, t, max, window) <= 2 * Quota(max)
  {
    if n > 0 {
      if calls[n - 1].now > t + window {
        LimiterBound(calls, n - 1, key, t, max, window);
      } else {
        WindowsTell(calls, n - 1, key, max, window);
        WindowBound(calls, n - 1, key, t, max, window);
        InIsSince(calls, n, key, t, max, window);
      }
    }
  }

  /** Without an open window a call is let through and opens one, which lasts for the window's length and
      counts the call. */
  lemma WindowOpens(calls: seq<Call>, i: nat, max: int, window: int)
    requires i < |calls| && ClockMonotone(calls)
    ensures var hits := After(calls[..i], max, window, false);
            var c := calls[i];
            c.key !in hits || hits[c.key].reset < c.now ==>
              && Allowed(calls, i, max, window, true)
              && After(calls[..i + 1], max, window, false) == hits[c.key := Window(1, c.now + window)]
  {
    SweepChangesNoVerdict(calls, i, max, window);
    AfterStep(calls, i, max, window, false);
  }

  /** Within one open window the quota is exact: calls are let through until it is used up. */
  lemma QuotaIsUsedUp(calls: seq<Call>, i: nat, max: int, window: int)
    requires i < |calls| && ClockMonotone(calls) && window >= 0
    ensures var hits := After(calls[..i], max, window, false);
            var c := calls[i];
            c.key in hits && c.now <= hits[c.key].reset ==>
              (Allowed(calls, i, max, window, true) <==>
                 CountSince(calls, i, c.key, hits[c.key].reset - window, max, window) < max)
  {
    WindowsTell(calls, i, calls[i].key, max, window);
    SweepChangesNoVerdict(calls, i, max, window);
  }
}
