/**
 Why the bound of the per-address limiter shrinks with late clock readings, and that it
 shrinks exactly as stated, limit by limit.
 */
module IpLimiterSkew {
  import opened IpLimiter

  // --------------------------------------------------------------- runs, one call at a time

  /** How late readings may be, and the interval in which permits of address 1 count. */
  datatype Span = Span(skew: nat, from: nat, to: nat)

  ghost function Counted(r: Trace, v: Span): nat
    requires |r.calls| < |r.states|
  {
    CountIn(GrantLog(r, |r.calls|, 1), v.from, v.to)
  }

  /** The run ends in `s`, has read no time after `t` and counts at least `n` permits. */
  ghost predicate Comes(r: Trace, v: Span, s: Limiter, t: nat, n: nat) {
    && IsRun(r, v.skew) && r.states[|r.calls|] == s && r.states[0].limit == s.limit
    && (forall c <- r.calls :: c.now <= t)
    && Counted(r, v) >= n
  }

  ghost predicate Reached(v: Span, s: Limiter, t: nat, n: nat) { exists r :: Comes(r, v, s, t, n) }

  ghost predicate Achieves(r: Trace, limit: nat, v: Span, n: nat) {
    IsRun(r, v.skew) && r.states[0].limit == limit && Counted(r, v) >= n
  }

  /** Some run of a limiter with this limit counts at least `n` permits. */
  ghost predicate CanPermit(limit: nat, v: Span, n: nat) { exists r :: Achieves(r, limit, v, n) }

  lemma ReachedIsPermitted(v: Span, s: Limiter, t: nat, n: nat)
    requires Reached(v, s, t, n)
    ensures CanPermit(s.limit, v, n)
  {
    var r :| Comes(r, v, s, t, n);
    assert Achieves(r, s.limit, v, n);
  }

  function Empty(limit: nat): Limiter { Limiter(limit, 2, map[], []) }

  lemma StartIsReached(v: Span, limit: nat)
    requires limit > 0
    ensures Reached(v, Empty(limit), 0, 0)
  {
    assert Comes(Trace([], [Empty(limit)]), v, Empty(limit), 0, 0);
  }

  function Extended(r: Trace, c: Call, s: Limiter): Trace { Trace(r.calls + [c], r.states + [s]) }

  lemma {:induction false} SameLog(r: Trace, c: Call, s: Limiter, i: nat)
    requires i <= |r.calls| && |r.states| == |r.calls| + 1
    ensures GrantLog(Extended(r, c, s), i, 1) == GrantLog(r, i, 1)
  {
    hide Logged;
    if i == 0 {
    } else {
      SameLog(r, c, s, i - 1);
    }
  }

  lemma LogGrows(r: Trace, v: Span, c: Call, s: Limiter)
    requires |r.states| == |r.calls| + 1
    ensures Counted(Extended(r, c, s), v)
         == Counted(r, v) + if Logged(r.states[|r.calls|], c, s, 1) != [] && v.from <= c.now < v.to then 1 else 0
  {
    var q, log, g := Extended(r, c, s), GrantLog(r, |r.calls|, 1), Logged(r.states[|r.calls|], c, s, 1);
    SameLog(r, c, s, |r.calls|);
    assert GrantLog(q, |q.calls|, 1) == log + g;
    if g == [] {
      assert log + g == log;
    } else {
      assert (log + g)[..|log|] == log;
    }
  }

  lemma ExtendedIsRun(r: Trace, skew: nat, c: Call, t: nat)
    requires IsRun(r, skew) && forall d <- r.calls :: d.now <= t
    requires t <= c.now + skew && c.now + WINDOW <= DURATION_MAX
    ensures IsRun(Extended(r, c, Permit(r.states[|r.calls|], c.ip, c.now)), skew)
  {
    hide Permit;
    var q := Extended(r, c, Permit(r.states[|r.calls|], c.ip, c.now));
    forall i | 0 <= i < |q.calls| ensures StepAt(q, i) {
      if i < |r.calls| { assert StepAt(r, i); }
    }
    forall i, j | 0 <= i <= j < |q.calls| ensures q.calls[i].now <= q.calls[j].now + skew {
      if i < |r.calls| { assert r.calls[i] in r.calls; }
    }
  }

  predicate Counts(v: Span, s: Limiter, ip: Ip, now: Duration) {
    ip == 1 && Permits(s, ip, now) && v.from <= now < v.to
  }

  lemma Calls(v: Span, s: Limiter, t: nat, n: nat, ip: Ip, now: Duration)
    requires Reached(v, s, t, n) && t <= now + v.skew && now + WINDOW <= DURATION_MAX
    ensures Reached(v, Permit(s, ip, now), Max(t, now), n + if Counts(v, s, ip, now) then 1 else 0)
  {
    hide Permits, Counted, IsRun, Serve, Evicted;
    var r :| Comes(r, v, s, t, n);
    var c, u := Call(ip, now), Permit(s, ip, now);
    assert |r.states| == |r.calls| + 1 by { RunShape(r, v.skew); }
    LogGrows(r, v, c, u);
    ExtendedIsRun(r, v.skew, c, t);
    PermitKeepsLimit(s, ip, now);
    if Counts(v, s, ip, now) { PermittedHasWindow(s, ip, now); }
    assert Comes(Extended(r, c, u), v, u, Max(t, now), n + if Counts(v, s, ip, now) then 1 else 0);
  }

  lemma RunShape(r: Trace, skew: nat)
    requires IsRun(r, skew)
    ensures |r.states| == |r.calls| + 1
  {
  }

  lemma PermittedHasWindow(s: Limiter, ip: Ip, now: Duration)
    requires Permits(s, ip, now)
    ensures ip in Permit(s, ip, now).windows
  {
  }

  // ------------------------------------------------------------------------ two addresses

  predicate Early(w: Window) { w.startedAt + WINDOW <= DURATION_MAX }

  function One(limit: nat, ip: Ip, w: Window): Limiter
    requires Early(w)
  {
    Limiter(limit, 2, map[ip := w], [End(w.startedAt + WINDOW, ip)])
  }

  /** Two open windows, `front` first in the queue. */
  function Two(limit: nat, front: Ip, w: Window, back: Ip, v: Window): Limiter
    requires Early(w) && Early(v)
  {
    Limiter(limit, 2, map[front := w, back := v],
            [End(w.startedAt + WINDOW, front), End(v.startedAt + WINDOW, back)])
  }

  function More(w: Window, k: nat): Window { w.(count := w.count + k) }

  lemma OpensOne(limit: nat, ip: Ip, now: Duration)
    requires now + WINDOW <= DURATION_MAX
    ensures Permits(Empty(limit), ip, now) && Permit(Empty(limit), ip, now) == One(limit, ip, Window(now, 1))
  {
    assert [] + [End(now + WINDOW, ip)] == [End(now + WINDOW, ip)];
  }

  lemma OpensSecond(limit: nat, front: Ip, w: Window, ip: Ip, now: Duration)
    requires Early(w) && now + WINDOW <= DURATION_MAX && front != ip && now < w.startedAt + WINDOW
    ensures Permits(One(limit, front, w), ip, now)
    ensures Permit(One(limit, front, w), ip, now) == Two(limit, front, w, ip, Window(now, 1))
  {
  }

  lemma NothingEnds(limit: nat, front: Ip, w: Window, back: Ip, v: Window, now: Duration)
    requires Early(w) && Early(v) && now < w.startedAt + WINDOW
    ensures Evicted(Two(limit, front, w, back, v), now) == Two(limit, front, w, back, v)
  {
  }

  lemma CountsFront(limit: nat, front: Ip, w: Window, back: Ip, v: Window, now: Duration)
    requires Early(w) && Early(v) && front != back && now < w.startedAt + WINDOW && w.count < limit
    ensures Permits(Two(limit, front, w, back, v), front, now)
    ensures Permit(Two(limit, front, w, back, v), front, now) == Two(limit, front, More(w, 1), back, v)
  {
    hide Evicted;
    NothingEnds(limit, front, w, back, v, now);
    assert map[front := w, back := v][front := More(w, 1)] == map[front := More(w, 1), back := v];
  }

  lemma CountsBack(limit: nat, front: Ip, w: Window, back: Ip, v: Window, now: Duration)
    requires Early(w) && Early(v) && front != back && now < w.startedAt + WINDOW && v.count < limit
    ensures Permits(Two(limit, front, w, back, v), back, now)
    ensures Permit(Two(limit, front, w, back, v), back, now) == Two(limit, front, w, back, More(v, 1))
  {
    hide Evicted;
    NothingEnds(limit, front, w, back, v, now);
    assert map[front := w, back := v][back := More(v, 1)] == map[front := w, back := More(v, 1)];
  }

  lemma FrontEnds(limit: nat, front: Ip, w: Window, back: Ip, v: Window, now: Duration)
    requires Early(w) && Early(v) && front != back
    requires w.startedAt + WINDOW <= now < v.startedAt + WINDOW
    ensures Evicted(Two(limit, front, w, back, v), now) == One(limit, back, v)
  {
    var s := Two(limit, front, w, back, v);
    assert s.ends[1..] == [End(v.startedAt + WINDOW, back)] && s.windows - {front} == map[back := v];
    assert Evict(map[back := v], s.ends[1..], now) == (map[back := v], s.ends[1..]);
  }

  lemma BothEnd(limit: nat, front: Ip, w: Window, back: Ip, v: Window, now: Duration)
    requires Early(w) && Early(v) && front != back
    requires w.startedAt + WINDOW <= now && v.startedAt + WINDOW <= now
    ensures Evicted(Two(limit, front, w, back, v), now) == Empty(limit)
  {
    var s := Two(limit, front, w, back, v);
    assert s.ends[1..] == [End(v.startedAt + WINDOW, back)] && s.windows - {front} == map[back := v];
    assert s.ends[1..][1..] == [] && map[back := v] - {back} == map[];
    assert Evict(map[back := v], s.ends[1..], now) == (map[], []);
  }

  lemma ClosesFront(limit: nat, front: Ip, w: Window, back: Ip, v: Window, now: Duration)
    requires Early(w) && Early(v) && front != back
    requires w.startedAt + WINDOW <= now < v.startedAt + WINDOW
    ensures Permit(Two(limit, front, w, back, v), back, now)
         == One(limit, back, if v.count < limit then More(v, 1) else v)
  {
    hide Evicted;
    FrontEnds(limit, front, w, back, v, now);
    assert map[back := v][back := More(v, 1)] == map[back := More(v, 1)];
  }

  lemma ClosesBoth(limit: nat, front: Ip, w: Window, back: Ip, v: Window, now: Duration)
    requires Early(w) && Early(v) && front != back && now + WINDOW <= DURATION_MAX
    requires w.startedAt + WINDOW <= now && v.startedAt + WINDOW <= now
    ensures Permit(Two(limit, front, w, back, v), front, now) == One(limit, front, Window(now, 1))
  {
    hide Evicted;
    BothEnd(limit, front, w, back, v, now);
    assert [] + [End(now + WINDOW, front)] == [End(now + WINDOW, front)];
  }

  // --------------------------------------------------------------------- calls of address 1

  /** Address 1 calls `k` times more in its window at the front, as far as the limit allows. */
  lemma {:induction false} FillsFront(p: Span, limit: nat, w: Window, v: Window, t: nat, n: nat, now: Duration, k: nat)
    requires Early(w) && Early(v) && Reached(p, Two(limit, 1, w, 2, v), t, n) && w.count + k <= limit
    requires now < w.startedAt + WINDOW && t <= now && Early(Window(now, 1)) && p.from <= now < p.to
    ensures Reached(p, Two(limit, 1, More(w, k), 2, v), if k == 0 then t else now, n + k)
  {
    hide Reached, Two, Permit, Permits;
    if k == 0 {
    } else {
      FillsFront(p, limit, w, v, t, n, now, k - 1);
      CountsFront(limit, 1, More(w, k - 1), 2, v, now);
      Calls(p, Two(limit, 1, More(w, k - 1), 2, v), if k == 1 then t else now, n + k - 1, 1, now);
    }
  }

  lemma {:induction false} FillsBack(p: Span, limit: nat, w: Window, v: Window, t: nat, n: nat, now: Duration, k: nat)
    requires Early(w) && Early(v) && Reached(p, Two(limit, 2, w, 1, v), t, n) && v.count + k <= limit
    requires now <= t < w.startedAt + WINDOW && t <= now + p.skew && Early(Window(now, 1)) && p.from <= now < p.to
    ensures Reached(p, Two(limit, 2, w, 1, More(v, k)), t, n + k)
  {
    hide Reached, Two, Permit, Permits;
    if k == 0 {
    } else {
      FillsBack(p, limit, w, v, t, n, now, k - 1);
      CountsBack(limit, 2, w, 1, More(v, k - 1), now);
      Calls(p, Two(limit, 2, w, 1, More(v, k - 1)), t, n + k - 1, 1, now);
    }
  }

  /** Address 1 opens a window at the start and fills it at its end. */
  lemma FirstWindow(p: Span, limit: nat)
    requires limit >= 2 && p.from == WINDOW - 1 < p.to
    ensures Reached(p, Two(limit, 1, Window(0, limit), 2, Window(1, 1)), WINDOW - 1, limit - 1)
  {
    hide Reached, Permit, Permits;
    StartIsReached(p, limit);
    OpensOne(limit, 1, 0);
    Calls(p, Empty(limit), 0, 0, 1, 0);
    OpensSecond(limit, 1, Window(0, 1), 2, 1);
    Calls(p, One(limit, 1, Window(0, 1)), 0, 0, 2, 1);
    FillsFront(p, limit, Window(0, 1), Window(1, 1), 1, 0, WINDOW - 1, limit - 1);
    assert More(Window(0, 1), limit - 1) == Window(0, limit);
  }

  /** Address 2 closes it, and a late reading opens the next one, which is filled. */
  lemma SecondWindow(p: Span, limit: nat)
    requires limit >= 2 && 1 <= p.skew && 2 * p.skew <= WINDOW && p.from == WINDOW - 1 < p.to
    ensures (var b := if p.skew == 1 then limit else limit - 1;
             Reached(p, Two(limit, 2, Window(1, 2), 1, Window(WINDOW - p.skew, limit)), WINDOW, limit - 1 + b))
  {
    hide Reached, Permit, Permits, Two, One;
    var x := WINDOW - p.skew;
    FirstWindow(p, limit);
    ClosesFront(limit, 1, Window(0, limit), 2, Window(1, 1), WINDOW);
    Calls(p, Two(limit, 1, Window(0, limit), 2, Window(1, 1)), WINDOW - 1, limit - 1, 2, WINDOW);
    assert More(Window(1, 1), 1) == Window(1, 2);
    OpensSecond(limit, 2, Window(1, 2), 1, x);
    Calls(p, One(limit, 2, Window(1, 2)), WINDOW, limit - 1, 1, x);
    FillsBack(p, limit, Window(1, 2), Window(x, 1), WINDOW, limit - 1 + (if p.skew == 1 then 1 else 0),
              WINDOW - 1, limit - 1);
    assert More(Window(x, 1), limit - 1) == Window(x, limit);
  }

  /** The same once more. */
  lemma ThirdWindow(p: Span, limit: nat)
    requires limit >= 2 && 1 <= p.skew && 2 * p.skew <= WINDOW
    requires p.from == WINDOW - 1 && p.to == 2 * WINDOW + 1 - 2 * p.skew
    ensures CanPermit(limit, p, 3 * limit - if p.skew == 1 then 1 else 2)
  {
    hide Reached, Permit, Permits;
    var x, y, z := WINDOW - p.skew, 2 * WINDOW - p.skew, 2 * WINDOW - 2 * p.skew;
    var n := limit - 1 + if p.skew == 1 then limit else limit - 1;
    SecondWindow(p, limit);
    ClosesBoth(limit, 2, Window(1, 2), 1, Window(x, limit), y);
    Calls(p, Two(limit, 2, Window(1, 2), 1, Window(x, limit)), WINDOW, n, 2, y);
    OpensSecond(limit, 2, Window(y, 1), 1, z);
    Calls(p, One(limit, 2, Window(y, 1)), y, n, 1, z);
    FillsBack(p, limit, Window(y, 1), Window(z, 1), y, n + 1, z, limit - 1);
    assert n + 1 + (limit - 1) == n + limit;
    ReachedIsPermitted(p, Two(limit, 2, Window(y, 1), 1, More(Window(z, 1), limit - 1)), y, n + limit);
  }

  // ------------------------------------------------------------------- the bound is exact

  /** The bound ends exactly there: for every skew up to half a minute and every limit of
      three or more there is a run that permits more than twice the limit in an interval
      one instant longer. */
  lemma BoundIsExact(limit: nat, skew: nat)
    requires limit >= 3 && 1 <= skew && 2 * skew <= WINDOW
    ensures (var from, to := WINDOW - 1, 2 * WINDOW + 1 - 2 * skew;
             && to + 2 * skew == from + WINDOW + 2
             && CanPermit(limit, Span(skew, from, to), 2 * limit + 1))
  {
    hide CanPermit;
    var p := Span(skew, WINDOW - 1, 2 * WINDOW + 1 - 2 * skew);
    ThirdWindow(p, limit);
    FewerCount(limit, p, 3 * limit - (if skew == 1 then 1 else 2), 2 * limit + 1);
  }

  lemma FewerCount(limit: nat, p: Span, n: nat, m: nat)
    requires CanPermit(limit, p, n) && m <= n
    ensures CanPermit(limit, p, m)
  {
    var r :| Achieves(r, limit, p, n);
    assert Achieves(r, limit, p, m);
  }

  // ------------------------------------------------------------------ minutes, limit by limit

  ghost function InMinute(r: Trace, ip: Ip, from: nat): nat
    requires |r.calls| < |r.states|
  {
    CountIn(GrantLog(r, |r.calls|, ip), from, from + WINDOW)
  }

  ghost predicate KeepsMinute(r: Trace)
    requires |r.calls| < |r.states|
  {
    forall ip: Ip, from: nat :: InMinute(r, ip, from) <= 2 * r.states[0].limit
  }

  /** A limiter of one permits only the calls that open a window. */
  lemma {:induction false} OnlyOpenings(r: Trace, i: nat, ip: Ip, skew: nat)
    requires IsRun(r, skew) && skew < WINDOW && i <= |r.calls| && r.states[0].limit == 1
    ensures forall g <- GrantLog(r, i, ip) :: g.time == g.start
  {
    hide StepAt, Timely, Valid, Permit, Logged;
    if i == 0 {
    } else {
      OnlyOpenings(r, i - 1, ip, skew);
      SurvivorsAreYoung(r, i - 1, skew);
      assert r.states[i] == Permit(r.states[i - 1], r.calls[i - 1].ip, r.calls[i - 1].now) by { StepIs(r, i - 1); }
      OpensOnly(r.states[i - 1], r.calls[i - 1], ip);
    }
  }

  lemma StepIs(r: Trace, i: nat)
    requires i < |r.calls| && |r.states| == |r.calls| + 1 && StepAt(r, i)
    ensures r.states[i + 1] == Permit(r.states[i], r.calls[i].ip, r.calls[i].now)
  {
  }

  lemma OpensOnly(s: Limiter, c: Call, ip: Ip)
    requires Valid(s) && s.limit == 1
    ensures forall g <- Logged(s, c, Permit(s, c.ip, c.now), ip) :: g.time == g.start
  {
    hide Evicted, Corresponds;
    EvictedIsValid(s, c.now);
    assert Evicted(s, c.now).limit == 1 by { EvictKeepsLimit(s, c.now); }
  }

  lemma EvictKeepsLimit(s: Limiter, now: Duration)
    ensures Evicted(s, now).limit == s.limit
  {
  }

  /** Three windows opened less than half a minute late span a minute. */
  lemma ThreeOpeningsSpan(g: Grant, h: Grant, k: Grant, skew: nat)
    requires Apart(g, h, skew) && Apart(g, k, skew) && Apart(h, k, skew) && 2 * skew <= WINDOW
    requires g.start != h.start && g.start != k.start && h.start != k.start
    ensures g.start + WINDOW <= h.start || g.start + WINDOW <= k.start || h.start + WINDOW <= g.start
            || h.start + WINDOW <= k.start || k.start + WINDOW <= g.start || k.start + WINDOW <= h.start
  {
  }

  lemma OpeningsInMinute(log: seq<Grant>, skew: nat, from: nat)
    requires WithinLimit(log, 1, skew) && 2 * skew <= WINDOW && forall g <- log :: g.time == g.start
    ensures CountIn(log, from, from + WINDOW) <= 2
  {
    var to := from + WINDOW;
    if g: Grant :| g in log && Within(g, from, to) {
      var h := if exists h <- log :: Within(h, from, to) && h.start != g.start
               then (var h :| h in log && Within(h, from, to) && h.start != g.start; h) else g;
      forall k <- log | Within(k, from, to)
        ensures k.start == g.start || k.start == h.start
      {
        assert Apart(g, h, skew) && Apart(g, k, skew) && Apart(h, k, skew);
        if k.start != g.start && k.start != h.start && g.start != h.start { ThreeOpeningsSpan(g, h, k, skew); }
      }
      CountByStarts(log, from, to, g.start, h.start);
    } else {
      forall k <- log ensures !Within(k, from, to) {}
      CountByStarts(log, from, to, 0, 0);
    }
  }

  lemma OneKeepsMinute(r: Trace, skew: nat, ip: Ip, from: nat)
    requires IsRun(r, skew) && 2 * skew <= WINDOW && r.states[0].limit == 1
    ensures InMinute(r, ip, from) <= 2
  {
    hide StepAt, GrantLog, WithinLimit, CountIn, Timely, Valid;
    LogAlwaysFits(r, |r.calls|, ip, skew);
    SurvivorsAreYoung(r, |r.calls|, skew);
    OnlyOpenings(r, |r.calls|, ip, skew);
    OpeningsInMinute(GrantLog(r, |r.calls|, ip), skew, from);
  }

  const HALF: nat := WINDOW / 2 + 1

  /** A limiter of one that permits address 1 three times in the first minute. */
  lemma OneBreaksMinute()
    ensures CanPermit(1, Span(HALF, 0, WINDOW), 3)
  {
    hide Reached, Permit, Permits;
    var p := Span(HALF, 0, WINDOW);
    var x, y, z := WINDOW - HALF, 2 * WINDOW - HALF, 2 * WINDOW - 2 * HALF;
    StartIsReached(p, 1);
    OpensOne(1, 1, 0);
    Calls(p, Empty(1), 0, 0, 1, 0);
    OpensSecond(1, 1, Window(0, 1), 2, 1);
    Calls(p, One(1, 1, Window(0, 1)), 0, 1, 2, 1);
    ClosesFront(1, 1, Window(0, 1), 2, Window(1, 1), WINDOW);
    Calls(p, Two(1, 1, Window(0, 1), 2, Window(1, 1)), 1, 1, 2, WINDOW);
    OpensSecond(1, 2, Window(1, 1), 1, x);
    Calls(p, One(1, 2, Window(1, 1)), WINDOW, 1, 1, x);
    ClosesBoth(1, 2, Window(1, 1), 1, Window(x, 1), y);
    Calls(p, Two(1, 2, Window(1, 1), 1, Window(x, 1)), WINDOW, 2, 2, y);
    OpensSecond(1, 2, Window(y, 1), 1, z);
    Calls(p, One(1, 2, Window(y, 1)), y, 2, 1, z);
    ReachedIsPermitted(p, Two(1, 2, Window(y, 1), 1, Window(z, 1)), y, 3);
  }

  ghost predicate AllKeepMinute(limit: nat, skew: nat) {
    forall r | IsRun(r, skew) && r.states[0].limit == limit :: KeepsMinute(r)
  }

  /** A run that breaks the minute with some skew does so with any greater one. */
  lemma BreaksWithMore(limit: nat, p: Span, skew: nat)
    requires p.skew <= skew && p.to == p.from + WINDOW && CanPermit(limit, p, 2 * limit + 1)
    ensures !AllKeepMinute(limit, skew)
  {
    hide StepAt, GrantLog, CountIn;
    var r :| Achieves(r, limit, p, 2 * limit + 1);
    assert IsRun(r, skew);
    assert InMinute(r, 1, p.from) > 2 * limit;
  }

  /** Limit by limit, all runs with readings up to `skew` late keep twice the limit in every
      minute if and only if no reading is late or, for a limit of one, none is more than
      half a minute late. */
  lemma MinuteExactly(limit: nat, skew: nat)
    requires limit > 0
    ensures AllKeepMinute(limit, skew) <==> skew == 0 || (limit == 1 && 2 * skew <= WINDOW)
  {
    hide CanPermit, InMinute;
    if skew == 0 || (limit == 1 && 2 * skew <= WINDOW) {
      forall r | IsRun(r, skew) && r.states[0].limit == limit ensures KeepsMinute(r) {
        forall ip: Ip, from: nat ensures InMinute(r, ip, from) <= 2 * limit { MinuteIsKept(r, skew, ip, from); }
      }
    } else if limit == 1 {
      OneBreaksMinute();
      BreaksWithMore(1, Span(HALF, 0, WINDOW), skew);
    } else {
      var p := Span(1, WINDOW - 1, 2 * WINDOW - 1);
      ThirdWindow(p, limit);
      FewerCount(limit, p, 3 * limit - 1, 2 * limit + 1);
      BreaksWithMore(limit, p, skew);
    }
  }

  lemma MinuteIsKept(r: Trace, skew: nat, ip: Ip, from: nat)
    requires IsRun(r, skew) && (skew == 0 || (r.states[0].limit == 1 && 2 * skew <= WINDOW))
    ensures InMinute(r, ip, from) <= 2 * r.states[0].limit
  {
    hide StepAt, CountIn, GrantLog;
    if skew == 0 {
      PermitBound(r, 0, ip, from, from + WINDOW);
    } else {
      OneKeepsMinute(r, skew, ip, from);
    }
  }
}
