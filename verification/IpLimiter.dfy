/**
 The per-address limiter of setup and creator-held requests: a fixed window of one
 minute per address, a table of open windows and a queue of their ends. Times are
 nanoseconds and saturate at the largest duration.
 */
module IpLimiter {
  import opened FiniteSets

  const WINDOW: nat := 60_000_000_000
  const DURATION_MAX: nat := 0xFFFF_FFFF_FFFF_FFFF * 1_000_000_000 + 999_999_999

  type Ip = nat
  type Duration = n: nat | n <= DURATION_MAX

  datatype Window = Window(startedAt: Duration, count: nat)
  datatype End = End(expiresAt: Duration, ip: Ip)
  datatype Limiter = Limiter(limit: nat, maxClients: nat, windows: map<Ip, Window>, ends: seq<End>)

  function SaturatingAdd(a: Duration, b: nat): Duration {
    if a + b <= DURATION_MAX then a + b else DURATION_MAX
  }

  function SaturatingSub(a: nat, b: nat): nat { if a >= b then a - b else 0 }

  predicate Ended(windows: map<Ip, Window>, ip: Ip, now: Duration) {
    ip in windows && SaturatingSub(now, windows[ip].startedAt) >= WINDOW
  }

  /** Takes due ends off the queue and closes the windows that are over. */
  function Evict(windows: map<Ip, Window>, ends: seq<End>, now: Duration): (map<Ip, Window>, seq<End>)
    decreases |ends|
  {
    if ends == [] || now < ends[0].expiresAt then (windows, ends)
    else
      var ip := ends[0].ip;
      Evict(if Ended(windows, ip, now) then windows - {ip} else windows, ends[1..], now)
  }

  function Evicted(s: Limiter, now: Duration): Limiter {
    var (windows, ends) := Evict(s.windows, s.ends, now);
    s.(windows := windows, ends := ends)
  }

  predicate Serves(e: Limiter, ip: Ip) {
    if ip in e.windows then e.windows[ip].count < e.limit else |e.windows| < e.maxClients
  }

  /** Answers a call once the queue holds no due end at its front. */
  function Serve(e: Limiter, ip: Ip, now: Duration): Limiter {
    if !Serves(e, ip) then e
    else if ip in e.windows then
      e.(windows := e.windows[ip := e.windows[ip].(count := e.windows[ip].count + 1)])
    else
      e.(windows := e.windows[ip := Window(now, 1)],
         ends := e.ends + [End(SaturatingAdd(now, WINDOW), ip)])
  }

  predicate Permits(s: Limiter, ip: Ip, now: Duration) { Serves(Evicted(s, now), ip) }

  function Permit(s: Limiter, ip: Ip, now: Duration): Limiter { Serve(Evicted(s, now), ip, now) }

  predicate Opens(s: Limiter, ip: Ip, now: Duration) {
    ip !in Evicted(s, now).windows && Permits(s, ip, now)
  }

  class PerIpRateLimiter {
    const limit: nat
    const maxClients: nat
    var windows: map<Ip, Window>
    var ends: seq<End>

    ghost function View(): Limiter
      reads this
    {
      Limiter(limit, maxClients, windows, ends)
    }

    constructor (limit: nat, maxClients: nat)
      ensures View() == Limiter(limit, maxClients, map[], [])
    {
      this.limit, this.maxClients := limit, maxClients;
      windows, ends := map[], [];
    }

    method TryPermit(ip: Ip, now: Duration) returns (permitted: bool)
      modifies this
      ensures permitted == Permits(old(View()), ip, now)
      ensures View() == Permit(old(View()), ip, now)
    {
      while ends != [] && now >= ends[0].expiresAt
        invariant Evict(windows, ends, now) == Evict(old(windows), old(ends), now)
        decreases |ends|
      {
        var expired := ends[0].ip;
        ends := ends[1..];
        if expired in windows && SaturatingSub(now, windows[expired].startedAt) >= WINDOW {
          windows := windows - {expired};
        }
      }
      assert View() == Evicted(old(View()), now);
      if ip in windows {
        if windows[ip].count >= limit {
          return false;
        }
        windows := windows[ip := windows[ip].(count := windows[ip].count + 1)];
        return true;
      }
      if |windows| >= maxClients {
        return false;
      }
      windows := windows[ip := Window(now, 1)];
      ends := ends + [End(SaturatingAdd(now, WINDOW), ip)];
      permitted := true;
    }
  }

  // --------------------------------------------------------------- correspondence

  /** The queue holds exactly one entry per open window, with that window's end. */
  ghost predicate Corresponds(windows: map<Ip, Window>, ends: seq<End>) {
    && (forall i, j | 0 <= i < j < |ends| :: ends[i].ip != ends[j].ip)
    && (forall x <- ends :: x.ip in windows && x.expiresAt == windows[x.ip].startedAt + WINDOW)
    && (forall ip | ip in windows :: exists x <- ends :: x.ip == ip)
  }

  ghost predicate Valid(s: Limiter) {
    && s.limit > 0
    && Corresponds(s.windows, s.ends)
    && |s.windows| <= s.maxClients
    && forall ip | ip in s.windows :: 1 <= s.windows[ip].count <= s.limit
  }

  lemma {:induction false} EvictKeepsCorrespondence(windows: map<Ip, Window>, ends: seq<End>, now: Duration)
    requires Corresponds(windows, ends)
    ensures Corresponds(Evict(windows, ends, now).0, Evict(windows, ends, now).1)
    ensures Evict(windows, ends, now).0.Keys <= windows.Keys
    ensures forall ip | ip in Evict(windows, ends, now).0 :: Evict(windows, ends, now).0[ip] == windows[ip]
    ensures forall ip | ip in windows && ip !in Evict(windows, ends, now).0 :: now >= windows[ip].startedAt + WINDOW
    ensures Evict(windows, ends, now).1 != [] ==> now < Evict(windows, ends, now).1[0].expiresAt
    ensures |Evict(windows, ends, now).1| <= |ends|
    ensures Evict(windows, ends, now).1 == ends[|ends| - |Evict(windows, ends, now).1|..]
    decreases |ends|
  {
    hide Corresponds;
    if ends == [] || now < ends[0].expiresAt {
    } else {
      PopKeepsCorrespondence(windows, ends);
      EvictPops(windows, ends, now);
      hide Evict;
      EvictKeepsCorrespondence(windows - {ends[0].ip}, ends[1..], now);
    }
  }

  lemma EvictPops(windows: map<Ip, Window>, ends: seq<End>, now: Duration)
    requires ends != [] && now >= ends[0].expiresAt && ends[0].ip in windows
    requires ends[0].expiresAt == windows[ends[0].ip].startedAt + WINDOW
    ensures Evict(windows, ends, now) == Evict(windows - {ends[0].ip}, ends[1..], now)
  {
    assert Ended(windows, ends[0].ip, now);
  }

  lemma PopKeepsCorrespondence(windows: map<Ip, Window>, ends: seq<End>)
    requires Corresponds(windows, ends) && ends != []
    ensures Corresponds(windows - {ends[0].ip}, ends[1..])
    ensures ends[0].ip in windows && ends[0].expiresAt == windows[ends[0].ip].startedAt + WINDOW
  {
    var rest := windows - {ends[0].ip};
    assert ends[0] in ends;
    forall x <- ends[1..] ensures x.ip != ends[0].ip {
      var i :| 0 <= i < |ends[1..]| && ends[1..][i] == x;
      assert ends[i + 1] == x;
    }
    forall ip | ip in rest ensures exists x <- ends[1..] :: x.ip == ip {
      var x :| x in ends && x.ip == ip;
      var i :| 0 <= i < |ends| && ends[i] == x;
      assert ends[1..][i - 1] == x;
    }
  }

  lemma PushKeepsCorrespondence(windows: map<Ip, Window>, ends: seq<End>, ip: Ip, now: Duration)
    requires Corresponds(windows, ends) && ip !in windows
    ensures Corresponds(windows[ip := Window(now, 1)], ends + [End(SaturatingAdd(now, WINDOW), ip)])
       <==> now + WINDOW <= DURATION_MAX
  {
    var w, q := windows[ip := Window(now, 1)], ends + [End(SaturatingAdd(now, WINDOW), ip)];
    assert q[|ends|] in q && q[|ends|].ip == ip;
    if now + WINDOW <= DURATION_MAX {
      forall j | j in w ensures exists x <- q :: x.ip == j {
        if j != ip {
          var x :| x in ends && x.ip == j;
          assert x in q;
        }
      }
    }
  }

  lemma EvictedIsValid(s: Limiter, now: Duration)
    requires Valid(s)
    ensures Valid(Evicted(s, now))
  {
    hide Corresponds;
    EvictKeepsCorrespondence(s.windows, s.ends, now);
    SubsetSize(Evicted(s, now).windows.Keys, s.windows.Keys);
  }

  lemma ServeKeepsValid(e: Limiter, ip: Ip, now: Duration)
    requires Valid(e)
    ensures Valid(Serve(e, ip, now))
       <==> (ip !in e.windows && Serves(e, ip) ==> now + WINDOW <= DURATION_MAX)
  {
    hide Corresponds, SaturatingAdd;
    if ip in e.windows {
      CountKeepsCorrespondence(e.windows, e.ends, ip);
    } else if Serves(e, ip) {
      PushKeepsCorrespondence(e.windows, e.ends, ip, now);
      assert Serve(e, ip, now).windows.Keys == e.windows.Keys + {ip};
      assert |Serve(e, ip, now).windows| == |e.windows| + 1;
    }
  }

  /** A call at any time, in any order, keeps queue and table in correspondence,
      within the client bound and each window within the limit - except, and
      exactly except, when it opens a window so close to the end of time that its
      end saturates. */
  lemma PermitKeepsValid(s: Limiter, ip: Ip, now: Duration)
    requires Valid(s)
    ensures Valid(Permit(s, ip, now)) <==> (Opens(s, ip, now) ==> now + WINDOW <= DURATION_MAX)
  {
    hide Valid, Evicted, Serve;
    EvictedIsValid(s, now);
    ServeKeepsValid(Evicted(s, now), ip, now);
  }

  lemma CountKeepsCorrespondence(windows: map<Ip, Window>, ends: seq<End>, ip: Ip)
    requires Corresponds(windows, ends) && ip in windows
    ensures Corresponds(windows[ip := windows[ip].(count := windows[ip].count + 1)], ends)
    ensures |windows[ip := windows[ip].(count := windows[ip].count + 1)]| == |windows|
  {
    assert windows[ip := windows[ip].(count := windows[ip].count + 1)].Keys == windows.Keys;
  }

  /** The failing input: a window first at the last instant loses its queue entry
      on the next call and stays in the table. */
  lemma WindowAtTheEndOfTimeNeverCloses()
    ensures (var s := Limiter(1, 1, map[], []);
             var later := Permit(Permit(s, 7, DURATION_MAX), 7, DURATION_MAX);
             Valid(s) && 7 in later.windows && later.ends == [] && !Valid(later))
  {
    var s := Limiter(1, 1, map[], []);
    var first := Permit(s, 7, DURATION_MAX);
    assert first == Limiter(1, 1, map[7 := Window(DURATION_MAX, 1)], [End(DURATION_MAX, 7)]);
    assert first.ends[1..] == [];
    assert Evict(first.windows, first.ends, DURATION_MAX) == (first.windows, []);
    var later := Permit(first, 7, DURATION_MAX);
    assert later.windows == first.windows;
  }

  // -------------------------------------------------------------------------- runs

  datatype Call = Call(ip: Ip, now: Duration)
  datatype Trace = Trace(calls: seq<Call>, states: seq<Limiter>)

  ghost predicate StepAt(r: Trace, i: nat)
    requires i < |r.calls| && |r.states| == |r.calls| + 1
  {
    r.states[i + 1] == Permit(r.states[i], r.calls[i].ip, r.calls[i].now)
  }

  /** A run of a new limiter, more than a window away from the end of time. The clock is
      read before the lock is taken, so readings may come out of order: none lies more
      than `skew` behind an earlier one. A monotone clock has no skew. */
  ghost predicate IsRun(r: Trace, skew: nat) {
    && |r.states| == |r.calls| + 1
    && r.states[0].limit > 0 && r.states[0].windows == map[] && r.states[0].ends == []
    && (forall i | 0 <= i < |r.calls| :: StepAt(r, i))
    && (forall i, j | 0 <= i <= j < |r.calls| :: r.calls[i].now <= r.calls[j].now + skew)
    && (forall c <- r.calls :: c.now + WINDOW <= DURATION_MAX)
  }

  function Max(a: nat, b: nat): nat { if a >= b then a else b }

  /** The latest of the first `i` readings. */
  ghost function Latest(r: Trace, i: nat): nat
    requires i <= |r.calls|
  {
    if i == 0 then 0 else Max(Latest(r, i - 1), r.calls[i - 1].now)
  }

  lemma {:induction false} LatestIsRead(r: Trace, i: nat)
    requires i <= |r.calls|
    ensures Latest(r, i) == 0 || exists j | 0 <= j < i :: r.calls[j].now == Latest(r, i)
  {
    if i == 0 {
    } else {
      LatestIsRead(r, i - 1);
      if Latest(r, i) != Latest(r, i - 1) { assert r.calls[i - 1].now == Latest(r, i); }
    }
  }

  lemma SkewBoundsLatest(r: Trace, i: nat, skew: nat)
    requires IsRun(r, skew) && i < |r.calls|
    ensures Latest(r, i) <= r.calls[i].now + skew
  {
    LatestIsRead(r, i);
  }

  /** Later ends are at most the skew ahead of earlier ones. */
  ghost predicate Sorted(ends: seq<End>, skew: nat) {
    forall i, j | 0 <= i <= j < |ends| :: ends[i].expiresAt <= ends[j].expiresAt + skew
  }

  /** The front of the queue is not due at `t`. */
  ghost predicate Fresh(ends: seq<End>, t: nat) { ends != [] ==> t < ends[0].expiresAt }

  /** Every open window started by `t`, less than a minute and the skew ago. */
  ghost predicate Young(s: Limiter, t: nat, skew: nat) {
    forall ip | ip in s.windows :: s.windows[ip].startedAt <= t < s.windows[ip].startedAt + WINDOW + skew
  }

  ghost predicate Timely(s: Limiter, t: nat, skew: nat) {
    Sorted(s.ends, skew) && Fresh(s.ends, t) && Young(s, t, skew)
  }

  lemma SuffixIsSorted(ends: seq<End>, n: nat, skew: nat)
    requires Sorted(ends, skew) && n <= |ends|
    ensures Sorted(ends[n..], skew)
  {
    forall i, j | 0 <= i <= j < |ends[n..]| ensures ends[n..][i].expiresAt <= ends[n..][j].expiresAt + skew {
      assert ends[n + i].expiresAt <= ends[n + j].expiresAt + skew;
    }
  }

  /** With the queue almost sorted, a front that is not due means no window is long over. */
  lemma FrontDecides(windows: map<Ip, Window>, ends: seq<End>, t: nat, skew: nat, ip: Ip)
    requires Corresponds(windows, ends) && Sorted(ends, skew) && Fresh(ends, t)
    requires ip in windows
    ensures t < windows[ip].startedAt + WINDOW + skew
  {
    var x :| x in ends && x.ip == ip;
    var i :| 0 <= i < |ends| && ends[i] == x;
    assert ends[0].expiresAt <= ends[i].expiresAt + skew;
  }

  /** A reading that is not the latest evicts nothing. */
  lemma OldReadingEvictsNothing(s: Limiter, t: nat, now: Duration)
    requires Fresh(s.ends, t) && now <= t
    ensures Evicted(s, now) == s
  {
  }

  lemma NewReadingLeavesYoung(s: Limiter, e: Limiter, t: nat, now: Duration, skew: nat)
    requires Young(s, t, skew) && t <= now
    requires Corresponds(e.windows, e.ends) && Sorted(e.ends, skew) && Fresh(e.ends, now)
    requires forall ip | ip in e.windows :: ip in s.windows && e.windows[ip] == s.windows[ip]
    ensures Young(e, now, skew)
  {
    hide Corresponds, Sorted, Fresh;
    forall ip | ip in e.windows
      ensures e.windows[ip].startedAt <= now < e.windows[ip].startedAt + WINDOW + skew
    {
      FrontDecides(e.windows, e.ends, now, skew, ip);
    }
  }

  lemma EvictLeavesTimely(s: Limiter, t: nat, now: Duration, skew: nat)
    requires Valid(s) && Timely(s, t, skew)
    ensures Timely(Evicted(s, now), Max(t, now), skew)
  {
    hide Corresponds, Sorted, Evict, Young;
    if now <= t {
      OldReadingEvictsNothing(s, t, now);
    } else {
      EvictKeepsCorrespondence(s.windows, s.ends, now);
      var e := Evicted(s, now);
      SuffixIsSorted(s.ends, |s.ends| - |e.ends|, skew);
      NewReadingLeavesYoung(s, e, t, now, skew);
    }
  }

  lemma ServeStaysTimely(e: Limiter, ip: Ip, now: Duration, t: nat, skew: nat)
    requires Valid(e) && Timely(e, t, skew) && now <= t <= now + skew && skew < WINDOW
    requires now + WINDOW <= DURATION_MAX
    ensures Timely(Serve(e, ip, now), t, skew)
  {
    if ip !in e.windows && Serves(e, ip) {
      forall x <- e.ends ensures x.expiresAt <= now + WINDOW + skew {
        assert x.ip in e.windows;
      }
    }
  }

  /** Whatever order the readings come in, the queue and the table stay matched, and
      every open window is younger than a minute and the skew. */
  lemma {:induction false} SurvivorsAreYoung(r: Trace, i: nat, skew: nat)
    requires IsRun(r, skew) && skew < WINDOW && i <= |r.calls|
    ensures Valid(r.states[i]) && Timely(r.states[i], Latest(r, i), skew)
    ensures r.states[i].limit == r.states[0].limit
  {
    hide Valid, Timely, Evicted, Serve, Permits;
    if i == 0 {
      EmptyIsTimely(r.states[0], skew);
    } else {
      SurvivorsAreYoung(r, i - 1, skew);
      var s, c, t := r.states[i - 1], r.calls[i - 1], Latest(r, i - 1);
      assert StepAt(r, i - 1);
      assert c in r.calls;
      SkewBoundsLatest(r, i - 1, skew);
      EvictedIsValid(s, c.now);
      EvictLeavesTimely(s, t, c.now, skew);
      ServeStaysTimely(Evicted(s, c.now), c.ip, c.now, Max(t, c.now), skew);
      PermitKeepsValid(s, c.ip, c.now);
      PermitKeepsLimit(s, c.ip, c.now);
    }
  }

  lemma EmptyIsTimely(s: Limiter, skew: nat)
    requires s.limit > 0 && s.windows == map[] && s.ends == []
    ensures Valid(s) && Timely(s, 0, skew)
  {
  }

  lemma PermitKeepsLimit(s: Limiter, ip: Ip, now: Duration)
    ensures Permit(s, ip, now).limit == s.limit
  {
  }

  // ----------------------------------------------------------------------- counting

  /** One permitted call and the start of the window it was counted in. */
  datatype Grant = Grant(time: nat, start: nat)

  /** What a call that leads from `s` to `t` adds to the log of `ip`. */
  function Logged(s: Limiter, c: Call, t: Limiter, ip: Ip): seq<Grant> {
    if c.ip == ip && Permits(s, ip, c.now) && ip in t.windows
    then [Grant(c.now, t.windows[ip].startedAt)] else []
  }

  ghost function GrantLog(r: Trace, i: nat, ip: Ip): seq<Grant>
    requires i <= |r.calls| < |r.states|
  {
    if i == 0 then []
    else GrantLog(r, i - 1, ip) + Logged(r.states[i - 1], r.calls[i - 1], r.states[i], ip)
  }

  ghost function CountStart(log: seq<Grant>, start: nat): nat {
    if log == [] then 0
    else CountStart(log[..|log| - 1], start) + if log[|log| - 1].start == start then 1 else 0
  }

  /** Grants at or after `from` and before `to`. */
  ghost function CountIn(log: seq<Grant>, from: nat, to: nat): nat {
    if log == [] then 0
    else CountIn(log[..|log| - 1], from, to) + if from <= log[|log| - 1].time < to then 1 else 0
  }

  lemma CountStartPush(log: seq<Grant>, g: Grant, start: nat)
    ensures CountStart(log + [g], start) == CountStart(log, start) + if g.start == start then 1 else 0
  {
    assert (log + [g])[..|log|] == log;
  }

  lemma {:induction false} CountStartZero(log: seq<Grant>, start: nat)
    requires forall g <- log :: g.start != start
    ensures CountStart(log, start) == 0
  {
    if log == [] {
    } else {
      CountStartZero(log[..|log| - 1], start);
    }
  }

  /** The window of `g` was closed before the one of `h` was opened. */
  ghost predicate Precedes(g: Grant, h: Grant, skew: nat) {
    && g.start + WINDOW <= h.start + skew
    && g.start + WINDOW <= h.time + skew
    && g.time < h.start + skew
  }

  ghost predicate Apart(g: Grant, h: Grant, skew: nat) {
    g.start == h.start || Precedes(g, h, skew) || Precedes(h, g, skew)
  }

  ghost predicate WithinLimit(log: seq<Grant>, limit: nat, skew: nat) {
    && (forall g <- log, h <- log :: Apart(g, h, skew))
    && (forall start: nat :: CountStart(log, start) <= limit)
  }

  /** The window of `g` was closed by a reading up to `t`. */
  ghost predicate Over(g: Grant, t: nat) { g.start + WINDOW <= t && g.time < t }

  /** How the log of `ip` stands to its window, if it has one, when `t` is the latest reading. */
  ghost predicate LogFits(log: seq<Grant>, s: Limiter, ip: Ip, t: nat, skew: nat) {
    && WithinLimit(log, s.limit, skew)
    && (forall g <- log :: g.time <= t)
    && (if ip in s.windows then
          && CountStart(log, s.windows[ip].startedAt) == s.windows[ip].count
          && forall g <- log ::
               || g.start == s.windows[ip].startedAt
               || (Over(g, t) && Over(g, s.windows[ip].startedAt + skew))
        else forall g <- log :: Over(g, t))
  }

  lemma EvictFits(log: seq<Grant>, s: Limiter, ip: Ip, t: nat, now: Duration, skew: nat)
    requires Valid(s) && Timely(s, t, skew) && LogFits(log, s, ip, t, skew)
    ensures LogFits(log, Evicted(s, now), ip, Max(t, now), skew)
  {
    hide WithinLimit, Corresponds, Sorted, Young, Evict;
    EvictKeepsCorrespondence(s.windows, s.ends, now);
    if now <= t { OldReadingEvictsNothing(s, t, now); }
  }

  lemma PushFits(log: seq<Grant>, g: Grant, limit: nat, skew: nat)
    requires WithinLimit(log, limit, skew)
    requires (forall h <- log :: Apart(h, g, skew)) && CountStart(log, g.start) < limit
    ensures WithinLimit(log + [g], limit, skew)
  {
    forall start: nat ensures CountStart(log + [g], start) <= limit { CountStartPush(log, g, start); }
  }

  lemma ServeFits(log: seq<Grant>, e: Limiter, ip: Ip, now: Duration, t: nat, skew: nat)
    requires Valid(e) && LogFits(log, e, ip, t, skew) && Serves(e, ip)
    requires now <= t <= now + skew && skew < WINDOW
    ensures LogFits(log + [Grant(now, Serve(e, ip, now).windows[ip].startedAt)], Serve(e, ip, now), ip, t, skew)
  {
    hide WithinLimit, Corresponds;
    var g := Grant(now, Serve(e, ip, now).windows[ip].startedAt);
    CountStartPush(log, g, g.start);
    if ip !in e.windows { CountStartZero(log, now); }
    PushFits(log, g, e.limit, skew);
  }

  lemma OtherFits(log: seq<Grant>, e: Limiter, ip: Ip, other: Ip, now: Duration, t: nat, skew: nat)
    requires LogFits(log, e, ip, t, skew) && (other != ip || !Serves(e, ip))
    ensures LogFits(log, Serve(e, other, now), ip, t, skew)
  {
    hide WithinLimit;
  }

  /** In any run the permits of an address fall into windows of at most `limit` each,
      one closed before the next is opened; the last one is the table's. */
  lemma {:induction false} LogAlwaysFits(r: Trace, i: nat, ip: Ip, skew: nat)
    requires IsRun(r, skew) && skew < WINDOW && i <= |r.calls|
    ensures LogFits(GrantLog(r, i, ip), r.states[i], ip, Latest(r, i), skew)
  {
    hide LogFits, Valid, Timely, Permit, Logged, Max;
    if i == 0 {
      EmptyLogFits(r.states[0], ip, skew);
    } else {
      LogAlwaysFits(r, i - 1, ip, skew);
      SurvivorsAreYoung(r, i - 1, skew);
      SkewBoundsLatest(r, i - 1, skew);
      assert StepAt(r, i - 1);
      LogStep(r.states[i - 1], r.calls[i - 1], GrantLog(r, i - 1, ip), ip, Latest(r, i - 1), skew);
    }
  }

  lemma LogStep(s: Limiter, c: Call, log: seq<Grant>, ip: Ip, t: nat, skew: nat)
    requires Valid(s) && Timely(s, t, skew) && LogFits(log, s, ip, t, skew)
    requires t <= c.now + skew && skew < WINDOW
    ensures LogFits(log + Logged(s, c, Permit(s, c.ip, c.now), ip), Permit(s, c.ip, c.now), ip, Max(t, c.now), skew)
  {
    hide LogFits, Valid, Timely, Evicted, Serve, Serves;
    var e := Evicted(s, c.now);
    EvictFits(log, s, ip, t, c.now, skew);
    EvictedIsValid(s, c.now);
    if c.ip == ip && Serves(e, ip) {
      ServedHasWindow(e, ip, c.now);
      ServeFits(log, e, ip, c.now, Max(t, c.now), skew);
    } else {
      OtherFits(log, e, ip, c.ip, c.now, Max(t, c.now), skew);
      assert log + [] == log;
    }
  }

  lemma ServedHasWindow(e: Limiter, ip: Ip, now: Duration)
    requires Serves(e, ip)
    ensures ip in Serve(e, ip, now).windows
  {
  }

  lemma EmptyLogFits(s: Limiter, ip: Ip, skew: nat)
    requires s.windows == map[]
    ensures LogFits([], s, ip, 0, skew)
  {
  }

  lemma {:induction false} CountByStarts(log: seq<Grant>, from: nat, to: nat, a: nat, b: nat)
    requires forall g <- log :: from <= g.time < to ==> g.start == a || g.start == b
    ensures CountIn(log, from, to) <= CountStart(log, a) + CountStart(log, b)
  {
    if log == [] {
    } else {
      CountByStarts(log[..|log| - 1], from, to, a, b);
    }
  }

  ghost predicate Within(g: Grant, from: nat, to: nat) { from <= g.time < to }

  /** An interval this short does not reach from one window over a second into a third. */
  lemma NoThreeWindows(log: seq<Grant>, limit: nat, skew: nat, from: nat, to: nat, g: Grant, h: Grant, k: Grant)
    requires WithinLimit(log, limit, skew) && g in log && h in log && k in log && skew < WINDOW
    requires to + 2 * skew <= from + WINDOW + 1
    requires Within(g, from, to) && Within(h, from, to) && Within(k, from, to)
    ensures g.start == h.start || g.start == k.start || h.start == k.start
  {
    assert Apart(g, h, skew) && Apart(g, k, skew) && Apart(h, k, skew);
  }

  lemma AtMostTwoWindows(log: seq<Grant>, limit: nat, skew: nat, from: nat, to: nat)
    requires WithinLimit(log, limit, skew) && skew < WINDOW && to + 2 * skew <= from + WINDOW + 1
    ensures CountIn(log, from, to) <= 2 * limit
  {
    if g: Grant :| g in log && Within(g, from, to) {
      var h := if exists h <- log :: Within(h, from, to) && h.start != g.start
               then (var h :| h in log && Within(h, from, to) && h.start != g.start; h) else g;
      forall k <- log | Within(k, from, to)
        ensures k.start == g.start || k.start == h.start
      {
        NoThreeWindows(log, limit, skew, from, to, g, h, k);
      }
      CountByStarts(log, from, to, g.start, h.start);
    } else {
      forall k <- log ensures !Within(k, from, to) {}
      CountByStarts(log, from, to, 0, 0);
    }
  }

  /** In any run whose readings are at most `skew` behind, one address gets at most
      `limit` permits in each of its windows, and at most twice that in any interval
      shorter than a minute by twice the skew. Without skew that is any minute. */
  lemma PermitBound(r: Trace, skew: nat, ip: Ip, from: nat, to: nat)
    requires IsRun(r, skew) && skew < WINDOW && to + 2 * skew <= from + WINDOW + 1
    ensures CountIn(GrantLog(r, |r.calls|, ip), from, to) <= 2 * r.states[0].limit
    ensures forall start: nat :: CountStart(GrantLog(r, |r.calls|, ip), start) <= r.states[0].limit
  {
    LogAlwaysFits(r, |r.calls|, ip, skew);
    SurvivorsAreYoung(r, |r.calls|, skew);
    AtMostTwoWindows(GrantLog(r, |r.calls|, ip), r.states[0].limit, skew, from, to);
  }
}
