/**
 What the per-address limiter answers, by a simple reference: for every address the window
 it was last given, open for a minute, with no table to clean and no queue.
 */
module IpReference {
  import opened IpLimiter

  type Reference = map<Ip, Window>

  function Open(ref: Reference, now: nat): set<Ip> {
    set ip | ip in ref && now < ref[ip].startedAt + 60_000_000_000
  }

  /** An address with an open window is served until the limit; any other one as long as
      fewer than `maxClients` addresses have an open window. */
  predicate Grants(limit: nat, maxClients: nat, ref: Reference, c: Call) {
    if c.ip in Open(ref, c.now) then ref[c.ip].count < limit else |Open(ref, c.now)| < maxClients
  }

  function After(limit: nat, maxClients: nat, ref: Reference, c: Call): Reference {
    if !Grants(limit, maxClients, ref, c) then ref
    else if c.ip in Open(ref, c.now) then ref[c.ip := ref[c.ip].(count := ref[c.ip].count + 1)]
    else ref[c.ip := Window(c.now, 1)]
  }

  ghost function RefAt(limit: nat, maxClients: nat, calls: seq<Call>, i: nat): Reference
    requires i <= |calls|
  {
    if i == 0 then map[] else After(limit, maxClients, RefAt(limit, maxClients, calls, i - 1), calls[i - 1])
  }

  /** The table holds the reference's windows, except some that are over by `t`. */
  ghost predicate Follows(s: Limiter, ref: Reference, t: nat) {
    && (forall ip | ip in s.windows :: ip in ref && ref[ip] == s.windows[ip])
    && (forall ip | ip in ref && ip !in s.windows :: ref[ip].startedAt + WINDOW <= t)
  }

  lemma EvictFollows(s: Limiter, ref: Reference, t: nat, now: Duration)
    requires Valid(s) && Timely(s, t, 0) && Follows(s, ref, t) && t <= now
    ensures Follows(Evicted(s, now), ref, now)
    ensures Evicted(s, now).windows.Keys == Open(ref, now)
  {
    hide Corresponds, Sorted, Fresh, Evict;
    EvictLeavesTimely(s, t, now, 0);
    EvictKeepsCorrespondence(s.windows, s.ends, now);
    YoungFollows(s, Evicted(s, now), ref, t, now);
  }

  lemma YoungFollows(s: Limiter, e: Limiter, ref: Reference, t: nat, now: nat)
    requires Follows(s, ref, t) && t <= now && Young(e, now, 0)
    requires forall ip | ip in e.windows :: ip in s.windows && e.windows[ip] == s.windows[ip]
    requires forall ip | ip in s.windows && ip !in e.windows :: now >= s.windows[ip].startedAt + WINDOW
    ensures Follows(e, ref, now) && e.windows.Keys == Open(ref, now)
  {
  }

  lemma ServeFollows(e: Limiter, ref: Reference, c: Call)
    requires Follows(e, ref, c.now) && e.windows.Keys == Open(ref, c.now)
    ensures Serves(e, c.ip) == Grants(e.limit, e.maxClients, ref, c)
    ensures Follows(Serve(e, c.ip, c.now), After(e.limit, e.maxClients, ref, c), c.now)
  {
    assert |e.windows| == |e.windows.Keys|;
  }

  lemma PermitKeepsBounds(s: Limiter, ip: Ip, now: Duration)
    ensures Permit(s, ip, now).limit == s.limit && Permit(s, ip, now).maxClients == s.maxClients
    ensures Evicted(s, now).limit == s.limit && Evicted(s, now).maxClients == s.maxClients
  {
  }

  lemma {:induction false} TableFollows(r: Trace, i: nat)
    requires IsRun(r, 0) && i <= |r.calls|
    ensures r.states[i].limit == r.states[0].limit && r.states[i].maxClients == r.states[0].maxClients
    ensures Follows(r.states[i], RefAt(r.states[0].limit, r.states[0].maxClients, r.calls, i), Latest(r, i))
  {
    hide Follows, Valid, Timely, Evicted, Serve, Serves, After, Open, Grants;
    if i == 0 {
      assert Follows(r.states[0], map[], 0) by { NothingFollows(r.states[0]); }
    } else {
      TableFollows(r, i - 1);
      AnswerFollows(r, i - 1);
    }
  }

  lemma NothingFollows(s: Limiter)
    requires s.windows == map[]
    ensures Follows(s, map[], 0)
  {
  }

  lemma AnswerFollows(r: Trace, i: nat)
    requires IsRun(r, 0) && i < |r.calls|
    requires r.states[i].limit == r.states[0].limit && r.states[i].maxClients == r.states[0].maxClients
    requires Follows(r.states[i], RefAt(r.states[0].limit, r.states[0].maxClients, r.calls, i), Latest(r, i))
    ensures (var limit, maxClients, c := r.states[0].limit, r.states[0].maxClients, r.calls[i];
             && Permits(r.states[i], c.ip, c.now) == Grants(limit, maxClients, RefAt(limit, maxClients, r.calls, i), c)
             && Follows(r.states[i + 1], RefAt(limit, maxClients, r.calls, i + 1), Latest(r, i + 1))
             && r.states[i + 1].limit == limit && r.states[i + 1].maxClients == maxClients)
  {
    hide Follows, Valid, Timely, Evicted, Serve, Serves, After, Open, Grants;
    var s, c := r.states[i], r.calls[i];
    var ref := RefAt(r.states[0].limit, r.states[0].maxClients, r.calls, i);
    SurvivorsAreYoung(r, i, 0);
    SkewBoundsLatest(r, i, 0);
    assert StepAt(r, i);
    EvictFollows(s, ref, Latest(r, i), c.now);
    PermitKeepsBounds(s, c.ip, c.now);
    ServeFollows(Evicted(s, c.now), ref, c);
  }

  /** Under a monotone clock every call is answered as the reference answers it. */
  lemma PermitsExactly(r: Trace, i: nat)
    requires IsRun(r, 0) && i < |r.calls|
    ensures (var limit, maxClients, c := r.states[0].limit, r.states[0].maxClients, r.calls[i];
             Permits(r.states[i], c.ip, c.now) <==> Grants(limit, maxClients, RefAt(limit, maxClients, r.calls, i), c))
  {
    hide Follows, Permits, Grants;
    TableFollows(r, i);
    AnswerFollows(r, i);
  }
}
