/**
 Setup flows: the permits that bound them, the one-shot attempts they own, and what
 a caller is told about a flow over time.

 Every critical section under the state lock, and every move of a permit, is one
 event; tasks interleave between events in any order. Times are nanoseconds.
 */
module SetupFlow {
  import opened Wrappers

  const FLOW_LIFETIME: nat := 300_000_000_000

  type Duration = nat
  type FlowId = nat
  type Attempt = nat
  type LeaseId = nat

  datatype FlowStatus = Pending | Completing | Completed | Failed

  datatype Flow = Flow(
    attempt: Option<Attempt>,
    reservation: bool,  // holds a permit
    expiresAt: Duration,
    status: FlowStatus)

  /** A completion task owns a lease with a permit. Once it has recorded its outcome,
      or was dropped, only the permit is left to give back. */
  datatype Lease = Lease(flow: FlowId, running: bool)

  datatype State = State(
    capacity: nat,
    free: nat,                            // permits left in the semaphore
    flows: map<FlowId, Flow>,
    expired: map<FlowId, Duration>,       // tombstones and how long they stay
    begins: nat,                          // begin calls that hold a permit
    leases: map<LeaseId, Lease>,
    failers: multiset<FlowId>,            // spawned tasks that will fail a dropped completion
    issued: set<FlowId>,                  // history: every flow id ever inserted
    created: set<Attempt>,                // history: every attempt ever stored
    consumed: seq<Attempt>)               // history: attempts handed to the completer

  function Start(capacity: nat): State {
    State(capacity, capacity, map[], map[], 0, map[], multiset{}, {}, {}, [])
  }

  datatype PollResult = Complete | PendingTimeout | Unknown | Expired | FailedResult

  datatype Event =
    | Acquire
    | Abandon
    | Insert(id: FlowId, attempt: Attempt, now: Duration, base: Duration)
    | Cleanup(now: Duration)
    | Trigger(id: FlowId, lease: LeaseId, now: Duration)
    | Settle(lease: LeaseId, success: bool, now: Duration)
    | DropLocked(lease: LeaseId)    // an armed lease is dropped and fails its flow at once
    | DropSpawned(lease: LeaseId)   // the lock is taken: a task is spawned to do it
    | DropLost(lease: LeaseId)      // no runtime is left to spawn on
    | FailLater(id: FlowId)
    | Release(lease: LeaseId)

  // ----------------------------------------------------------------------- steps

  function Due(flows: map<FlowId, Flow>, now: Duration): set<FlowId> {
    set id | id in flows && now >= flows[id].expiresAt
  }

  function Holding(flows: map<FlowId, Flow>): set<FlowId> {
    set id | id in flows && flows[id].reservation
  }

  function Tombstones(ids: set<FlowId>, until: Duration): map<FlowId, Duration> {
    map id | id in ids :: until
  }

  /** Moves flows to tombstones. A dropped flow gives back the permit it still holds. */
  function Buried(s: State, ids: set<FlowId>, now: Duration): State {
    s.(flows := s.flows - ids,
       expired := s.expired + Tombstones(ids, now + FLOW_LIFETIME),
       free := s.free + |Holding(s.flows) * ids|)
  }

  /** Drops old tombstones, then buries every flow that is over. */
  function Cleaned(s: State, now: Duration): State {
    Buried(s.(expired := map id | id in s.expired && now < s.expired[id] :: s.expired[id]),
           Due(s.flows, now), now)
  }

  lemma BuryOneMore(s: State, ids: set<FlowId>, id: FlowId, now: Duration)
    requires id in s.flows && id !in ids
    ensures (var b := Buried(s, ids, now);
             Buried(s, ids + {id}, now)
             == b.(flows := b.flows - {id}, expired := b.expired[id := now + FLOW_LIFETIME],
                   free := b.free + if s.flows[id].reservation then 1 else 0))
    ensures id in Buried(s, ids, now).flows && Buried(s, ids, now).flows[id] == s.flows[id]
  {
    CountOneMore(Holding(s.flows), ids, id);
    TombstoneOneMore(s.expired, ids, id, now + FLOW_LIFETIME);
    assert s.flows - (ids + {id}) == (s.flows - ids) - {id};
  }

  lemma CountOneMore(held: set<FlowId>, ids: set<FlowId>, id: FlowId)
    requires id !in ids
    ensures |held * (ids + {id})| == |held * ids| + if id in held then 1 else 0
  {
    assert held * (ids + {id}) == if id in held then held * ids + {id} else held * ids;
  }

  lemma TombstoneOneMore(expired: map<FlowId, Duration>, ids: set<FlowId>, id: FlowId, until: Duration)
    ensures expired + Tombstones(ids + {id}, until) == (expired + Tombstones(ids, until))[id := until]
  {
  }

  lemma BuryNone(s: State, now: Duration)
    ensures Buried(s, {}, now) == s
  {
    var none: set<FlowId> := {};
    assert s.flows - none == s.flows;
    assert s.expired + Tombstones(none, now + FLOW_LIFETIME) == s.expired;
    assert Holding(s.flows) * none == {};
  }

  function SetStatus(s: State, id: FlowId, status: FlowStatus): State
    requires id in s.flows
  {
    s.(flows := s.flows[id := s.flows[id].(status := status)])
  }

  function FailCancelled(s: State, id: FlowId): State {
    if id in s.flows && s.flows[id].status == Completing then SetStatus(s, id, Failed) else s
  }

  predicate Takes(s: State, id: FlowId) { id in s.flows && s.flows[id].status == Pending }

  function Take(s: State, id: FlowId, lease: LeaseId): State
    requires Takes(s, id)
  {
    var flow := s.flows[id];
    s.(flows := s.flows[id := flow.(status := Completing, attempt := None, reservation := false)],
       leases := s.leases[lease := Lease(id, true)],
       consumed := s.consumed + if flow.attempt.Some? then [flow.attempt.value] else [])
  }

  /** A fresh id and a new attempt; a lease that is live and in the right phase. */
  predicate Enabled(s: State, e: Event) {
    match e
    case Acquire => s.free > 0
    case Abandon => s.begins > 0
    case Insert(id, attempt, _, _) => s.begins > 0 && id !in s.issued && attempt !in s.created
    case Cleanup(_) => true
    case Trigger(_, lease, _) => lease !in s.leases
    case Settle(lease, _, _) => lease in s.leases && s.leases[lease].running
    case DropLocked(lease) => lease in s.leases && s.leases[lease].running
    case DropSpawned(lease) => lease in s.leases && s.leases[lease].running
    case DropLost(lease) => lease in s.leases && s.leases[lease].running
    case FailLater(id) => id in s.failers
    case Release(lease) => lease in s.leases && !s.leases[lease].running
  }

  function Stopped(s: State, lease: LeaseId): State
    requires lease in s.leases
  {
    s.(leases := s.leases[lease := s.leases[lease].(running := false)])
  }

  function Next(s: State, e: Event): State
    requires Enabled(s, e)
  {
    match e
    case Acquire => s.(free := s.free - 1, begins := s.begins + 1)
    case Abandon => s.(free := s.free + 1, begins := s.begins - 1)
    case Insert(id, attempt, now, base) =>
      var c := Cleaned(s, now);
      c.(flows := c.flows[id := Flow(Some(attempt), true, base + FLOW_LIFETIME, Pending)],
         begins := c.begins - 1, issued := c.issued + {id}, created := c.created + {attempt})
    case Cleanup(now) => Cleaned(s, now)
    case Trigger(id, lease, now) =>
      var c := Cleaned(s, now);
      if Takes(c, id) then Take(c, id, lease) else c
    case Settle(lease, success, now) =>
      var c := Cleaned(s, now);
      var id := c.leases[lease].flow;
      Stopped(if id in c.flows then SetStatus(c, id, if success then Completed else Failed) else c, lease)
    case DropLocked(lease) => Stopped(FailCancelled(s, s.leases[lease].flow), lease)
    case DropSpawned(lease) => Stopped(s.(failers := s.failers + multiset{s.leases[lease].flow}), lease)
    case DropLost(lease) => Stopped(s, lease)
    case FailLater(id) => FailCancelled(s, id).(failers := s.failers - multiset{id})
    case Release(lease) => s.(free := s.free + 1, leases := s.leases - {lease})
  }

  /** What a status call answers once it has cleaned up. */
  function StatusOf(s: State, id: FlowId): PollResult {
    if id in s.flows then
      match s.flows[id].status
      case Pending => PendingTimeout
      case Completing => PendingTimeout
      case Completed => Complete
      case Failed => FailedResult
    else if id in s.expired then Expired
    else Unknown
  }

  // --------------------------------------------------------------------- invariant

  /** Every permit is in exactly one place. */
  ghost predicate Conserved(s: State) {
    s.free + s.begins + |Holding(s.flows)| + |s.leases| == s.capacity
  }

  ghost predicate FlowFits(f: Flow) {
    && (f.status == Pending <==> f.attempt.Some? && f.reservation)
    && (f.attempt.Some? <==> f.reservation)
  }

  /** Which flows and leases can exist together. */
  ghost predicate Coherent(s: State) {
    && (forall id | id in s.flows :: FlowFits(s.flows[id]))
    && s.flows.Keys !! s.expired.Keys
    && s.flows.Keys + s.expired.Keys <= s.issued
    && (forall l | l in s.leases :: LeaseFits(s, l))
    && (forall l, m | l in s.leases && m in s.leases :: SameLease(s, l, m))
    && (forall id | id in s.failers :: FailerFits(s, id))
  }

  /** A running completion's flow is completing, or already gone for good. */
  ghost predicate LeaseFits(s: State, l: LeaseId)
    requires l in s.leases
  {
    var id := s.leases[l].flow;
    && id in s.issued
    && (id in s.flows ==> s.flows[id].status != Pending)
    && (s.leases[l].running && id in s.flows ==> s.flows[id].status == Completing)
  }

  /** A spawned failing task's flow has no running completion left. */
  ghost predicate FailerFits(s: State, id: FlowId) {
    && id in s.issued
    && (id in s.flows ==> s.flows[id].status != Pending)
    && forall l | l in s.leases && s.leases[l].running :: s.leases[l].flow != id
  }

  ghost predicate SameLease(s: State, l: LeaseId, m: LeaseId)
    requires l in s.leases && m in s.leases
  {
    s.leases[l].flow == s.leases[m].flow ==> l == m
  }

  /** No attempt is consumed twice, stored twice, or stored after it was consumed. */
  ghost predicate OneShot(s: State) {
    && (forall i, j | 0 <= i < j < |s.consumed| :: s.consumed[i] != s.consumed[j])
    && (forall a <- s.consumed :: a in s.created)
    && (forall id | id in s.flows && s.flows[id].attempt.Some? ::
          s.flows[id].attempt.value in s.created && s.flows[id].attempt.value !in s.consumed)
    && (forall id, jd | id in s.flows && jd in s.flows && id != jd && s.flows[id].attempt.Some? ::
          s.flows[id].attempt != s.flows[jd].attempt)
  }

  ghost predicate Valid(s: State) { Conserved(s) && Coherent(s) && OneShot(s) }

  // ------------------------------------------------------------------ conservation

  lemma CleanedConserves(s: State, now: Duration)
    requires Conserved(s)
    ensures Conserved(Cleaned(s, now))
  {
    var due := Due(s.flows, now);
    assert Holding(s.flows - due) == Holding(s.flows) - due;
    assert |Holding(s.flows)| == |Holding(s.flows) - due| + |Holding(s.flows) * due| by {
      assert Holding(s.flows) == (Holding(s.flows) - due) + (Holding(s.flows) * due);
    }
  }

  lemma InsertConserves(s: State, id: FlowId, f: Flow)
    requires Conserved(s) && id !in s.flows && f.reservation && s.begins > 0
    ensures Conserved(s.(flows := s.flows[id := f], begins := s.begins - 1))
  {
    assert Holding(s.flows[id := f]) == Holding(s.flows) + {id};
  }

  lemma TakeConserves(s: State, id: FlowId, lease: LeaseId)
    requires Conserved(s) && Takes(s, id) && s.flows[id].reservation && lease !in s.leases
    ensures Conserved(Take(s, id, lease))
  {
    var t := Take(s, id, lease);
    assert |Holding(t.flows)| == |Holding(s.flows)| - 1 by {
      assert Holding(t.flows) == Holding(s.flows) - {id};
    }
    assert |t.leases| == |s.leases| + 1 by {
      assert t.leases.Keys == s.leases.Keys + {lease};
    }
  }

  lemma SetStatusConserves(s: State, id: FlowId, status: FlowStatus)
    requires Conserved(s) && id in s.flows
    ensures Conserved(SetStatus(s, id, status))
  {
    assert Holding(SetStatus(s, id, status).flows) == Holding(s.flows);
  }

  lemma StoppedConserves(s: State, lease: LeaseId)
    requires Conserved(s) && lease in s.leases
    ensures Conserved(Stopped(s, lease))
  {
    assert Stopped(s, lease).leases.Keys == s.leases.Keys;
  }

  predicate Untimed(e: Event) { !e.Insert? && !e.Cleanup? && !e.Trigger? && !e.Settle? }

  lemma UntimedConserves(s: State, e: Event)
    requires Enabled(s, e) && Untimed(e) && Conserved(s)
    ensures Conserved(Next(s, e))
  {
    hide Conserved, SetStatus, Stopped;
    match e
    case Acquire => PermitMoves(s, -1, 1);
    case Abandon => PermitMoves(s, 1, -1);
    case DropLocked(lease) =>
      FailCancelledConserves(s, s.leases[lease].flow);
      StoppedConserves(FailCancelled(s, s.leases[lease].flow), lease);
    case DropSpawned(lease) =>
      BookkeepingConserves(s, s.(failers := s.failers + multiset{s.leases[lease].flow}));
      StoppedConserves(s.(failers := s.failers + multiset{s.leases[lease].flow}), lease);
    case DropLost(lease) => StoppedConserves(s, lease);
    case FailLater(id) =>
      FailCancelledConserves(s, id);
      BookkeepingConserves(FailCancelled(s, id), Next(s, e));
    case Release(lease) => ReleaseConserves(s, lease);
  }

  lemma SettleConserves(c: State, lease: LeaseId, status: FlowStatus)
    requires Conserved(c) && lease in c.leases
    ensures (var id := c.leases[lease].flow;
             Conserved(Stopped(if id in c.flows then SetStatus(c, id, status) else c, lease)))
  {
    hide Conserved;
    var id := c.leases[lease].flow;
    if id in c.flows {
      SetStatusConserves(c, id, status);
      StoppedConserves(SetStatus(c, id, status), lease);
    } else {
      StoppedConserves(c, lease);
    }
  }

  lemma NextConserves(s: State, e: Event)
    requires Enabled(s, e) && Conserved(s) && Coherent(s)
    ensures Conserved(Next(s, e))
  {
    hide Conserved, Cleaned, Take, SetStatus, Stopped, Coherent;
    if Untimed(e) {
      UntimedConserves(s, e);
      return;
    }
    CleanedConserves(s, e.now);
    CleanedFrame(s, e.now);
    var c := Cleaned(s, e.now);
    match e
    case Insert(id, attempt, now, base) =>
      FreshIsAbsent(s, id, now);
      var f := Flow(Some(attempt), true, base + FLOW_LIFETIME, Pending);
      InsertConserves(c, id, f);
      BookkeepingConserves(c.(flows := c.flows[id := f], begins := c.begins - 1), Next(s, e));
    case Cleanup(now) =>
    case Trigger(id, lease, now) =>
      if Takes(c, id) {
        CleanedCoherent(s, now);
        PendingHolds(c, id);
        TakeConserves(c, id, lease);
      }
    case Settle(lease, success, now) => SettleConserves(c, lease, if success then Completed else Failed);
  }

  lemma PermitMoves(s: State, free: int, begins: int)
    requires Conserved(s) && free + begins == 0 && s.free + free >= 0 && s.begins + begins >= 0
    ensures Conserved(s.(free := s.free + free, begins := s.begins + begins))
  {
  }

  lemma BookkeepingConserves(s: State, t: State)
    requires Conserved(s) && t.free == s.free && t.begins == s.begins && t.flows == s.flows
    requires t.leases == s.leases && t.capacity == s.capacity
    ensures Conserved(t)
  {
  }

  lemma ReleaseConserves(s: State, lease: LeaseId)
    requires Conserved(s) && lease in s.leases
    ensures Conserved(s.(free := s.free + 1, leases := s.leases - {lease}))
  {
    assert (s.leases - {lease}).Keys == s.leases.Keys - {lease};
  }

  lemma FailCancelledConserves(s: State, id: FlowId)
    requires Conserved(s)
    ensures Conserved(FailCancelled(s, id)) && FailCancelled(s, id).leases == s.leases
  {
    if id in s.flows && s.flows[id].status == Completing { SetStatusConserves(s, id, Failed); }
  }

  lemma CleanedFrame(s: State, now: Duration)
    ensures Cleaned(s, now).leases == s.leases && Cleaned(s, now).failers == s.failers
    ensures Cleaned(s, now).issued == s.issued && Cleaned(s, now).created == s.created
    ensures Cleaned(s, now).consumed == s.consumed && Cleaned(s, now).capacity == s.capacity
    ensures Cleaned(s, now).begins == s.begins
  {
  }

  lemma FreshIsAbsent(s: State, id: FlowId, now: Duration)
    requires Coherent(s) && id !in s.issued
    ensures id !in Cleaned(s, now).flows && Cleaned(s, now).begins == s.begins
  {
  }

  lemma PendingHolds(s: State, id: FlowId)
    requires Coherent(s) && Takes(s, id)
    ensures s.flows[id].attempt.Some? && s.flows[id].reservation
  {
    assert FlowFits(s.flows[id]);
  }

  // --------------------------------------------------------------------- coherence

  /** Coherence only asks about the lock-protected part, so it is enough to check
      the leases and failers one by one. */
  lemma CoherentByParts(t: State)
    requires forall id | id in t.flows :: FlowFits(t.flows[id])
    requires t.flows.Keys !! t.expired.Keys && t.flows.Keys + t.expired.Keys <= t.issued
    requires forall l | l in t.leases :: LeaseFits(t, l)
    requires forall l, m | l in t.leases && m in t.leases :: SameLease(t, l, m)
    requires forall id | id in t.failers :: FailerFits(t, id)
    ensures Coherent(t)
  {
  }

  /** A change that keeps the leases and never makes a flow pending again. */
  ghost predicate Tame(s: State, t: State) {
    && t.leases == s.leases && t.failers <= s.failers && s.issued <= t.issued
    && (forall id | id in s.issued && id in t.flows :: id in s.flows
          && (s.flows[id].status != Pending ==> t.flows[id].status != Pending)
          && (t.flows[id].status == s.flows[id].status || FailerOnly(s, id)))
  }

  ghost predicate FailerOnly(s: State, id: FlowId) {
    forall l | l in s.leases && s.leases[l].running :: s.leases[l].flow != id
  }

  lemma TameKeepsLeases(s: State, t: State)
    requires Coherent(s) && Tame(s, t)
    ensures forall l | l in t.leases :: LeaseFits(t, l)
    ensures forall l, m | l in t.leases && m in t.leases :: SameLease(t, l, m)
    ensures forall id | id in t.failers :: FailerFits(t, id)
  {
    forall l | l in t.leases ensures LeaseFits(t, l) { assert LeaseFits(s, l); }
    forall l, m | l in t.leases && m in t.leases ensures SameLease(t, l, m) { assert SameLease(s, l, m); }
    forall id | id in t.failers ensures FailerFits(t, id) { assert id in s.failers && FailerFits(s, id); }
  }

  lemma CleanedCoherent(s: State, now: Duration)
    requires Coherent(s)
    ensures Coherent(Cleaned(s, now))
  {
    TameKeepsLeases(s, Cleaned(s, now));
    CoherentByParts(Cleaned(s, now));
  }

  lemma InsertCoherent(s: State, id: FlowId, attempt: Attempt, at: Duration, t: State)
    requires Coherent(s) && id !in s.issued
    requires t.flows == s.flows[id := Flow(Some(attempt), true, at, Pending)] && t.issued == s.issued + {id}
    requires t.expired == s.expired && t.leases == s.leases && t.failers == s.failers
    ensures Coherent(t)
  {
    TameKeepsLeases(s, t);
    CoherentByParts(t);
  }

  lemma TakeCoherent(s: State, id: FlowId, lease: LeaseId)
    requires Coherent(s) && Takes(s, id) && lease !in s.leases
    ensures Coherent(Take(s, id, lease))
  {
    var t := Take(s, id, lease);
    assert FlowFits(s.flows[id]);
    forall l | l in t.leases ensures LeaseFits(t, l) { if l != lease { assert LeaseFits(s, l); } }
    forall l, m | l in t.leases && m in t.leases ensures SameLease(t, l, m) {
      if l != lease { assert LeaseFits(s, l); }
      if m != lease { assert LeaseFits(s, m); }
      if l != lease && m != lease { assert SameLease(s, l, m); }
    }
    forall jd | jd in t.failers ensures FailerFits(t, jd) { assert FailerFits(s, jd); }
    CoherentByParts(t);
  }

  /** Stopping a lease, with or without a word to a spawned task. */
  lemma StoppedCoherent(s: State, lease: LeaseId, failers: multiset<FlowId>)
    requires Coherent(s) && lease in s.leases && s.leases[lease].running
    requires failers == s.failers || failers == s.failers + multiset{s.leases[lease].flow}
    ensures Coherent(Stopped(s.(failers := failers), lease))
  {
    var t := Stopped(s.(failers := failers), lease);
    assert LeaseFits(s, lease);
    forall l | l in t.leases ensures LeaseFits(t, l) { assert LeaseFits(s, l); }
    forall l, m | l in t.leases && m in t.leases ensures SameLease(t, l, m) { assert SameLease(s, l, m); }
    forall id | id in t.failers ensures FailerFits(t, id) {
      if id in s.failers { assert FailerFits(s, id); }
      forall l | l in t.leases && t.leases[l].running ensures t.leases[l].flow != id {
        assert SameLease(s, l, lease);
      }
    }
    CoherentByParts(t);
  }

  /** An outcome may be recorded on a flow no running completion is left for. */
  lemma SetStatusCoherent(s: State, id: FlowId, status: FlowStatus)
    requires Coherent(s) && id in s.flows && s.flows[id].status != Pending
    requires (status == Completed || status == Failed) && FailerOnly(s, id)
    ensures Coherent(SetStatus(s, id, status))
  {
    assert FlowFits(s.flows[id]);
    TameKeepsLeases(s, SetStatus(s, id, status));
    CoherentByParts(SetStatus(s, id, status));
  }

  lemma StoppedIsFree(s: State, lease: LeaseId)
    requires Coherent(s) && lease in s.leases && s.leases[lease].running
    ensures FailerOnly(Stopped(s, lease), s.leases[lease].flow)
    ensures s.leases[lease].flow in s.flows ==> s.flows[s.leases[lease].flow].status == Completing
  {
    assert LeaseFits(s, lease);
    forall l | l in s.leases ensures SameLease(s, l, lease) {}
  }

  lemma SettleCoherent(s: State, lease: LeaseId, status: FlowStatus)
    requires Coherent(s) && lease in s.leases && s.leases[lease].running
    requires status == Completed || status == Failed
    ensures s.leases[lease].flow in s.flows ==>
              Coherent(Stopped(SetStatus(s, s.leases[lease].flow, status), lease))
  {
    var id := s.leases[lease].flow;
    StoppedCoherent(s, lease, s.failers);
    StoppedIsFree(s, lease);
    assert s.(failers := s.failers) == s;
    if id in s.flows {
      SetStatusCoherent(Stopped(s, lease), id, status);
      assert SetStatus(Stopped(s, lease), id, status) == Stopped(SetStatus(s, id, status), lease);
    }
  }

  lemma FailLaterCoherent(s: State, id: FlowId)
    requires Coherent(s) && id in s.failers
    ensures Coherent(FailCancelled(s, id).(failers := s.failers - multiset{id}))
  {
    assert FailerFits(s, id);
    var t := FailCancelled(s, id).(failers := s.failers - multiset{id});
    if id in s.flows { assert FlowFits(s.flows[id]); }
    TameKeepsLeases(s, t);
    CoherentByParts(t);
  }

  lemma ReleaseCoherent(s: State, lease: LeaseId)
    requires Coherent(s) && lease in s.leases
    ensures Coherent(s.(free := s.free + 1, leases := s.leases - {lease}))
  {
    var t := s.(free := s.free + 1, leases := s.leases - {lease});
    forall l | l in t.leases ensures LeaseFits(t, l) { assert LeaseFits(s, l); }
    forall l, m | l in t.leases && m in t.leases ensures SameLease(t, l, m) { assert SameLease(s, l, m); }
    forall id | id in t.failers ensures FailerFits(t, id) { assert FailerFits(s, id); }
    CoherentByParts(t);
  }

  lemma PermitCoherent(s: State, free: nat, begins: nat)
    requires Coherent(s)
    ensures Coherent(s.(free := free, begins := begins))
  {
    TameKeepsLeases(s, s.(free := free, begins := begins));
    CoherentByParts(s.(free := free, begins := begins));
  }

  lemma NextCoherent(s: State, e: Event)
    requires Enabled(s, e) && Coherent(s)
    ensures Coherent(Next(s, e))
  {
    hide Coherent, Take, Stopped;
    match e
    case Acquire => PermitCoherent(s, s.free - 1, s.begins + 1);
    case Abandon => PermitCoherent(s, s.free + 1, s.begins - 1);
    case Insert(id, attempt, now, base) =>
      CleanedCoherent(s, now);
      InsertCoherent(Cleaned(s, now), id, attempt, base + FLOW_LIFETIME, Next(s, e));
    case Cleanup(now) => CleanedCoherent(s, now);
    case Trigger(id, lease, now) =>
      CleanedCoherent(s, now);
      if Takes(Cleaned(s, now), id) { TakeCoherent(Cleaned(s, now), id, lease); }
    case Settle(lease, success, now) =>
      CleanedCoherent(s, now);
      SettleCoherent(Cleaned(s, now), lease, if success then Completed else Failed);
      StoppedCoherent(Cleaned(s, now), lease, s.failers);
    case DropLocked(lease) =>
      SettleCoherent(s, lease, Failed);
      StoppedCoherent(s, lease, s.failers);
    case DropSpawned(lease) => StoppedCoherent(s, lease, s.failers + multiset{s.leases[lease].flow});
    case DropLost(lease) => StoppedCoherent(s, lease, s.failers);
    case FailLater(id) => FailLaterCoherent(s, id);
    case Release(lease) => ReleaseCoherent(s, lease);
  }

  // ---------------------------------------------------------------- one-shot attempts

  /** A change that stores no attempt and consumes none. */
  lemma FewerAttempts(s: State, t: State)
    requires OneShot(s) && t.consumed == s.consumed && t.created == s.created
    requires forall id | id in t.flows :: id in s.flows && t.flows[id].attempt == s.flows[id].attempt
    ensures OneShot(t)
  {
  }

  lemma InsertOneShot(s: State, id: FlowId, attempt: Attempt, at: Duration, t: State)
    requires OneShot(s) && attempt !in s.created && id !in s.flows
    requires t.flows == s.flows[id := Flow(Some(attempt), true, at, Pending)]
    requires t.created == s.created + {attempt} && t.consumed == s.consumed
    ensures OneShot(t)
  {
  }

  lemma TakeOneShot(s: State, id: FlowId, lease: LeaseId)
    requires OneShot(s) && Takes(s, id) && s.flows[id].attempt.Some?
    ensures OneShot(Take(s, id, lease))
  {
  }

  lemma CleanedOneShot(s: State, now: Duration)
    requires OneShot(s)
    ensures OneShot(Cleaned(s, now))
  {
    FewerAttempts(s, Cleaned(s, now));
  }

  lemma SettledOneShot(s: State, id: FlowId, status: FlowStatus, t: State)
    requires OneShot(s) && t.consumed == s.consumed && t.created == s.created
    requires t.flows == if id in s.flows then SetStatus(s, id, status).flows else s.flows
    ensures OneShot(t)
  {
    FewerAttempts(s, t);
  }

  lemma NextOneShot(s: State, e: Event)
    requires Enabled(s, e) && Coherent(s) && OneShot(s)
    ensures OneShot(Next(s, e))
  {
    hide OneShot, Coherent, Cleaned, Take;
    match e
    case Insert(id, attempt, now, base) =>
      CleanedOneShot(s, now);
      CleanedFrame(s, now);
      FreshIsAbsent(s, id, now);
      InsertOneShot(Cleaned(s, now), id, attempt, base + FLOW_LIFETIME, Next(s, e));
    case Trigger(id, lease, now) =>
      CleanedOneShot(s, now);
      if Takes(Cleaned(s, now), id) {
        CleanedCoherent(s, now);
        PendingHolds(Cleaned(s, now), id);
        TakeOneShot(Cleaned(s, now), id, lease);
      }
    case Cleanup(now) => CleanedOneShot(s, now);
    case Settle(lease, success, now) =>
      CleanedOneShot(s, now);
      CleanedFrame(s, now);
      SettledOneShot(Cleaned(s, now), s.leases[lease].flow,
                     if success then Completed else Failed, Next(s, e));
    case _ => UntimedOneShot(s, e);
  }

  lemma UntimedOneShot(s: State, e: Event)
    requires Enabled(s, e) && Untimed(e) && OneShot(s)
    ensures OneShot(Next(s, e))
  {
    hide OneShot;
    FewerAttempts(s, Next(s, e));
  }

  // -------------------------------------------------------------------------- runs

  datatype Trace = Trace(events: seq<Event>, states: seq<State>)

  ghost predicate StepAt(r: Trace, i: nat)
    requires i < |r.events| && |r.states| == |r.events| + 1
  {
    Enabled(r.states[i], r.events[i]) && r.states[i + 1] == Next(r.states[i], r.events[i])
  }

  ghost predicate IsRun(r: Trace) {
    && |r.states| == |r.events| + 1
    && r.states[0] == Start(r.states[0].capacity)
    && forall i | 0 <= i < |r.events| :: StepAt(r, i)
  }

  /** Under every interleaving of begins, completions, expiry, cancellation and
      panics, every permit is accounted for, a flow is pending exactly while it owns
      both its attempt and its permit, and no attempt reaches the completer twice. */
  lemma {:induction false} ReachableIsValid(r: Trace, i: nat)
    requires IsRun(r) && i <= |r.events|
    ensures Valid(r.states[i]) && r.states[i].capacity == r.states[0].capacity
  {
    hide Conserved, Coherent, OneShot, Enabled, Next;
    if i == 0 {
      StartIsValid(r.states[0].capacity);
    } else {
      ReachableIsValid(r, i - 1);
      assert StepAt(r, i - 1);
      NextConserves(r.states[i - 1], r.events[i - 1]);
      NextCoherent(r.states[i - 1], r.events[i - 1]);
      NextOneShot(r.states[i - 1], r.events[i - 1]);
      NextFrame(r.states[i - 1], r.events[i - 1]);
    }
  }

  lemma StartIsValid(capacity: nat)
    ensures Conserved(Start(capacity)) && Coherent(Start(capacity)) && OneShot(Start(capacity))
  {
    assert Holding(Start(capacity).flows) == {};
  }

  // ------------------------------------------------------------- what a caller sees

  /** The answers `b` that may come after `a` for one flow. */
  predicate Follows(a: PollResult, b: PollResult) {
    match a
    case PendingTimeout => true
    case Complete => b != PendingTimeout && b != FailedResult
    case FailedResult => b != PendingTimeout && b != Complete
    case Expired => b == Expired || b == Unknown
    case Unknown => b == Unknown
  }

  lemma CleanedFollows(s: State, now: Duration, id: FlowId)
    requires id in s.issued
    ensures Follows(StatusOf(s, id), StatusOf(Cleaned(s, now), id))
  {
  }

  lemma SetStatusFollows(s: State, id: FlowId, status: FlowStatus, lease: LeaseId, jd: FlowId)
    requires id in s.flows && s.flows[id].status == Completing && lease in s.leases
    ensures Follows(StatusOf(s, jd), StatusOf(Stopped(SetStatus(s, id, status), lease), jd))
  {
  }

  lemma FailFollows(s: State, id: FlowId, jd: FlowId, t: State)
    requires t.flows == FailCancelled(s, id).flows && t.expired == s.expired
    ensures Follows(StatusOf(s, jd), StatusOf(t, jd))
  {
  }

  lemma SameAnswer(s: State, t: State, jd: FlowId)
    requires t.flows == s.flows && t.expired == s.expired
    ensures StatusOf(t, jd) == StatusOf(s, jd) && Follows(StatusOf(s, jd), StatusOf(t, jd))
  {
  }

  lemma TakeAnswer(s: State, id: FlowId, lease: LeaseId, jd: FlowId)
    requires Takes(s, id)
    ensures StatusOf(Take(s, id, lease), jd) == StatusOf(s, jd)
  {
  }

  lemma NextFollows(s: State, e: Event, id: FlowId)
    requires Enabled(s, e) && Coherent(s) && id in s.issued
    ensures Follows(StatusOf(s, id), StatusOf(Next(s, e), id))
  {
    hide Cleaned, Coherent, StatusOf, Follows, Take, Stopped;
    match e
    case Acquire => SameAnswer(s, Next(s, e), id);
    case Abandon => SameAnswer(s, Next(s, e), id);
    case Insert(jd, _, now, _) =>
      CleanedFollows(s, now, id);
      InsertAnswer(Cleaned(s, now), jd, Next(s, e), id);
    case Cleanup(now) => CleanedFollows(s, now, id);
    case Trigger(jd, lease, now) =>
      CleanedFollows(s, now, id);
      if Takes(Cleaned(s, now), jd) { TakeAnswer(Cleaned(s, now), jd, lease, id); }
    case Settle(lease, success, now) =>
      CleanedFollows(s, now, id);
      CleanedFrame(s, now);
      CleanedCoherent(s, now);
      var c := Cleaned(s, now);
      var jd, status := c.leases[lease].flow, if success then Completed else Failed;
      StoppedIsFree(c, lease);
      if jd in c.flows {
        SetStatusFollows(c, jd, status, lease, id);
        FollowsChain(StatusOf(s, id), StatusOf(c, id), StatusOf(Next(s, e), id));
      } else {
        StoppedFrame(c, lease);
        SameAnswer(c, Stopped(c, lease), id);
      }
    case DropLocked(lease) =>
      StoppedFrame(FailCancelled(s, s.leases[lease].flow), lease);
      FailFollows(s, s.leases[lease].flow, id, Next(s, e));
    case DropSpawned(lease) =>
      StoppedFrame(s.(failers := s.failers + multiset{s.leases[lease].flow}), lease);
      SameAnswer(s, Next(s, e), id);
    case DropLost(lease) =>
      StoppedFrame(s, lease);
      SameAnswer(s, Next(s, e), id);
    case FailLater(jd) => FailFollows(s, jd, id, Next(s, e));
    case Release(lease) => SameAnswer(s, Next(s, e), id);
  }

  lemma InsertAnswer(s: State, jd: FlowId, t: State, id: FlowId)
    requires id != jd && t.expired == s.expired && jd in t.flows && t.flows == s.flows[jd := t.flows[jd]]
    ensures StatusOf(t, id) == StatusOf(s, id)
  {
  }

  lemma StoppedFrame(s: State, lease: LeaseId)
    requires lease in s.leases
    ensures Stopped(s, lease).flows == s.flows && Stopped(s, lease).expired == s.expired
    ensures Stopped(s, lease).capacity == s.capacity && Stopped(s, lease).issued == s.issued
  {
  }

  lemma FollowsChain(a: PollResult, b: PollResult, c: PollResult)
    requires Follows(a, b) && Follows(b, c)
    ensures Follows(a, c)
  {
  }

  lemma NextFrame(s: State, e: Event)
    requires Enabled(s, e)
    ensures Next(s, e).capacity == s.capacity && s.issued <= Next(s, e).issued
  {
  }

  /** The answers that status calls and finished completions give about one flow, from
      its insertion on, are pending ones, then only complete or only failed ones, then
      expired ones, then unknown ones, whatever the clock does: no late completion
      revives an expired flow, and no dropped lease changes a recorded outcome. */
  lemma {:induction false} AnswersInOrder(r: Trace, i: nat, j: nat, id: FlowId)
    requires IsRun(r) && i <= j <= |r.events| && id in r.states[i].issued
    ensures Follows(StatusOf(r.states[i], id), StatusOf(r.states[j], id)) && id in r.states[j].issued
    decreases j
  {
    hide StatusOf, Enabled, Coherent, Conserved, OneShot, Next, Follows;
    if i == j {
      FollowsItself(StatusOf(r.states[i], id));
    } else {
      AnswersInOrder(r, i, j - 1, id);
      assert StepAt(r, j - 1);
      ReachableIsValid(r, j - 1);
      NextFollows(r.states[j - 1], r.events[j - 1], id);
      NextFrame(r.states[j - 1], r.events[j - 1]);
      FollowsChain(StatusOf(r.states[i], id), StatusOf(r.states[j - 1], id), StatusOf(r.states[j], id));
    }
  }

  lemma FollowsItself(a: PollResult)
    ensures Follows(a, a)
  {
  }
}
