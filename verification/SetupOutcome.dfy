/**
 What becomes of a setup flow, told from the events of a run alone.
 */
module SetupOutcome {
  import opened Wrappers
  import opened SetupFlow
  import opened SetupCompletion

  /** A completion of `id` has ended by itself before `j`, with this result. */
  ghost predicate Settled(r: Trace, j: nat, id: FlowId, success: bool)
    requires IsRun(r) && j <= |r.events|
  {
    exists m | 0 <= m < j :: SettlesAt(r, m, id, success)
  }

  ghost predicate SettlesAt(r: Trace, m: nat, id: FlowId, success: bool)
    requires IsRun(r) && m < |r.events|
  {
    r.events[m].Settle? && r.events[m].success == success && FlowOf(r, m) == id
  }

  /** A lease of `id` was dropped with the lock free, or the task left for it has run. */
  ghost predicate WasFailed(r: Trace, j: nat, id: FlowId)
    requires IsRun(r) && j <= |r.events|
  {
    exists m | 0 <= m < j :: FailsAt(r, m, id)
  }

  ghost predicate FailsAt(r: Trace, m: nat, id: FlowId)
    requires IsRun(r) && m < |r.events|
  {
    (r.events[m].DropLocked? && FlowOf(r, m) == id) || r.events[m] == FailLater(id)
  }

  /** A completion was asked for after the flow was inserted. */
  ghost predicate Triggered(r: Trace, j: nat, id: FlowId)
    requires j <= |r.events| < |r.states|
  {
    exists m | 0 <= m < j :: TriggersAt(r, m, id)
  }

  ghost predicate TriggersAt(r: Trace, m: nat, id: FlowId)
    requires m < |r.events| < |r.states|
  {
    r.events[m].Trigger? && r.events[m].id == id && id in r.states[m].issued
  }

  /** The status of a flow that is there, from the events before `j`. */
  ghost function Told(r: Trace, j: nat, id: FlowId): FlowStatus
    requires IsRun(r) && j <= |r.events|
  {
    Story(Settled(r, j, id, true), Settled(r, j, id, false) || WasFailed(r, j, id), Triggered(r, j, id))
  }

  function Story(succeeded: bool, failed: bool, triggered: bool): FlowStatus {
    if succeeded then Completed else if failed then Failed else if triggered then Completing else Pending
  }

  // ----------------------------------------------------------------------- one event

  /** A task left to fail a flow finds it completing, if it is still there; and there is
      at most one. */
  ghost predicate FailersWait(s: State) { forall id :: FailerWaits(s, id) }

  ghost predicate FailerWaits(s: State, id: FlowId) {
    s.failers[id] <= 1 && (id in s.failers && id in s.flows ==> s.flows[id].status == Completing)
  }

  lemma NextFailerWaits(s: State, e: Event, id: FlowId)
    requires Enabled(s, e) && Coherent(s) && FailerWaits(s, id)
    ensures FailerWaits(Next(s, e), id)
  {
    if id in s.failers {
      assert FailerFits(s, id);
      FailerIsOrphan(s, id);
      hide Enabled, Next;
      NextOrphan(s, e, id, Completing, s.failers[id]);
    } else {
      NewFailerWaits(s, e, id);
    }
  }

  lemma FailerIsOrphan(s: State, id: FlowId)
    requires Coherent(s) && FailerWaits(s, id) && id in s.failers
    ensures Orphan(s, id, Completing, s.failers[id])
  {
    assert FailerFits(s, id);
  }

  lemma NewFailerWaits(s: State, e: Event, id: FlowId)
    requires Enabled(s, e) && Coherent(s) && id !in s.failers
    ensures FailerWaits(Next(s, e), id)
  {
    hide Cleaned;
    if e.DropSpawned? { assert LeaseFits(s, e.lease); }
    if !Untimed(e) { CleanedFrame(s, e.now); }
  }

  lemma {:induction false} FailersAlwaysWait(r: Trace, i: nat, id: FlowId)
    requires IsRun(r) && i <= |r.events|
    ensures FailerWaits(r.states[i], id)
  {
    hide Enabled, Next, Coherent, Conserved, OneShot;
    if i == 0 {
    } else {
      FailersAlwaysWait(r, i - 1, id);
      ReachableIsValid(r, i - 1);
      assert StepAt(r, i - 1);
      NextFailerWaits(r.states[i - 1], r.events[i - 1], id);
    }
  }

  /** The status after an event of a flow that was there before and is there afterwards. */
  ghost function StatusAfter(s: State, e: Event, id: FlowId): FlowStatus
    requires Enabled(s, e) && id in s.flows
  {
    var status := s.flows[id].status;
    match e
    case Trigger(jd, _, _) => if jd == id && status == Pending then Completing else status
    case Settle(lease, success, _) =>
      if s.leases[lease].flow == id then if success then Completed else Failed else status
    case DropLocked(lease) => if s.leases[lease].flow == id && status == Completing then Failed else status
    case FailLater(jd) => if jd == id && status == Completing then Failed else status
    case _ => status
  }

  lemma CleanedKeeps(s: State, now: Duration, id: FlowId)
    requires id in Cleaned(s, now).flows
    ensures id in s.flows && Cleaned(s, now).flows[id] == s.flows[id]
  {
  }

  lemma TakenStatus(s: State, jd: FlowId, lease: LeaseId, id: FlowId)
    requires Takes(s, jd) && id in s.flows
    ensures (var t := Take(s, jd, lease);
             && id in t.flows
             && t.flows[id].status == (if jd == id then Completing else s.flows[id].status)
             && (jd != id ==> t.flows[id].attempt == s.flows[id].attempt))
  {
  }

  lemma TriggerStatus(s: State, e: Event, id: FlowId)
    requires Enabled(s, e) && e.Trigger? && id in Next(s, e).flows
    ensures id in s.flows && Next(s, e).flows[id].status == StatusAfter(s, e, id)
    ensures Next(s, e).flows[id].status == Pending ==> Next(s, e).flows[id].attempt == s.flows[id].attempt
  {
    hide Cleaned, Take;
    var c := Cleaned(s, e.now);
    if Takes(c, e.id) {
      assert Take(c, e.id, e.lease).flows.Keys == c.flows.Keys by { TakenFlows(c, e.id, e.lease); }
      TakenStatus(c, e.id, e.lease, id);
    }
    CleanedKeeps(s, e.now, id);
  }

  lemma TakenFlows(s: State, id: FlowId, lease: LeaseId)
    requires Takes(s, id)
    ensures Take(s, id, lease).flows.Keys == s.flows.Keys
  {
  }

  lemma SettleStatus(s: State, e: Event, id: FlowId)
    requires Enabled(s, e) && e.Settle? && id in Next(s, e).flows
    ensures id in s.flows && Next(s, e).flows[id].status == StatusAfter(s, e, id)
    ensures Next(s, e).flows[id].attempt == s.flows[id].attempt
  {
    hide Cleaned, Stopped;
    CleanedFrame(s, e.now);
    var c := Cleaned(s, e.now);
    var jd := c.leases[e.lease].flow;
    StoppedFrame(if jd in c.flows then SetStatus(c, jd, if e.success then Completed else Failed) else c, e.lease);
    CleanedKeeps(s, e.now, id);
  }

  lemma TimedStatus(s: State, e: Event, id: FlowId)
    requires Enabled(s, e) && !Untimed(e) && id in s.issued && id in Next(s, e).flows
    ensures id in s.flows && Next(s, e).flows[id].status == StatusAfter(s, e, id)
    ensures Next(s, e).flows[id].status == Pending ==> Next(s, e).flows[id].attempt == s.flows[id].attempt
  {
    hide Cleaned, Take, Stopped;
    if e.Trigger? {
      TriggerStatus(s, e, id);
    } else if e.Settle? {
      SettleStatus(s, e, id);
    } else {
      CleanedKeeps(s, e.now, id);
    }
  }

  lemma UntimedStatus(s: State, e: Event, id: FlowId)
    requires Enabled(s, e) && Untimed(e) && id in Next(s, e).flows
    ensures id in s.flows && Next(s, e).flows[id].status == StatusAfter(s, e, id)
    ensures Next(s, e).flows[id].attempt == s.flows[id].attempt
  {
    hide Cleaned, Take, Stopped;
    match e
    case DropLocked(lease) => StoppedFrame(FailCancelled(s, s.leases[lease].flow), lease);
    case DropSpawned(lease) => StoppedFrame(s.(failers := s.failers + multiset{s.leases[lease].flow}), lease);
    case DropLost(lease) => StoppedFrame(s, lease);
    case _ =>
  }

  // ---------------------------------------------------------------------------- runs

  /** Nothing is told of a flow that has not been inserted. */
  lemma NothingToldBefore(r: Trace, j: nat, id: FlowId)
    requires IsRun(r) && j <= |r.events| && id !in r.states[j].issued
    ensures Told(r, j, id) == Pending
  {
    hide Next, Enabled, Coherent, Conserved, OneShot;
    forall m | 0 <= m < j
      ensures !SettlesAt(r, m, id, true) && !SettlesAt(r, m, id, false) && !FailsAt(r, m, id) && !TriggersAt(r, m, id)
    {
      IssuedStays(r, m, j, id);
      if Ends(r.events[m]) { EndedIsIssued(r, m); }
      if r.events[m] == FailLater(id) { FailerIsIssued(r, m, id); }
    }
  }

  lemma {:induction false} IssuedStays(r: Trace, i: nat, j: nat, id: FlowId)
    requires IsRun(r) && i <= j <= |r.events| && id !in r.states[j].issued
    ensures id !in r.states[i].issued
    decreases j
  {
    hide Next, Enabled;
    if i == j {
    } else {
      assert StepAt(r, j - 1);
      NextFrame(r.states[j - 1], r.events[j - 1]);
      IssuedStays(r, i, j - 1, id);
    }
  }

  lemma FailerIsIssued(r: Trace, m: nat, id: FlowId)
    requires IsRun(r) && m < |r.events| && r.events[m] == FailLater(id)
    ensures id in r.states[m].issued
  {
    hide Next, Conserved, OneShot;
    ReachableIsValid(r, m);
    assert StepAt(r, m) && FailerFits(r.states[m], id);
  }

  /** How the story goes on by one event. */
  lemma ToldNext(r: Trace, j: nat, id: FlowId)
    requires IsRun(r) && j < |r.events|
    ensures Settled(r, j + 1, id, true) <==> Settled(r, j, id, true) || SettlesAt(r, j, id, true)
    ensures Settled(r, j + 1, id, false) <==> Settled(r, j, id, false) || SettlesAt(r, j, id, false)
    ensures WasFailed(r, j + 1, id) <==> WasFailed(r, j, id) || FailsAt(r, j, id)
    ensures Triggered(r, j + 1, id) <==> Triggered(r, j, id) || TriggersAt(r, j, id)
  {
    hide SettlesAt, FailsAt, TriggersAt, StepAt;
  }

  /** A completion that ends, or a task that fails its flow, finds it completing. */
  lemma EndsCompleting(r: Trace, j: nat, id: FlowId)
    requires IsRun(r) && j < |r.events| && id in r.states[j].flows
    ensures SettlesAt(r, j, id, true) || SettlesAt(r, j, id, false) || FailsAt(r, j, id) ==>
              r.states[j].flows[id].status == Completing
  {
    hide Next, Conserved, OneShot;
    ReachableIsValid(r, j);
    FailersAlwaysWait(r, j, id);
    assert StepAt(r, j);
    if Ends(r.events[j]) { assert LeaseFits(r.states[j], r.events[j].lease); }
  }

  /** What one event tells, if it ends a completion of `id` only while that is running. */
  lemma EventStatus(r: Trace, j: nat, id: FlowId)
    requires IsRun(r) && j < |r.events| && id in r.states[j].flows && id in r.states[j].issued
    requires Enabled(r.states[j], r.events[j])
    ensures (var status := r.states[j].flows[id].status;
             var success, failure := SettlesAt(r, j, id, true), SettlesAt(r, j, id, false) || FailsAt(r, j, id);
             && !(success && failure) && (success || failure ==> status == Completing)
             && StatusAfter(r.states[j], r.events[j], id)
                == if success then Completed else if failure then Failed
                   else if TriggersAt(r, j, id) && status == Pending then Completing else status)
  {
    EndsCompleting(r, j, id);
    hide StepAt;
  }

  lemma StoryGoesOn(c: bool, f: bool, t: bool, success: bool, failure: bool, triggers: bool)
    requires !(c && f) && !(success && failure)
    requires success || failure ==> Story(c, f, t) == Completing
    ensures Story(c || success, f || failure, t || triggers)
         == if success then Completed else if failure then Failed
            else if triggers && Story(c, f, t) == Pending then Completing else Story(c, f, t)
    ensures !((c || success) && (f || failure))
  {
  }

  /** The story is consistent, and it is what became of the flow if that is there. */
  ghost predicate IsTold(r: Trace, j: nat, id: FlowId)
    requires IsRun(r) && j <= |r.events|
  {
    id in r.states[j].flows ==>
      && r.states[j].flows[id].status == Told(r, j, id)
      && !(Settled(r, j, id, true) && (Settled(r, j, id, false) || WasFailed(r, j, id)))
  }

  lemma ToldStays(r: Trace, j: nat, id: FlowId)
    requires IsRun(r) && j < |r.events| && IsTold(r, j, id)
    requires id in r.states[j].issued && id in r.states[j + 1].flows
    ensures IsTold(r, j + 1, id)
  {
    hide Next, Enabled, Settled, WasFailed, Triggered, SettlesAt, FailsAt, TriggersAt, StatusAfter, Story;
    assert StepAt(r, j);
    var s, e := r.states[j], r.events[j];
    if Untimed(e) { UntimedStatus(s, e, id); } else { TimedStatus(s, e, id); }
    ToldNext(r, j, id);
    EventStatus(r, j, id);
    StoryGoesOn(Settled(r, j, id, true), Settled(r, j, id, false) || WasFailed(r, j, id), Triggered(r, j, id),
                SettlesAt(r, j, id, true), SettlesAt(r, j, id, false) || FailsAt(r, j, id), TriggersAt(r, j, id));
  }

  lemma ToldAtFirst(r: Trace, j: nat, id: FlowId)
    requires IsRun(r) && j < |r.events| && id !in r.states[j].issued && id in r.states[j + 1].flows
    ensures IsTold(r, j + 1, id)
  {
    hide Next, Conserved, OneShot, Settled, WasFailed, Triggered;
    assert StepAt(r, j);
    ReachableIsValid(r, j);
    NewIsPending(r.states[j], r.events[j], id);
    NothingToldBefore(r, j, id);
    ToldNext(r, j, id);
  }

  lemma {:induction false} StoryIsTrue(r: Trace, j: nat, id: FlowId)
    requires IsRun(r) && j <= |r.events|
    ensures IsTold(r, j, id)
  {
    if j == 0 {
    } else {
      StoryIsTrue(r, j - 1, id);
      hide StepAt, Told, Settled, WasFailed;
      if id in r.states[j].flows {
        if id in r.states[j - 1].issued { ToldStays(r, j - 1, id); } else { ToldAtFirst(r, j - 1, id); }
      }
    }
  }

  /** What status calls answer about a flow, from the events alone: complete exactly if the
      flow is there and a completion of it ended with success; failed exactly if it is
      there and one ended without, its lease was dropped with the lock free, or the task
      left for that has run; and pending exactly if it is there and none of this has
      happened. */
  lemma OutcomeExactly(r: Trace, j: nat, id: FlowId)
    requires IsRun(r) && j <= |r.events|
    ensures StatusOf(r.states[j], id) == Complete <==>
              id in r.states[j].flows && Settled(r, j, id, true)
    ensures StatusOf(r.states[j], id) == FailedResult <==>
              id in r.states[j].flows && (Settled(r, j, id, false) || WasFailed(r, j, id))
    ensures StatusOf(r.states[j], id) == PendingTimeout <==>
              && id in r.states[j].flows && !Settled(r, j, id, true)
              && !Settled(r, j, id, false) && !WasFailed(r, j, id)
  {
    hide StepAt, Settled, WasFailed, Triggered;
    StoryIsTrue(r, j, id);
  }

  /** The caller of a completion that ends by itself is told that it succeeded exactly if
      it did and the flow is still there, and that it failed exactly if it did not. */
  lemma CompletionAnswers(r: Trace, m: nat)
    requires IsRun(r) && m < |r.events| && r.events[m].Settle?
    ensures FlowOf(r, m) in r.states[m + 1].flows ==>
              CompleterAnswer(r, m) == if r.events[m].success then Complete else FailedResult
    ensures FlowOf(r, m) !in r.states[m + 1].flows ==> CompleterAnswer(r, m) in {Expired, Unknown}
  {
    hide StepAt, WasFailed, Triggered;
    var id := FlowOf(r, m);
    OutcomeExactly(r, m + 1, id);
    assert SettlesAt(r, m, id, r.events[m].success);
    assert Settled(r, m + 1, id, r.events[m].success);
  }

  // ------------------------------------------------------------------------ capacity

  /** A begin gets a permit exactly if the begins under way, the pending flows and the
      leases not yet released are together fewer than the configured maximum. */
  lemma AdmittedExactly(r: Trace, i: nat)
    requires IsRun(r) && i <= |r.events|
    ensures Enabled(r.states[i], Acquire) <==>
              r.states[i].begins + |PendingFlows(r.states[i])| + |r.states[i].leases| < r.states[0].capacity
  {
    hide StepAt, OneShot;
    ReachableIsValid(r, i);
    assert PendingFlows(r.states[i]) == Holding(r.states[i].flows) by {
      forall id | id in r.states[i].flows ensures FlowFits(r.states[i].flows[id]) {}
    }
  }

  ghost function PendingFlows(s: State): set<FlowId> { set id | id in s.flows && s.flows[id].status == Pending }

  // ------------------------------------------------------------- attempts and leases

  /** A pending flow owns the attempt it was inserted with. */
  lemma {:induction false} AttemptStays(r: Trace, i: nat, j: nat)
    requires IsRun(r) && i < j <= |r.events| && r.events[i].Insert?
    requires r.events[i].id in r.states[j].flows && r.states[j].flows[r.events[i].id].status == Pending
    ensures r.states[j].flows[r.events[i].id].attempt == Some(r.events[i].attempt)
    ensures r.events[i].id in r.states[j].issued
  {
    var id := r.events[i].id;
    assert StepAt(r, j - 1);
    if j == i + 1 {
    } else {
      assert id in r.states[j - 1].issued by { InsertedIsIssued(r, i, j - 1); }
      hide Next, Enabled;
      var s, e := r.states[j - 1], r.events[j - 1];
      if Untimed(e) { UntimedStatus(s, e, id); } else { TimedStatus(s, e, id); }
      assert s.flows[id].status == Pending by { PendingBefore(s, e, id); }
      AttemptStays(r, i, j - 1);
      NextFrame(s, e);
    }
  }

  lemma PendingBefore(s: State, e: Event, id: FlowId)
    requires Enabled(s, e) && id in s.flows && StatusAfter(s, e, id) == Pending
    ensures s.flows[id].status == Pending
  {
  }

  lemma {:induction false} InsertedIsIssued(r: Trace, i: nat, j: nat)
    requires IsRun(r) && i < j <= |r.events| && r.events[i].Insert?
    ensures r.events[i].id in r.states[j].issued
  {
    assert StepAt(r, j - 1);
    if j == i + 1 {
    } else {
      InsertedIsIssued(r, i, j - 1);
      NextFrame(r.states[j - 1], r.events[j - 1]);
    }
  }

  /** A flow that is there is pending exactly until a completion is asked for. */
  lemma {:induction false} PendingUntilTriggered(r: Trace, j: nat, id: FlowId)
    requires IsRun(r) && j <= |r.events| && id in r.states[j].flows
    ensures r.states[j].flows[id].status == Pending <==> !Triggered(r, j, id)
  {
    assert j > 0;
    var s, e := r.states[j - 1], r.events[j - 1];
    assert StepAt(r, j - 1);
    ReachableIsValid(r, j - 1);
    hide Next, Conserved, OneShot, Settled, WasFailed, Triggered;
    ToldNext(r, j - 1, id);
    if id in s.issued {
      hide Coherent, Enabled, SettlesAt, FailsAt, TriggersAt, StatusAfter;
      if Untimed(e) { UntimedStatus(s, e, id); } else { TimedStatus(s, e, id); }
      PendingUntilTriggered(r, j - 1, id);
      EventStatus(r, j - 1, id);
    } else {
      NewIsPending(s, e, id);
      NothingToldBefore(r, j - 1, id);
    }
  }

  /** The first call to complete a flow that is still there hands out the attempt the flow
      was inserted with; any other call hands out none. */
  lemma TriggerHandsOut(r: Trace, i: nat, m: nat)
    requires IsRun(r) && i < m < |r.events| && r.events[i].Insert?
    requires r.events[m].Trigger? && r.events[m].id == r.events[i].id
    ensures r.states[m + 1].consumed
         == r.states[m].consumed
            + if r.events[i].id in r.states[m + 1].flows && !Triggered(r, m, r.events[i].id)
              then [r.events[i].attempt] else []
  {
    assert StepAt(r, m);
    var s, e, id := r.states[m], r.events[m], r.events[i].id;
    if id in Cleaned(s, e.now).flows {
      CleanedKeeps(s, e.now, id);
      PendingUntilTriggered(r, m, id);
      if s.flows[id].status == Pending { AttemptStays(r, i, m); }
    }
    hide Cleaned, IsRun, Triggered;
    CleanedFrame(s, e.now);
  }

  /** A lease belongs to the flow of the call that made it. */
  lemma {:induction false} LeaseIsTriggered(r: Trace, j: nat, lease: LeaseId)
    requires IsRun(r) && j <= |r.events| && lease in r.states[j].leases
    ensures exists t | 0 <= t < j :: MakesLease(r, t, j, lease, r.states[j].leases[lease].flow)
  {
    assert j > 0;
    var s, e := r.states[j - 1], r.events[j - 1];
    assert StepAt(r, j - 1);
    if lease in s.leases {
      LeaseIsTriggered(r, j - 1, lease);
      var t :| 0 <= t < j - 1 && MakesLease(r, t, j - 1, lease, s.leases[lease].flow);
      LeaseKeepsFlow(s, e, lease);
      assert MakesLease(r, t, j, lease, s.leases[lease].flow);
    } else {
      NewLease(s, e, lease);
      assert MakesLease(r, j - 1, j, lease, e.id);
    }
  }

  /** Event `t` asks for a completion of `id` under this lease, which is not released before `j`. */
  ghost predicate MakesLease(r: Trace, t: nat, j: nat, lease: LeaseId, id: FlowId)
    requires j <= |r.events|
  {
    && t < j && r.events[t].Trigger? && r.events[t].id == id && r.events[t].lease == lease
    && forall u | t < u < j :: r.events[u] != Release(lease)
  }

  lemma LeaseKeepsFlow(s: State, e: Event, lease: LeaseId)
    requires Enabled(s, e) && lease in s.leases && lease in Next(s, e).leases
    ensures Next(s, e).leases[lease].flow == s.leases[lease].flow && e != Release(lease)
  {
    hide Cleaned, SetStatus, FailCancelled;
    if !Untimed(e) { CleanedFrame(s, e.now); }
    match e
    case Settle(l, success, now) =>
      var c := Cleaned(s, now);
      if c.leases[l].flow in c.flows { StatusFrame(c, c.leases[l].flow, if success then Completed else Failed); }
    case DropLocked(l) => FailFrame(s, s.leases[l].flow);
    case FailLater(id) => FailFrame(s, id);
    case _ =>
  }

  lemma StatusFrame(s: State, id: FlowId, status: FlowStatus)
    requires id in s.flows
    ensures SetStatus(s, id, status).leases == s.leases
  {
  }

  lemma FailFrame(s: State, id: FlowId)
    ensures FailCancelled(s, id).leases == s.leases
  {
  }

  lemma NewLease(s: State, e: Event, lease: LeaseId)
    requires Enabled(s, e) && lease !in s.leases && lease in Next(s, e).leases
    ensures e.Trigger? && e.lease == lease && Next(s, e).leases[lease].flow == e.id
  {
    hide Cleaned;
    if !Untimed(e) { CleanedFrame(s, e.now); }
  }

  lemma NewIsPending(s: State, e: Event, id: FlowId)
    requires Enabled(s, e) && Coherent(s) && id !in s.issued && id in Next(s, e).flows
    ensures e.Insert? && e.id == id && Next(s, e).flows[id].status == Pending
  {
    hide Cleaned;
    if !Untimed(e) { FreshIsAbsent(s, id, e.now); }
  }
}
