/**
 How a completion ends, what its caller is told, and whether that agrees with what
 status calls say.

 The caller that starts a completion waits for its task. A task that ends by itself
 answers with the flow's state. One that panics or is aborted drops its armed lease,
 and its caller is told that the flow failed, whatever became of the flow.
 */
module SetupCompletion {
  import opened Wrappers
  import opened SetupFlow

  predicate Drops(e: Event) { e.DropLocked? || e.DropSpawned? || e.DropLost? }

  predicate Ends(e: Event) { e.Settle? || Drops(e) }

  /** The flow whose completion event `k` ends. */
  ghost function FlowOf(r: Trace, k: nat): FlowId
    requires IsRun(r) && k < |r.events| && Ends(r.events[k])
  {
    assert StepAt(r, k);
    r.states[k].leases[r.events[k].lease].flow
  }

  /** What the caller of that completion is told. */
  ghost function CompleterAnswer(r: Trace, k: nat): PollResult
    requires IsRun(r) && k < |r.events| && Ends(r.events[k])
  {
    if Drops(r.events[k]) then FailedResult else StatusOf(r.states[k + 1], FlowOf(r, k))
  }

  /** The task spawned for a dropped lease of `id` has run between `d` and `j`. */
  ghost predicate FailerRan(r: Trace, d: nat, j: nat, id: FlowId)
    requires j <= |r.events|
  {
    exists m | d < m < j :: r.events[m] == FailLater(id)
  }

  // -------------------------------------------------------------- a flow without a completion

  /** No completion of `id` is running; the flow has this status if it is still there,
      and `n` tasks are left to fail it. */
  ghost predicate Orphan(s: State, id: FlowId, status: FlowStatus, n: nat) {
    && id in s.issued
    && FailerOnly(s, id)
    && (id in s.flows ==> s.flows[id].status == status)
    && s.failers[id] == n
  }

  lemma CleanedOrphan(s: State, now: Duration, id: FlowId, status: FlowStatus, n: nat)
    requires Orphan(s, id, status, n)
    ensures Orphan(Cleaned(s, now), id, status, n)
  {
  }

  lemma TimedOrphan(s: State, e: Event, id: FlowId, status: FlowStatus, n: nat)
    requires Enabled(s, e) && !Untimed(e) && Orphan(s, id, status, n) && status != Pending
    ensures Orphan(Next(s, e), id, status, n)
  {
    hide Cleaned;
    CleanedOrphan(s, e.now, id, status, n);
    CleanedFrame(s, e.now);
  }

  lemma DropKeepsOrphan(s: State, e: Event, id: FlowId, status: FlowStatus, n: nat)
    requires Enabled(s, e) && Drops(e) && Orphan(s, id, status, n)
    ensures Orphan(Next(s, e), id, status, n)
  {
    hide Cleaned, Take;
    assert s.leases[e.lease].flow != id;
  }

  lemma OtherFailerKeepsOrphan(s: State, other: FlowId, id: FlowId, status: FlowStatus, n: nat)
    requires Enabled(s, FailLater(other)) && other != id && Orphan(s, id, status, n)
    ensures Orphan(Next(s, FailLater(other)), id, status, n)
  {
    hide Cleaned, Take, Stopped;
  }

  lemma UntimedOrphan(s: State, e: Event, id: FlowId, status: FlowStatus, n: nat)
    requires Enabled(s, e) && Untimed(e) && e != FailLater(id) && Orphan(s, id, status, n)
    ensures Orphan(Next(s, e), id, status, n)
  {
    hide Cleaned, Take, Stopped, FailCancelled;
    if Drops(e) {
      DropKeepsOrphan(s, e, id, status, n);
    } else if e.FailLater? {
      OtherFailerKeepsOrphan(s, e.id, id, status, n);
    }
  }

  lemma FailedOrphan(s: State, id: FlowId, status: FlowStatus, n: nat)
    requires Enabled(s, FailLater(id)) && Orphan(s, id, status, n)
    ensures n > 0
    ensures Orphan(Next(s, FailLater(id)), id, if status == Completing then Failed else status, n - 1)
  {
    hide Cleaned, Take;
  }

  /** Without a completion, only a task left behind changes the status of a flow that is
      no longer pending. */
  lemma NextOrphan(s: State, e: Event, id: FlowId, status: FlowStatus, n: nat)
    requires Enabled(s, e) && Orphan(s, id, status, n) && status != Pending
    ensures e == FailLater(id) ==>
              n > 0 && Orphan(Next(s, e), id, if status == Completing then Failed else status, n - 1)
    ensures e != FailLater(id) ==> Orphan(Next(s, e), id, status, n)
  {
    hide Orphan, Enabled, Next;
    if e == FailLater(id) {
      FailedOrphan(s, id, status, n);
    } else if Untimed(e) {
      UntimedOrphan(s, e, id, status, n);
    } else {
      TimedOrphan(s, e, id, status, n);
    }
  }

  lemma {:induction false} OutcomeStays(r: Trace, i: nat, j: nat, id: FlowId, status: FlowStatus)
    requires IsRun(r) && i <= j <= |r.events| && status in {Completed, Failed}
    requires Orphan(r.states[i], id, status, r.states[i].failers[id])
    ensures Orphan(r.states[j], id, status, r.states[j].failers[id])
    decreases j
  {
    if i == j {
    } else {
      OutcomeStays(r, i, j - 1, id, status);
      assert StepAt(r, j - 1);
      NextOrphan(r.states[j - 1], r.events[j - 1], id, status, r.states[j - 1].failers[id]);
    }
  }

  // ------------------------------------------------------------------ after a dropped lease

  /** The status left by the drop `d`, by the time of `j`. */
  ghost function DroppedStatus(r: Trace, d: nat, j: nat, id: FlowId): FlowStatus
    requires d < |r.events| && j <= |r.events|
  {
    if r.events[d].DropLocked? || FailerRan(r, d, j, id) then Failed else Completing
  }

  ghost function FailersLeft(r: Trace, d: nat, j: nat, id: FlowId): nat
    requires d < |r.events| && j <= |r.events|
  {
    if r.events[d].DropSpawned? && !FailerRan(r, d, j, id) then 1 else 0
  }

  lemma DropMakesOrphan(s: State, e: Event)
    requires Enabled(s, e) && Coherent(s) && Drops(e)
    ensures Orphan(Next(s, e), s.leases[e.lease].flow, if e.DropLocked? then Failed else Completing,
                   if e.DropSpawned? then 1 else 0)
  {
    hide Cleaned, Take;
    assert LeaseFits(s, e.lease);
    StoppedIsFree(s, e.lease);
    var id := s.leases[e.lease].flow;
    assert id in s.failers ==> FailerFits(s, id);
  }

  lemma {:induction false} DroppedIsOrphan(r: Trace, d: nat, j: nat)
    requires IsRun(r) && d < j <= |r.events| && Drops(r.events[d])
    ensures (var id := FlowOf(r, d);
             && Orphan(r.states[j], id, DroppedStatus(r, d, j, id), FailersLeft(r, d, j, id))
             && (FailerRan(r, d, j, id) ==> r.events[d].DropSpawned?))
    decreases j
  {
    hide Orphan, Enabled, Next, Coherent;
    var id := FlowOf(r, d);
    assert StepAt(r, j - 1);
    if j == d + 1 {
      ReachableIsValid(r, d);
      DropMakesOrphan(r.states[d], r.events[d]);
    } else {
      DroppedIsOrphan(r, d, j - 1);
      assert FailerRan(r, d, j, id) <==> FailerRan(r, d, j - 1, id) || r.events[j - 1] == FailLater(id);
      NextOrphan(r.states[j - 1], r.events[j - 1], id, DroppedStatus(r, d, j - 1, id), FailersLeft(r, d, j - 1, id));
    }
  }

  /** After a dropped lease the flow, as long as it is there, has failed exactly if the
      lock was free at the drop or the spawned task has run; otherwise it is still
      pending. Without a runtime no task ever runs, and it stays pending until it expires. */
  lemma DroppedExactly(r: Trace, d: nat, j: nat)
    requires IsRun(r) && d < j <= |r.events| && Drops(r.events[d])
    ensures (var id := FlowOf(r, d);
             && (id in r.states[j].flows ==>
                   StatusOf(r.states[j], id)
                   == if r.events[d].DropLocked? || FailerRan(r, d, j, id) then FailedResult else PendingTimeout)
             && (FailerRan(r, d, j, id) ==> r.events[d].DropSpawned?))
  {
    hide IsRun;
    DroppedIsOrphan(r, d, j);
  }

  // ---------------------------------------------------------------- what the caller is told

  /** What a caller is told agrees with every later answer, except that after a dropped
      lease it does so exactly if the lock was free, the spawned task has run, or the
      flow is gone. */
  lemma AgreesWithLater(r: Trace, k: nat, j: nat)
    requires IsRun(r) && k < j <= |r.events| && Ends(r.events[k])
    ensures (var id := FlowOf(r, k);
             Follows(CompleterAnswer(r, k), StatusOf(r.states[j], id)) <==>
               || r.events[k].Settle? || r.events[k].DropLocked?
               || FailerRan(r, k, j, id) || id !in r.states[j].flows)
  {
    hide IsRun, Coherent;
    var id := FlowOf(r, k);
    if Drops(r.events[k]) {
      DroppedExactly(r, k, j);
    } else {
      EndedIsIssued(r, k);
      AnswersInOrder(r, k + 1, j, id);
    }
  }

  lemma EndedIsIssued(r: Trace, k: nat)
    requires IsRun(r) && k < |r.events| && Ends(r.events[k])
    ensures FlowOf(r, k) in r.states[k].issued && FlowOf(r, k) in r.states[k + 1].issued
  {
    hide Next, Conserved, OneShot;
    ReachableIsValid(r, k);
    assert StepAt(r, k) && LeaseFits(r.states[k], r.events[k].lease);
    NextFrame(r.states[k], r.events[k]);
  }

  /** Until its completion ends, a flow that is there is pending. */
  lemma PendingUntilEnd(r: Trace, i: nat, k: nat)
    requires IsRun(r) && i <= k < |r.events| && Ends(r.events[k]) && FlowOf(r, k) in r.states[i].flows
    ensures StatusOf(r.states[i], FlowOf(r, k)) == PendingTimeout
  {
    hide Next, Conserved, OneShot;
    var s, id := r.states[i], FlowOf(r, k);
    ReachableIsValid(r, i);
    assert StepAt(r, k);
    if s.flows[id].status in {Completed, Failed} {
      assert FailerOnly(s, id) by {
        forall l | l in s.leases && s.leases[l].running ensures s.leases[l].flow != id { assert LeaseFits(s, l); }
      }
      OutcomeStays(r, i, k, id, s.flows[id].status);
    }
  }

  /** A failure told after a dropped lease agrees with an earlier answer exactly if the
      flow was still there then: a flow that had expired already is told to have failed. */
  lemma AgreesWithEarlier(r: Trace, i: nat, k: nat)
    requires IsRun(r) && i <= k < |r.events| && Drops(r.events[k]) && FlowOf(r, k) in r.states[i].issued
    ensures Follows(StatusOf(r.states[i], FlowOf(r, k)), CompleterAnswer(r, k)) <==> FlowOf(r, k) in r.states[i].flows
  {
    if FlowOf(r, k) in r.states[i].flows { PendingUntilEnd(r, i, k); }
  }

  lemma NothingToClean(s: State, now: Duration)
    requires forall id | id in s.flows :: now < s.flows[id].expiresAt
    requires forall id | id in s.expired :: now < s.expired[id]
    ensures Cleaned(s, now) == s
  {
    assert Due(s.flows, now) == {};
    assert Holding(s.flows) * Due(s.flows, now) == {};
    assert Cleaned(s, now).flows == s.flows && Cleaned(s, now).expired == s.expired;
  }

  function Begun(): State { Start(1).(free := 0, begins := 1) }

  function Waiting(): State {
    Begun().(begins := 0, flows := map[7 := Flow(Some(9), true, FLOW_LIFETIME, Pending)], issued := {7}, created := {9})
  }

  function Running(): State {
    Waiting().(flows := map[7 := Flow(None, false, FLOW_LIFETIME, Completing)],
               leases := map[1 := Lease(7, true)], consumed := [9])
  }

  function Aborted(): State { Running().(failers := multiset{7}, leases := map[1 := Lease(7, false)]) }

  ghost predicate LeadsTo(s: State, e: Event, t: State) { Enabled(s, e) && t == Next(s, e) }

  lemma BeginsAndWaits()
    ensures LeadsTo(Start(1), Acquire, Begun()) && LeadsTo(Begun(), Insert(7, 9, 0, 0), Waiting())
  {
    hide Cleaned;
    NothingToClean(Begun(), 0);
  }

  lemma RunsAndAborts()
    ensures LeadsTo(Waiting(), Trigger(7, 1, 0), Running()) && LeadsTo(Running(), DropSpawned(1), Aborted())
  {
    hide Cleaned;
    NothingToClean(Waiting(), 0);
    assert Waiting().flows[7 := Running().flows[7]] == Running().flows;
    assert Running().leases[1 := Lease(7, false)] == Aborted().leases;
  }

  function AbortedRun(): Trace {
    Trace([Acquire, Insert(7, 9, 0, 0), Trigger(7, 1, 0), DropSpawned(1)],
          [Start(1), Begun(), Waiting(), Running(), Aborted()])
  }

  lemma AbortedRunIsRun()
    ensures IsRun(AbortedRun())
  {
    BeginsAndWaits();
    RunsAndAborts();
    hide Enabled, Next, Begun, Waiting, Running, Aborted;
    var r := AbortedRun();
    forall i | 0 <= i < 4 ensures StepAt(r, i) { assert LeadsTo(r.states[i], r.events[i], r.states[i + 1]); }
  }

  /** A caller can be told that its flow failed and then that it is pending: the task is
      aborted while the lock is taken. */
  lemma FailedThenPending()
    ensures IsRun(AbortedRun()) && Drops(AbortedRun().events[3])
    ensures CompleterAnswer(AbortedRun(), 3) == FailedResult
    ensures StatusOf(AbortedRun().states[4], FlowOf(AbortedRun(), 3)) == PendingTimeout
  {
    AbortedRunIsRun();
    hide IsRun, Next;
    assert StatusOf(Aborted(), 7) == PendingTimeout;
  }

  // ------------------------------------------------------------------ nothing is left hanging

  /** A completion of `id` is running, or a task is left to fail it. */
  ghost predicate Watched(s: State, id: FlowId) {
    id in s.failers || exists l | l in s.leases :: s.leases[l] == Lease(id, true)
  }

  ghost predicate CompletingIn(s: State, id: FlowId) { id in s.flows && s.flows[id].status == Completing }

  ghost predicate LostAt(r: Trace, d: nat, id: FlowId)
    requires IsRun(r) && d < |r.events|
  {
    r.events[d].DropLost? && FlowOf(r, d) == id
  }

  lemma WatchedTimed(s: State, e: Event, id: FlowId)
    requires Enabled(s, e) && !Untimed(e) && CompletingIn(Next(s, e), id)
    requires CompletingIn(s, id) ==> Watched(s, id)
    ensures Watched(Next(s, e), id)
  {
    var c, t := Cleaned(s, e.now), Next(s, e);
    assert CompletingIn(c, id) ==> CompletingIn(s, id);
    hide Cleaned;
    CleanedFrame(s, e.now);
    if CompletingIn(c, id) {
      if id !in s.failers {
        var l :| l in s.leases && s.leases[l] == Lease(id, true);
        assert l in t.leases && t.leases[l] == Lease(id, true);
      }
    } else {
      assert t.leases[e.lease] == Lease(id, true);
    }
  }

  lemma WatchedUntimed(s: State, e: Event, id: FlowId)
    requires Enabled(s, e) && Untimed(e) && CompletingIn(Next(s, e), id) && Watched(s, id)
    requires !(e.DropLost? && s.leases[e.lease].flow == id)
    ensures Watched(Next(s, e), id)
  {
    hide Cleaned, Take;
    var t := Next(s, e);
    if id !in s.failers {
      var l :| l in s.leases && s.leases[l] == Lease(id, true);
      assert id in t.failers || (l in t.leases && t.leases[l] == Lease(id, true));
    }
  }

  lemma UntimedCompletes(s: State, e: Event, id: FlowId)
    requires Enabled(s, e) && Untimed(e) && CompletingIn(Next(s, e), id)
    ensures CompletingIn(s, id)
  {
    hide Cleaned, Take;
  }

  lemma {:induction false} WatchedUnlessLost(r: Trace, i: nat, id: FlowId)
    requires IsRun(r) && i <= |r.events|
    requires forall d | 0 <= d < i :: !LostAt(r, d, id)
    ensures CompletingIn(r.states[i], id) ==> Watched(r.states[i], id)
  {
    if i == 0 {
    } else {
      hide Enabled, Next, CompletingIn, Watched;
      var s, e := r.states[i - 1], r.events[i - 1];
      assert StepAt(r, i - 1) && !LostAt(r, i - 1, id);
      WatchedUnlessLost(r, i - 1, id);
      if CompletingIn(r.states[i], id) {
        if Untimed(e) {
          UntimedCompletes(s, e, id);
          WatchedUntimed(s, e, id);
        } else {
          WatchedTimed(s, e, id);
        }
      }
    }
  }

  /** In every run, a flow that is completing has a running completion or a task left to
      fail it, exactly unless its lease was dropped with no runtime left. */
  lemma CompletingIsWatched(r: Trace, i: nat, id: FlowId)
    requires IsRun(r) && i <= |r.events| && CompletingIn(r.states[i], id)
    ensures Watched(r.states[i], id) <==> forall d | 0 <= d < i :: !LostAt(r, d, id)
  {
    hide IsRun;
    if d :| 0 <= d < i && LostAt(r, d, id) {
      DroppedIsOrphan(r, d, i);
    } else {
      WatchedUnlessLost(r, i, id);
    }
  }
}
