/** The setup service's shared state, updated in place, one critical section a method. */
module SetupService {
  import opened Wrappers
  import opened SetupFlow

  class SharedState {
    const capacity: nat
    var free: nat
    var flows: map<FlowId, Flow>
    var expired: map<FlowId, Duration>

    // Who holds what outside the lock, and what was used up so far.
    ghost var begins: nat
    ghost var leases: map<LeaseId, Lease>
    ghost var failers: multiset<FlowId>
    ghost var issued: set<FlowId>
    ghost var created: set<Attempt>
    ghost var consumed: seq<Attempt>

    ghost function View(): State
      reads this
    {
      State(capacity, free, flows, expired, begins, leases, failers, issued, created, consumed)
    }

    constructor (capacity: nat)
      ensures View() == Start(capacity)
    {
      this.capacity, free := capacity, capacity;
      flows, expired := map[], map[];
      begins, leases, failers, issued, created, consumed := 0, map[], multiset{}, {}, {}, [];
    }

    /** Removes flows one by one, each leaving a tombstone. */
    method Bury(ids: set<FlowId>, now: Duration)
      requires ids <= flows.Keys
      modifies this
      ensures View() == Buried(old(View()), ids, now)
    {
      hide Buried;
      ghost var base := View();
      var todo := ids;
      BuryNone(base, now);
      assert ids - todo == {};
      while todo != {}
        invariant todo <= ids <= base.flows.Keys
        invariant View() == Buried(base, ids - todo, now)
        decreases todo
      {
        var id :| id in todo;
        BuryOneMore(base, ids - todo, id, now);
        assert ids - (todo - {id}) == (ids - todo) + {id};
        if flows[id].reservation {
          free := free + 1;
        }
        flows := flows - {id};
        expired := expired[id := now + FLOW_LIFETIME];
        todo := todo - {id};
      }
      assert ids - todo == ids;
    }

    method CleanupExpired(now: Duration)
      modifies this
      ensures View() == Cleaned(old(View()), now)
    {
      expired := map id | id in expired && now < expired[id] :: expired[id];
      Bury(Due(flows, now), now);
    }

    method TryAcquire() returns (acquired: bool)
      modifies this
      ensures acquired == Enabled(old(View()), Acquire)
      ensures View() == if acquired then Next(old(View()), Acquire) else old(View())
    {
      acquired := free > 0;
      if acquired {
        free, begins := free - 1, begins + 1;
      }
    }

    method AbandonBegin()
      requires Enabled(View(), Abandon)
      modifies this
      ensures View() == Next(old(View()), Abandon)
    {
      free, begins := free + 1, begins - 1;
    }

    method InsertFlow(id: FlowId, attempt: Attempt, now: Duration, base: Duration)
      requires Enabled(View(), Insert(id, attempt, now, base))
      modifies this
      ensures View() == Next(old(View()), Insert(id, attempt, now, base))
    {
      hide Cleaned;
      CleanedFrame(View(), now);
      CleanupExpired(now);
      flows := flows[id := Flow(Some(attempt), true, base + FLOW_LIFETIME, Pending)];
      begins, issued, created := begins - 1, issued + {id}, created + {attempt};
    }

    method ExpiredOrUnknown(id: FlowId) returns (answer: PollResult)
      requires id !in flows
      ensures answer == StatusOf(View(), id)
    {
      answer := if id in expired then Expired else Unknown;
    }

    /** Hands out the attempt of a pending flow, and of no other; otherwise answers as
        a status call would. */
    method BeginCompletion(id: FlowId, ghost lease: LeaseId, now: Duration)
      returns (attempt: Option<Attempt>, answer: PollResult)
      requires Valid(View()) && Enabled(View(), Trigger(id, lease, now))
      modifies this
      ensures View() == Next(old(View()), Trigger(id, lease, now))
      ensures answer == StatusOf(View(), id)
      ensures attempt.Some? <==> Takes(Cleaned(old(View()), now), id)
      ensures attempt.Some? ==> consumed == old(consumed) + [attempt.value]
      ensures attempt.None? ==> consumed == old(consumed)
    {
      hide Coherent, Conserved, OneShot, Cleaned;
      CleanedCoherent(View(), now);
      CleanedFrame(View(), now);
      CleanupExpired(now);
      if id !in flows {
        answer := ExpiredOrUnknown(id);
        return None, answer;
      }
      match flows[id].status {
        case Completed => return None, Complete;
        case Failed => return None, FailedResult;
        case Completing => return None, PendingTimeout;
        case Pending =>
          var taken := TakeAttempt(id, lease);
          return Some(taken), PendingTimeout;
      }
    }

    method TakeAttempt(id: FlowId, ghost lease: LeaseId) returns (attempt: Attempt)
      requires Coherent(View()) && Takes(View(), id)
      modifies this
      ensures View() == Take(old(View()), id, lease)
      ensures consumed == old(consumed) + [attempt] && StatusOf(View(), id) == PendingTimeout
    {
      PendingHolds(View(), id);
      var flow := flows[id];
      attempt := flow.attempt.value;
      flows := flows[id := flow.(status := Completing, attempt := None, reservation := false)];
      leases := leases[lease := Lease(id, true)];
      consumed := consumed + [attempt];
    }

    /** Records the outcome of a completion and answers with the flow's state. */
    method FinishCompletion(id: FlowId, ghost lease: LeaseId, success: bool, now: Duration)
      returns (answer: PollResult)
      requires Enabled(View(), Settle(lease, success, now)) && leases[lease].flow == id
      modifies this
      ensures View() == Next(old(View()), Settle(lease, success, now))
      ensures answer == StatusOf(View(), id)
    {
      hide Cleaned;
      CleanedFrame(View(), now);
      CleanupExpired(now);
      leases := leases[lease := leases[lease].(running := false)];
      if id !in flows {
        answer := ExpiredOrUnknown(id);
      } else if success {
        flows := flows[id := flows[id].(status := Completed)];
        answer := Complete;
      } else {
        flows := flows[id := flows[id].(status := Failed)];
        answer := FailedResult;
      }
    }

    method FailCancelledCompletion(id: FlowId)
      modifies this`flows
      ensures View() == FailCancelled(old(View()), id)
    {
      if id in flows && flows[id].status == Completing {
        flows := flows[id := flows[id].(status := Failed)];
      }
    }

    /** Dropping an armed lease: fail the flow now, later, or - without a runtime - never. */
    method DropLease(id: FlowId, ghost lease: LeaseId, lockIsFree: bool, hasRuntime: bool)
      requires Enabled(View(), DropLost(lease)) && leases[lease].flow == id
      modifies this
      ensures View() == Next(old(View()), if lockIsFree then DropLocked(lease)
                                          else if hasRuntime then DropSpawned(lease)
                                          else DropLost(lease))
    {
      if lockIsFree {
        FailCancelledCompletion(id);
      } else if hasRuntime {
        failers := failers + multiset{id};
      }
      leases := leases[lease := leases[lease].(running := false)];
    }

    method RunFailer(id: FlowId)
      requires Enabled(View(), FailLater(id))
      modifies this
      ensures View() == Next(old(View()), FailLater(id))
    {
      FailCancelledCompletion(id);
      failers := failers - multiset{id};
    }

    method ReleaseReservation(ghost lease: LeaseId)
      requires Enabled(View(), Release(lease))
      modifies this
      ensures View() == Next(old(View()), Release(lease))
    {
      free := free + 1;
      leases := leases - {lease};
    }

    method Status(id: FlowId, now: Duration) returns (answer: PollResult)
      modifies this
      ensures View() == Next(old(View()), Cleanup(now))
      ensures answer == StatusOf(View(), id)
    {
      CleanupExpired(now);
      if id !in flows {
        answer := ExpiredOrUnknown(id);
      } else {
        answer := match flows[id].status
          case Pending => PendingTimeout
          case Completing => PendingTimeout
          case Completed => Complete
          case Failed => FailedResult;
      }
    }
  }
}
