/**
 How long a setup flow lives, and how long it is remembered: exactly, for any clock.

 A status call reads the clock under the state lock. The clean-up at the start of a
 begin uses a reading taken before it waited for that lock, so readings may be older
 than earlier ones.
 */
module SetupExpiry {
  import opened SetupFlow

  /** Event `m` cleans up with a reading of `t` or later. */
  ghost predicate ReadsFrom(r: Trace, m: nat, t: Duration)
    requires m < |r.events|
  {
    !Untimed(r.events[m]) && r.events[m].now >= t
  }

  /** When the flow that event `i` inserts is over. */
  function Over(e: Event): Duration
    requires e.Insert?
  {
    e.base + 300_000_000_000
  }

  /** Event `b` is the first after the insertion `i` to clean up when the flow is over. */
  ghost predicate Buries(r: Trace, i: nat, b: nat)
    requires i < |r.events| && r.events[i].Insert?
  {
    && i < b < |r.events| && ReadsFrom(r, b, Over(r.events[i]))
    && forall m | i < m < b :: !ReadsFrom(r, m, Over(r.events[i]))
  }

  /** Until when the tombstone left by event `b` stays. */
  ghost function Until(r: Trace, b: nat): Duration
    requires b < |r.events| && !Untimed(r.events[b])
  {
    r.events[b].now + FLOW_LIFETIME
  }

  lemma UntimedKeepsLife(s: State, e: Event, id: FlowId)
    requires Enabled(s, e) && Untimed(e)
    ensures Next(s, e).expired == s.expired && (id in Next(s, e).flows <==> id in s.flows)
    ensures id in s.flows ==> Next(s, e).flows[id].expiresAt == s.flows[id].expiresAt
  {
    hide Cleaned, Take, Stopped;
    match e
    case DropLocked(lease) => StoppedFrame(FailCancelled(s, s.leases[lease].flow), lease);
    case DropSpawned(lease) => StoppedFrame(s.(failers := s.failers + multiset{s.leases[lease].flow}), lease);
    case DropLost(lease) => StoppedFrame(s, lease);
    case _ =>
  }

  lemma TimedKeepsLife(s: State, e: Event, id: FlowId)
    requires Enabled(s, e) && !Untimed(e) && id in s.issued
    ensures (var c, t := Cleaned(s, e.now), Next(s, e);
             && t.expired == c.expired && (id in t.flows <==> id in c.flows)
             && (id in c.flows ==> t.flows[id].expiresAt == c.flows[id].expiresAt))
  {
    hide Cleaned;
    CleanedFrame(s, e.now);
  }

  lemma FlowStep(s: State, e: Event, id: FlowId, over: Duration)
    requires Enabled(s, e) && id in s.issued && id in s.flows && s.flows[id].expiresAt == over
    ensures !Untimed(e) && e.now >= over ==>
              (var t := Next(s, e); id !in t.flows && id in t.expired && t.expired[id] == e.now + FLOW_LIFETIME)
    ensures !(!Untimed(e) && e.now >= over) ==>
              (var t := Next(s, e); id in t.flows && t.flows[id].expiresAt == over)
  {
    hide Next, Enabled;
    if Untimed(e) { UntimedKeepsLife(s, e, id); } else { TimedKeepsLife(s, e, id); }
  }

  lemma TombstoneStep(s: State, e: Event, id: FlowId, until: Duration)
    requires Enabled(s, e) && id in s.issued && id !in s.flows && id in s.expired && s.expired[id] == until
    ensures id !in Next(s, e).flows
    ensures !Untimed(e) && e.now >= until ==> id !in Next(s, e).expired
    ensures !(!Untimed(e) && e.now >= until) ==> id in Next(s, e).expired && Next(s, e).expired[id] == until
  {
    hide Next, Enabled;
    if Untimed(e) { UntimedKeepsLife(s, e, id); } else { TimedKeepsLife(s, e, id); }
  }

  lemma InsertedIsThere(s: State, e: Event)
    requires e.Insert? && Enabled(s, e)
    ensures (var t := Next(s, e); e.id in t.issued && e.id in t.flows && t.flows[e.id].expiresAt == Over(e))
  {
  }

  lemma {:induction false} StaysIssued(r: Trace, i: nat, j: nat)
    requires IsRun(r) && i < j <= |r.events| && r.events[i].Insert?
    ensures r.events[i].id in r.states[j].issued
  {
    hide Enabled, Next;
    if j == i + 1 {
      assert StepAt(r, i);
      InsertedIsThere(r.states[i], r.events[i]);
    } else {
      StaysIssued(r, i, j - 1);
      assert StepAt(r, j - 1);
      NextFrame(r.states[j - 1], r.events[j - 1]);
    }
  }

  /** A flow is there until the first clean-up that finds it over. */
  lemma {:induction false} LivesUntilBuried(r: Trace, i: nat, j: nat)
    requires IsRun(r) && i < j <= |r.events| && r.events[i].Insert?
    requires forall m | i < m < j :: !ReadsFrom(r, m, Over(r.events[i]))
    ensures (var id := r.events[i].id;
             id in r.states[j].flows && r.states[j].flows[id].expiresAt == Over(r.events[i]))
  {
    hide Enabled, Next;
    if j == i + 1 {
      assert StepAt(r, i);
      InsertedIsThere(r.states[i], r.events[i]);
    } else {
      LivesUntilBuried(r, i, j - 1);
      StaysIssued(r, i, j - 1);
      assert StepAt(r, j - 1) && !ReadsFrom(r, j - 1, Over(r.events[i]));
      FlowStep(r.states[j - 1], r.events[j - 1], r.events[i].id, Over(r.events[i]));
    }
  }

  /** From its burial it is expired until the first clean-up a lifetime later. */
  lemma {:induction false} TombstoneStays(r: Trace, i: nat, b: nat, j: nat)
    requires IsRun(r) && i < b < j <= |r.events| && r.events[i].Insert? && Buries(r, i, b)
    requires forall m | b < m < j :: !ReadsFrom(r, m, Until(r, b))
    ensures (var id := r.events[i].id;
             && id !in r.states[j].flows && id in r.states[j].expired && r.states[j].expired[id] == Until(r, b))
  {
    hide Enabled, Next;
    var id := r.events[i].id;
    StaysIssued(r, i, j - 1);
    assert StepAt(r, j - 1);
    if j == b + 1 {
      LivesUntilBuried(r, i, b);
      FlowStep(r.states[b], r.events[b], id, Over(r.events[i]));
    } else {
      TombstoneStays(r, i, b, j - 1);
      assert !ReadsFrom(r, j - 1, Until(r, b));
      TombstoneStep(r.states[j - 1], r.events[j - 1], id, Until(r, b));
    }
  }

  /** After that clean-up it is unknown for good. */
  lemma {:induction false} ForgottenForGood(r: Trace, i: nat, b: nat, d: nat, j: nat)
    requires IsRun(r) && i < b < d < j <= |r.events| && r.events[i].Insert? && Buries(r, i, b)
    requires ReadsFrom(r, d, Until(r, b))
    ensures StatusOf(r.states[j], r.events[i].id) == Unknown
    decreases d
  {
    hide Enabled, Next;
    if m :| b < m < d && ReadsFrom(r, m, Until(r, b)) {
      ForgottenForGood(r, i, b, m, j);
    } else {
      var id := r.events[i].id;
      TombstoneStays(r, i, b, d);
      StaysIssued(r, i, d);
      StaysIssued(r, i, d + 1);
      assert StepAt(r, d);
      TombstoneStep(r.states[d], r.events[d], id, Until(r, b));
      AnswersInOrder(r, d + 1, j, id);
    }
  }

  /** What is known of a flow after its burial, for any clock: expired exactly as long as
      no clean-up has read the burial's time plus a lifetime, and unknown afterwards. */
  lemma BuriedExactly(r: Trace, i: nat, b: nat, j: nat)
    requires IsRun(r) && i < b < j <= |r.events| && r.events[i].Insert? && Buries(r, i, b)
    ensures StatusOf(r.states[j], r.events[i].id)
         == if exists d | b < d < j :: ReadsFrom(r, d, Until(r, b)) then Unknown else Expired
  {
    hide Enabled, Next, IsRun;
    if d :| b < d < j && ReadsFrom(r, d, Until(r, b)) {
      ForgottenForGood(r, i, b, d, j);
    } else {
      TombstoneStays(r, i, b, j);
    }
  }

  lemma {:induction false} FirstBurial(r: Trace, i: nat, m: nat) returns (b: nat)
    requires i < m < |r.events| && r.events[i].Insert? && ReadsFrom(r, m, Over(r.events[i]))
    ensures Buries(r, i, b) && b <= m
    decreases m
  {
    if k :| i < k < m && ReadsFrom(r, k, Over(r.events[i])) {
      b := FirstBurial(r, i, k);
    } else {
      b := m;
    }
  }

  /** No earlier reading is later than that of event `j`, as for a call that reads the
      clock under the lock. */
  ghost predicate ReadsLatest(r: Trace, j: nat)
    requires j < |r.events| && !Untimed(r.events[j])
  {
    forall m | 0 <= m < j && !Untimed(r.events[m]) :: r.events[m].now <= r.events[j].now
  }

  /** A status call answers with the flow's state exactly until its lifetime is over. From
      then on it answers expired until a lifetime after the first clean-up that found it
      over, which is at least one more lifetime, and unknown from then on. Clean-ups
      with older readings in between change none of this. */
  lemma ExpiryIsExact(r: Trace, i: nat, j: nat)
    requires IsRun(r) && i < j < |r.events|
    requires r.events[i].Insert? && r.events[j].Cleanup? && ReadsLatest(r, j)
    ensures (var id, over, now := r.events[i].id, Over(r.events[i]), r.events[j].now;
             && (now < over ==> StatusOf(r.states[j + 1], id) in {PendingTimeout, Complete, FailedResult})
             && (now >= over ==>
                   exists b | i < b <= j && Buries(r, i, b) && over <= r.events[b].now ::
                     StatusOf(r.states[j + 1], id) == if now < Until(r, b) then Expired else Unknown))
  {
    hide IsRun;
    var over, now := Over(r.events[i]), r.events[j].now;
    if now < over {
      LivesUntilBuried(r, i, j + 1);
    } else {
      var b := FirstBurial(r, i, j);
      BuriedExactly(r, i, b, j + 1);
      if now >= Until(r, b) { assert ReadsFrom(r, j, Until(r, b)); }
      assert Buries(r, i, b);
    }
  }

  /** A late first clean-up keeps the flow expired that much longer: here, two lifetimes
      after it was over. */
  lemma LateBurialProlongs()
    ensures (var s := Next(Start(1), Acquire);
             Enabled(s, Insert(7, 9, 0, 0)) &&
             StatusOf(Next(Next(s, Insert(7, 9, 0, 0)), Cleanup(3 * FLOW_LIFETIME)), 7) == Expired)
  {
    hide Cleaned, Take, Stopped;
    var s := Next(Start(1), Acquire);
    var t := Next(s, Insert(7, 9, 0, 0));
    InsertedIsThere(s, Insert(7, 9, 0, 0));
    FlowStep(t, Cleanup(3 * FLOW_LIFETIME), 7, FLOW_LIFETIME);
  }
}
