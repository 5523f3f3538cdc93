/** When the scan cache says yes: who is let in, who has to go, and when a call is granted. */
module ScanAdmission {
  import opened Wrappers
  import opened ProofScan
  import opened ScanSpacing
  import opened ScanFairness

  /** At `now`, a call for another request may take the slot of `k`: its delay is over, and
      it is a reservation not used yet, has had every proof looked up, or was not used for
      five minutes. */
  ghost predicate MayLeave(s: Cache, now: Instant, k: Hash) {
    && k in s.requests && s.requests[k].retryAt <= now
    && (|| s.requests[k].cursor == None
        || s.requests[k].sweepComplete
        || s.requests[k].lastUsed + 300_000_000_000 <= now)
  }

  ghost predicate SomeoneMayLeave(s: Cache, now: Instant, current: Hash) {
    exists k :: k != current && MayLeave(s, now, k)
  }

  lemma SearchExactly(s: Cache, now: Instant, current: Hash, v: Option<Hash>)
    requires OldestReady(s, now, current, v)
    ensures v.Some? <==> SomeoneMayLeave(s, now, current)
    ensures v.Some? ==> v.value != current && MayLeave(s, now, v.value)
  {
    forall k | k in s.requests ensures Evictable(s, now, current, k) <==> k != current && MayLeave(s, now, k) {}
    if v.Some? { assert v.value != current && MayLeave(s, now, v.value); }
  }

  /** While nobody waits, a call is turned away exactly if its request is new, the cache
      holds 1024 requests, and none of them may leave. */
  lemma TurnedAwayExactly(s: Cache, e: Event)
    requires Enabled(s, e) && e.Scan? && Lookable(e.call) && s.waiting.None?
    ensures OutcomeOf(s, e) == Deferred <==>
              && e.call.key !in s.requests && |s.requests| >= 1024
              && !SomeoneMayLeave(s, e.call.now, e.call.key)
  {
    hide Touch, SomeoneMayLeave;
    assert AfterOffer(s, e.call, e.first) == s;
    if NeedsSlot(s, e.call.key) { SearchExactly(s, e.call.now, e.call.key, e.second); }
  }

  /** The call's own request has a slot reserved that it has not used. */
  ghost predicate HoldsReservation(s: Cache, k: Hash) { k in s.requests && s.requests[k].cursor == None }

  /** A waiting request is let in by a call exactly if somebody other than the caller may
      leave, unless the caller has come to use a reservation of its own. */
  lemma LetInExactly(s: Cache, e: Event)
    requires Valid(s) && Enabled(s, e) && e.Scan? && Lookable(e.call) && s.waiting.Some?
    ensures s.waiting.value.key in Next(s, e).requests <==>
              !HoldsReservation(s, e.call.key) && SomeoneMayLeave(s, e.call.now, e.call.key)
  {
    hide Touch, SomeoneMayLeave;
    var w, c := s.waiting.value.key, e.call;
    if OffersSlot(s, c.key) { SearchExactly(s, c.now, c.key, e.first); }
    var t := AfterOffer(s, c, e.first);
    if w in t.requests { ReservedMayNotLeave(s, c, e.first); }
    if NeedsSlot(t, c.key) { SearchExactly(t, c.now, c.key, e.second); }
  }

  lemma ReservedMayNotLeave(s: Cache, c: Call, first: Option<Hash>)
    requires Valid(s) && OffersSlot(s, c.key) && first.Some?
    ensures !MayLeave(AfterOffer(s, c, first), c.now, s.waiting.value.key)
  {
  }

  /** Whoever has to go was used no later than anyone else who might have gone. */
  lemma LeastRecentlyUsedGoes(s: Cache, e: Event, k: Hash, other: Hash)
    requires Valid(s) && Enabled(s, e) && k in s.requests && k !in Next(s, e).requests
    requires MayLeave(s, Time(e), other) && other in Next(s, e).requests
    requires e.Scan? && other != e.call.key
    ensures s.requests[k].lastUsed <= s.requests[other].lastUsed
  {
    hide Touch;
    var c := e.call;
    var t := AfterOffer(s, c, e.first);
    assert Evictable(s, c.now, c.key, other);
    if k in t.requests {
      assert e.second == Some(k) && t.requests[k] == s.requests[k];
      if other in t.requests && s.waiting.Some? && other == s.waiting.value.key { assert false; }
      if other in t.requests { assert Evictable(t, c.now, c.key, other); }
    }
  }

  // ---------------------------------------------------------------------- over runs

  lemma {:induction false} SlotStaysReserved(r: Trace, i: nat, j: nat)
    requires IsRun(r) && i < j <= |r.events| && ReservesAt(r, i)
    requires forall m | i <= m < j :: !CallsFor(r.events[m], ReservedKey(r, i)) && !Lifts(r, m, ReservedKey(r, i))
    requires forall m | i < m <= j :: ReservedKey(r, i) in r.states[m].requests
    ensures r.states[j].requests[ReservedKey(r, i)]
         == Reserved(r.states[i].waiting.value.fingerprint, Time(r.events[i]))
  {
    hide Next, Enabled, CallsFor, Reserves, LiftsDelay;
    var k := ReservedKey(r, i);
    ReachableIsValid(r, j - 1);
    assert StepAt(r, j - 1);
    assert !CallsFor(r.events[j - 1], k) && !Lifts(r, j - 1, k);
    if j == i + 1 {
      WaitsOutside(r.states[i], r.events[i]);
      StepOnAbsent(r.states[i], r.events[i], k);
    } else {
      SlotStaysReserved(r, i, j - 1);
      StepOnResident(r.states[j - 1], r.events[j - 1], k);
      UntouchedIsKept(r.states[j - 1], r.events[j - 1], k);
    }
  }

  lemma UntouchedIsKept(s: Cache, e: Event, k: Hash)
    requires k in s.requests && !CallsFor(e, k) && !LiftsDelay(s, e, k)
    ensures Kept(s.requests[k], e, k) == s.requests[k]
  {
  }

  /** A reservation not used within the retry delay lapses: a later call for a new request
      is not turned away. */
  lemma ReservationLapses(r: Trace, i: nat, j: nat)
    requires IsRun(r) && i < j < |r.events| && ReservesAt(r, i)
    requires forall m | i <= m < j :: !CallsFor(r.events[m], ReservedKey(r, i)) && !Lifts(r, m, ReservedKey(r, i))
    requires forall m | i < m <= j :: ReservedKey(r, i) in r.states[m].requests
    requires r.events[j].Scan? && Lookable(r.events[j].call) && r.events[j].call.key != ReservedKey(r, i)
    requires r.states[j].waiting.None? && Time(r.events[i]) + 15_000_000_000 <= Time(r.events[j])
    ensures OutcomeOf(r.states[j], r.events[j]) != Deferred
  {
    hide Next, OutcomeOf, Reserves, LiftsDelay;
    SlotStaysReserved(r, i, j);
    assert StepAt(r, j) && MayLeave(r.states[j], Time(r.events[j]), ReservedKey(r, i));
    TurnedAwayExactly(r.states[j], r.events[j]);
  }

  /** A resident request that comes with other proofs starts over and is granted at once. */
  lemma ChangedProofsAreGranted(s: Cache, e: Event)
    requires Valid(s) && Enabled(s, e) && e.Scan? && Lookable(e.call)
    requires e.call.key in s.requests && s.requests[e.call.key].fingerprint != e.call.proofs
    ensures OutcomeOf(s, e) == Granted(0)
  {
    hide Next, Enabled, OutcomeOf;
    StepOnResident(s, e, e.call.key);
  }

  lemma {:induction false} DelayStays(r: Trace, i: nat, j: nat, k: Hash, until: Instant)
    requires IsRun(r) && i <= j <= |r.events| && DelayedUntil(r.states[i], k, until)
    requires forall m | i <= m < j :: !Grants(r, m, k) && !Lifts(r, m, k)
    requires forall m | i <= m <= j :: k in r.states[m].requests
    ensures DelayedUntil(r.states[j], k, until)
    decreases j
  {
    hide Next, Enabled, OutcomeOf, LiftsDelay;
    if i == j {
    } else {
      DelayStays(r, i, j - 1, k, until);
      ReachableIsValid(r, j - 1);
      assert StepAt(r, j - 1) && !Grants(r, j - 1, k) && !Lifts(r, j - 1, k);
      StepKeepsResident(r.states[j - 1], r.events[j - 1], k);
    }
  }

  /** After a lookup that observed everything was finished, the request is granted again
      exactly from that time on. */
  lemma GrantedExactlyAfterFinish(r: Trace, f: nat, j: nat, k: Hash)
    requires IsRun(r) && f < j < |r.events|
    requires r.events[f].Finish? && r.events[f].key == k && k in r.states[f].requests
    requires r.states[f].requests[k].fingerprint == r.events[f].proofs && r.states[f].requests[k].cursor.Some?
    requires forall m | f < m < j :: !Grants(r, m, k) && !Lifts(r, m, k)
    requires forall m | f < m <= j :: k in r.states[m].requests
    requires CallsFor(r.events[j], k) && !Lifts(r, j, k)
    ensures Grants(r, j, k) <==> Time(r.events[f]) <= Time(r.events[j])
  {
    assert StepAt(r, f) && StepAt(r, j);
    FinishEndsDelay(r.states[f], r.events[f]);
    hide Next, OutcomeOf, Enabled;
    DelayStays(r, f + 1, j, k, Time(r.events[f]));
    ReachableIsValid(r, j);
    StepOnResident(r.states[j], r.events[j], k);
  }

  lemma FinishEndsDelay(s: Cache, e: Event)
    requires e.Finish? && e.key in s.requests && s.requests[e.key].fingerprint == e.proofs
    requires s.requests[e.key].cursor.Some?
    ensures DelayedUntil(Next(s, e), e.key, Time(e))
  {
  }
}
