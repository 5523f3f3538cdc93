/** Whom the scan cache lets in when it is full. */
module ScanFairness {
  import opened FiniteSets
  import opened Wrappers
  import opened ProofScan
  import opened ScanSpacing

  // ------------------------------------------------------------- circular order

  /** How far `k` lies after `last` going round the key space; `last` itself is a
      whole turn away. With no key admitted yet the turn starts at the lowest. */
  function Distance(last: Option<Hash>, k: Hash): (d: nat)
    ensures 1 <= d <= HASH_SPACE
  {
    match last
    case None => k + 1
    case Some(l) => if k > l then k - l else k + HASH_SPACE - l
  }

  lemma RankIsDistance(last: Option<Hash>, a: Hash, b: Hash)
    ensures RankAtMost(last, a, b) <==> Distance(last, a) <= Distance(last, b)
    ensures Distance(last, a) == Distance(last, b) ==> a == b
  {
  }

  /** Admitting a key on the way to `k` brings the turn closer to `k`. */
  lemma AdmissionApproaches(last: Option<Hash>, w: Hash, k: Hash)
    requires w != k && RankAtMost(last, w, k)
    ensures Distance(Some(w), k) < Distance(last, k)
  {
  }

  // -------------------------------------------------------------- waiting request

  ghost predicate Defers(s: Cache, e: Event) {
    e.Scan? && OutcomeOf(s, e) == Deferred
  }

  lemma AdmitOnWaiting(s: Cache, c: Call, second: Option<Hash>)
    ensures Admit(s, c, second).0.lastAdmitted == s.lastAdmitted
    ensures Admit(s, c, second).0.waiting == if Admit(s, c, second).1 == Deferred
                                             then Defer(s, c.key, c.proofs).waiting else s.waiting
  {
    hide Touch, RankAtMost;
  }

  /** What one event does to the waiting request and the turn. */
  lemma StepOnWaiting(s: Cache, e: Event)
    ensures Next(s, e).lastAdmitted == if Reserves(s, e) then Some(s.waiting.value.key) else s.lastAdmitted
    ensures var kept := if Reserves(s, e) then None else s.waiting;
            Next(s, e).waiting ==
              if Defers(s, e) && (kept.None? || RankAtMost(Next(s, e).lastAdmitted, e.call.key, kept.value.key))
              then Some(Waiter(e.call.key, e.call.proofs))
              else kept
  {
    hide Admit, RankAtMost;
    if e.Scan? { AdmitOnWaiting(AfterOffer(s, e.call, e.first), e.call, e.second); }
  }

  /** The requests turned away since the last reservation, each with the proofs it
      last came with. */
  ghost function TurnedAway(r: Trace, i: nat): map<Hash, seq<Proof>>
    requires i <= |r.events| < |r.states|
  {
    if i == 0 then map[]
    else
      var earlier := if Reserves(r.states[i - 1], r.events[i - 1]) then map[] else TurnedAway(r, i - 1);
      if Defers(r.states[i - 1], r.events[i - 1])
      then earlier[r.events[i - 1].call.key := r.events[i - 1].call.proofs]
      else earlier
  }

  /** `waiting` is the first of `away` in the circular order, with its last proofs. */
  ghost predicate FirstOf(waiting: Option<Waiter>, last: Option<Hash>, away: map<Hash, seq<Proof>>) {
    && (waiting.None? <==> away == map[])
    && (waiting.Some? ==>
          && waiting.value.key in away
          && waiting.value.fingerprint == away[waiting.value.key]
          && forall k | k in away :: RankAtMost(last, waiting.value.key, k))
  }

  lemma FirstOfGrows(waiting: Option<Waiter>, last: Option<Hash>, away: map<Hash, seq<Proof>>,
                     key: Hash, proofs: seq<Proof>)
    requires FirstOf(waiting, last, away)
    ensures FirstOf(if waiting.None? || RankAtMost(last, key, waiting.value.key)
                    then Some(Waiter(key, proofs)) else waiting,
                    last, away[key := proofs])
  {
    assert key in away[key := proofs];
  }

  /** In every reachable cache the waiting request is exactly the circularly first
      of those turned away since the last reservation. */
  lemma {:induction false} WaitingIsFirst(r: Trace, i: nat)
    requires IsRun(r) && i <= |r.events|
    ensures FirstOf(r.states[i].waiting, r.states[i].lastAdmitted, TurnedAway(r, i))
  {
    hide Next, Enabled, OutcomeOf, RankAtMost, Reserves;
    if i == 0 {
      assert r.states[0] == EMPTY;
    } else {
      var s, e := r.states[i - 1], r.events[i - 1];
      WaitingIsFirst(r, i - 1);
      assert StepAt(r, i - 1);
      StepOnWaiting(s, e);
      if Defers(s, e) {
        var kept := if Reserves(s, e) then None else s.waiting;
        var earlier := if Reserves(s, e) then map[] else TurnedAway(r, i - 1);
        FirstOfGrows(kept, Next(s, e).lastAdmitted, earlier, e.call.key, e.call.proofs);
      }
    }
  }

  // ----------------------------------------------------------------- reservations

  ghost predicate ReservesAt(r: Trace, i: nat)
    requires i < |r.events| < |r.states|
  {
    Reserves(r.states[i], r.events[i])
  }

  ghost function ReservedKey(r: Trace, i: nat): Hash
    requires i < |r.events| < |r.states| && ReservesAt(r, i)
  {
    r.states[i].waiting.value.key
  }

  ghost function ReservationCount(r: Trace, lo: nat, hi: nat): nat
    requires lo <= hi <= |r.events| < |r.states|
    decreases hi
  {
    if lo == hi then 0 else ReservationCount(r, lo, hi - 1) + if ReservesAt(r, hi - 1) then 1 else 0
  }

  ghost function ReservedKeys(r: Trace, lo: nat, hi: nat): set<Hash>
    requires lo <= hi <= |r.events| < |r.states|
    decreases hi
  {
    if lo == hi then {}
    else ReservedKeys(r, lo, hi - 1) + if ReservesAt(r, hi - 1) then {ReservedKey(r, hi - 1)} else {}
  }

  /** If event `i` reserves, it does so for another request while `k` has been
      turned away since the previous reservation. */
  ghost predicate PassesOver(r: Trace, i: nat, k: Hash)
    requires i < |r.events| < |r.states|
  {
    ReservesAt(r, i) ==> k in TurnedAway(r, i) && ReservedKey(r, i) != k
  }

  lemma TurnMoves(r: Trace, i: nat, k: Hash)
    requires IsRun(r) && i < |r.events| && PassesOver(r, i, k)
    ensures !ReservesAt(r, i) ==> r.states[i + 1].lastAdmitted == r.states[i].lastAdmitted
    ensures ReservesAt(r, i) ==>
              && r.states[i + 1].lastAdmitted == Some(ReservedKey(r, i))
              && ReservedKey(r, i) != k
              && Distance(Some(ReservedKey(r, i)), k) < Distance(r.states[i].lastAdmitted, k)
  {
    hide Next, Enabled, OutcomeOf, RankAtMost, Distance, Reserves;
    assert StepAt(r, i);
    StepOnWaiting(r.states[i], r.events[i]);
    if ReservesAt(r, i) {
      WaitingIsFirst(r, i);
      AdmissionApproaches(r.states[i].lastAdmitted, ReservedKey(r, i), k);
    }
  }

  /** While `k` is turned away before every reservation, the turn strictly
      approaches `k`, and no request already reserved lies ahead of it. */
  lemma {:induction false} TurnApproaches(r: Trace, lo: nat, hi: nat, k: Hash)
    requires IsRun(r) && lo <= hi <= |r.events|
    requires forall i | lo <= i < hi :: PassesOver(r, i, k)
    ensures Distance(r.states[hi].lastAdmitted, k) + ReservationCount(r, lo, hi)
         <= Distance(r.states[lo].lastAdmitted, k)
    ensures forall w | w in ReservedKeys(r, lo, hi) ::
              w != k && Distance(r.states[hi].lastAdmitted, k) <= Distance(Some(w), k)
    decreases hi
  {
    hide StepAt, ReservesAt, Distance, PassesOver, ReservedKey;
    if lo == hi {
    } else {
      TurnApproaches(r, lo, hi - 1, k);
      assert PassesOver(r, hi - 1, k);
      TurnMoves(r, hi - 1, k);
    }
  }

  /** While `k` is turned away before every reservation, each reservation goes to a
      different request. */
  lemma {:induction false} EachOtherOnce(r: Trace, lo: nat, hi: nat, k: Hash)
    requires IsRun(r) && lo <= hi <= |r.events|
    requires forall i | lo <= i < hi :: PassesOver(r, i, k)
    ensures |ReservedKeys(r, lo, hi)| == ReservationCount(r, lo, hi)
    ensures k !in ReservedKeys(r, lo, hi)
    decreases hi
  {
    hide StepAt, ReservesAt, Distance, PassesOver, ReservedKey;
    if lo == hi {
    } else {
      var last := hi - 1;
      EachOtherOnce(r, lo, last, k);
      assert PassesOver(r, last, k);
      if ReservesAt(r, last) {
        LaterReservationIsNew(r, lo, last, k);
      }
    }
  }

  lemma LaterReservationIsNew(r: Trace, lo: nat, i: nat, k: Hash)
    requires IsRun(r) && lo <= i < |r.events| && ReservesAt(r, i)
    requires forall m | lo <= m <= i :: PassesOver(r, m, k)
    ensures ReservedKey(r, i) != k && ReservedKey(r, i) !in ReservedKeys(r, lo, i)
  {
    hide StepAt, ReservesAt, Distance, PassesOver, ReservedKey;
    assert PassesOver(r, i, k);
    TurnMoves(r, i, k);
    TurnApproaches(r, lo, i, k);
  }

  lemma ReservedIsResident(s: Cache, e: Event)
    requires Valid(s) && Enabled(s, e) && Reserves(s, e)
    ensures s.waiting.value.key in Next(s, e).requests
  {
    hide Touch;
  }

  lemma OutsiderEntersOrIsTurnedAway(s: Cache, e: Event, k: Hash)
    requires CallsFor(e, k)
    ensures k in Next(s, e).requests || Defers(s, e)
  {
    hide Touch;
  }

  /** A request that calls and does not get in counts as turned away until the next
      reservation. */
  lemma {:induction false} CallIsRemembered(r: Trace, c: nat, i: nat, k: Hash)
    requires IsRun(r) && c < i <= |r.events| && CallsFor(r.events[c], k)
    requires forall m | c < m <= i :: k !in r.states[m].requests
    requires forall m | c < m < i :: !ReservesAt(r, m)
    ensures k in TurnedAway(r, i)
  {
    hide Next, Enabled, OutcomeOf, Reserves, CallsFor;
    assert StepAt(r, i - 1);
    if i == c + 1 {
      OutsiderEntersOrIsTurnedAway(r.states[c], r.events[c], k);
      assert r.events[c].call.key == k by { CallerKey(r.events[c], k); }
    } else {
      CallIsRemembered(r, c, i - 1, k);
      assert !ReservesAt(r, i - 1);
    }
  }

  lemma CallerKey(e: Event, k: Hash)
    requires CallsFor(e, k)
    ensures e.Scan? && e.call.key == k
  {
  }

  ghost predicate CallsBefore(r: Trace, lo: nat, i: nat, k: Hash)
    requires i <= |r.events| < |r.states|
  {
    exists c | lo <= c < i :: CallsFor(r.events[c], k) && forall m | c < m < i :: !ReservesAt(r, m)
  }

  lemma TurnedAwayCalled(r: Trace, i: nat, callers: set<Hash>)
    requires i <= |r.events| < |r.states|
    requires forall m | 0 <= m < i && r.events[m].Scan? :: r.events[m].call.key in callers
    ensures TurnedAway(r, i).Keys <= callers
  {
    hide OutcomeOf, Reserves;
  }

  lemma {:induction false} ReservedCalled(r: Trace, lo: nat, hi: nat, callers: set<Hash>)
    requires IsRun(r) && lo <= hi <= |r.events|
    requires forall m | 0 <= m < hi && r.events[m].Scan? :: r.events[m].call.key in callers
    ensures ReservedKeys(r, lo, hi) <= callers
    decreases hi
  {
    hide Next, Enabled, OutcomeOf, RankAtMost;
    if lo == hi {
    } else {
      ReservedCalled(r, lo, hi - 1, callers);
      if ReservesAt(r, hi - 1) {
        WaitingIsFirst(r, hi - 1);
        TurnedAwayCalled(r, hi - 1, callers);
      }
    }
  }

  /** No starvation: a request that keeps calling, at least once before each
      reservation, is let in after at most as many reservations as there are
      callers, whatever order the callers come in. */
  lemma NoStarvation(r: Trace, lo: nat, hi: nat, k: Hash, callers: set<Hash>)
    requires IsRun(r) && lo <= hi <= |r.events|
    requires k in callers
    requires forall m | 0 <= m < hi && r.events[m].Scan? :: r.events[m].call.key in callers
    requires forall i | lo <= i < hi && ReservesAt(r, i) :: CallsBefore(r, lo, i, k)
    requires ReservationCount(r, lo, hi) >= |callers|
    ensures exists m | lo < m <= hi :: k in r.states[m].requests
  {
    hide Next, Enabled, OutcomeOf, CallsFor, Reserves;
    if forall m | lo < m <= hi :: k !in r.states[m].requests {
      forall i | lo <= i < hi ensures PassesOver(r, i, k) {
        if ReservesAt(r, i) {
          assert CallsBefore(r, lo, i, k);
          var c :| lo <= c < i && CallsFor(r.events[c], k) && forall m | c < m < i :: !ReservesAt(r, m);
          CallIsRemembered(r, c, i, k);
          assert StepAt(r, i);
          ReachableIsValid(r, i);
          ReservedIsResident(r.states[i], r.events[i]);
        }
      }
      EachOtherOnce(r, lo, hi, k);
      ReservedCalled(r, lo, hi, callers);
      SubsetSize(ReservedKeys(r, lo, hi), callers - {k});
    }
  }

  // ---------------------------------------------------- a reservation is kept open

  lemma ReservationUntouched(s: Cache, e: Event, k: Hash)
    requires Valid(s) && Enabled(s, e) && k in s.requests && !CallsFor(e, k) && !LiftsDelay(s, e, k)
    requires s.requests[k].retryAt > Time(e)
    ensures k in Next(s, e).requests && Next(s, e).requests[k] == s.requests[k]
  {
    hide Next, Enabled;
    StepOnResident(s, e, k);
  }

  lemma {:induction false} ReservationStands(r: Trace, i: nat, j: nat)
    requires IsRun(r) && i < j < |r.events| && ReservesAt(r, i)
    requires forall m | i <= m < j ::
               && !CallsFor(r.events[m], ReservedKey(r, i)) && !Lifts(r, m, ReservedKey(r, i))
               && WithinDelay(r, i, m)
    ensures ReservedKey(r, i) in r.states[j].requests
    ensures r.states[j].requests[ReservedKey(r, i)]
         == Reserved(r.states[i].waiting.value.fingerprint, Time(r.events[i]))
  {
    hide Next, Enabled, OutcomeOf, CallsFor, Reserves, LiftsDelay;
    var k := ReservedKey(r, i);
    ReachableIsValid(r, j - 1);
    assert StepAt(r, j - 1);
    assert !CallsFor(r.events[j - 1], k) && !Lifts(r, j - 1, k) && WithinDelay(r, i, j - 1);
    if j == i + 1 {
      ReservedIsResident(r.states[i], r.events[i]);
      WaitsOutside(r.states[i], r.events[i]);
      StepOnAbsent(r.states[i], r.events[i], k);
    } else {
      ReservationStands(r, i, j - 1);
      ReservationUntouched(r.states[j - 1], r.events[j - 1], k);
    }
  }

  lemma WaitsOutside(s: Cache, e: Event)
    requires Valid(s) && Reserves(s, e)
    ensures s.waiting.value.key !in s.requests
  {
  }

  /** A reservation is kept open for the retry delay, less the skew of the clock readings:
      if its owner's first call reads an earlier time, it is granted from the start. */
  lemma ReservationHonoured(r: Trace, skew: nat, i: nat, j: nat)
    requires IsRun(r) && Skewed(r, skew) && i < j < |r.events| && ReservesAt(r, i)
    requires forall m | i <= m < j ::
               !CallsFor(r.events[m], ReservedKey(r, i)) && !Lifts(r, m, ReservedKey(r, i))
    requires CallsFor(r.events[j], ReservedKey(r, i))
    requires Time(r.events[j]) + skew < Time(r.events[i]) + UNMATCHED_RETRY_DELAY
    ensures OutcomeOf(r.states[j], r.events[j]) == Granted(0)
  {
    hide Next, Enabled, OutcomeOf, Reserves, LiftsDelay;
    forall m | i <= m < j ensures WithinDelay(r, i, m) {
      assert Time(r.events[m]) <= Time(r.events[j]) + skew;
    }
    ReservationStands(r, i, j);
    ReachableIsValid(r, j);
    assert StepAt(r, j);
    StepOnResident(r.states[j], r.events[j], ReservedKey(r, i));
  }
}
