/** What a request gets to look up over a sequence of grants. */
module ScanSweep {
  import opened Wrappers
  import opened ProofScan

  /** The event starts the sweep of `k` over: it enters, or it comes with other proofs. */
  ghost predicate StartsOver(s: Cache, e: Event, k: Hash) {
    k !in s.requests || (CallsFor(e, k) && s.requests[k].fingerprint != e.call.proofs)
  }

  ghost predicate GrantsIt(s: Cache, e: Event, k: Hash) {
    CallsFor(e, k) && OutcomeOf(s, e).Granted?
  }

  /** Grants to `k` since its current sweep started. */
  ghost function GrantsSince(r: Trace, i: nat, k: Hash): nat
    requires i <= |r.events| < |r.states|
  {
    if i == 0 || k !in r.states[i].requests then 0
    else
      (if StartsOver(r.states[i - 1], r.events[i - 1], k) then 0 else GrantsSince(r, i - 1, k))
      + if GrantsIt(r.states[i - 1], r.events[i - 1], k) then 1 else 0
  }

  ghost function OfferedNow(s: Cache, e: Event, k: Hash): set<Candidate> {
    if CallsFor(e, k) then set c | c in Offer(e.call, OutcomeOf(s, e)) else {}
  }

  /** Candidates offered to `k` since its current sweep started. */
  ghost function OfferedSince(r: Trace, i: nat, k: Hash): set<Candidate>
    requires i <= |r.events| < |r.states|
  {
    if i == 0 || k !in r.states[i].requests then {}
    else
      (if StartsOver(r.states[i - 1], r.events[i - 1], k) then {} else OfferedSince(r, i - 1, k))
      + OfferedNow(r.states[i - 1], r.events[i - 1], k)
  }

  ghost function FirstOnes(table: seq<Candidate>, n: nat): set<Candidate> {
    set i | 0 <= i < |table| && i < n :: table[i]
  }

  lemma SmallRemainder(a: nat, m: nat)
    requires a < m
    ensures a % m == a
  {
  }

  /** A window inside the table covers the eight candidates from its cursor on. */
  lemma WindowReaches(table: seq<Candidate>, cursor: nat, i: nat)
    requires cursor <= i < |table| && i < cursor + MAX_SCAN_CANDIDATES
    ensures table[i] in Window(table, cursor)
  {
    var w, o := Window(table, cursor), i - cursor;
    SmallRemainder(cursor, |table|);
    SmallRemainder(i, |table|);
    assert o < |w| && w[o] == table[i];
  }

  lemma WindowCovers(table: seq<Candidate>, n: nat, offered: set<Candidate>)
    requires FirstOnes(table, n) <= offered
    ensures FirstOnes(table, n + MAX_SCAN_CANDIDATES) <= offered + set c | c in Window(table, n)
  {
    hide Window;
    forall i | 0 <= i < |table| && i < n + MAX_SCAN_CANDIDATES
      ensures table[i] in offered + set c | c in Window(table, n)
    {
      if i < n { assert table[i] in FirstOnes(table, n); } else { WindowReaches(table, n, i); }
    }
  }

  /** How far a sweep is after `g` grants that offered `offered`: the flag says
      exactly whether the grants cover the proof count, and a covered proof count
      means every candidate was offered. */
  ghost predicate SweepIs(state: ScanState, g: nat, offered: set<Candidate>) {
    var n, table := |state.fingerprint|, Candidates(state.fingerprint);
    && 0 < n <= MAX_REQUEST_PROOFS
    && (state.cursor.None? <==> g == 0)
    && (state.sweepComplete <==> 8 * g >= n)
    && (!state.sweepComplete && g > 0 ==> state.cursor == Some(8 * g))
    && offered <= (set c | c in table)
    && (if state.sweepComplete then offered == (set c | c in table) else FirstOnes(table, 8 * g) <= offered)
  }

  lemma GrantAdvancesSweep(state: ScanState, c: Call, g: nat, offered: set<Candidate>)
    requires Lookable(c) && state.fingerprint == c.proofs && SweepIs(state, g, offered)
    ensures SweepIs(Advanced(state, c), g + 1,
                    offered + set x | x in Window(Candidates(c.proofs), Cursor(state)))
  {
    hide Window, Candidates, FirstOnes;
    var table := Candidates(c.proofs);
    WindowInside(table, Cursor(state));
    if !state.sweepComplete {
      WindowCovers(table, 8 * g, offered);
      if 8 * g + 8 >= |c.proofs| { AllAreFirst(c.proofs, 8 * g + 8); }
    }
  }

  lemma WindowInside(table: seq<Candidate>, cursor: nat)
    ensures (set x | x in Window(table, cursor)) <= set x | x in table
  {
  }

  lemma AllAreFirst(proofs: seq<Proof>, n: nat)
    requires n >= |proofs|
    ensures (set x | x in Candidates(proofs)) <= FirstOnes(Candidates(proofs), n)
  {
    CandidatesAreExact(proofs);
  }

  lemma TouchAdvancesSweep(state: ScanState, c: Call, g: nat, offered: set<Candidate>)
    requires Lookable(c) && state.fingerprint == c.proofs && SweepIs(state, g, offered)
    ensures SweepIs(Touch(state, c).0,
                    g + if Touch(state, c).1.Granted? then 1 else 0,
                    offered + set x | x in Offer(c, Touch(state, c).1))
  {
    hide Window, Candidates, FirstOnes, Advanced;
    var used := state.(lastUsed := c.now);
    assert SweepIs(used, g, offered);
    hide SweepIs;
    if Touch(state, c).1.Granted? {
      GrantAdvancesSweep(used, c, g, offered);
    } else {
      assert offered + (set x | x in Offer(c, Cooling)) == offered;
    }
  }

  lemma FreshSweep(c: Call)
    requires Lookable(c)
    ensures SweepIs(Fresh(c), 0, {}) && Fresh(c).fingerprint == c.proofs
  {
    assert FirstOnes(Candidates(c.proofs), 0) == {};
  }

  /** Reserved proofs were looked at when they were deferred. */
  ghost predicate WaiterLookable(s: Cache) {
    s.waiting.Some? ==> 0 < |s.waiting.value.fingerprint| <= MAX_REQUEST_PROOFS
  }

  lemma StepKeepsWaiterLookable(s: Cache, e: Event)
    requires WaiterLookable(s)
    ensures WaiterLookable(Next(s, e))
  {
    hide Touch;
  }

  lemma {:induction false} WaiterIsLookable(r: Trace, i: nat)
    requires IsRun(r) && i <= |r.events|
    ensures WaiterLookable(r.states[i])
  {
    hide Next, Enabled;
    if i == 0 {
      assert r.states[0] == EMPTY;
    } else {
      WaiterIsLookable(r, i - 1);
      assert StepAt(r, i - 1);
      StepKeepsWaiterLookable(r.states[i - 1], r.events[i - 1]);
    }
  }

  lemma ResidentAdvancesSweep(s: Cache, e: Event, k: Hash, g: nat, offered: set<Candidate>)
    requires Valid(s) && Enabled(s, e) && k in s.requests && k in Next(s, e).requests
    requires !StartsOver(s, e, k) ==> SweepIs(s.requests[k], g, offered)
    ensures SweepIs(Next(s, e).requests[k],
                    (if StartsOver(s, e, k) then 0 else g) + if GrantsIt(s, e, k) then 1 else 0,
                    (if StartsOver(s, e, k) then {} else offered) + OfferedNow(s, e, k))
  {
    hide Next, Enabled, OutcomeOf, Touch, SweepIs, Offer, Fresh;
    StepOnResident(s, e, k);
    if CallsFor(e, k) {
      if StartsOver(s, e, k) {
        FreshSweep(e.call);
        TouchAdvancesSweep(Fresh(e.call), e.call, 0, {});
        TouchStartsOver(s.requests[k], e.call);
      } else {
        TouchAdvancesSweep(s.requests[k], e.call, g, offered);
      }
    } else {
      RetryDoesNotMatter(s.requests[k], e, k, g, offered);
      assert offered + {} == offered;
    }
  }

  lemma NewcomerAdvancesSweep(s: Cache, e: Event, k: Hash)
    requires Valid(s) && WaiterLookable(s) && Enabled(s, e) && k !in s.requests && k in Next(s, e).requests
    ensures SweepIs(Next(s, e).requests[k], if GrantsIt(s, e, k) then 1 else 0, OfferedNow(s, e, k))
  {
    hide Next, Enabled, OutcomeOf, Touch, SweepIs, Offer, Fresh, Reserved;
    StepOnAbsent(s, e, k);
    if CallsFor(e, k) {
      FreshSweep(e.call);
      TouchReserved([], e.call);
      TouchAdvancesSweep(Fresh(e.call), e.call, 0, {});
      assert {} + OfferedNow(s, e, k) == OfferedNow(s, e, k);
    } else {
      ReservedSweep(s.waiting.value.fingerprint, Time(e));
    }
  }

  lemma TouchStartsOver(state: ScanState, c: Call)
    requires state.fingerprint != c.proofs
    ensures Touch(state, c) == Touch(Fresh(c), c)
  {
  }

  lemma RetryDoesNotMatter(state: ScanState, e: Event, k: Hash, g: nat, offered: set<Candidate>)
    requires SweepIs(state, g, offered) && !CallsFor(e, k)
    ensures SweepIs(Kept(state, e, k), g, offered)
  {
  }

  lemma ReservedSweep(fingerprint: seq<Proof>, now: Instant)
    requires 0 < |fingerprint| <= MAX_REQUEST_PROOFS
    ensures SweepIs(Reserved(fingerprint, now), 0, {})
  {
    assert FirstOnes(Candidates(fingerprint), 0) == {};
  }

  /** In every reachable cache the sweep flag of a resident request is exact: it is
      set when, and only when, the grants since the sweep started number at least
      an eighth of the proofs, and then every candidate has been offered. */
  lemma {:induction false} SweepIsExact(r: Trace, i: nat, k: Hash)
    requires IsRun(r) && i <= |r.events| && k in r.states[i].requests
    ensures SweepIs(r.states[i].requests[k], GrantsSince(r, i, k), OfferedSince(r, i, k))
  {
    hide Next, Enabled, SweepIs, StartsOver, GrantsIt, OfferedNow;
    if i == 0 {
    } else {
      assert StepAt(r, i - 1);
      ReachableIsValid(r, i - 1);
      WaiterIsLookable(r, i - 1);
      if k in r.states[i - 1].requests {
        SweepIsExact(r, i - 1, k);
        ResidentAdvancesSweep(r.states[i - 1], r.events[i - 1], k,
                              GrantsSince(r, i - 1, k), OfferedSince(r, i - 1, k));
      } else {
        NewcomerAdvancesSweep(r.states[i - 1], r.events[i - 1], k);
        OutsiderStartsOver(r.states[i - 1], r.events[i - 1], k);
        assert {} + OfferedNow(r.states[i - 1], r.events[i - 1], k)
            == OfferedNow(r.states[i - 1], r.events[i - 1], k);
      }
    }
  }

  lemma OutsiderStartsOver(s: Cache, e: Event, k: Hash)
    requires k !in s.requests
    ensures StartsOver(s, e, k)
  {
  }

  // --------------------------------------------------------------- full coverage

  /** When `k` last called before event `i`. */
  ghost function LastCall(r: Trace, i: nat, k: Hash): Instant
    requires i <= |r.events|
  {
    if i == 0 then 0
    else if CallsFor(r.events[i - 1], k) then Time(r.events[i - 1])
    else LastCall(r, i - 1, k)
  }

  ghost function GrantsBetween(r: Trace, lo: nat, hi: nat, k: Hash): nat
    requires lo <= hi <= |r.events| < |r.states|
    decreases hi
  {
    if lo == hi then 0
    else GrantsBetween(r, lo, hi - 1, k) + if GrantsIt(r.states[hi - 1], r.events[hi - 1], k) then 1 else 0
  }

  ghost function OfferedBetween(r: Trace, lo: nat, hi: nat, k: Hash): set<Candidate>
    requires lo <= hi <= |r.events| < |r.states|
    decreases hi
  {
    if lo == hi then {}
    else OfferedBetween(r, lo, hi - 1, k) + OfferedNow(r.states[hi - 1], r.events[hi - 1], k)
  }

  /** No event comes when `k` has been idle for the whole idle limit, and `k` calls
      with the same proofs throughout. */
  ghost predicate StaysActive(r: Trace, i: nat, k: Hash, proofs: seq<Proof>)
    requires i < |r.events|
  {
    && Time(r.events[i]) < LastCall(r, i, k) + SCAN_IDLE_TTL
    && (CallsFor(r.events[i], k) ==> r.events[i].call.proofs == proofs)
  }

  /** Where the sweep that started at event `lo` stands before event `i`. */
  ghost predicate SweepProgress(r: Trace, lo: nat, i: nat, k: Hash, proofs: seq<Proof>)
    requires lo <= i <= |r.events| < |r.states|
  {
    if 8 * GrantsBetween(r, lo, i, k) >= |proofs| then
      forall c | c in Candidates(proofs) :: c in OfferedBetween(r, lo, i, k)
    else
      && k in r.states[i].requests
      && r.states[i].requests[k].fingerprint == proofs
      && r.states[i].requests[k].lastUsed == LastCall(r, i, k)
      && GrantsSince(r, i, k) == GrantsBetween(r, lo, i, k) > 0
      && OfferedSince(r, i, k) <= OfferedBetween(r, lo, i, k)
  }

  /** A request in the middle of its sweep loses its slot only by being idle. */
  lemma SweepKeepsSlot(s: Cache, e: Event, k: Hash, g: nat, offered: set<Candidate>)
    requires Valid(s) && Enabled(s, e) && k in s.requests
    requires SweepIs(s.requests[k], g, offered) && 0 < 8 * g < |s.requests[k].fingerprint|
    requires Time(e) < s.requests[k].lastUsed + SCAN_IDLE_TTL
    requires CallsFor(e, k) ==> e.call.proofs == s.requests[k].fingerprint
    ensures k in Next(s, e).requests && !StartsOver(s, e, k)
    ensures Next(s, e).requests[k].fingerprint == s.requests[k].fingerprint
    ensures Next(s, e).requests[k].lastUsed == if CallsFor(e, k) then Time(e) else s.requests[k].lastUsed
  {
    hide Next, Enabled, Touch;
    StepOnResident(s, e, k);
  }

  lemma SweepProgresses(r: Trace, lo: nat, i: nat, k: Hash, proofs: seq<Proof>)
    requires IsRun(r) && lo < i < |r.events| && StaysActive(r, i, k, proofs)
    requires SweepProgress(r, lo, i, k, proofs)
    requires 8 * GrantsBetween(r, lo, i, k) < |proofs|
    ensures SweepProgress(r, lo, i + 1, k, proofs)
  {
    hide Next, Enabled, StartsOver, GrantsIt, OfferedNow, CallsFor, SweepIs;
    assert StepAt(r, i);
    ReachableIsValid(r, i);
    SweepIsExact(r, i, k);
    SweepKeepsSlot(r.states[i], r.events[i], k, GrantsSince(r, i, k), OfferedSince(r, i, k));
    SweepIsExact(r, i + 1, k);
    assert GrantsSince(r, i + 1, k) == GrantsBetween(r, lo, i + 1, k);
    assert OfferedSince(r, i + 1, k) <= OfferedBetween(r, lo, i + 1, k);
    CompleteSweepOffersAll(r.states[i + 1].requests[k], GrantsSince(r, i + 1, k), OfferedSince(r, i + 1, k));
  }

  lemma CompleteSweepOffersAll(state: ScanState, g: nat, offered: set<Candidate>)
    requires SweepIs(state, g, offered)
    ensures 8 * g >= |state.fingerprint| ==> forall c | c in Candidates(state.fingerprint) :: c in offered
  {
    assert forall c | c in Candidates(state.fingerprint) :: c in (set x | x in Candidates(state.fingerprint));
  }

  /** Full coverage: once a sweep has started, a request that keeps calling with the
      same proofs and is never idle for the idle limit keeps its slot until its
      grants number an eighth of its proofs, rounded up, and by then it has been
      offered every candidate. */
  lemma {:induction false} FullCoverage(r: Trace, lo: nat, i: nat, k: Hash)
    requires IsRun(r) && lo < i <= |r.events|
    requires GrantsIt(r.states[lo], r.events[lo], k) && GrantsSince(r, lo + 1, k) == 1
    requires forall m | lo < m < i :: StaysActive(r, m, k, r.events[lo].call.proofs)
    ensures SweepProgress(r, lo, i, k, r.events[lo].call.proofs)
  {
    var proofs := r.events[lo].call.proofs;
    hide StepAt, StartsOver, GrantsIt, OfferedNow, CallsFor;
    if i == lo + 1 {
      SweepStarts(r, lo, k);
    } else {
      FullCoverage(r, lo, i - 1, k);
      assert StaysActive(r, i - 1, k, proofs);
      if 8 * GrantsBetween(r, lo, i - 1, k) < |proofs| {
        SweepProgresses(r, lo, i - 1, k, proofs);
      }
    }
  }

  lemma SweepStarts(r: Trace, lo: nat, k: Hash)
    requires IsRun(r) && lo < |r.events|
    requires GrantsIt(r.states[lo], r.events[lo], k) && GrantsSince(r, lo + 1, k) == 1
    ensures SweepProgress(r, lo, lo + 1, k, r.events[lo].call.proofs)
  {
    GrantEnters(r.states[lo], r.events[lo], k);
    var proofs := r.events[lo].call.proofs;
    hide Next, Enabled, StartsOver, GrantsIt, OfferedNow, SweepIs;
    assert StepAt(r, lo);
    SweepIsExact(r, lo + 1, k);
    NoGrantNoOffer(r, lo, k);
    assert GrantsBetween(r, lo, lo + 1, k) == GrantsBetween(r, lo, lo, k) + 1;
    assert OfferedBetween(r, lo, lo + 1, k)
        == OfferedBetween(r, lo, lo, k) + OfferedNow(r.states[lo], r.events[lo], k);
    CompleteSweepOffersAll(r.states[lo + 1].requests[k], 1, OfferedSince(r, lo + 1, k));
  }

  lemma GrantEnters(s: Cache, e: Event, k: Hash)
    requires GrantsIt(s, e, k)
    ensures k in Next(s, e).requests
    ensures Next(s, e).requests[k].fingerprint == e.call.proofs && Next(s, e).requests[k].lastUsed == Time(e)
  {
    hide Touch;
  }

  lemma {:induction false} NoGrantNoOffer(r: Trace, i: nat, k: Hash)
    requires i <= |r.events| < |r.states|
    ensures GrantsSince(r, i, k) == 0 ==> OfferedSince(r, i, k) == {}
  {
    hide Next, OutcomeOf, StartsOver;
    if i == 0 {
    } else {
      NoGrantNoOffer(r, i - 1, k);
    }
  }
}
