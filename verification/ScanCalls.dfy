/** What a caller has to do to get every candidate looked up. */
module ScanCalls {
  import opened ProofScan
  import opened ScanSweep

  /** If event `m` is a call for `k`, it comes the retry delay after the last one, and no
      lookup of `k` was finished at a later time. */
  ghost predicate Spaced(r: Trace, m: nat, k: Hash)
    requires m < |r.events|
  {
    CallsFor(r.events[m], k) ==> Quiet(r, m, k, Time(r.events[m]))
  }

  /** By `t`, the delay of the last call for `k` is over and its lookups are finished. */
  ghost predicate Quiet(r: Trace, i: nat, k: Hash, t: Instant)
    requires i <= |r.events|
  {
    && LastCall(r, i, k) + UNMATCHED_RETRY_DELAY <= t
    && forall f | 0 <= f < i && r.events[f].Finish? && r.events[f].key == k :: Time(r.events[f]) <= t
  }

  ghost function CallsBetween(r: Trace, lo: nat, hi: nat, k: Hash): nat
    requires lo <= hi <= |r.events|
  {
    if lo == hi then 0 else CallsBetween(r, lo, hi - 1, k) + if CallsFor(r.events[hi - 1], k) then 1 else 0
  }

  /** A sweep of `k` starts at `lo`, and until `i` the calls for it keep the rules. */
  ghost predicate KeepsCalling(r: Trace, lo: nat, i: nat, k: Hash)
    requires lo < i <= |r.events| < |r.states|
  {
    && GrantsIt(r.states[lo], r.events[lo], k) && GrantsSince(r, lo + 1, k) == 1
    && forall m | lo < m < i :: StaysActive(r, m, k, r.events[lo].call.proofs) && Spaced(r, m, k)
  }

  lemma KeptRetry(s: Cache, e: Event, k: Hash, t: Instant)
    requires Valid(s) && Enabled(s, e) && k in s.requests && k in Next(s, e).requests
    requires CallsFor(e, k) ==> e.call.proofs == s.requests[k].fingerprint && Time(e) + UNMATCHED_RETRY_DELAY <= t
    requires e.Finish? && e.key == k ==> Time(e) <= t
    requires s.requests[k].retryAt <= t
    ensures Next(s, e).requests[k].retryAt <= t
  {
    hide Next, Enabled;
    StepOnResident(s, e, k);
  }

  lemma FirstRetry(s: Cache, e: Event, k: Hash)
    requires GrantsIt(s, e, k)
    ensures k in Next(s, e).requests && Next(s, e).requests[k].retryAt == Time(e) + UNMATCHED_RETRY_DELAY
  {
  }

  /** In an unfinished sweep the request may be granted again as soon as it is quiet. */
  lemma {:induction false} RetryBy(r: Trace, lo: nat, i: nat, k: Hash, t: Instant)
    requires IsRun(r) && lo < i <= |r.events| && KeepsCalling(r, lo, i, k) && Quiet(r, i, k, t)
    requires 8 * GrantsBetween(r, lo, i, k) < |r.events[lo].call.proofs|
    ensures k in r.states[i].requests && r.states[i].requests[k].retryAt <= t
    decreases i
  {
    hide Next, Enabled, GrantsIt, OfferedBetween, OfferedSince;
    GrantIsCall(r.states[lo], r.events[lo], k);
    assert StepAt(r, i - 1);
    if i == lo + 1 {
      FirstRetry(r.states[lo], r.events[lo], k);
    } else {
      assert StaysActive(r, i - 1, k, r.events[lo].call.proofs) && Spaced(r, i - 1, k);
      FullCoverage(r, lo, i - 1, k);
      FullCoverage(r, lo, i, k);
      ReachableIsValid(r, i - 1);
      RetryBy(r, lo, i - 1, k, t);
      KeptRetry(r.states[i - 1], r.events[i - 1], k, t);
    }
  }

  lemma GrantIsCall(s: Cache, e: Event, k: Hash)
    ensures GrantsIt(s, e, k) ==> CallsFor(e, k)
  {
  }

  lemma RipeIsGranted(s: Cache, e: Event, k: Hash)
    requires Valid(s) && Enabled(s, e) && k in s.requests && CallsFor(e, k) && s.requests[k].retryAt <= Time(e)
    requires e.call.proofs == s.requests[k].fingerprint
    ensures GrantsIt(s, e, k)
  {
    hide Next, Enabled, OutcomeOf;
    StepOnResident(s, e, k);
  }

  /** Until the sweep is complete, every call of such a caller is granted. */
  lemma {:induction false} CallsAreGranted(r: Trace, lo: nat, i: nat, k: Hash)
    requires IsRun(r) && lo < i <= |r.events| && KeepsCalling(r, lo, i, k)
    requires 8 * GrantsBetween(r, lo, i, k) < |r.events[lo].call.proofs|
    ensures CallsBetween(r, lo, i, k) == GrantsBetween(r, lo, i, k)
    decreases i
  {
    hide Next, Enabled, GrantsIt, OfferedBetween, OfferedSince;
    GrantIsCall(r.states[lo], r.events[lo], k);
    if i == lo + 1 {
      assert CallsBetween(r, lo, lo, k) == 0 == GrantsBetween(r, lo, lo, k);
    } else {
      var m := i - 1;
      CallsAreGranted(r, lo, m, k);
      assert StepAt(r, m) && StaysActive(r, m, k, r.events[lo].call.proofs) && Spaced(r, m, k);
      if CallsFor(r.events[m], k) {
        FullCoverage(r, lo, m, k);
        ReachableIsValid(r, m);
        RetryBy(r, lo, m, k, Time(r.events[m]));
        RipeIsGranted(r.states[m], r.events[m], k);
      } else {
        GrantIsCall(r.states[m], r.events[m], k);
      }
    }
  }

  /** The caller's version of full coverage: once its sweep has started, a request that
      calls with the same proofs, at least the retry delay apart and never idle for the
      idle limit, has been offered every candidate when its calls number an eighth of
      its proofs, whatever other requests do. */
  lemma SpacedCallsCover(r: Trace, lo: nat, i: nat, k: Hash)
    requires IsRun(r) && lo < i <= |r.events| && KeepsCalling(r, lo, i, k)
    requires 8 * CallsBetween(r, lo, i, k) >= |r.events[lo].call.proofs|
    ensures forall c | c in Candidates(r.events[lo].call.proofs) :: c in OfferedBetween(r, lo, i, k)
  {
    hide StepAt;
    FullCoverage(r, lo, i, k);
    if 8 * GrantsBetween(r, lo, i, k) < |r.events[lo].call.proofs| {
      CallsAreGranted(r, lo, i, k);
    }
  }
}
