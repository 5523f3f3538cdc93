/** How often the scan cache lets requests look up candidates. */
module ScanSpacing {
  import opened FiniteSets
  import opened ProofScan

  /** The event lifts the retry delay of resident `k`: its last lookup observed
      everything, or it comes back with other proofs. */
  ghost predicate LiftsDelay(s: Cache, e: Event, k: Hash) {
    && k in s.requests
    && match e
       case Finish(key, proofs, _) => key == k && s.requests[k].fingerprint == proofs
       case Scan(c, _, _) => Lookable(c) && c.key == k && s.requests[k].fingerprint != c.proofs
  }

  ghost predicate DelayedUntil(s: Cache, k: Hash, until: Instant) {
    k in s.requests && s.requests[k].cursor.Some? && s.requests[k].retryAt == until
  }

  lemma StepKeepsDelay(s: Cache, e: Event, k: Hash, until: Instant)
    requires Valid(s) && Enabled(s, e)
    requires DelayedUntil(s, k, until) && Time(e) < until && !LiftsDelay(s, e, k)
    ensures DelayedUntil(Next(s, e), k, until)
    ensures e.Scan? && e.call.key == k ==> !OutcomeOf(s, e).Granted?
  {
    hide Next, OutcomeOf;
    StepOnResident(s, e, k);
    assert e.Scan? && !Lookable(e.call) ==> OutcomeOf(s, e) == Skipped by { SkipsOutcome(s, e); }
  }

  lemma SkipsOutcome(s: Cache, e: Event)
    ensures !(e.Scan? && Lookable(e.call)) ==> OutcomeOf(s, e) == Skipped
  {
  }

  lemma GrantStartsDelay(s: Cache, e: Event)
    requires OutcomeOf(s, e).Granted?
    ensures e.Scan? && DelayedUntil(Next(s, e), e.call.key, Time(e) + UNMATCHED_RETRY_DELAY)
  {
  }

  ghost predicate Lifts(r: Trace, m: nat, k: Hash)
    requires m < |r.events| < |r.states|
  {
    LiftsDelay(r.states[m], r.events[m], k)
  }

  /** Event `m` reads the clock before the delay that event `i` starts is over. */
  ghost predicate WithinDelay(r: Trace, i: nat, m: nat)
    requires i < |r.events| && m < |r.events|
  {
    Time(r.events[m]) < Time(r.events[i]) + UNMATCHED_RETRY_DELAY
  }

  /** From a grant on, the request keeps its slot and gets nothing more for the
      whole delay, unless the delay is lifted. */
  lemma {:induction false} GrantHolds(r: Trace, i: nat, j: nat, k: Hash)
    requires IsRun(r) && i < j <= |r.events|
    requires Grants(r, i, k) && forall m | i < m < j :: WithinDelay(r, i, m) && !Lifts(r, m, k)
    ensures DelayedUntil(r.states[j], k, Time(r.events[i]) + UNMATCHED_RETRY_DELAY)
    ensures forall m | i < m < j :: !Grants(r, m, k)
  {
    hide Next, Enabled, OutcomeOf, DelayedUntil;
    assert StepAt(r, j - 1);
    if j == i + 1 {
      GrantStartsDelay(r.states[i], r.events[i]);
    } else {
      GrantHolds(r, i, j - 1, k);
      ReachableIsValid(r, j - 1);
      assert WithinDelay(r, i, j - 1) && !Lifts(r, j - 1, k);
      StepKeepsDelay(r.states[j - 1], r.events[j - 1], k, Time(r.events[i]) + UNMATCHED_RETRY_DELAY);
    }
  }

  /** The clock is read before the lock is taken, so readings may come out of order: none
      lies more than `skew` behind an earlier one. A monotone clock has no skew. */
  ghost predicate Skewed(r: Trace, skew: nat) {
    forall i, j | 0 <= i <= j < |r.events| :: Time(r.events[i]) <= Time(r.events[j]) + skew
  }

  /** Two grants to one request that lie closer than the retry delay less the skew have a
      lifted delay between them, whatever was evicted, readmitted or reserved meanwhile. */
  lemma GrantSpacing(r: Trace, skew: nat, i: nat, j: nat, k: Hash)
    requires IsRun(r) && Skewed(r, skew) && i < j < |r.events|
    requires Grants(r, i, k) && Grants(r, j, k)
    requires Time(r.events[j]) + skew < Time(r.events[i]) + UNMATCHED_RETRY_DELAY
    ensures exists m | i < m <= j :: Lifts(r, m, k)
  {
    if forall m | i < m < j + 1 :: !Lifts(r, m, k) {
      forall m | i < m < j + 1 ensures WithinDelay(r, i, m) {
        assert Time(r.events[m]) <= Time(r.events[j]) + skew;
      }
      GrantHolds(r, i, j + 1, k);
    }
  }

  ghost predicate GrantsOne(r: Trace, i: nat)
    requires i < |r.events| < |r.states|
  {
    r.events[i].Scan? && OutcomeOf(r.states[i], r.events[i]).Granted?
  }

  ghost predicate LiftsOne(r: Trace, i: nat)
    requires i < |r.events| < |r.states|
  {
    Lifts(r, i, KeyOf(r.events[i]))
  }

  function KeyOf(e: Event): Hash {
    match e
    case Scan(c, _, _) => c.key
    case Finish(key, _, _) => key
  }

  // ------------------------------------------------------------------------ counting

  /** How many of the marks `lo` to `hi - 1` are set. */
  ghost function Tally(marks: seq<bool>, lo: nat, hi: nat): nat
    requires lo <= hi <= |marks|
    decreases hi
  {
    if lo == hi then 0 else Tally(marks, lo, hi - 1) + if marks[hi - 1] then 1 else 0
  }

  lemma {:induction false} TallySplit(marks: seq<bool>, lo: nat, mid: nat, hi: nat)
    requires lo <= mid <= hi <= |marks|
    ensures Tally(marks, lo, hi) == Tally(marks, lo, mid) + Tally(marks, mid, hi)
    decreases hi
  {
    if mid == hi {
    } else {
      TallySplit(marks, lo, mid, hi - 1);
    }
  }

  /** All marks set, or none. */
  lemma {:induction false} TallyAll(marks: seq<bool>, lo: nat, hi: nat, mark: bool)
    requires lo <= hi <= |marks| && forall m | lo <= m < hi :: marks[m] == mark
    ensures Tally(marks, lo, hi) == if mark then hi - lo else 0
    decreases hi
  {
    if lo == hi {
    } else {
      TallyAll(marks, lo, hi - 1, mark);
    }
  }

  /** Marks of the grants whose clock reading lies in the interval. */
  ghost function GrantMarks(r: Trace, from: Instant, to: Instant): (marks: seq<bool>)
    requires |r.events| < |r.states|
    ensures |marks| == |r.events|
    ensures forall m | 0 <= m < |marks| :: marks[m] == (GrantsOne(r, m) && from <= Time(r.events[m]) < to)
  {
    seq(|r.events|, m requires 0 <= m < |r.events| => GrantsOne(r, m) && from <= Time(r.events[m]) < to)
  }

  /** The reading lies in the interval, give or take the skew. */
  predicate Near(t: Instant, from: Instant, to: Instant, skew: nat) { from <= t + skew && t < to + skew }

  /** Marks of the lifted delays near the interval. */
  ghost function LiftMarks(r: Trace, from: Instant, to: Instant, skew: nat): (marks: seq<bool>)
    requires |r.events| < |r.states|
    ensures |marks| == |r.events|
    ensures forall m | 0 <= m < |marks| :: marks[m] == (LiftsOne(r, m) && Near(Time(r.events[m]), from, to, skew))
  {
    seq(|r.events|, m requires 0 <= m < |r.events| => LiftsOne(r, m) && Near(Time(r.events[m]), from, to, skew))
  }

  // ------------------------------------------------------------------------- protection

  /** Requests whose delay reaches to `bound` at least; none of them can be granted
      or evicted before. */
  ghost function Protected(s: Cache, bound: Instant): set<Hash> {
    set k | k in s.requests && s.requests[k].cursor.Some? && s.requests[k].retryAt >= bound
  }

  lemma OthersStayProtected(s: Cache, e: Event, bound: Instant, k: Hash)
    requires Valid(s) && Enabled(s, e) && Time(e) < bound && k in Protected(s, bound)
    requires k != KeyOf(e) || !LiftsDelay(s, e, k)
    ensures k in Protected(Next(s, e), bound)
    ensures e.Scan? && e.call.key == k ==> !OutcomeOf(s, e).Granted?
  {
    hide Next, Enabled, OutcomeOf;
    assert !LiftsDelay(s, e, k);
    StepKeepsDelay(s, e, k, s.requests[k].retryAt);
  }

  /** A grant whose delay reaches to the bound adds a protected request; only a lifted
      delay takes one away. */
  lemma StepMovesProtected(s: Cache, e: Event, bound: Instant)
    requires Valid(s) && Enabled(s, e) && Time(e) < bound
    ensures |Protected(s, bound)|
            + (if e.Scan? && OutcomeOf(s, e).Granted? && bound <= Time(e) + UNMATCHED_RETRY_DELAY then 1 else 0)
         <= |Protected(Next(s, e), bound)| + if LiftsDelay(s, e, KeyOf(e)) then 1 else 0
  {
    hide Next, Enabled, OutcomeOf, Protected;
    var before, after, key := Protected(s, bound), Protected(Next(s, e), bound), KeyOf(e);
    forall k | k in before && k != key ensures k in after { OthersStayProtected(s, e, bound, k); }
    if e.Scan? && OutcomeOf(s, e).Granted? && bound <= Time(e) + UNMATCHED_RETRY_DELAY {
      GrantProtects(s, e, bound);
      if key in before && !LiftsDelay(s, e, key) { OthersStayProtected(s, e, bound, key); assert false; }
      SubsetSize(before + {key}, after);
    } else if LiftsDelay(s, e, key) {
      SubsetSize(before - {key}, after);
    } else {
      if key in before { OthersStayProtected(s, e, bound, key); }
      SubsetSize(before, after);
    }
  }

  lemma GrantProtects(s: Cache, e: Event, bound: Instant)
    requires OutcomeOf(s, e).Granted? && bound <= Time(e) + UNMATCHED_RETRY_DELAY
    ensures KeyOf(e) in Protected(Next(s, e), bound)
  {
    hide OutcomeOf, Next;
    GrantStartsDelay(s, e);
  }

  lemma {:induction false} GrantsAreCovered(r: Trace, lo: nat, hi: nat, from: Instant, to: Instant, skew: nat)
    requires IsRun(r) && lo <= hi <= |r.events| && to + skew <= from + UNMATCHED_RETRY_DELAY
    requires forall m | lo <= m < hi :: Near(Time(r.events[m]), from, to, skew)
    ensures Tally(GrantMarks(r, from, to), lo, hi)
         <= |Protected(r.states[hi], to + skew)| + Tally(LiftMarks(r, from, to, skew), lo, hi)
    decreases hi
  {
    hide Next, Enabled, OutcomeOf, LiftsDelay, Protected;
    if lo == hi {
    } else {
      GrantsAreCovered(r, lo, hi - 1, from, to, skew);
      assert StepAt(r, hi - 1) && Near(Time(r.events[hi - 1]), from, to, skew);
      ReachableIsValid(r, hi - 1);
      StepMovesProtected(r.states[hi - 1], r.events[hi - 1], to + skew);
    }
  }

  /** A contiguous stretch of a run whose readings all lie near the interval. */
  lemma StretchBound(r: Trace, lo: nat, hi: nat, from: Instant, to: Instant, skew: nat)
    requires IsRun(r) && lo <= hi <= |r.events| && to + skew <= from + UNMATCHED_RETRY_DELAY
    requires forall m | lo <= m < hi :: Near(Time(r.events[m]), from, to, skew)
    ensures Tally(GrantMarks(r, from, to), lo, hi)
         <= MAX_SCAN_REQUESTS + Tally(LiftMarks(r, from, to, skew), lo, hi)
  {
    hide StepAt, Tally;
    GrantsAreCovered(r, lo, hi, from, to, skew);
    ReachableIsValid(r, hi);
    SubsetSize(Protected(r.states[hi], to + skew), r.states[hi].requests.Keys);
  }

  /** The same for a stretch that ends with a grant in the interval: it may begin at the
      first such grant. */
  lemma {:induction false} BoundFrom(r: Trace, skew: nat, lo: nat, hi: nat, from: Instant, to: Instant)
    requires IsRun(r) && Skewed(r, skew) && lo < hi <= |r.events|
    requires to + skew <= from + UNMATCHED_RETRY_DELAY && GrantMarks(r, from, to)[hi - 1]
    ensures Tally(GrantMarks(r, from, to), lo, hi)
         <= MAX_SCAN_REQUESTS + Tally(LiftMarks(r, from, to, skew), lo, hi)
    decreases hi - lo
  {
    hide StepAt, GrantsOne, LiftsOne;
    var grants, lifts := GrantMarks(r, from, to), LiftMarks(r, from, to, skew);
    if grants[lo] {
      forall m | lo <= m < hi ensures Near(Time(r.events[m]), from, to, skew) {
        assert Time(r.events[lo]) <= Time(r.events[m]) + skew;
        assert Time(r.events[m]) <= Time(r.events[hi - 1]) + skew;
      }
      StretchBound(r, lo, hi, from, to, skew);
    } else {
      BoundFrom(r, skew, lo + 1, hi, from, to);
      TallySplit(grants, lo, lo + 1, hi);
      TallySplit(lifts, lo, lo + 1, hi);
      TallyAll(grants, lo, lo + 1, false);
    }
  }

  lemma {:induction false} BoundUpTo(r: Trace, skew: nat, n: nat, from: Instant, to: Instant)
    requires IsRun(r) && Skewed(r, skew) && n <= |r.events| && to + skew <= from + UNMATCHED_RETRY_DELAY
    ensures Tally(GrantMarks(r, from, to), 0, n) <= MAX_SCAN_REQUESTS + Tally(LiftMarks(r, from, to, skew), 0, n)
  {
    hide StepAt, GrantsOne, LiftsOne;
    if n == 0 {
    } else if GrantMarks(r, from, to)[n - 1] {
      BoundFrom(r, skew, 0, n, from, to);
    } else {
      BoundUpTo(r, skew, n - 1, from, to);
    }
  }

  /** In any run whose readings are at most `skew` behind, the grants that read a time in
      an interval of the retry delay less the skew are no more than the cache holds
      requests, plus one for each delay lifted near that interval; and no grant looks
      up more than eight candidates. */
  lemma WindowBound(r: Trace, skew: nat, from: Instant, to: Instant)
    requires IsRun(r) && Skewed(r, skew) && to + skew <= from + UNMATCHED_RETRY_DELAY
    ensures Tally(GrantMarks(r, from, to), 0, |r.events|)
         <= 1024 + Tally(LiftMarks(r, from, to, skew), 0, |r.events|)
    ensures forall i | 0 <= i < |r.events| && r.events[i].Scan? ::
              |Offer(r.events[i].call, OutcomeOf(r.states[i], r.events[i]))| <= 8
  {
    hide OutcomeOf, LiftsDelay, StepAt;
    BoundUpTo(r, skew, |r.events|, from, to);
  }

  /** A step that neither grants to resident `k` nor lifts its delay only touches
      its last use. */
  lemma StepKeepsResident(s: Cache, e: Event, k: Hash)
    requires Valid(s) && Enabled(s, e) && !LiftsDelay(s, e, k)
    requires k in s.requests && s.requests[k].cursor.Some? && k in Next(s, e).requests
    requires !(e.Scan? && e.call.key == k && OutcomeOf(s, e).Granted?)
    ensures Next(s, e).requests[k].(lastUsed := s.requests[k].lastUsed) == s.requests[k]
  {
    hide Next, OutcomeOf;
    StepOnResident(s, e, k);
  }

  lemma {:induction false} DelayEnds(r: Trace, i: nat, j: nat, k: Hash)
    requires IsRun(r) && i < j <= |r.events|
    requires Grants(r, i, k) && forall m | i < m < j :: !Grants(r, m, k) && !Lifts(r, m, k)
    requires forall m | i < m <= j :: k in r.states[m].requests
    ensures DelayedUntil(r.states[j], k, Time(r.events[i]) + UNMATCHED_RETRY_DELAY)
  {
    hide Next, Enabled, OutcomeOf, LiftsDelay;
    assert StepAt(r, j - 1);
    if j == i + 1 {
      GrantStartsDelay(r.states[i], r.events[i]);
    } else {
      DelayEnds(r, i, j - 1, k);
      ReachableIsValid(r, j - 1);
      assert !Grants(r, j - 1, k) && !Lifts(r, j - 1, k);
      StepKeepsResident(r.states[j - 1], r.events[j - 1], k);
    }
  }

  /** While a request stays resident and its delay is not lifted, a call is
      granted exactly when the retry delay has passed since its last grant. */
  lemma GrantedExactlyAfterDelay(r: Trace, i: nat, j: nat, k: Hash)
    requires IsRun(r) && i < j < |r.events|
    requires Grants(r, i, k) && forall m | i < m < j :: !Grants(r, m, k) && !Lifts(r, m, k)
    requires forall m | i < m <= j :: k in r.states[m].requests
    requires r.events[j].Scan? && Lookable(r.events[j].call) && r.events[j].call.key == k && !Lifts(r, j, k)
    ensures Grants(r, j, k) <==> Time(r.events[j]) >= Time(r.events[i]) + 15_000_000_000
  {
    hide Next, OutcomeOf, Enabled;
    DelayEnds(r, i, j, k);
    ReachableIsValid(r, j);
    assert StepAt(r, j);
    StepOnResident(r.states[j], r.events[j], k);
  }
}
