/**
 Why the spacing of grants shrinks with late clock readings, and that it shrinks exactly
 as stated.
 */
module ScanSkew {
  import opened Wrappers
  import opened ProofScan
  import opened ScanSpacing

  const DELAY: nat := UNMATCHED_RETRY_DELAY

  /** One proof, so that a single grant completes the sweep. */
  const PROOFS: seq<Proof> := [Proof(0, Some(Attestation(1, 1)))]

  /** A request granted at `t` and not used since. */
  function Swept(t: Instant): ScanState { ScanState(PROOFS, Some(8), true, t + DELAY, t) }

  /** The first `n` requests, all granted at the start. */
  function Filled(n: nat): (m: map<Hash, ScanState>)
    requires n < HASH_SPACE
    ensures |m| == n
    ensures forall h: Hash :: h in m <==> h < n
    ensures forall h | h in m :: m[h] == Swept(0)
  {
    if n == 0 then map[] else
      var m := Filled(n - 1);
      assert m[n - 1 := Swept(0)].Keys == m.Keys + {n - 1};
      m[n - 1 := Swept(0)]
  }

  function Full(n: nat): Cache
    requires n < HASH_SPACE
  {
    Cache(Filled(n), None, None)
  }

  function CallOf(k: Hash, now: Instant, first: Option<Hash>, second: Option<Hash>): Event {
    Scan(Call(k, PROOFS, now), first, second)
  }

  ghost predicate Takes(s: Cache, e: Event, t: Cache, out: Outcome) {
    Enabled(s, e) && Next(s, e) == t && OutcomeOf(s, e) == out
  }

  lemma FreshGrant(k: Hash, now: Instant)
    ensures Touch(Fresh(Call(k, PROOFS, now)), Call(k, PROOFS, now)) == (Swept(now), Granted(0))
  {
  }

  lemma FillStep(n: nat)
    requires n < MAX_SCAN_REQUESTS
    ensures Takes(Full(n), CallOf(n, 0, None, None), Full(n + 1), Granted(0))
  {
    hide Touch;
    FreshGrant(n, 0);
  }

  // ------------------------------------------------------------------ the late readings

  /** Request 1024 has taken the slot of request 0. */
  function Taken(): map<Hash, ScanState> { (Filled(MAX_SCAN_REQUESTS) - {0})[MAX_SCAN_REQUESTS := Swept(DELAY)] }

  function Deferring(): Cache { Cache(Taken(), Some(Waiter(0, PROOFS)), None) }

  function Reserving(): Cache { Cache((Taken() - {1})[0 := Reserved(PROOFS, DELAY)], None, Some(0)) }

  function Regranted(now: Instant): Cache {
    Reserving().(requests := Reserving().requests[0 := Swept(now)])
  }

  lemma TakenSize()
    ensures |Taken()| == MAX_SCAN_REQUESTS && 0 !in Taken()
  {
    RemoveSize(Filled(MAX_SCAN_REQUESTS), 0);
    InsertSize(Filled(MAX_SCAN_REQUESTS) - {0}, MAX_SCAN_REQUESTS, Swept(DELAY));
  }

  lemma TakesSlot()
    ensures Takes(Full(MAX_SCAN_REQUESTS), CallOf(MAX_SCAN_REQUESTS, DELAY, None, Some(0)),
                  Cache(Taken(), None, None), Granted(0))
  {
    hide Touch;
    FreshGrant(MAX_SCAN_REQUESTS, DELAY);
    assert Evictable(Full(MAX_SCAN_REQUESTS), DELAY, MAX_SCAN_REQUESTS, 0);
  }

  /** A reading before the end of the delay finds nobody to evict. */
  lemma IsDeferred(now: Instant)
    requires now < DELAY
    ensures Takes(Cache(Taken(), None, None), CallOf(0, now, None, None), Deferring(), Deferred)
  {
    hide Touch;
    TakenSize();
    assert forall k | k in Taken() :: !Evictable(Cache(Taken(), None, None), now, 0, k);
  }

  lemma IsReserved()
    ensures Takes(Deferring(), CallOf(MAX_SCAN_REQUESTS, DELAY, Some(1), None), Reserving(), Cooling)
  {
    var s, c := Deferring(), Call(MAX_SCAN_REQUESTS, PROOFS, DELAY);
    assert Touch(Swept(DELAY), c) == (Swept(DELAY), Cooling);
    hide Touch;
    assert Evictable(s, DELAY, MAX_SCAN_REQUESTS, 1);
    assert OldestReady(s, DELAY, MAX_SCAN_REQUESTS, Some(1));
    assert AfterOffer(s, c, Some(1)) == Reserving();
    assert Reserving().requests[MAX_SCAN_REQUESTS := Swept(DELAY)] == Reserving().requests;
  }

  /** The reservation is used by a reading from before it was made. */
  lemma IsRegranted(now: Instant)
    ensures Takes(Reserving(), CallOf(0, now, None, None), Regranted(now), Granted(0))
  {
    assert Touch(Reserved(PROOFS, DELAY), Call(0, PROOFS, now)) == (Swept(now), Granted(0));
    hide Touch;
  }

  /** Without late readings, the same request is granted again when its delay is over. */
  lemma GrantedAgain()
    ensures (var s, e := Full(MAX_SCAN_REQUESTS), CallOf(0, DELAY, None, None); Takes(s, e, Next(s, e), Granted(8)))
  {
  }

  // -------------------------------------------------------------------------- the runs

  function Length(skew: nat): nat { if skew == 0 then MAX_SCAN_REQUESTS + 1 else MAX_SCAN_REQUESTS + 4 }

  /** The cache is filled. Then, if readings can be late, request 0 loses its slot to one
      reading, waits after a late one, gets a reservation and uses it with a late one. */
  function EventAt(skew: nat, i: nat): Event
    requires skew <= DELAY && i < Length(skew)
  {
    if i < MAX_SCAN_REQUESTS then CallOf(i, 0, None, None)
    else if skew == 0 then CallOf(0, DELAY, None, None)
    else if i == MAX_SCAN_REQUESTS then CallOf(MAX_SCAN_REQUESTS, DELAY, None, Some(0))
    else if i == MAX_SCAN_REQUESTS + 2 then CallOf(MAX_SCAN_REQUESTS, DELAY, Some(1), None)
    else CallOf(0, DELAY - skew, None, None)
  }

  function StateAt(skew: nat, i: nat): Cache
    requires skew <= DELAY && i <= Length(skew)
  {
    if i <= MAX_SCAN_REQUESTS then Full(i)
    else if skew == 0 then Next(Full(MAX_SCAN_REQUESTS), CallOf(0, DELAY, None, None))
    else if i == MAX_SCAN_REQUESTS + 1 then Cache(Taken(), None, None)
    else if i == MAX_SCAN_REQUESTS + 2 then Deferring()
    else if i == MAX_SCAN_REQUESTS + 3 then Reserving()
    else Regranted(DELAY - skew)
  }

  function LateRun(skew: nat): Trace
    requires skew <= DELAY
  {
    Trace(seq(Length(skew), i requires 0 <= i < Length(skew) => EventAt(skew, i)),
          seq(Length(skew) + 1, i requires 0 <= i <= Length(skew) => StateAt(skew, i)))
  }

  lemma LateShape(skew: nat)
    requires skew <= DELAY
    ensures |LateRun(skew).events| == Length(skew) && |LateRun(skew).states| == Length(skew) + 1
    ensures forall i | 0 <= i < Length(skew) :: LateRun(skew).events[i] == EventAt(skew, i)
    ensures forall i | 0 <= i <= Length(skew) :: LateRun(skew).states[i] == StateAt(skew, i)
  {
    hide EventAt, StateAt;
  }

  /** The calls that fill the cache are granted, and so is the last one. */
  predicate Hit(skew: nat, i: nat) { i < MAX_SCAN_REQUESTS || i + 1 == Length(skew) }

  ghost predicate StepTo(skew: nat, i: nat)
    requires skew <= DELAY && i < Length(skew)
  {
    && Enabled(StateAt(skew, i), EventAt(skew, i))
    && Next(StateAt(skew, i), EventAt(skew, i)) == StateAt(skew, i + 1)
    && (Hit(skew, i) ==> OutcomeOf(StateAt(skew, i), EventAt(skew, i)).Granted?)
  }

  lemma LateStep(skew: nat, i: nat)
    requires skew <= DELAY && i < Length(skew)
    ensures StepTo(skew, i)
  {
    hide Enabled, Next, OutcomeOf, Taken, Deferring, Reserving, Regranted, Full, CallOf;
    if i < MAX_SCAN_REQUESTS {
      FillStep(i);
    } else if skew == 0 {
      GrantedAgain();
    } else if i == MAX_SCAN_REQUESTS {
      TakesSlot();
    } else if i == MAX_SCAN_REQUESTS + 1 {
      IsDeferred(DELAY - skew);
    } else if i == MAX_SCAN_REQUESTS + 2 {
      IsReserved();
    } else {
      IsRegranted(DELAY - skew);
    }
  }

  lemma LateRunIsRun(skew: nat)
    requires skew <= DELAY
    ensures IsRun(LateRun(skew))
  {
    LateShape(skew);
    hide LateRun, Enabled, Next;
    assert StateAt(skew, 0) == Full(0) == EMPTY;
    forall i | 0 <= i < Length(skew) ensures StepAt(LateRun(skew), i) {
      hide EventAt, StateAt;
      LateStep(skew, i);
    }
  }

  /** The key of the call. */
  function Caller(i: nat): Hash { if i < MAX_SCAN_REQUESTS then i else 0 }

  lemma LateGrant(skew: nat, i: nat)
    requires skew <= DELAY && i < Length(skew) && Hit(skew, i)
    ensures |LateRun(skew).events| == Length(skew) && |LateRun(skew).states| == Length(skew) + 1
    ensures Grants(LateRun(skew), i, Caller(i)) && GrantsOne(LateRun(skew), i)
  {
    LateShape(skew);
    hide LateRun, StateAt, Next, Enabled, OutcomeOf;
    LateStep(skew, i);
  }

  lemma LateTimes(skew: nat, i: nat)
    requires skew <= DELAY && i < Length(skew)
    ensures (var t := Time(EventAt(skew, i));
             && (i < MAX_SCAN_REQUESTS ==> t == 0)
             && (i >= MAX_SCAN_REQUESTS ==> DELAY - skew <= t <= DELAY)
             && (i == Length(skew) - 1 ==> t == DELAY - skew))
  {
  }

  lemma LateRunIsSkewed(skew: nat)
    requires skew <= DELAY
    ensures Skewed(LateRun(skew), skew)
  {
    LateShape(skew);
    hide LateRun, EventAt;
    var r := LateRun(skew);
    forall i, j | 0 <= i <= j < |r.events|
      ensures Time(r.events[i]) <= Time(r.events[j]) + skew
    {
      LateTimes(skew, i);
      LateTimes(skew, j);
    }
  }

  /** Every request has the same proofs, as every call has. */
  ghost predicate SameProofs(s: Cache) { forall k | k in s.requests :: s.requests[k].fingerprint == PROOFS }

  lemma TakenProofs()
    ensures SameProofs(Cache(Taken(), None, None)) && SameProofs(Reserving())
  {
    hide Filled;
    assert forall k | k in Taken() :: Taken()[k] == Swept(0) || k == MAX_SCAN_REQUESTS;
  }

  lemma LateSameProofs(skew: nat, i: nat)
    requires skew <= DELAY && i < Length(skew)
    ensures SameProofs(StateAt(skew, i))
  {
    hide Next, Taken, Reserving, Filled;
    if i > MAX_SCAN_REQUESTS { TakenProofs(); }
  }

  lemma NothingLifts(skew: nat, i: nat, k: Hash)
    requires skew <= DELAY && i < Length(skew)
    ensures |LateRun(skew).events| == Length(skew) && |LateRun(skew).states| == Length(skew) + 1
    ensures !Lifts(LateRun(skew), i, k)
  {
    LateShape(skew);
    hide LateRun, StateAt;
    LateSameProofs(skew, i);
    assert EventAt(skew, i).Scan? && EventAt(skew, i).call.proofs == PROOFS;
  }

  // ------------------------------------------------------------------- exactly so much

  /** Grants to one request with no lifted delay between them are `gap` apart. */
  ghost predicate KeepsGap(r: Trace, gap: nat)
    requires |r.events| < |r.states|
  {
    forall i, j, k | 0 <= i < j < |r.events| && Grants(r, i, k) && Grants(r, j, k)
                     && (forall m | i < m <= j :: !Lifts(r, m, k)) ::
      Time(r.events[i]) + gap <= Time(r.events[j])
  }

  /** All runs with readings up to `skew` late keep a gap if and only if it is at most the
      retry delay less the skew. */
  lemma SpacingExactly(skew: nat, gap: nat)
    requires skew <= DELAY
    ensures (forall r | IsRun(r) && Skewed(r, skew) :: KeepsGap(r, gap)) <==> gap + skew <= DELAY
  {
    if gap + skew <= DELAY {
      forall r | IsRun(r) && Skewed(r, skew) ensures KeepsGap(r, gap) { GapIsKept(r, skew, gap); }
    } else {
      LateRunBreaksGap(skew, gap);
    }
  }

  lemma GapIsKept(r: Trace, skew: nat, gap: nat)
    requires IsRun(r) && Skewed(r, skew) && gap + skew <= DELAY
    ensures KeepsGap(r, gap)
  {
    hide StepAt, Grants, Lifts;
    forall i, j, k | 0 <= i < j < |r.events| && Grants(r, i, k) && Grants(r, j, k)
                     && (forall m | i < m <= j :: !Lifts(r, m, k))
      ensures Time(r.events[i]) + gap <= Time(r.events[j])
    {
      if Time(r.events[j]) + skew < Time(r.events[i]) + DELAY { GrantSpacing(r, skew, i, j, k); }
    }
  }

  /** Request 0 is granted at the start and again the delay less the skew later. */
  lemma LateRunBreaksGap(skew: nat, gap: nat)
    requires skew <= DELAY < gap + skew
    ensures IsRun(LateRun(skew)) && Skewed(LateRun(skew), skew) && !KeepsGap(LateRun(skew), gap)
  {
    LateShape(skew);
    hide StepAt, Grants, Lifts, LateRun, EventAt, StateAt;
    var last := Length(skew) - 1;
    LateRunIsRun(skew);
    LateRunIsSkewed(skew);
    LateGrant(skew, 0);
    LateGrant(skew, last);
    LateTimes(skew, 0);
    LateTimes(skew, last);
    forall m | 0 < m <= last ensures !Lifts(LateRun(skew), m, 0) { NothingLifts(skew, m, 0); }
  }

  ghost function GrantsIn(r: Trace, from: Instant, span: nat): nat
    requires |r.events| < |r.states|
  {
    Tally(GrantMarks(r, from, from + span), 0, |r.events|)
  }

  ghost function LiftsNear(r: Trace, from: Instant, span: nat, skew: nat): nat
    requires |r.events| < |r.states|
  {
    Tally(LiftMarks(r, from, from + span, skew), 0, |r.events|)
  }

  ghost predicate KeepsRate(r: Trace, skew: nat, span: nat)
    requires |r.events| < |r.states|
  {
    forall from: Instant :: GrantsIn(r, from, span) <= MAX_SCAN_REQUESTS + LiftsNear(r, from, span, skew)
  }

  /** All runs with readings up to `skew` late keep the bound on grants in every interval
      of a given length if and only if it is at most the retry delay less the skew. */
  lemma RateExactly(skew: nat, span: nat)
    requires skew <= DELAY
    ensures (forall r | IsRun(r) && Skewed(r, skew) :: KeepsRate(r, skew, span)) <==> span + skew <= DELAY
  {
    if span + skew <= DELAY {
      forall r | IsRun(r) && Skewed(r, skew) ensures KeepsRate(r, skew, span) { RateIsKept(r, skew, span); }
    } else {
      LateRunIsRun(skew);
      LateRunIsSkewed(skew);
      LateRunBreaksRate(skew, span);
    }
  }

  lemma RateIsKept(r: Trace, skew: nat, span: nat)
    requires IsRun(r) && Skewed(r, skew) && span + skew <= DELAY
    ensures KeepsRate(r, skew, span)
  {
    hide StepAt, Tally;
    forall from: Instant
      ensures GrantsIn(r, from, span) <= MAX_SCAN_REQUESTS + LiftsNear(r, from, span, skew)
    {
      WindowBound(r, skew, from, from + span);
    }
  }

  /** The cache is filled with grants at the start, and one more follows. */
  lemma LateGrants(skew: nat, span: nat)
    requires skew <= DELAY < span + skew
    ensures |LateRun(skew).events| == Length(skew) && |LateRun(skew).states| == Length(skew) + 1
    ensures Tally(GrantMarks(LateRun(skew), 0, span), 0, Length(skew)) > MAX_SCAN_REQUESTS
  {
    LateShape(skew);
    hide Grants, LateRun, GrantsOne, EventAt, StateAt;
    var last := Length(skew) - 1;
    var grants := GrantMarks(LateRun(skew), 0, span);
    forall m | 0 <= m < Length(skew) && Hit(skew, m) ensures grants[m] {
      LateGrant(skew, m);
      LateTimes(skew, m);
    }
    assert Hit(skew, last) && forall m | 0 <= m < MAX_SCAN_REQUESTS :: Hit(skew, m);
    TallyAll(grants, 0, MAX_SCAN_REQUESTS, true);
    TallySplit(grants, 0, MAX_SCAN_REQUESTS, last);
  }

  lemma LateLifts(skew: nat, span: nat)
    requires skew <= DELAY
    ensures |LateRun(skew).events| == Length(skew) && |LateRun(skew).states| == Length(skew) + 1
    ensures Tally(LiftMarks(LateRun(skew), 0, span, skew), 0, Length(skew)) == 0
  {
    LateShape(skew);
    hide LateRun, Lifts, EventAt, StateAt;
    var r := LateRun(skew);
    var lifts := LiftMarks(r, 0, span, skew);
    forall m | 0 <= m < Length(skew) ensures !lifts[m] { NothingLifts(skew, m, KeyOf(r.events[m])); }
    TallyAll(lifts, 0, Length(skew), false);
  }

  lemma LateRunBreaksRate(skew: nat, span: nat)
    requires skew <= DELAY < span + skew
    ensures |LateRun(skew).events| < |LateRun(skew).states| && !KeepsRate(LateRun(skew), skew, span)
  {
    LateShape(skew);
    hide LateRun, Tally, EventAt, StateAt;
    LateGrants(skew, span);
    LateLifts(skew, span);
    assert GrantsIn(LateRun(skew), 0, span) > MAX_SCAN_REQUESTS + LiftsNear(LateRun(skew), 0, span, skew);
  }
}
