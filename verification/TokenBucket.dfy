/**
 The token bucket that limits signed requests. Times are nanoseconds.

 The code keeps whole tokens and a remainder in fixed-width integers that
 saturate. The model gives its meaning as one unbounded number, the level in
 billionths of a token, and counts what it grants over any run of calls.
 */
module TokenBucket {
  const NANOS: nat := 1_000_000_000
  const U64_MAX: nat := 0xFFFF_FFFF_FFFF_FFFF
  const U128_MAX: nat := 0xFFFF_FFFF_FFFF_FFFF_FFFF_FFFF_FFFF_FFFF

  type U64 = n: nat | n <= U64_MAX
  type Instant = nat

  function Min(a: nat, b: nat): nat { if a <= b then a else b }

  // ----------------------------------------------------------------- exact bucket

  datatype Bucket = Bucket(rate: nat, burst: nat, level: nat, last: Instant)

  function Elapsed(last: Instant, now: Instant): nat {
    if now >= last then now - last else 0
  }

  /** What flows in over a time. */
  function Flow(rate: nat, time: nat): nat { rate * time }

  lemma FlowAdds(rate: nat, a: nat, b: nat)
    ensures Flow(rate, a + b) == Flow(rate, a) + Flow(rate, b)
    ensures Flow(rate, 0) == 0
  {
  }

  /** The level of the bucket at `now`: what was left, plus the flow, up to the brim. */
  function Refilled(b: Bucket, now: Instant): nat {
    Min(b.level + Flow(b.rate, Elapsed(b.last, now)), b.burst * NANOS)
  }

  function Grants(b: Bucket, now: Instant): bool {
    Refilled(b, now) >= NANOS
  }

  function Step(b: Bucket, now: Instant): Bucket {
    b.(level := Refilled(b, now) - (if Grants(b, now) then NANOS else 0), last := now)
  }

  // ------------------------------------------------------------- fixed-width bucket

  function SaturatingMul128(a: nat, b: nat): nat { Min(a * b, U128_MAX) }
  function SaturatingAdd128(a: nat, b: nat): nat { Min(a + b, U128_MAX) }
  function SaturatingAdd64(a: nat, b: nat): nat { Min(a + b, U64_MAX) }

  /** The whole tokens after accruing, each step within its own width. */
  function Filled(tokens: nat, accrued: nat, burst: nat): nat {
    Min(SaturatingAdd64(tokens, Min(accrued / NANOS, U64_MAX)), burst)
  }

  /** Saturation never shows: wherever an intermediate value saturates, the bucket
      is full anyway. */
  lemma SaturationIsInvisible(tokens: nat, remainder: nat, burst: U64, flow: nat)
    requires tokens <= burst && remainder < NANOS
    ensures (var accrued := SaturatingAdd128(Min(flow, U128_MAX), remainder);
             var filled := Filled(tokens, accrued, burst);
             filled * NANOS + (if filled == burst then 0 else accrued % NANOS)
             == Min(tokens * NANOS + remainder + flow, burst * NANOS))
  {
    var accrued := SaturatingAdd128(Min(flow, U128_MAX), remainder);
    if flow + remainder > U128_MAX {
      assert accrued == U128_MAX && U128_MAX / NANOS > U64_MAX;
      assert flow + remainder >= burst * NANOS;
    } else {
      assert accrued == flow + remainder;
      assert accrued / NANOS * NANOS + accrued % NANOS == accrued;
    }
  }

  class TokenBucketState {
    const ratePerSecond: U64
    const burst: U64
    var tokens: nat
    var remainder: nat
    var last: Instant

    ghost predicate Valid()
      reads this
    {
      tokens <= burst && remainder < NANOS && (tokens == burst ==> remainder == 0)
    }

    ghost function View(): Bucket
      reads this
    {
      Bucket(ratePerSecond, burst, tokens * NANOS + remainder, last)
    }

    constructor (ratePerSecond: U64, burst: U64, now: Instant)
      ensures Valid() && View() == Bucket(ratePerSecond, burst, burst * NANOS, now)
    {
      this.ratePerSecond, this.burst := ratePerSecond, burst;
      tokens, remainder, last := burst, 0, now;
    }

    /** The fixed-width code is the exact bucket, on every input. */
    method TryTake(now: Instant) returns (granted: bool)
      requires Valid()
      modifies this
      ensures Valid()
      ensures granted == Grants(old(View()), now)
      ensures View() == Step(old(View()), now)
    {
      var elapsed := Elapsed(last, now);
      last := now;
      if tokens == burst {
        remainder := 0;
      } else {
        SaturationIsInvisible(tokens, remainder, burst, Flow(ratePerSecond, elapsed));
        assert SaturatingMul128(elapsed, ratePerSecond) == Min(Flow(ratePerSecond, elapsed), U128_MAX);
        var accrued := SaturatingAdd128(SaturatingMul128(elapsed, ratePerSecond), remainder);
        var added := accrued / NANOS;
        remainder := accrued % NANOS;
        tokens := Min(SaturatingAdd64(tokens, if added <= U64_MAX then added else U64_MAX), burst);
        if tokens == burst {
          remainder := 0;
        }
      }
      assert View().level == Refilled(old(View()), now);
      if tokens == 0 {
        return false;
      }
      tokens := tokens - 1;
      granted := true;
    }
  }

  // ------------------------------------------------------------- refused calls

  /** Refilling in two parts is refilling once. */
  lemma RefillComposes(b: Bucket, mid: Instant, now: Instant)
    requires b.last <= mid <= now && b.level <= b.burst * NANOS
    ensures Refilled(b.(level := Refilled(b, mid), last := mid), now) == Refilled(b, now)
  {
    hide Flow;
    FlowAdds(b.rate, mid - b.last, now - mid);
  }

  /** A refused call changes no later answer. */
  lemma RefusedCallLosesNothing(b: Bucket, mid: Instant, now: Instant)
    requires b.last <= mid <= now && b.level <= b.burst * NANOS && !Grants(b, mid)
    ensures Grants(Step(b, mid), now) == Grants(b, now) && Step(Step(b, mid), now) == Step(b, now)
  {
    RefillComposes(b, mid, now);
  }

  // -------------------------------------------------------------------------- runs

  ghost predicate Monotone(ts: seq<Instant>) {
    forall i, j | 0 <= i <= j < |ts| :: ts[i] <= ts[j]
  }

  /** The bucket before call `i`, starting from `b`. */
  ghost function At(b: Bucket, ts: seq<Instant>, i: nat): Bucket
    requires i <= |ts|
  {
    if i == 0 then b else Step(At(b, ts, i - 1), ts[i - 1])
  }

  ghost function FullAt(b: Bucket, ts: seq<Instant>, i: nat): nat
    requires i < |ts|
  {
    Refilled(At(b, ts, i), ts[i])
  }

  ghost predicate GrantedAt(b: Bucket, ts: seq<Instant>, i: nat)
    requires i < |ts|
  {
    Grants(At(b, ts, i), ts[i])
  }

  /** Grants among the calls `lo` to `hi - 1`. */
  ghost function GrantCount(b: Bucket, ts: seq<Instant>, lo: nat, hi: nat): nat
    requires lo <= hi <= |ts|
    decreases hi
  {
    if lo == hi then 0 else GrantCount(b, ts, lo, hi - 1) + if GrantedAt(b, ts, hi - 1) then 1 else 0
  }

  lemma {:induction false} AtKeepsLimits(b: Bucket, ts: seq<Instant>, i: nat)
    requires i <= |ts|
    ensures At(b, ts, i).rate == b.rate && At(b, ts, i).burst == b.burst
    ensures At(b, ts, i).last == if i == 0 then b.last else ts[i - 1]
  {
    if i == 0 {
    } else {
      AtKeepsLimits(b, ts, i - 1);
    }
  }

  /** Between two calls the level moves by the flow less the grants; only a full
      bucket loses any of it. */
  lemma {:induction false} Accounting(b: Bucket, ts: seq<Instant>, s: nat, j: nat)
    requires Monotone(ts) && s <= j < |ts|
    ensures FullAt(b, ts, j) + NANOS * GrantCount(b, ts, s, j) <= FullAt(b, ts, s) + Flow(b.rate, ts[j] - ts[s])
    ensures (forall m | s < m <= j :: FullAt(b, ts, m) < b.burst * NANOS) ==>
              FullAt(b, ts, j) + NANOS * GrantCount(b, ts, s, j) == FullAt(b, ts, s) + Flow(b.rate, ts[j] - ts[s])
    decreases j
  {
    hide Flow, At, FullAt, GrantedAt, Grants;
    FlowAdds(b.rate, 0, 0);
    if s == j {
    } else {
      assert ts[s] <= ts[j - 1] <= ts[j];
      Accounting(b, ts, s, j - 1);
      FlowAdds(b.rate, ts[j - 1] - ts[s], ts[j] - ts[j - 1]);
      CallMovesLevel(b, ts, j);
    }
  }

  ghost function LeftAfter(b: Bucket, ts: seq<Instant>, i: nat): nat
    requires i < |ts|
  {
    Step(At(b, ts, i), ts[i]).level
  }

  lemma CallMovesLevel(b: Bucket, ts: seq<Instant>, j: nat)
    requires Monotone(ts) && 0 < j < |ts| && ts[j - 1] <= ts[j]
    ensures FullAt(b, ts, j - 1) == LeftAfter(b, ts, j - 1) + if GrantedAt(b, ts, j - 1) then NANOS else 0
    ensures FullAt(b, ts, j) == Min(LeftAfter(b, ts, j - 1) + Flow(b.rate, ts[j] - ts[j - 1]), b.burst * NANOS)
  {
    hide Flow, Monotone;
    AtKeepsLimits(b, ts, j);
    assert At(b, ts, j) == Step(At(b, ts, j - 1), ts[j - 1]);
  }

  lemma FullIsBounded(b: Bucket, ts: seq<Instant>, i: nat)
    requires i < |ts|
    ensures FullAt(b, ts, i) <= b.burst * NANOS
  {
    AtKeepsLimits(b, ts, i);
  }

  /** The calls `s` to `j` of any run with a monotone clock are granted at most the
      burst plus the whole tokens that flow in between the two. */
  lemma GrantBound(b: Bucket, ts: seq<Instant>, s: nat, j: nat)
    requires Monotone(ts) && s <= j < |ts|
    ensures GrantCount(b, ts, s, j + 1) <= b.burst + Flow(b.rate, ts[j] - ts[s]) / NANOS
  {
    hide Flow, At, GrantCount;
    Accounting(b, ts, s, j);
    FullIsBounded(b, ts, s);
    LastCounts(b, ts, s, j);
    var flow := Flow(b.rate, ts[j] - ts[s]);
    DivideByNanos(GrantCount(b, ts, s, j + 1), b.burst, flow);
  }

  lemma LastCounts(b: Bucket, ts: seq<Instant>, s: nat, j: nat)
    requires s <= j < |ts|
    ensures NANOS * GrantCount(b, ts, s, j + 1)
         == NANOS * GrantCount(b, ts, s, j) + if GrantedAt(b, ts, j) then NANOS else 0
  {
  }

  lemma DivideByNanos(grants: nat, burst: nat, flow: nat)
    requires NANOS * grants <= burst * NANOS + flow
    ensures grants <= burst + flow / NANOS
  {
  }

  /** The last call up to `j` that found the bucket full. */
  ghost function LastFull(b: Bucket, ts: seq<Instant>, j: nat): nat
    requires j < |ts|
  {
    if j == 0 || FullAt(b, ts, j) == b.burst * NANOS then j else LastFull(b, ts, j - 1)
  }

  lemma {:induction false} LastFullIsLast(b: Bucket, ts: seq<Instant>, j: nat)
    requires j < |ts|
    ensures LastFull(b, ts, j) <= j
    ensures LastFull(b, ts, j) > 0 ==> FullAt(b, ts, LastFull(b, ts, j)) == b.burst * NANOS
    ensures forall m | LastFull(b, ts, j) < m <= j :: FullAt(b, ts, m) < b.burst * NANOS
  {
    FullIsBounded(b, ts, j);
    if j > 0 && FullAt(b, ts, j) != b.burst * NANOS { LastFullIsLast(b, ts, j - 1); }
  }

  /** The grants since call `s` are all that the bound allows up to call `j`. */
  ghost predicate Exhausts(b: Bucket, ts: seq<Instant>, s: nat, j: nat)
    requires s <= j < |ts| && ts[s] <= ts[j]
  {
    GrantCount(b, ts, s, j) == b.burst + Flow(b.rate, ts[j] - ts[s]) / NANOS
  }

  /** A bucket that starts full refuses a call exactly when the grants since some
      earlier call, or this one, already are all that the bound allows: it never
      grants too much and never refuses too early. */
  lemma RefusesExactlyAtBound(b: Bucket, ts: seq<Instant>, j: nat)
    requires Monotone(ts) && j < |ts| && b.level == b.burst * NANOS && b.last <= ts[0]
    ensures !GrantedAt(b, ts, j) <==> exists s | 0 <= s <= j :: Exhausts(b, ts, s, j)
  {
    assert FullAt(b, ts, 0) == b.burst * NANOS;
    hide Flow, At, GrantCount, LastFull;
    if !GrantedAt(b, ts, j) {
      var s := LastFull(b, ts, j);
      LastFullIsLast(b, ts, j);
      assert FullAt(b, ts, s) == b.burst * NANOS;
      Accounting(b, ts, s, j);
      assert ts[s] <= ts[j];
      RefusedMeansExhausted(b.burst, Flow(b.rate, ts[j] - ts[s]), GrantCount(b, ts, s, j), FullAt(b, ts, j));
      assert Exhausts(b, ts, s, j);
    }
    forall s | 0 <= s <= j && Exhausts(b, ts, s, j)
      ensures !GrantedAt(b, ts, j)
    {
      GrantBound(b, ts, s, j);
      LastCounts(b, ts, s, j);
    }
  }

  lemma RefusedMeansExhausted(burst: nat, flow: nat, grants: nat, full: nat)
    requires full + NANOS * grants == burst * NANOS + flow && full < NANOS
    ensures grants == burst + flow / NANOS
  {
  }
}
