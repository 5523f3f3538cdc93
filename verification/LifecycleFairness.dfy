/**
 How long a waiting Creator can be kept waiting by the lifecycle scheduler: a bounded
 number of starts while nobody's turn is forgotten, and without bound otherwise.
 */
module LifecycleFairness {
  import opened FiniteSets
  import opened LifecyclePasses
  import opened Wrappers

  /** The passes started in turns `lo` up to, but not including, `hi`. */
  ghost function StartCount(r: Trace, lo: nat, hi: nat): nat
    requires lo <= hi <= |r.events| < |r.states|
  {
    if lo == hi then 0 else StartCount(r, lo, hi - 1) + |Started(PreparedAt(r, hi - 1), r.events[hi - 1])|
  }

  ghost function Starters(r: Trace, lo: nat, hi: nat): set<Creator>
    requires lo <= hi <= |r.events| < |r.states|
  {
    if lo == hi then {} else Starters(r, lo, hi - 1) + Members(Started(PreparedAt(r, hi - 1), r.events[hi - 1]))
  }

  lemma {:induction false} StartersStart(r: Trace, lo: nat, hi: nat, y: Creator)
    requires lo <= hi <= |r.events| < |r.states|
    ensures y in Starters(r, lo, hi) <==> exists m | lo <= m < hi :: StartsAt(r, m, y)
  {
    hide Started, PreparedAt;
    if lo == hi {
    } else {
      StartersStart(r, lo, hi - 1, y);
      assert StartsAt(r, hi - 1, y) <==> y in Members(Started(PreparedAt(r, hi - 1), r.events[hi - 1]));
    }
  }

  /** While `x` waits, from `lo` on, nobody who has started since is forgotten. */
  ghost predicate KeepsWaiting(r: Trace, lo: nat, hi: nat, x: Creator)
    requires lo <= hi <= |r.events| < |r.states|
  {
    && (forall m | lo <= m < hi :: Waits(r, m, x))
    && (forall m, y | lo <= m < hi && y in Starters(r, lo, m) :: !ForgetsAt(r, m, y))
  }

  lemma NobodyTwice(r: Trace, lo: nat, m: nat, x: Creator, y: Creator)
    requires IsRun(r) && lo <= m < |r.events| && KeepsWaiting(r, lo, m + 1, x) && StartsAt(r, m, y)
    ensures y !in Starters(r, lo, m)
  {
    hide StepAt, ForgetsAt, StartsAt, Waits;
    StartersStart(r, lo, m, y);
    if y in Starters(r, lo, m) {
      var k :| lo <= k < m && StartsAt(r, k, y);
      forall n | k < n <= m ensures !ForgetsAt(r, n, y) {
        StartersStart(r, lo, n, y);
      }
      AtMostOneStart(r, k, m, x, y);
      assert false;
    }
  }

  /** Each start goes to a different Creator, and none to the waiting one. */
  lemma {:induction false} StartsAreDistinct(r: Trace, lo: nat, hi: nat, x: Creator)
    requires IsRun(r) && lo <= hi <= |r.events| && KeepsWaiting(r, lo, hi, x)
    ensures StartCount(r, lo, hi) == |Starters(r, lo, hi)| && x !in Starters(r, lo, hi)
  {
    hide StepAt, Started, ForgetsAt, PreparedAt;
    if lo == hi {
    } else {
      var m := hi - 1;
      StartsAreDistinct(r, lo, m, x);
      var cs := Started(PreparedAt(r, m), r.events[m]);
      TurnIsDistinct(r, m);
      MembersSize(cs);
      forall y | y in Members(cs) ensures y !in Starters(r, lo, m) {
        assert StartsAt(r, m, y);
        NobodyTwice(r, lo, m, x, y);
      }
      assert Starters(r, lo, m) !! Members(cs);
      assert Waits(r, m, x);
    }
  }

  lemma TurnIsDistinct(r: Trace, m: nat)
    requires IsRun(r) && m < |r.events|
    ensures Distinct(Started(PreparedAt(r, m), r.events[m]))
    ensures forall c <- Started(PreparedAt(r, m), r.events[m]) :: Idle(PreparedAt(r, m), c)
  {
    hide Started;
    assert StepAt(r, m);
    StartedFacts(r.states[m], r.events[m]);
  }

  /** The wait is bounded: while `x` waits and nobody who starts is forgotten, there are
      fewer starts than Creators that are pending, running or known in the last turn. */
  lemma WaitIsBounded(r: Trace, lo: nat, hi: nat, x: Creator)
    requires IsRun(r) && lo < hi <= |r.events| && KeepsWaiting(r, lo, hi, x)
    ensures StartCount(r, lo, hi) < |Ready(PreparedAt(r, hi - 1))|
  {
    hide StepAt, Started;
    StartsAreDistinct(r, lo, hi, x);
    TurnIsDistinct(r, hi - 1);
    var ready := Ready(PreparedAt(r, hi - 1));
    forall y | y in Starters(r, lo, hi) ensures y in ready {
      if y in Starters(r, lo, hi - 1) { assert !ForgetsAt(r, hi - 1, y); }
    }
    assert Waits(r, hi - 1, x);
    SubsetSize(Starters(r, lo, hi), ready - {x});
    assert ready == (ready - {x}) + {x};
  }

  // --------------------------------------------------------- the state, from the events

  /** Creator `c` was hinted or enumerated at turn `m` and has not started since. */
  ghost predicate HintedSince(r: Trace, m: nat, i: nat, c: Creator)
    requires m < i <= |r.events| < |r.states|
  {
    Hints(r.events[m].cause, c) && forall n | m <= n < i :: !StartsAt(r, n, c)
  }

  /** A Creator is pending exactly if it was hinted or enumerated since its last start. */
  lemma {:induction false} PendingExactly(r: Trace, i: nat, c: Creator)
    requires IsRun(r) && i <= |r.events|
    ensures c in r.states[i].pending <==> exists m | 0 <= m < i :: HintedSince(r, m, i, c)
  {
    hide Enabled, Next, Started, StartsAt;
    if i == 0 {
    } else {
      var p := i - 1;
      PendingExactly(r, p, c);
      PendingNext(r, p, c);
      if m :| 0 <= m < i && HintedSince(r, m, i, c) {
        if m < p { assert HintedSince(r, m, p, c); }
      }
      if !StartsAt(r, p, c) {
        if m :| 0 <= m < p && HintedSince(r, m, p, c) { assert HintedSince(r, m, i, c); }
        if Hints(r.events[p].cause, c) { assert HintedSince(r, p, i, c); }
      }
    }
  }

  lemma PendingNext(r: Trace, i: nat, c: Creator)
    requires IsRun(r) && i < |r.events|
    ensures c in r.states[i + 1].pending <==>
              (c in r.states[i].pending || Hints(r.events[i].cause, c)) && !StartsAt(r, i, c)
  {
    hide Enabled, Next, Started;
    assert StepAt(r, i);
    ReachableIsValid(r, i);
    TurnFacts(r.states[i], r.events[i]);
  }

  /** Creator `c` started at turn `m`, and its pass has not ended since. */
  ghost predicate RunsSince(r: Trace, m: nat, i: nat, c: Creator)
    requires m < i <= |r.events| < |r.states|
  {
    StartsAt(r, m, c) && forall n | m < n < i :: r.events[n].cause != Joined(c)
  }

  /** A Creator's pass is active exactly if it started and has not ended since. */
  lemma {:induction false} ActiveExactly(r: Trace, i: nat, c: Creator)
    requires IsRun(r) && i <= |r.events|
    ensures c in r.states[i].active <==> exists m | 0 <= m < i :: RunsSince(r, m, i, c)
  {
    hide Enabled, Next, Started, StartsAt;
    if i == 0 {
    } else {
      var p := i - 1;
      ActiveExactly(r, p, c);
      ActiveNext(r, p, c);
      if m :| 0 <= m < i && RunsSince(r, m, i, c) {
        if m < p { assert RunsSince(r, m, p, c); }
      }
      if StartsAt(r, p, c) {
        assert RunsSince(r, p, i, c);
      } else if r.events[p].cause != Joined(c) {
        if m :| 0 <= m < p && RunsSince(r, m, p, c) { assert RunsSince(r, m, i, c); }
      }
    }
  }

  lemma ActiveNext(r: Trace, i: nat, c: Creator)
    requires IsRun(r) && i < |r.events|
    ensures c in r.states[i + 1].active <==>
              (c in r.states[i].active && r.events[i].cause != Joined(c)) || StartsAt(r, i, c)
  {
    hide Enabled, Next, Started;
    assert StepAt(r, i);
    ReachableIsValid(r, i);
    TurnFacts(r.states[i], r.events[i]);
  }

  /** The Creators of the last enumeration that succeeded. */
  ghost function LastEnumerated(events: seq<Event>, i: nat): set<Creator>
    requires i <= |events|
  {
    if i == 0 then {} else if events[i - 1].cause.Tick? then events[i - 1].cause.creators
    else LastEnumerated(events, i - 1)
  }

  lemma {:induction false} KnownExactly(r: Trace, i: nat)
    requires IsRun(r) && i <= |r.events|
    ensures r.states[i].known == LastEnumerated(r.events, i)
  {
    hide Enabled, Started, StartAll;
    if i == 0 {
    } else {
      KnownExactly(r, i - 1);
      assert StepAt(r, i - 1);
      StartAllEffect(PreparedAt(r, i - 1), Started(PreparedAt(r, i - 1), r.events[i - 1]));
    }
  }

  /** So a turn is forgotten exactly at a turn that finds its Creator neither pending, nor
      active, nor among the last enumerated. */
  lemma ForgetsExactly(r: Trace, i: nat, c: Creator)
    requires IsRun(r) && i < |r.events|
    ensures ForgetsAt(r, i, c) <==>
              && c !in r.states[i].pending && !Hints(r.events[i].cause, c)
              && !(c in r.states[i].active && r.events[i].cause != Joined(c))
              && c !in LastEnumerated(r.events, i + 1)
  {
    hide StepAt;
    KnownExactly(r, i);
  }

  /** Once a shutdown was observed nothing starts any more. */
  lemma {:induction false} ShutdownStartsNothing(r: Trace, i: nat, j: nat, c: Creator)
    requires IsRun(r) && i < j < |r.events| && r.events[i].shutdownAfter.Some?
    ensures r.states[j].stopping && !StartsAt(r, j, c)
  {
    hide Enabled, Started, StartAll, Eligible;
    assert StepAt(r, j - 1);
    StartAllEffect(PreparedAt(r, j - 1), Started(PreparedAt(r, j - 1), r.events[j - 1]));
    if j == i + 1 {
    } else {
      ShutdownStartsNothing(r, i, j - 1, c);
    }
    StoppingStartsNothing(PreparedAt(r, j), r.events[j]);
  }

  lemma StoppingStartsNothing(s: State, e: Event)
    requires s.stopping
    ensures Started(s, e) == []
  {
  }

  // -------------------------------------------------------------- without that condition

  lemma {:induction false} NextCountsStarts(r: Trace, lo: nat, hi: nat)
    requires IsRun(r) && lo <= hi <= |r.events|
    ensures r.states[hi].next == r.states[lo].next + StartCount(r, lo, hi)
  {
    hide Started, Enabled, StartAll;
    if lo == hi {
    } else {
      NextCountsStarts(r, lo, hi - 1);
      assert StepAt(r, hi - 1);
      StartAllEffect(PreparedAt(r, hi - 1), Started(PreparedAt(r, hi - 1), r.events[hi - 1]));
    }
  }

  /** The two unknown Creators take turns. */
  function Who(n: nat): Creator { if n % 2 == 0 then 1 else 2 }

  function StarvingState(n: nat): State { OneRuns(Who(n), n, n + 1, {5}) }

  /** First 1 and 5 are hinted; then, again and again, the other of 1 and 2 is hinted and
      the running one ends. */
  function StarvingEvent(m: nat): Event {
    if m == 0 then Event(Hint({1, 5}), [1, 5], None)
    else
      var k := (m - 1) / 2;
      if m % 2 == 1 then HintOf(Who(k + 1), Who(k)) else EndOf(Who(k), Who(k + 1))
  }

  function StarvingAt(m: nat): State {
    if m == 0 then Start(1)
    else
      var k := (m - 1) / 2;
      if m % 2 == 1 then StarvingState(k) else OneRuns(Who(k), k, k + 1, {Who(k + 1), 5})
  }

  function StarvingRun(n: nat): (r: Trace)
    ensures |r.events| == 2 * n + 1 && |r.states| == 2 * n + 2
    ensures forall m | 0 <= m < |r.events| :: r.events[m] == StarvingEvent(m)
    ensures forall m | 0 <= m < |r.states| :: r.states[m] == StarvingAt(m)
  {
    Trace(seq(2 * n + 1, m requires 0 <= m => StarvingEvent(m)), seq(2 * n + 2, m requires 0 <= m => StarvingAt(m)))
  }

  lemma StarvingStep(m: nat)
    ensures Takes(StarvingAt(m), StarvingEvent(m), StarvingAt(m + 1))
  {
    hide Enabled, Next, OneRuns, HintOf, EndOf;
    var k := (m - 1) / 2;
    if m == 0 {
      StarvationStarts();
    } else if m % 2 == 1 {
      HintWhileFull(Who(k), Who(k + 1), k, k + 1);
    } else {
      EndAndStart(Who(k), Who(k + 1), k, k + 1);
    }
  }

  lemma StarvingIsRun(n: nat)
    ensures IsRun(StarvingRun(n))
  {
    hide Enabled, Next, StarvingRun, StarvingEvent;
    var r := StarvingRun(n);
    assert StarvingAt(0) == Start(1);
    forall m | 0 <= m < |r.events| ensures StepAt(r, m) { StarvingStep(m); }
  }

  /** Starvation without bound: for every `n` there is a run with more than `n` starts in
      which Creator 5 is pending after every turn and never starts. */
  lemma StarvesForEver(n: nat)
    ensures (var r := StarvingRun(n);
             && IsRun(r) && r.states[0] == Start(1) && StartCount(r, 0, |r.events|) == n + 1
             && forall m | 0 <= m < |r.events| :: 5 in r.states[m + 1].pending && !StartsAt(r, m, 5))
  {
    hide StarvingRun, StarvingEvent, Enabled, Next, Started;
    var r := StarvingRun(n);
    StarvingIsRun(n);
    assert r.states[2 * n + 1] == StarvingState(n) && r.states[0] == Start(1);
    NextCountsStarts(r, 0, |r.events|);
    forall m | 0 <= m < |r.events| ensures 5 in r.states[m + 1].pending && !StartsAt(r, m, 5) {
      assert StepAt(r, m);
      ReachableIsValid(r, m);
      TurnFacts(r.states[m], r.events[m]);
    }
  }
}
