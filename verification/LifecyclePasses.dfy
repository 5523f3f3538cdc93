/**
 The scheduler of lifecycle passes: at most one pass per Creator, a bounded number at
 once, and free slots for the Creator whose last pass started longest ago.

 One event is one turn of the loop: something is received, then passes are started.
 */
module LifecyclePasses {
  import opened Wrappers

  type Creator = nat

  datatype State = State(
    limit: nat,
    active: set<Creator>,
    stopping: bool,
    lastStarted: map<Creator, nat>,
    next: nat,
    pending: set<Creator>,
    known: set<Creator>)

  function Start(limit: nat): State { State(limit, {}, false, map[], 0, {}, {}) }

  datatype Cause =
    | Hint(creators: set<Creator>)
    | Tick(creators: set<Creator>)
    | TickFailed
    | Joined(creator: Creator)

  /** `order` is the order the Creators are considered in; a shutdown may be observed
      after that many starts of this turn. */
  datatype Event = Event(cause: Cause, order: seq<Creator>, shutdownAfter: Option<nat>)

  // ----------------------------------------------------------------------- the order

  function Turn(turns: map<Creator, nat>, c: Creator): int { if c in turns then turns[c] else -1 }

  /** Never started first, then least recently started; ties in the order of ids. */
  predicate Before(turns: map<Creator, nat>, a: Creator, b: Creator) {
    Turn(turns, a) < Turn(turns, b) || (Turn(turns, a) == Turn(turns, b) && a < b)
  }

  predicate Sorted(turns: map<Creator, nat>, s: seq<Creator>) {
    forall i, j | 0 <= i < j < |s| :: Before(turns, s[i], s[j])
  }

  predicate IsOrder(turns: map<Creator, nat>, ready: set<Creator>, order: seq<Creator>) {
    Sorted(turns, order) && (forall c <- order :: c in ready) && forall c <- ready :: c in order
  }

  // -------------------------------------------------------------------------- a turn

  function Received(s: State, cause: Cause): State {
    match cause
    case Hint(creators) => s.(pending := s.pending + creators)
    case Tick(creators) => s.(pending := s.pending + creators, known := creators)
    case TickFailed => s
    case Joined(creator) => s.(active := s.active - {creator})
  }

  function Ready(s: State): set<Creator> { s.pending + s.active + s.known }

  /** Only the Creators still of interest keep their turn. */
  function KeptTurns(turns: map<Creator, nat>, ready: set<Creator>): map<Creator, nat> {
    map c | c in turns && c in ready :: turns[c]
  }

  function Forgotten(s: State): State { s.(lastStarted := KeptTurns(s.lastStarted, Ready(s))) }

  predicate Idle(s: State, c: Creator) { c in s.pending && c !in s.active }

  function Eligible(s: State, order: seq<Creator>): (e: seq<Creator>)
    ensures forall c <- e :: c in order && Idle(s, c)
    ensures forall c <- order :: Idle(s, c) ==> c in e
  {
    if order == [] then []
    else (if Idle(s, order[0]) then [order[0]] else []) + Eligible(s, order[1..])
  }

  function Slots(s: State): nat { if |s.active| < s.limit then s.limit - |s.active| else 0 }

  function Allowed(s: State, shutdownAfter: Option<nat>): nat {
    if s.stopping then 0
    else if shutdownAfter.Some? && shutdownAfter.value < Slots(s) then shutdownAfter.value
    else Slots(s)
  }

  function Cut(cs: seq<Creator>, n: nat): seq<Creator> { if n < |cs| then cs[..n] else cs }

  function Started(s: State, e: Event): seq<Creator> {
    Cut(Eligible(s, e.order), Allowed(s, e.shutdownAfter))
  }

  /** Starts one pass. */
  function StartOne(s: State, c: Creator): State {
    s.(active := s.active + {c}, pending := s.pending - {c},
       lastStarted := s.lastStarted[c := s.next], next := s.next + 1)
  }

  function StartAll(s: State, cs: seq<Creator>): State {
    if cs == [] then s else StartOne(StartAll(s, cs[..|cs| - 1]), cs[|cs| - 1])
  }

  function Prepared(s: State, e: Event): State { Forgotten(Received(s, e.cause)) }

  function Next(s: State, e: Event): State {
    var b := Prepared(s, e);
    StartAll(b, Started(b, e)).(stopping := s.stopping || e.shutdownAfter.Some?)
  }

  ghost predicate Enabled(s: State, e: Event) {
    && (e.cause.Joined? ==> e.cause.creator in s.active)
    && IsOrder(Prepared(s, e).lastStarted, Ready(Prepared(s, e)), e.order)
  }

  // ------------------------------------------------------------------ one turn's effect

  lemma {:induction false} EligibleSorted(s: State, turns: map<Creator, nat>, order: seq<Creator>)
    requires Sorted(turns, order)
    ensures Sorted(turns, Eligible(s, order))
  {
    if order == [] {
    } else {
      var rest := order[1..];
      forall i, j | 0 <= i < j < |rest| ensures Before(turns, rest[i], rest[j]) {
        assert Before(turns, order[i + 1], order[j + 1]);
      }
      EligibleSorted(s, turns, rest);
      forall c <- Eligible(s, rest) ensures Before(turns, order[0], c) {
        var i :| 0 <= i < |rest| && rest[i] == c;
        assert order[i + 1] == c;
      }
    }
  }

  ghost predicate Distinct(cs: seq<Creator>) { forall i, j | 0 <= i < j < |cs| :: cs[i] != cs[j] }

  function Members(cs: seq<Creator>): set<Creator> { set c | c in cs }

  lemma MembersPush(cs: seq<Creator>)
    requires cs != []
    ensures Members(cs) == Members(cs[..|cs| - 1]) + {cs[|cs| - 1]}
    ensures Distinct(cs) ==> Distinct(cs[..|cs| - 1]) && cs[|cs| - 1] !in cs[..|cs| - 1]
  {
    assert cs == cs[..|cs| - 1] + [cs[|cs| - 1]];
  }

  lemma {:induction false} MembersSize(cs: seq<Creator>)
    requires Distinct(cs)
    ensures |Members(cs)| == |cs|
  {
    if cs != [] {
      MembersPush(cs);
      MembersSize(cs[..|cs| - 1]);
      assert cs[|cs| - 1] !in Members(cs[..|cs| - 1]);
    } else {
      assert Members(cs) == {};
    }
  }

  /** What starting a list of Creators leaves. */
  lemma {:induction false} StartAllEffect(s: State, cs: seq<Creator>)
    ensures (var t := StartAll(s, cs);
             && t.active == s.active + Members(cs) && t.pending == s.pending - Members(cs)
             && t.limit == s.limit && t.known == s.known && t.stopping == s.stopping
             && t.next == s.next + |cs|)
  {
    if cs != [] {
      hide Members;
      StartAllEffect(s, cs[..|cs| - 1]);
      MembersPush(cs);
    } else {
      assert Members(cs) == {};
    }
  }

  lemma {:induction false} StartAllTurn(s: State, cs: seq<Creator>, c: Creator)
    ensures c !in cs ==> Turn(StartAll(s, cs).lastStarted, c) == Turn(s.lastStarted, c)
    ensures c in cs ==> s.next <= Turn(StartAll(s, cs).lastStarted, c) < s.next + |cs|
    ensures c in StartAll(s, cs).lastStarted <==> c in s.lastStarted || c in cs
  {
    if cs == [] {
    } else {
      var front, last := cs[..|cs| - 1], cs[|cs| - 1];
      StartAllTurn(s, front, c);
      StartAllEffect(s, front);
      assert cs == front + [last];
    }
  }

  lemma StartedFacts(s: State, e: Event)
    requires Enabled(s, e)
    ensures (var b, cs := Prepared(s, e), Started(Prepared(s, e), e);
             && |cs| <= Allowed(b, e.shutdownAfter)
             && (forall c <- cs :: Idle(b, c) && c in e.order)
             && Distinct(cs)
             && (|cs| < Allowed(b, e.shutdownAfter) ==> forall c | Idle(b, c) :: c in cs))
  {
    var b := Prepared(s, e);
    EligibleSorted(b, b.lastStarted, e.order);
    assert Distinct(Eligible(b, e.order));
  }

  // ------------------------------------------------------------------------ invariants

  ghost predicate Valid(s: State) {
    && |s.active| <= s.limit
    && forall c | c in s.lastStarted :: s.lastStarted[c] < s.next
  }

  lemma PreparedKeepsValid(s: State, e: Event)
    requires Valid(s)
    ensures Valid(Prepared(s, e)) && Prepared(s, e).limit == s.limit && Prepared(s, e).stopping == s.stopping
  {
    if e.cause.Joined? { SmallerIsFewer(s.active, e.cause.creator); }
  }

  lemma SmallerIsFewer(a: set<Creator>, c: Creator)
    ensures |a - {c}| <= |a|
  {
    if c in a { assert a == (a - {c}) + {c}; } else { assert a - {c} == a; }
  }

  /** A turn never runs two passes for one Creator and never exceeds the limit. */
  lemma TurnFacts(s: State, e: Event)
    requires Valid(s) && Enabled(s, e)
    ensures (var b, t, cs := Prepared(s, e), Next(s, e), Started(Prepared(s, e), e);
             && Valid(t) && t.limit == s.limit
             && t.active == b.active + Members(cs) && |t.active| == |b.active| + |cs|
             && t.pending == b.pending - Members(cs))
  {
    hide Enabled, Started, Prepared, Members;
    var b, cs, t := Prepared(s, e), Started(Prepared(s, e), e), Next(s, e);
    PreparedKeepsValid(s, e);
    StartedFacts(s, e);
    StartAllEffect(b, cs);
    MembersSize(cs);
    MembersAreIdle(b, cs);
    forall c | c in t.lastStarted ensures t.lastStarted[c] < t.next {
      StartAllTurn(b, cs, c);
      TurnIsPast(b, c);
    }
  }

  lemma MembersAreIdle(b: State, cs: seq<Creator>)
    requires forall c <- cs :: Idle(b, c)
    ensures |b.active + Members(cs)| == |b.active| + |Members(cs)|
  {
    assert b.active !! Members(cs);
  }

  /** A slot stays free while an idle Creator is pending only in a shutdown. */
  lemma SlotsAreUsed(s: State, e: Event)
    requires Valid(s) && Enabled(s, e) && !Next(s, e).stopping && |Next(s, e).active| < s.limit
    ensures forall c | c in Next(s, e).pending :: c in Next(s, e).active
  {
    hide Enabled, Started, Prepared;
    TurnFacts(s, e);
    StartedFacts(s, e);
    PreparedKeepsValid(s, e);
  }

  // ------------------------------------------------------------------------------ runs

  datatype Trace = Trace(events: seq<Event>, states: seq<State>)

  ghost predicate StepAt(r: Trace, i: nat)
    requires i < |r.events| && |r.states| == |r.events| + 1
  {
    Enabled(r.states[i], r.events[i]) && r.states[i + 1] == Next(r.states[i], r.events[i])
  }

  ghost predicate IsRun(r: Trace) {
    && |r.states| == |r.events| + 1
    && r.states[0] == Start(r.states[0].limit)
    && forall i | 0 <= i < |r.events| :: StepAt(r, i)
  }

  ghost function PreparedAt(r: Trace, i: nat): State
    requires i < |r.events| < |r.states|
  {
    Prepared(r.states[i], r.events[i])
  }

  ghost predicate StartsAt(r: Trace, i: nat, c: Creator)
    requires i < |r.events| < |r.states|
  {
    c in Started(PreparedAt(r, i), r.events[i])
  }

  lemma {:induction false} ReachableIsValid(r: Trace, i: nat)
    requires IsRun(r) && i <= |r.events|
    ensures Valid(r.states[i]) && r.states[i].limit == r.states[0].limit
  {
    hide Enabled, Next;
    if i == 0 {
    } else {
      ReachableIsValid(r, i - 1);
      assert StepAt(r, i - 1);
      TurnFacts(r.states[i - 1], r.events[i - 1]);
    }
  }

  predicate Hints(cause: Cause, c: Creator) {
    (cause.Hint? || cause.Tick?) && c in cause.creators
  }

  /** No hint is lost: a Creator hinted since its last start is still pending. */
  lemma {:induction false} HintsSurvive(r: Trace, i: nat, j: nat, c: Creator)
    requires IsRun(r) && i < j <= |r.events| && Hints(r.events[i].cause, c)
    requires forall m | i <= m < j :: !StartsAt(r, m, c)
    ensures c in r.states[j].pending
  {
    hide Enabled, Next, Started;
    ReachableIsValid(r, j - 1);
    assert StepAt(r, j - 1) && !StartsAt(r, j - 1, c);
    TurnFacts(r.states[j - 1], r.events[j - 1]);
    if i == j - 1 {
    } else {
      HintsSurvive(r, i, j - 1, c);
    }
  }

  // -------------------------------------------------------------------------- fairness

  /** `x` is pending and idle at turn `i`, and is not started. */
  ghost predicate Waits(r: Trace, i: nat, x: Creator)
    requires i < |r.events| < |r.states|
  {
    Idle(PreparedAt(r, i), x) && !StartsAt(r, i, x)
  }

  /** At turn `i` nothing keeps `y` in the order: its turn is forgotten. */
  ghost predicate ForgetsAt(r: Trace, i: nat, y: Creator)
    requires i < |r.events| < |r.states|
  {
    y !in Ready(Received(r.states[i], r.events[i].cause))
  }

  lemma StartedComesFirst(s: State, e: Event, x: Creator, y: Creator)
    requires Enabled(s, e)
    requires Idle(Prepared(s, e), x) && x !in Started(Prepared(s, e), e) && y in Started(Prepared(s, e), e)
    ensures Before(Prepared(s, e).lastStarted, y, x)
  {
    hide Prepared;
    var b := Prepared(s, e);
    var idle, cs := Eligible(b, e.order), Started(b, e);
    EligibleSorted(b, b.lastStarted, e.order);
    assert x in Ready(b) && x in idle;
    var i :| 0 <= i < |cs| && cs[i] == y;
    var j :| 0 <= j < |idle| && idle[j] == x;
    assert idle[i] == y;
    assert forall k | 0 <= k < |cs| :: idle[k] == cs[k] && cs[k] in cs;
  }

  /** The turns of `x` and `y` after turn `i` of the run, in terms of those before. */
  lemma TurnsAfter(r: Trace, i: nat, c: Creator)
    requires IsRun(r) && i < |r.events|
    ensures !StartsAt(r, i, c) ==>
              Turn(r.states[i + 1].lastStarted, c) == Turn(PreparedAt(r, i).lastStarted, c)
    ensures StartsAt(r, i, c) ==> Turn(r.states[i + 1].lastStarted, c) >= r.states[i].next
    ensures r.states[i].next <= r.states[i + 1].next
    ensures Turn(PreparedAt(r, i).lastStarted, c)
         == if ForgetsAt(r, i, c) then -1 else Turn(r.states[i].lastStarted, c)
  {
    hide Started, Enabled, StartAll, Eligible;
    assert StepAt(r, i);
    StartAllTurn(PreparedAt(r, i), Started(PreparedAt(r, i), r.events[i]), c);
    StartAllEffect(PreparedAt(r, i), Started(PreparedAt(r, i), r.events[i]));
  }

  ghost predicate ForgottenBetween(r: Trace, i: nat, j: nat, y: Creator)
    requires j <= |r.events| < |r.states|
  {
    exists m | i < m < j :: ForgetsAt(r, m, y)
  }

  /** After a start of `y` that `x` had to wait for, `y` stands behind `x` until its
      turn is forgotten, and then it counts as never started. */
  lemma {:induction false} StandsBehind(r: Trace, i: nat, j: nat, x: Creator, y: Creator)
    requires IsRun(r) && i < j <= |r.events| && StartsAt(r, i, y)
    requires forall m | i <= m < j :: Waits(r, m, x)
    requires forall m | i < m < j :: !StartsAt(r, m, y)
    ensures Turn(r.states[j].lastStarted, x) == Turn(r.states[i].lastStarted, x)
    ensures if ForgottenBetween(r, i, j, y) then Turn(r.states[j].lastStarted, y) == -1
            else Turn(r.states[j].lastStarted, y) > Turn(r.states[i].lastStarted, x)
  {
    hide StepAt, StartsAt, ForgetsAt, Turn, Idle;
    var last := j - 1;
    assert Waits(r, last, x);
    WaiterIsReady(r, last, x);
    TurnsAfter(r, last, x);
    TurnsAfter(r, last, y);
    if j == i + 1 {
      ReachableIsValid(r, i);
      TurnIsPast(r.states[i], x);
      assert !ForgottenBetween(r, i, j, y);
    } else {
      assert !StartsAt(r, last, y);
      StandsBehind(r, i, last, x, y);
      assert ForgottenBetween(r, i, j, y) <==> ForgottenBetween(r, i, last, y) || ForgetsAt(r, last, y);
    }
  }

  lemma WaiterIsReady(r: Trace, i: nat, x: Creator)
    requires i < |r.events| < |r.states| && Idle(PreparedAt(r, i), x)
    ensures !ForgetsAt(r, i, x)
  {
  }

  lemma TurnIsPast(s: State, c: Creator)
    requires Valid(s)
    ensures Turn(s.lastStarted, c) < s.next
  {
  }

  /** Whether `y`, once started while `x` waited, can get ahead of the still waiting `x`:
      exactly if its turn was forgotten in between, and `x` has started before or has
      the higher id. */
  lemma OvertakesExactly(r: Trace, i: nat, j: nat, x: Creator, y: Creator)
    requires IsRun(r) && i < j < |r.events| && StartsAt(r, i, y)
    requires forall m | i <= m <= j :: Waits(r, m, x)
    requires forall m | i < m < j :: !StartsAt(r, m, y)
    ensures Before(PreparedAt(r, j).lastStarted, y, x) <==>
              && ForgottenBetween(r, i, j + 1, y)
              && (Turn(r.states[i].lastStarted, x) >= 0 || y < x)
  {
    hide StepAt, StartsAt, ForgetsAt, Idle;
    StandsBehind(r, i, j, x, y);
    assert Waits(r, j, x);
    WaiterIsReady(r, j, x);
    TurnsAfter(r, j, x);
    TurnsAfter(r, j, y);
    assert ForgottenBetween(r, i, j + 1, y) <==> ForgottenBetween(r, i, j, y) || ForgetsAt(r, j, y);
  }

  /** While `x` waits, no other Creator that stays pending, running or known starts
      twice. */
  lemma AtMostOneStart(r: Trace, i: nat, j: nat, x: Creator, y: Creator)
    requires IsRun(r) && i < j < |r.events|
    requires forall m | i <= m <= j :: Waits(r, m, x)
    requires forall m | i < m <= j :: !ForgetsAt(r, m, y)
    ensures !(StartsAt(r, i, y) && StartsAt(r, j, y))
    decreases j - i
  {
    hide ForgetsAt;
    if StartsAt(r, i, y) && StartsAt(r, j, y) {
      if m :| i < m < j && StartsAt(r, m, y) {
        AtMostOneStart(r, i, m, x, y);
        assert false;
      }
      OvertakesExactly(r, i, j, x, y);
      assert StepAt(r, j) && Waits(r, j, x);
      StartedComesFirst(r.states[j], r.events[j], x, y);
      assert false;
    }
  }

  // -------------------------------------------------------------- where fairness fails

  /** A turn with one free slot and two waiting Creators that never started. */
  lemma LowerIdGoesFirst(s: State, e: Event, a: Creator, b: Creator)
    requires s.limit == 1 && !s.stopping && e.shutdownAfter == None && e.order == [a, b] && a < b
    requires Received(s, e.cause).active == {} && Received(s, e.cause).pending == {a, b}
    requires Received(s, e.cause).known == {} && a !in s.lastStarted && b !in s.lastStarted
    requires e.cause.Joined? ==> e.cause.creator in s.active
    ensures Enabled(s, e)
    ensures Started(Prepared(s, e), e) == [a]
  {
    var p := Prepared(s, e);
    assert Ready(p) == {a, b};
    assert e.order[1..] == [b] && [b][1..] == [];
    assert Eligible(p, [b]) == [b];
    assert Eligible(p, e.order) == [a] + [b];
    assert Allowed(p, None) == 1;
  }

  /** A turn that finds no slot free. */
  lemma NobodyStarts(s: State, e: Event)
    requires |Received(s, e.cause).active| >= s.limit
    ensures Next(s, e) == Prepared(s, e).(stopping := s.stopping || e.shutdownAfter.Some?)
    ensures Started(Prepared(s, e), e) == []
  {
  }

  /** Creator `a` runs, the Creators `waiting` wait, and none of them is known to the
      last enumeration. */
  function OneRuns(a: Creator, turn: nat, next: nat, waiting: set<Creator>): State {
    State(1, {a}, false, map[a := turn], next, waiting, {})
  }

  function HintOf(b: Creator, a: Creator): Event { Event(Hint({b}), [b, 5, a], None) }

  function EndOf(a: Creator, b: Creator): Event { Event(Joined(a), [b, 5], None) }

  lemma StarvationStarts()
    ensures (var e := Event(Hint({1, 5}), [1, 5], None);
             Enabled(Start(1), e) && Next(Start(1), e) == OneRuns(1, 0, 1, {5}))
  {
    var e := Event(Hint({1, 5}), [1, 5], None);
    LowerIdGoesFirst(Start(1), e, 1, 5);
    StartsOne(Start(1), e, 1);
    assert Next(Start(1), e).lastStarted == map[1 := 0];
  }

  lemma StartsOne(s: State, e: Event, c: Creator)
    requires Started(Prepared(s, e), e) == [c]
    ensures Next(s, e) == StartOne(Prepared(s, e), c).(stopping := s.stopping || e.shutdownAfter.Some?)
  {
    var b := Prepared(s, e);
    assert [c][..0] == [];
    assert StartAll(b, []) == b;
  }

  /** Two Creators that never started stand before the running one. */
  lemma OrderOfThree(a: Creator, b: Creator, turn: nat)
    requires a < 5 && b < 5 && a != b
    ensures IsOrder(map[a := turn], {a, b, 5}, [b, 5, a])
  {
    assert Before(map[a := turn], b, 5) && Before(map[a := turn], b, a) && Before(map[a := turn], 5, a);
  }

  lemma HintPrepares(a: Creator, b: Creator, turn: nat, next: nat)
    requires a != b
    ensures (var s, e := OneRuns(a, turn, next, {5}), HintOf(b, a);
             Prepared(s, e) == OneRuns(a, turn, next, {b, 5}) && Ready(Prepared(s, e)) == {a, b, 5})
  {
    var s, e := OneRuns(a, turn, next, {5}), HintOf(b, a);
    assert Ready(Received(s, e.cause)) == {a, b, 5};
    assert KeptTurns(map[a := turn], {a, b, 5}) == map[a := turn];
  }

  lemma HintWhileFull(a: Creator, b: Creator, turn: nat, next: nat)
    requires a < 5 && b < 5 && a != b
    ensures Enabled(OneRuns(a, turn, next, {5}), HintOf(b, a))
    ensures Next(OneRuns(a, turn, next, {5}), HintOf(b, a)) == OneRuns(a, turn, next, {b, 5})
  {
    hide Next, Started, Prepared, IsOrder, Ready;
    var s, e := OneRuns(a, turn, next, {5}), HintOf(b, a);
    NobodyStarts(s, e);
    HintPrepares(a, b, turn, next);
    OrderOfThree(a, b, turn);
  }

  lemma EndPrepares(a: Creator, b: Creator, turn: nat, next: nat)
    requires a < 5 && b < 5 && a != b
    ensures Prepared(OneRuns(a, turn, next, {b, 5}), EndOf(a, b)) == State(1, {}, false, map[], next, {b, 5}, {})
  {
    var s, e := OneRuns(a, turn, next, {b, 5}), EndOf(a, b);
    assert Ready(Received(s, e.cause)) == {b, 5};
    assert KeptTurns(map[a := turn], {b, 5}) == map[];
  }

  lemma EndAndStart(a: Creator, b: Creator, turn: nat, next: nat)
    requires a < 5 && b < 5 && a != b
    ensures Enabled(OneRuns(a, turn, next, {b, 5}), EndOf(a, b))
    ensures Next(OneRuns(a, turn, next, {b, 5}), EndOf(a, b)) == OneRuns(b, next, next + 1, {5})
  {
    hide Started, Enabled, Prepared, Next;
    var s, e := OneRuns(a, turn, next, {b, 5}), EndOf(a, b);
    LowerIdGoesFirst(s, e, b, 5);
    StartsOne(s, e, b);
    EndPrepares(a, b, turn, next);
    assert map[][b := next] == map[b := next] && {} + {b} == {b} && {b, 5} - {b} == {5};
  }

  ghost predicate Takes(s: State, e: Event, t: State) { Enabled(s, e) && Next(s, e) == t }

  /** Without an enumeration that knows them, two Creators can start in turn while a
      third waits, and end up where they began. */
  lemma StarvationCycle(turn: nat, next: nat)
    ensures Takes(OneRuns(1, turn, next, {5}), HintOf(2, 1), OneRuns(1, turn, next, {2, 5}))
    ensures Takes(OneRuns(1, turn, next, {2, 5}), EndOf(1, 2), OneRuns(2, next, next + 1, {5}))
    ensures Takes(OneRuns(2, next, next + 1, {5}), HintOf(1, 2), OneRuns(2, next, next + 1, {1, 5}))
    ensures Takes(OneRuns(2, next, next + 1, {1, 5}), EndOf(2, 1), OneRuns(1, next + 1, next + 2, {5}))
  {
    hide Next, Enabled;
    HintWhileFull(1, 2, turn, next);
    EndAndStart(1, 2, turn, next);
    HintWhileFull(2, 1, next, next + 1);
    EndAndStart(2, 1, next, next + 1);
  }

  // --------------------------------------------------------------------- the operations

  class Scheduler {
    const limit: nat
    var active: set<Creator>
    var stopping: bool
    var lastStarted: map<Creator, nat>
    var next: nat
    var pending: set<Creator>
    var known: set<Creator>

    ghost function View(): State
      reads this
    {
      State(limit, active, stopping, lastStarted, next, pending, known)
    }

    constructor (limit: nat)
      ensures View() == Start(limit)
    {
      this.limit := limit;
      active, stopping, lastStarted, next, pending, known := {}, false, map[], 0, {}, {};
    }

    method Receive(cause: Cause)
      modifies this
      ensures View() == Received(old(View()), cause)
    {
      match cause {
        case Hint(creators) => pending := pending + creators;
        case Tick(creators) => pending, known := pending + creators, creators;
        case TickFailed =>
        case Joined(creator) => active := active - {creator};
      }
    }

    method First(ready: set<Creator>) returns (c: Creator)
      requires ready != {}
      ensures c in ready && forall d <- ready :: d == c || Before(lastStarted, c, d)
    {
      c :| c in ready;
      var rest := ready - {c};
      while rest != {}
        invariant rest <= ready && c in ready && c !in rest
        invariant forall d <- ready :: d in rest || d == c || Before(lastStarted, c, d)
        decreases rest
      {
        var d :| d in rest;
        rest := rest - {d};
        if Before(lastStarted, d, c) { c := d; }
      }
    }

    /** Forgets the Creators that are not ready and orders the others. */
    method Order(ready: set<Creator>) returns (order: seq<Creator>)
      modifies this`lastStarted
      ensures lastStarted == KeptTurns(old(lastStarted), ready)
      ensures IsOrder(lastStarted, ready, order)
    {
      lastStarted := map c | c in lastStarted && c in ready :: lastStarted[c];
      order := [];
      var rest := ready;
      while rest != {}
        invariant lastStarted == KeptTurns(old(lastStarted), ready)
        invariant rest <= ready && Sorted(lastStarted, order)
        invariant forall c <- order :: c in ready
        invariant forall i, d | 0 <= i < |order| && d in rest :: Before(lastStarted, order[i], d)
        invariant forall c <- ready :: c in order || c in rest
        decreases rest
      {
        var c := First(rest);
        order := order + [c];
        rest := rest - {c};
      }
    }

    method TrySpawn(c: Creator, stopped: bool) returns (spawned: bool)
      modifies this`active
      ensures spawned == (!stopped && |old(active)| < limit && c !in old(active))
      ensures active == if spawned then old(active) + {c} else old(active)
    {
      spawned := !stopped && |active| < limit && c !in active;
      if spawned { active := active + {c}; }
    }

    method StartIfIdle(c: Creator, running: set<Creator>, stopped: bool) returns (spawned: bool)
      modifies this
      ensures spawned == (c !in running && Idle(old(View()), c) && !stopped && |old(active)| < limit)
      ensures View() == if spawned then StartOne(old(View()), c) else old(View())
    {
      if c in running || c !in pending {
        return false;
      }
      spawned := TrySpawn(c, stopped);
      if spawned {
        lastStarted, next := lastStarted[c := next], next + 1;
        pending := pending - {c};
      }
    }

    /** Starts passes in the free slots, one Creator after the other. */
    method StartPasses(shutdownAfter: Option<nat>) returns (order: seq<Creator>)
      requires Valid(View())
      modifies this
      ensures (var b := Forgotten(old(View()));
               && IsOrder(b.lastStarted, Ready(b), order)
               && View() == StartAll(b, Cut(Eligible(b, order), Allowed(b, shutdownAfter)))
                            .(stopping := b.stopping || shutdownAfter.Some?))
    {
      hide Eligible, Cut, StartAll, StartOne, Sorted;
      var running := active;
      order := Order(pending + active + known);
      ghost var b := View();
      assert b == Forgotten(old(View()));
      ghost var n := Allowed(b, shutdownAfter);
      ghost var done: seq<Creator> := [];
      NothingDone(b, order, n);
      var count := 0;
      var i := 0;
      while i < |order| && |active| < limit
        invariant 0 <= i <= |order|
        invariant done == Cut(Eligible(b, order[..i]), n) && View() == StartAll(b, done) && count == |done|
        decreases |order| - i
      {
        StartAllEffect(b, done);
        DoneFacts(b, order, i, done, n);
        ConsiderOne(b, order, i, done, n);
        var stopped := stopping || (shutdownAfter.Some? && count >= shutdownAfter.value);
        var spawned := StartIfIdle(order[i], running, stopped);
        if spawned {
          count := count + 1;
          done := done + [order[i]];
        }
        i := i + 1;
      }
      StartAllEffect(b, done);
      DoneIsAll(b, order, i, done, n);
      stopping := stopping || shutdownAfter.Some?;
    }
  }

  lemma NothingDone(b: State, order: seq<Creator>, n: nat)
    ensures [] == Cut(Eligible(b, order[..0]), n) && StartAll(b, []) == b
  {
    assert order[..0] == [];
  }

  /** How the list of started Creators grows by the next one in the order. */
  lemma ConsiderOne(b: State, order: seq<Creator>, i: nat, done: seq<Creator>, n: nat)
    requires i < |order| && done == Cut(Eligible(b, order[..i]), n)
    ensures Cut(Eligible(b, order[..i + 1]), n)
         == if Idle(b, order[i]) && |done| < n then done + [order[i]] else done
    ensures StartAll(b, done + [order[i]]) == StartOne(StartAll(b, done), order[i])
  {
    EligiblePush(b, order, i);
    hide Eligible, StartOne;
    assert (done + [order[i]])[..|done|] == done;
  }

  /** The first Creator, if it is idle. */
  function Head(s: State, c: Creator): seq<Creator> { if Idle(s, c) then [c] else [] }

  lemma EligibleCons(s: State, c: Creator, rest: seq<Creator>)
    ensures Eligible(s, [c] + rest) == Head(s, c) + Eligible(s, rest)
  {
    assert ([c] + rest)[1..] == rest;
  }

  lemma Regroup(a: seq<Creator>, b: seq<Creator>, c: seq<Creator>)
    ensures a + (b + c) == (a + b) + c
  {
  }

  lemma {:induction false} EligibleConcat(s: State, a: seq<Creator>, b: seq<Creator>)
    ensures Eligible(s, a + b) == Eligible(s, a) + Eligible(s, b)
  {
    hide Idle, Head;
    if a == [] {
      assert a + b == b;
    } else {
      hide Eligible;
      var c, rest := [a[0]], a[1..];
      assert a == c + rest;
      Regroup(c, rest, b);
      EligibleConcat(s, rest, b);
      EligibleCons(s, a[0], rest);
      EligibleCons(s, a[0], rest + b);
      Regroup(Head(s, a[0]), Eligible(s, rest), Eligible(s, b));
    }
  }

  lemma EligiblePush(s: State, order: seq<Creator>, i: nat)
    requires i < |order|
    ensures Eligible(s, order[..i + 1]) == Eligible(s, order[..i]) + if Idle(s, order[i]) then [order[i]] else []
  {
    assert order[..i + 1] == order[..i] + [order[i]];
    EligibleConcat(s, order[..i], [order[i]]);
    assert [order[i]][1..] == [];
  }

  lemma DoneFacts(b: State, order: seq<Creator>, i: nat, done: seq<Creator>, n: nat)
    requires i < |order| && Sorted(b.lastStarted, order) && done == Cut(Eligible(b, order[..i]), n)
    ensures order[i] !in done && Distinct(done) && |b.active + Members(done)| == |b.active| + |done|
    ensures order[i] !in Members(done)
  {
    EligibleIsDistinct(b, order[..i], b.lastStarted);
    forall k | 0 <= k < |done| ensures done[k] in order[..i] { assert done[k] in Eligible(b, order[..i]); }
    assert order[i] !in order[..i];
    MembersSize(done);
    forall c <- done ensures Idle(b, c) { assert c in Eligible(b, order[..i]); }
    MembersAreIdle(b, done);
  }

  lemma EligibleIsDistinct(b: State, order: seq<Creator>, turns: map<Creator, nat>)
    requires Sorted(turns, order)
    ensures Distinct(Eligible(b, order))
  {
    EligibleSorted(b, turns, order);
  }

  lemma DoneIsAll(b: State, order: seq<Creator>, i: nat, done: seq<Creator>, n: nat)
    requires i <= |order| && Sorted(b.lastStarted, order) && done == Cut(Eligible(b, order[..i]), n)
    requires n <= Slots(b) && (i == |order| || |b.active + Members(done)| >= b.limit)
    ensures done == Cut(Eligible(b, order), n)
  {
    hide Eligible, Sorted, Members;
    assert order == order[..i] + order[i..];
    EligibleConcat(b, order[..i], order[i..]);
    if i < |order| {
      DoneFacts(b, order, i, done, n);
    } else {
      assert order[..i] == order;
    }
  }
}
