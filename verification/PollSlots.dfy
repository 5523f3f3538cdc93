/**
 The two-level bound on waiting polls: a counter per flow and one for all flows.

 Each atomic operation is one event. A poll reserves on its flow's counter, then on
 the total; a refused total is followed by a separate undo on the flow's counter; a
 dropped lease gives back first one, then the other. A flow's counter outlives the
 flow, so a poll is tied to the counter and not to the flow.
 */
module PollSlots {
  const USIZE_SPACE: nat := 0x1_0000_0000_0000_0000

  type Usize = n: nat | n < USIZE_SPACE
  type Counter = nat
  type Poll = nat

  /** Where a poll stands between its atomic operations. */
  datatype Phase =
    | HasFlow      // reserved on the flow's counter only
    | Refused      // the total was full: the flow's counter is still to be undone
    | Leased       // reserved on both
    | HalfDropped  // the flow's counter was given back, the total not yet

  datatype Slot = Slot(counter: Counter, phase: Phase)

  datatype State = State(
    perFlow: Usize,
    maximum: Usize,
    flowPolls: map<Counter, Usize>,
    totalPolls: Usize,
    polls: map<Poll, Slot>)

  datatype Event =
    | NewFlow(counter: Counter)
    | ReserveFlow(poll: Poll, counter: Counter)
    | ReserveTotal(poll: Poll)
    | Undo(poll: Poll)
    | DropFlow(poll: Poll)
    | DropTotal(poll: Poll)

  function Start(perFlow: Usize, maximum: Usize): State { State(perFlow, maximum, map[], 0, map[]) }

  /** The atomic subtraction wraps around at zero. */
  function WrappingDec(n: Usize): Usize { if n == 0 then USIZE_SPACE - 1 else n - 1 }

  predicate InPhase(s: State, poll: Poll, phase: Phase) {
    poll in s.polls && s.polls[poll].phase == phase && s.polls[poll].counter in s.flowPolls
  }

  predicate Enabled(s: State, e: Event) {
    match e
    case NewFlow(counter) => counter !in s.flowPolls
    case ReserveFlow(poll, counter) => poll !in s.polls && counter in s.flowPolls
    case ReserveTotal(poll) => InPhase(s, poll, HasFlow)
    case Undo(poll) => InPhase(s, poll, Refused)
    case DropFlow(poll) => InPhase(s, poll, Leased)
    case DropTotal(poll) => InPhase(s, poll, HalfDropped)
  }

  function Moved(s: State, poll: Poll, phase: Phase): State
    requires poll in s.polls
  {
    s.(polls := s.polls[poll := s.polls[poll].(phase := phase)])
  }

  function FlowDown(s: State, counter: Counter): State
    requires counter in s.flowPolls
  {
    s.(flowPolls := s.flowPolls[counter := WrappingDec(s.flowPolls[counter])])
  }

  function Next(s: State, e: Event): State
    requires Enabled(s, e)
  {
    match e
    case NewFlow(counter) => s.(flowPolls := s.flowPolls[counter := 0])
    case ReserveFlow(poll, counter) =>
      if s.flowPolls[counter] < s.perFlow then
        s.(flowPolls := s.flowPolls[counter := s.flowPolls[counter] + 1],
           polls := s.polls[poll := Slot(counter, HasFlow)])
      else s
    case ReserveTotal(poll) =>
      if s.totalPolls < s.maximum then Moved(s.(totalPolls := s.totalPolls + 1), poll, Leased)
      else Moved(s, poll, Refused)
    case Undo(poll) => FlowDown(s, s.polls[poll].counter).(polls := s.polls - {poll})
    case DropFlow(poll) => Moved(FlowDown(s, s.polls[poll].counter), poll, HalfDropped)
    case DropTotal(poll) => s.(totalPolls := WrappingDec(s.totalPolls), polls := s.polls - {poll})
  }

  // --------------------------------------------------------------------- the counters

  predicate HoldsFlow(slot: Slot, counter: Counter) {
    slot.counter == counter && slot.phase != HalfDropped
  }

  predicate HoldsTotal(slot: Slot) { slot.phase == Leased || slot.phase == HalfDropped }

  function FlowHolders(polls: map<Poll, Slot>, counter: Counter): set<Poll> {
    set p | p in polls && HoldsFlow(polls[p], counter)
  }

  function TotalHolders(polls: map<Poll, Slot>): set<Poll> {
    set p | p in polls && HoldsTotal(polls[p])
  }

  ghost predicate FlowExact(s: State, c: Counter) {
    c in s.flowPolls ==> s.flowPolls[c] == |FlowHolders(s.polls, c)| <= s.perFlow
  }

  ghost predicate TotalExact(s: State) { s.totalPolls == |TotalHolders(s.polls)| <= s.maximum }

  ghost predicate Tied(s: State) { forall p | p in s.polls :: s.polls[p].counter in s.flowPolls }

  /** Each counter is exactly the number of polls that still hold it, and within its
      bound. */
  ghost predicate Valid(s: State) { TotalExact(s) && Tied(s) && forall c: Counter :: FlowExact(s, c) }

  /** How replacing one poll's slot moves the holders of a counter. */
  lemma HoldersMove(polls: map<Poll, Slot>, poll: Poll, slot: Slot, c: Counter)
    ensures FlowHolders(polls[poll := slot], c)
         == if HoldsFlow(slot, c) then FlowHolders(polls, c) + {poll} else FlowHolders(polls, c) - {poll}
    ensures TotalHolders(polls[poll := slot])
         == if HoldsTotal(slot) then TotalHolders(polls) + {poll} else TotalHolders(polls) - {poll}
  {
  }

  lemma HoldersDrop(polls: map<Poll, Slot>, poll: Poll, c: Counter)
    ensures FlowHolders(polls - {poll}, c) == FlowHolders(polls, c) - {poll}
    ensures TotalHolders(polls - {poll}) == TotalHolders(polls) - {poll}
  {
  }

  lemma ReserveKeepsFlow(s: State, e: Event, c: Counter)
    requires FlowExact(s, c) && Tied(s) && Enabled(s, e) && (e.NewFlow? || e.ReserveFlow?)
    ensures FlowExact(Next(s, e), c)
  {
    hide FlowHolders;
    if e.NewFlow? {
      Unheld(s, e.counter);
    } else {
      HoldersMove(s.polls, e.poll, Slot(e.counter, HasFlow), c);
      NotHolder(s.polls, e.poll, c);
    }
  }

  lemma MoveKeepsFlow(s: State, e: Event, c: Counter)
    requires FlowExact(s, c) && Enabled(s, e) && (e.ReserveTotal? || e.DropFlow?)
    ensures FlowExact(Next(s, e), c)
  {
    hide FlowHolders;
    HoldersMove(s.polls, e.poll, Next(s, e).polls[e.poll], c);
    Holder(s.polls, e.poll, c);
  }

  lemma DropKeepsFlow(s: State, e: Event, c: Counter)
    requires FlowExact(s, c) && Enabled(s, e) && (e.Undo? || e.DropTotal?)
    ensures FlowExact(Next(s, e), c)
  {
    hide FlowHolders;
    HoldersDrop(s.polls, e.poll, c);
    Holder(s.polls, e.poll, c);
  }

  lemma NextKeepsFlow(s: State, e: Event, c: Counter)
    requires FlowExact(s, c) && Tied(s) && Enabled(s, e)
    ensures FlowExact(Next(s, e), c)
  {
    hide FlowExact, Tied, Enabled, Next;
    if e.NewFlow? || e.ReserveFlow? {
      ReserveKeepsFlow(s, e, c);
    } else if e.ReserveTotal? || e.DropFlow? {
      MoveKeepsFlow(s, e, c);
    } else {
      DropKeepsFlow(s, e, c);
    }
  }

  lemma ReserveKeepsTotal(s: State, e: Event)
    requires TotalExact(s) && Enabled(s, e) && (e.NewFlow? || e.ReserveFlow?)
    ensures TotalExact(Next(s, e))
  {
    hide TotalHolders, FlowHolders;
    if e.ReserveFlow? {
      HoldersMove(s.polls, e.poll, Slot(e.counter, HasFlow), 0);
      NotHolder(s.polls, e.poll, 0);
    }
  }

  lemma MoveKeepsTotal(s: State, e: Event)
    requires TotalExact(s) && Enabled(s, e) && (e.ReserveTotal? || e.DropFlow?)
    ensures TotalExact(Next(s, e))
  {
    hide TotalHolders, FlowHolders;
    HoldersMove(s.polls, e.poll, Next(s, e).polls[e.poll], 0);
    Holder(s.polls, e.poll, 0);
  }

  lemma DropKeepsTotal(s: State, e: Event)
    requires TotalExact(s) && Enabled(s, e) && (e.Undo? || e.DropTotal?)
    ensures TotalExact(Next(s, e))
  {
    hide TotalHolders, FlowHolders;
    HoldersDrop(s.polls, e.poll, 0);
    Holder(s.polls, e.poll, 0);
  }

  lemma NextKeepsTotal(s: State, e: Event)
    requires TotalExact(s) && Enabled(s, e)
    ensures TotalExact(Next(s, e))
  {
    hide TotalExact, Enabled, Next;
    if e.NewFlow? || e.ReserveFlow? {
      ReserveKeepsTotal(s, e);
    } else if e.ReserveTotal? || e.DropFlow? {
      MoveKeepsTotal(s, e);
    } else {
      DropKeepsTotal(s, e);
    }
  }

  lemma Holder(polls: map<Poll, Slot>, poll: Poll, c: Counter)
    requires poll in polls
    ensures poll in FlowHolders(polls, c) <==> HoldsFlow(polls[poll], c)
    ensures poll in TotalHolders(polls) <==> HoldsTotal(polls[poll])
    ensures poll in FlowHolders(polls, c) ==> FlowHolders(polls, c) + {poll} == FlowHolders(polls, c)
    ensures poll !in FlowHolders(polls, c) ==> FlowHolders(polls, c) - {poll} == FlowHolders(polls, c)
    ensures poll in TotalHolders(polls) ==> TotalHolders(polls) + {poll} == TotalHolders(polls)
    ensures poll !in TotalHolders(polls) ==> TotalHolders(polls) - {poll} == TotalHolders(polls)
  {
  }

  lemma NotHolder(polls: map<Poll, Slot>, poll: Poll, c: Counter)
    requires poll !in polls
    ensures poll !in FlowHolders(polls, c) && poll !in TotalHolders(polls)
    ensures FlowHolders(polls, c) - {poll} == FlowHolders(polls, c)
    ensures TotalHolders(polls) - {poll} == TotalHolders(polls)
  {
  }

  lemma Unheld(s: State, counter: Counter)
    requires Tied(s) && counter !in s.flowPolls
    ensures FlowHolders(s.polls, counter) == {}
  {
  }

  lemma NextKeepsTied(s: State, e: Event)
    requires Tied(s) && Enabled(s, e)
    ensures Tied(Next(s, e))
  {
  }

  lemma NextKeepsValid(s: State, e: Event)
    requires Valid(s) && Enabled(s, e)
    ensures Valid(Next(s, e))
  {
    hide Next, Enabled, FlowExact, TotalExact, Tied;
    NextKeepsTotal(s, e);
    NextKeepsTied(s, e);
    forall c: Counter ensures FlowExact(Next(s, e), c) { NextKeepsFlow(s, e, c); }
  }

  // ---------------------------------------------------------------------------- runs

  datatype Trace = Trace(events: seq<Event>, states: seq<State>)

  ghost predicate StepAt(r: Trace, i: nat)
    requires i < |r.events| && |r.states| == |r.events| + 1
  {
    Enabled(r.states[i], r.events[i]) && r.states[i + 1] == Next(r.states[i], r.events[i])
  }

  ghost predicate IsRun(r: Trace) {
    && |r.states| == |r.events| + 1
    && r.states[0] == Start(r.states[0].perFlow, r.states[0].maximum)
    && forall i | 0 <= i < |r.events| :: StepAt(r, i)
  }

  /** The counter an event subtracts from is not zero, so nothing wraps around. */
  ghost predicate SubtractsOne(s: State, e: Event) {
    match e
    case Undo(poll) => InPhase(s, poll, Refused) && s.flowPolls[s.polls[poll].counter] > 0
    case DropFlow(poll) => InPhase(s, poll, Leased) && s.flowPolls[s.polls[poll].counter] > 0
    case DropTotal(poll) => s.totalPolls > 0
    case _ => true
  }

  /** Under every interleaving of the two-step acquire, its undo and the two-step
      drop, the counters equal exactly the slots still held and stay within their
      bounds, and no subtraction wraps around. */
  lemma {:induction false} CountersAreExact(r: Trace, i: nat)
    requires IsRun(r) && i <= |r.events|
    ensures Valid(r.states[i])
    ensures i < |r.events| ==> SubtractsOne(r.states[i], r.events[i])
  {
    hide Valid, Enabled, Next, SubtractsOne;
    if i > 0 {
      CountersAreExact(r, i - 1);
      assert StepAt(r, i - 1);
      NextKeepsValid(r.states[i - 1], r.events[i - 1]);
    } else {
      StartIsValid(r.states[0].perFlow, r.states[0].maximum);
    }
    if i < |r.events| {
      assert StepAt(r, i);
      HeldIsPositive(r.states[i], r.events[i]);
    }
  }

  lemma StartIsValid(perFlow: Usize, maximum: Usize)
    ensures Valid(Start(perFlow, maximum))
  {
    assert TotalHolders(Start(perFlow, maximum).polls) == {};
  }

  lemma HeldIsPositive(s: State, e: Event)
    requires Valid(s) && Enabled(s, e)
    ensures SubtractsOne(s, e)
  {
    if e.Undo? || e.DropFlow? {
      assert e.poll in FlowHolders(s.polls, s.polls[e.poll].counter);
      assert FlowExact(s, s.polls[e.poll].counter);
    }
    if e.DropTotal? { assert e.poll in TotalHolders(s.polls); }
  }

  lemma {:induction false} LimitsStay(r: Trace, i: nat)
    requires IsRun(r) && i <= |r.events|
    ensures r.states[i].perFlow == r.states[0].perFlow && r.states[i].maximum == r.states[0].maximum
  {
    if i == 0 {
    } else {
      LimitsStay(r, i - 1);
      assert StepAt(r, i - 1);
    }
  }

  /** In any run a poll gets a slot of its flow exactly if fewer polls than the limit hold
      one, and then one of the total exactly if fewer than the maximum do. */
  lemma ReservesExactly(r: Trace, i: nat)
    requires IsRun(r) && i < |r.events|
    ensures r.events[i].ReserveFlow? ==>
              (r.events[i].poll in r.states[i + 1].polls <==>
                 |FlowHolders(r.states[i].polls, r.events[i].counter)| < r.states[0].perFlow)
    ensures r.events[i].ReserveTotal? ==>
              && r.events[i].poll in r.states[i + 1].polls
              && r.states[i + 1].polls[r.events[i].poll].phase
                 == if |TotalHolders(r.states[i].polls)| < r.states[0].maximum then Leased else Refused
  {
    CountersAreExact(r, i);
    LimitsStay(r, i);
    assert StepAt(r, i);
    if r.events[i].ReserveFlow? { assert FlowExact(r.states[i], r.events[i].counter); }
  }

  /** Once every poll has gone, nothing is left behind on any counter. */
  lemma NothingLeaks(r: Trace, i: nat)
    requires IsRun(r) && i <= |r.events| && r.states[i].polls == map[]
    ensures r.states[i].totalPolls == 0
    ensures forall c | c in r.states[i].flowPolls :: r.states[i].flowPolls[c] == 0
  {
    CountersAreExact(r, i);
    assert TotalHolders(map[]) == {};
    forall c | c in r.states[i].flowPolls ensures r.states[i].flowPolls[c] == 0 {
      assert FlowExact(r.states[i], c);
      assert FlowHolders(map[], c) == {};
    }
  }

  // --------------------------------------------------------------------- the operations

  class PollCounters {
    const perFlow: Usize
    const maximum: Usize
    var flowPolls: map<Counter, Usize>
    var totalPolls: Usize
    ghost var polls: map<Poll, Slot>

    ghost function View(): State
      reads this
    {
      State(perFlow, maximum, flowPolls, totalPolls, polls)
    }

    constructor (perFlow: Usize, maximum: Usize)
      ensures View() == Start(perFlow, maximum)
    {
      this.perFlow, this.maximum := perFlow, maximum;
      flowPolls, totalPolls, polls := map[], 0, map[];
    }

    method ReserveOnFlow(ghost poll: Poll, counter: Counter) returns (reserved: bool)
      requires Enabled(View(), ReserveFlow(poll, counter))
      modifies this
      ensures View() == Next(old(View()), ReserveFlow(poll, counter))
      ensures reserved <==> poll in polls
    {
      reserved := flowPolls[counter] < perFlow;
      if reserved {
        flowPolls := flowPolls[counter := flowPolls[counter] + 1];
        polls := polls[poll := Slot(counter, HasFlow)];
      }
    }

    method ReserveOnTotal(ghost poll: Poll) returns (reserved: bool)
      requires Enabled(View(), ReserveTotal(poll))
      modifies this
      ensures View() == Next(old(View()), ReserveTotal(poll))
      ensures polls[poll].phase == if reserved then Leased else Refused
    {
      reserved := totalPolls < maximum;
      if reserved {
        totalPolls := totalPolls + 1;
      }
      polls := polls[poll := polls[poll].(phase := if reserved then Leased else Refused)];
    }

    method GiveBackFlow(ghost poll: Poll, counter: Counter)
      requires Enabled(View(), Undo(poll)) || Enabled(View(), DropFlow(poll))
      requires counter == polls[poll].counter
      modifies this
      ensures View() == Next(old(View()), if old(polls)[poll].phase == Refused then Undo(poll) else DropFlow(poll))
    {
      flowPolls := flowPolls[counter := WrappingDec(flowPolls[counter])];
      polls := if polls[poll].phase == Refused then polls - {poll}
               else polls[poll := polls[poll].(phase := HalfDropped)];
    }

    method GiveBackTotal(ghost poll: Poll)
      requires Enabled(View(), DropTotal(poll))
      modifies this
      ensures View() == Next(old(View()), DropTotal(poll))
    {
      totalPolls := WrappingDec(totalPolls);
      polls := polls - {poll};
    }
  }
}
