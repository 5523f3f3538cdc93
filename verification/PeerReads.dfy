/**
 One unfinished peer-state read per Creator and Reader, shared through a registry of
 weak references.

 Every lookup, every start, end or cancellation of a read and every delivery of its
 result is one event.
 */
module PeerReads {
  type Key = nat  // a Creator and a Reader
  type Cell = nat
  type Caller = nat
  type Answer = nat

  datatype Waiting = Waiting(cell: Cell, reading: bool)

  datatype State = State(
    registry: map<Key, Cell>,        // weak references
    keys: map<Cell, Key>,            // history: what each cell was made for
    results: map<Cell, Answer>,      // cells whose read has finished
    callers: map<Caller, Waiting>)   // strong references

  const START: State := State(map[], map[], map[], map[])

  datatype Event =
    | Ask(caller: Caller, key: Key, made: Cell)
    | BeginRead(caller: Caller)
    | FinishRead(caller: Caller, answer: Answer)
    | Cancel(caller: Caller)
    | Deliver(caller: Caller)

  predicate Alive(callers: map<Caller, Waiting>, cell: Cell) {
    exists c | c in callers :: callers[c].cell == cell
  }

  predicate BeingRead(callers: map<Caller, Waiting>, cell: Cell) {
    exists c | c in callers :: callers[c].cell == cell && callers[c].reading
  }

  /** A cell has one reader at a time; when a reader is cancelled, another caller of the
      cell may begin again. */
  predicate Enabled(s: State, e: Event) {
    match e
    case Ask(caller, _, made) => caller !in s.callers && made !in s.keys
    case BeginRead(caller) =>
      caller in s.callers && s.callers[caller].cell !in s.results && !BeingRead(s.callers, s.callers[caller].cell)
    case FinishRead(caller, _) => caller in s.callers && s.callers[caller].reading
    case Cancel(caller) => caller in s.callers
    case Deliver(caller) => caller in s.callers && s.callers[caller].cell in s.results
  }

  /** Entries of finished or abandoned reads are dropped. */
  function Retained(s: State): map<Key, Cell> {
    map k | k in s.registry && Alive(s.callers, s.registry[k]) && s.registry[k] !in s.results :: s.registry[k]
  }

  function Next(s: State, e: Event): State
    requires Enabled(s, e)
  {
    match e
    case Ask(caller, key, made) =>
      var registry := Retained(s);
      if key in registry then s.(registry := registry, callers := s.callers[caller := Waiting(registry[key], false)])
      else s.(registry := registry[key := made], keys := s.keys[made := key],
              callers := s.callers[caller := Waiting(made, false)])
    case BeginRead(caller) => s.(callers := s.callers[caller := s.callers[caller].(reading := true)])
    case FinishRead(caller, answer) =>
      s.(results := s.results[s.callers[caller].cell := answer],
         callers := s.callers[caller := s.callers[caller].(reading := false)])
    case Cancel(caller) => s.(callers := s.callers - {caller})
    case Deliver(caller) => s.(callers := s.callers - {caller})
  }

  ghost predicate CallerFits(s: State, c: Caller)
    requires c in s.callers
  {
    var cell := s.callers[c].cell;
    && cell in s.keys
    && (cell !in s.results ==> s.keys[cell] in s.registry && s.registry[s.keys[cell]] == cell)
    && (s.callers[c].reading ==> cell !in s.results)
  }

  ghost predicate SameReader(s: State, c: Caller, d: Caller)
    requires c in s.callers && d in s.callers
  {
    s.callers[c].cell == s.callers[d].cell && s.callers[c].reading && s.callers[d].reading ==> c == d
  }

  /** A caller's unfinished cell is the registered one of its key; a cell has at most
      one reader, and only while it is unfinished. */
  ghost predicate Valid(s: State) {
    && (forall k | k in s.registry :: s.registry[k] in s.keys && s.keys[s.registry[k]] == k)
    && (forall cell | cell in s.results :: cell in s.keys)
    && (forall c | c in s.callers :: CallerFits(s, c))
    && (forall c, d | c in s.callers && d in s.callers :: SameReader(s, c, d))
  }

  lemma NextKeepsCallers(s: State, e: Event, c: Caller)
    requires Valid(s) && Enabled(s, e) && c in Next(s, e).callers
    ensures CallerFits(Next(s, e), c)
  {
    if c in s.callers {
      assert CallerFits(s, c);
      assert Alive(s.callers, s.callers[c].cell);
      if e.FinishRead? { assert SameReader(s, c, e.caller); }
    }
  }

  lemma NextKeepsReaders(s: State, e: Event, c: Caller, d: Caller)
    requires Valid(s) && Enabled(s, e) && c in Next(s, e).callers && d in Next(s, e).callers
    ensures SameReader(Next(s, e), c, d)
  {
    if c in s.callers && d in s.callers { assert SameReader(s, c, d); }
  }

  lemma NextKeepsValid(s: State, e: Event)
    requires Valid(s) && Enabled(s, e)
    ensures Valid(Next(s, e))
  {
    var t := Next(s, e);
    forall c | c in t.callers ensures CallerFits(t, c) { NextKeepsCallers(s, e, c); }
    forall c, d | c in t.callers && d in t.callers ensures SameReader(t, c, d) { NextKeepsReaders(s, e, c, d); }
    if e.FinishRead? { assert CallerFits(s, e.caller); }
  }

  /** A call leaves only entries of unfinished reads that somebody waits for, and loses none. */
  lemma AskPrunes(s: State, e: Event, k: Key)
    requires Valid(s) && Enabled(s, e) && e.Ask?
    ensures k in Next(s, e).registry <==>
              exists c | c in Next(s, e).callers :: WaitsFor(Next(s, e), c, k)
  {
    NextKeepsValid(s, e);
    var t := Next(s, e);
    if k in t.registry {
      if k == e.key {
        assert WaitsFor(t, e.caller, k);
      } else {
        var c :| c in s.callers && s.callers[c].cell == s.registry[k];
        assert WaitsFor(t, c, k);
      }
    }
    if c :| c in t.callers && WaitsFor(t, c, k) { assert CallerFits(t, c); }
  }

  /** The caller waits for an unfinished read of the key. */
  ghost predicate WaitsFor(s: State, c: Caller, k: Key) {
    c in s.callers && s.callers[c].cell !in s.results && s.callers[c].cell in s.keys && s.keys[s.callers[c].cell] == k
  }

  datatype Trace = Trace(events: seq<Event>, states: seq<State>)

  ghost predicate StepAt(r: Trace, i: nat)
    requires i < |r.events| && |r.states| == |r.events| + 1
  {
    Enabled(r.states[i], r.events[i]) && r.states[i + 1] == Next(r.states[i], r.events[i])
  }

  ghost predicate IsRun(r: Trace) {
    && |r.states| == |r.events| + 1 && r.states[0] == START
    && forall i | 0 <= i < |r.events| :: StepAt(r, i)
  }

  lemma {:induction false} ReachableIsValid(r: Trace, i: nat)
    requires IsRun(r) && i <= |r.events|
    ensures Valid(r.states[i])
  {
    hide Enabled, Next;
    if i == 0 {
    } else {
      ReachableIsValid(r, i - 1);
      assert StepAt(r, i - 1);
      NextKeepsValid(r.states[i - 1], r.events[i - 1]);
    }
  }

  ghost predicate ReadsKey(s: State, c: Caller, key: Key) {
    c in s.callers && s.callers[c].reading && s.callers[c].cell in s.keys && s.keys[s.callers[c].cell] == key
  }

  /** Under every interleaving of calls, cancellations, retries and deliveries, at most
      one read per Creator and Reader is unfinished. */
  lemma OneReadPerKey(r: Trace, i: nat, key: Key, a: Caller, b: Caller)
    requires IsRun(r) && i <= |r.events| && ReadsKey(r.states[i], a, key) && ReadsKey(r.states[i], b, key)
    ensures a == b
  {
    ReachableIsValid(r, i);
    var s := r.states[i];
    assert CallerFits(s, a) && CallerFits(s, b) && SameReader(s, a, b);
  }

  /** Event `m` finishes the read of `cell` with `answer`. */
  ghost predicate Finishes(r: Trace, m: nat, cell: Cell, answer: Answer)
    requires m < |r.events| < |r.states|
  {
    && r.events[m].FinishRead? && r.events[m].answer == answer
    && r.events[m].caller in r.states[m].callers && r.states[m].callers[r.events[m].caller].cell == cell
  }

  lemma {:induction false} ResultsAreFinished(r: Trace, i: nat, j: nat, cell: Cell)
    requires IsRun(r) && i <= j <= |r.events| && cell !in r.states[i].results && cell in r.states[j].results
    ensures exists m | i <= m < j :: Finishes(r, m, cell, r.states[j].results[cell])
    decreases j
  {
    assert i < j;
    assert StepAt(r, j - 1);
    ReachableIsValid(r, j - 1);
    if cell in r.states[j - 1].results {
      ResultsAreFinished(r, i, j - 1, cell);
      UnchangedResult(r.states[j - 1], r.events[j - 1], cell);
    } else {
      assert Finishes(r, j - 1, cell, r.states[j].results[cell]);
    }
  }

  lemma UnchangedResult(s: State, e: Event, cell: Cell)
    requires Valid(s) && Enabled(s, e) && cell in s.results
    ensures cell in Next(s, e).results && Next(s, e).results[cell] == s.results[cell]
  {
    if e.FinishRead? { assert CallerFits(s, e.caller); }
  }

  /** A caller that asks while somebody waits for an unfinished read of the same key joins
      that read. */
  lemma AskShares(s: State, e: Event, c: Caller)
    requires Valid(s) && Enabled(s, e) && e.Ask? && WaitsFor(s, c, e.key)
    ensures e.caller in Next(s, e).callers && Next(s, e).callers[e.caller].cell == s.callers[c].cell
  {
    assert CallerFits(s, c) && Alive(s.callers, s.callers[c].cell);
  }

  /** Once a read is finished, everybody who waits for it can have its answer, and no other. */
  lemma {:induction false} FinishedIsAnswered(r: Trace, m: nat, j: nat, c: Caller)
    requires IsRun(r) && m < j <= |r.events| && r.events[m].FinishRead?
    requires r.events[m].caller in r.states[m].callers && c in r.states[j].callers
    requires r.states[j].callers[c].cell == r.states[m].callers[r.events[m].caller].cell
    ensures Enabled(r.states[j], Deliver(c)) && r.states[j].results[r.states[j].callers[c].cell] == r.events[m].answer
  {
    CellStaysFinished(r, m, j);
  }

  lemma {:induction false} CellStaysFinished(r: Trace, m: nat, j: nat)
    requires IsRun(r) && m < j <= |r.events| && r.events[m].FinishRead?
    requires r.events[m].caller in r.states[m].callers
    ensures (var cell := r.states[m].callers[r.events[m].caller].cell;
             cell in r.states[j].results && r.states[j].results[cell] == r.events[m].answer)
  {
    assert StepAt(r, j - 1);
    if j == m + 1 {
    } else {
      CellStaysFinished(r, m, j - 1);
      ReachableIsValid(r, j - 1);
      UnchangedResult(r.states[j - 1], r.events[j - 1], r.states[m].callers[r.events[m].caller].cell);
    }
  }

  /** A caller stays with the cell it got until it is gone. */
  lemma {:induction false} CellIsKept(r: Trace, i: nat, j: nat)
    requires IsRun(r) && i < j <= |r.events| && r.events[i].Ask?
    requires forall m | i < m <= j :: r.events[i].caller in r.states[m].callers
    ensures r.states[j].callers[r.events[i].caller].cell == r.states[i + 1].callers[r.events[i].caller].cell
  {
    if i + 1 == j {
    } else {
      CellIsKept(r, i, j - 1);
      assert StepAt(r, j - 1);
    }
  }

  lemma AskedCellIsOpen(s: State, e: Event)
    requires Valid(s) && Enabled(s, e) && e.Ask?
    ensures e.caller in Next(s, e).callers
    ensures Next(s, e).callers[e.caller].cell !in Next(s, e).results
  {
  }

  /** A caller never receives a result that was finished before it asked: the delivered
      answer is that of a read finished after the call and before its delivery. */
  lemma NoStaleResult(r: Trace, i: nat, j: nat)
    requires IsRun(r) && i < j < |r.events| && r.events[i].Ask? && r.events[j].Deliver?
    requires r.events[j].caller == r.events[i].caller
    requires forall m | i < m <= j :: r.events[i].caller in r.states[m].callers
    ensures (var cell := r.states[j].callers[r.events[j].caller].cell;
             && cell in r.states[j].results
             && exists m | i < m < j :: Finishes(r, m, cell, r.states[j].results[cell]))
  {
    assert StepAt(r, i) && StepAt(r, j);
    ReachableIsValid(r, i);
    AskedCellIsOpen(r.states[i], r.events[i]);
    CellIsKept(r, i, j);
    ResultsAreFinished(r, i + 1, j, r.states[j].callers[r.events[j].caller].cell);
  }

  class PendingReads {
    var registry: map<Key, Cell>
    ghost var keys: map<Cell, Key>
    var results: map<Cell, Answer>
    var callers: map<Caller, Waiting>

    ghost function View(): State
      reads this
    {
      State(registry, keys, results, callers)
    }

    constructor ()
      ensures View() == START
    {
      registry, keys, results, callers := map[], map[], map[], map[];
    }

    method PendingPeerState(caller: Caller, key: Key, made: Cell) returns (cell: Cell)
      requires Enabled(View(), Ask(caller, key, made))
      modifies this
      ensures View() == Next(old(View()), Ask(caller, key, made))
      ensures caller in callers && callers[caller] == Waiting(cell, false) && key in registry && registry[key] == cell
    {
      registry := map k | k in registry && Alive(callers, registry[k]) && registry[k] !in results :: registry[k];
      if key in registry {
        cell := registry[key];
      } else {
        cell := made;
        registry := registry[key := cell];
        keys := keys[cell := key];
      }
      callers := callers[caller := Waiting(cell, false)];
    }
  }
}
