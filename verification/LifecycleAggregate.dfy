/** Payment Request lifecycle: what a stored attempt accepts, and how attempts collapse. */
module LifecycleAggregate {
  import opened Wrappers

  datatype Stage =
    | Proposed
    | ProposalExpired
    | Accepted
    | Rejected
    | Canceled
    | ProofSubmitted
    | ActiveRecurring
    | RecoveryRequired
    | InvalidConflict

  function Name(s: Stage): string {
    match s
    case Proposed => "proposed"
    case ProposalExpired => "proposal_expired"
    case Accepted => "accepted"
    case Rejected => "rejected"
    case Canceled => "canceled"
    case ProofSubmitted => "proof_submitted"
    case ActiveRecurring => "active_recurring"
    case RecoveryRequired => "recovery_required"
    case InvalidConflict => "invalid_conflict"
  }

  function Parse(name: string): Option<Stage> {
    if name == "proposed" then Some(Proposed)
    else if name == "proposal_expired" then Some(ProposalExpired)
    else if name == "accepted" then Some(Accepted)
    else if name == "rejected" then Some(Rejected)
    else if name == "canceled" then Some(Canceled)
    else if name == "proof_submitted" then Some(ProofSubmitted)
    else if name == "active_recurring" then Some(ActiveRecurring)
    else if name == "recovery_required" then Some(RecoveryRequired)
    else if name == "invalid_conflict" then Some(InvalidConflict)
    else None
  }

  lemma ParseInvertsName(s: Stage, name: string)
    ensures Parse(Name(s)) == Some(s)
    ensures Parse(name) == Some(s) ==> name == Name(s)
  {
    var n := Name(s);
    assert |n| > 0;
    match s
    case Proposed => assert |n| == 8 && n[0] == 'p';
    case ProposalExpired => assert |n| == 16;
    case Accepted => assert |n| == 8 && n[0] == 'a';
    case Rejected => assert |n| == 8 && n[0] == 'r';
    case Canceled => assert |n| == 8 && n[0] == 'c';
    case ProofSubmitted => assert |n| == 15;
    case ActiveRecurring => assert |n| == 16 && n[0] == 'a';
    case RecoveryRequired => assert |n| == 17;
    case InvalidConflict => assert |n| == 16 && n[0] == 'i';
  }

  // ------------------------------------------------------------------------ collapsing attempts

  function Rank(s: Stage): nat {
    match s
    case InvalidConflict => 9
    case RecoveryRequired => 8
    case ProofSubmitted => 7
    case ActiveRecurring => 6
    case Accepted => 5
    case Proposed => 4
    case ProposalExpired => 0
    case Rejected => 0
    case Canceled => 0
  }

  predicate Terminal(s: Stage) { s.ProposalExpired? || s.Rejected? || s.Canceled? }

  datatype Attempt = Attempt(stage: Stage, at: int)

  /** Byte order of texts. */
  predicate TextAtMost(a: string, b: string) {
    a == [] || (b != [] && (a[0] < b[0] || (a[0] == b[0] && TextAtMost(a[1..], b[1..]))))
  }

  predicate AtMost(a: Attempt, b: Attempt) {
    if Rank(a.stage) != Rank(b.stage) then Rank(a.stage) < Rank(b.stage)
    else if a.at != b.at then a.at < b.at
    else TextAtMost(Name(a.stage), Name(b.stage))
  }

  /** The later of two equal maxima is kept, as the iterator does. */
  function Better(a: Attempt, b: Attempt): Attempt { if AtMost(a, b) then b else a }

  function Aggregate(attempts: seq<Attempt>): Option<Attempt> {
    if attempts == [] then None
    else
      var last := attempts[|attempts| - 1];
      match Aggregate(attempts[..|attempts| - 1])
      case None => Some(last)
      case Some(best) => Some(Better(best, last))
  }

  lemma {:induction false} TextOrder(a: string, b: string, c: string)
    ensures TextAtMost(a, b) || TextAtMost(b, a)
    ensures TextAtMost(a, b) && TextAtMost(b, a) ==> a == b
    ensures TextAtMost(a, b) && TextAtMost(b, c) ==> TextAtMost(a, c)
    decreases |a|
  {
    if a != [] && b != [] {
      if c != [] { TextOrder(a[1..], b[1..], c[1..]); } else { TextOrder(a[1..], b[1..], []); }
      assert a == [a[0]] + a[1..] && b == [b[0]] + b[1..];
    }
  }

  /** Attempts are totally ordered: no two different attempts tie. */
  lemma AttemptOrder(a: Attempt, b: Attempt, c: Attempt)
    ensures AtMost(a, b) || AtMost(b, a)
    ensures AtMost(a, b) && AtMost(b, a) ==> a == b
    ensures AtMost(a, b) && AtMost(b, c) ==> AtMost(a, c)
  {
    hide Name, TextAtMost, Rank;
    TextOrder(Name(a.stage), Name(b.stage), Name(c.stage));
    ParseInvertsName(a.stage, Name(a.stage));
    ParseInvertsName(b.stage, Name(b.stage));
  }

  ghost predicate IsMaximum(x: Attempt, attempts: seq<Attempt>) {
    x in attempts && forall y | y in attempts :: AtMost(y, x)
  }

  lemma MaximumExtends(best: Attempt, attempts: seq<Attempt>)
    requires attempts != [] && IsMaximum(best, attempts[..|attempts| - 1])
    ensures IsMaximum(Better(best, attempts[|attempts| - 1]), attempts)
  {
    hide AtMost;
    var last := attempts[|attempts| - 1];
    AttemptOrder(best, last, best);
    forall y | y in attempts
      ensures AtMost(y, Better(best, last))
    {
      AttemptOrder(y, best, last);
      AttemptOrder(y, y, y);
      assert y in attempts[..|attempts| - 1] || y == last;
    }
  }

  lemma MaximumOfOne(attempts: seq<Attempt>)
    requires |attempts| == 1
    ensures IsMaximum(attempts[0], attempts)
  {
    hide AtMost;
    AttemptOrder(attempts[0], attempts[0], attempts[0]);
  }

  /** The aggregate is the greatest attempt; there is none exactly when there are no attempts. */
  lemma {:induction false} AggregateIsMaximum(attempts: seq<Attempt>)
    ensures Aggregate(attempts).None? <==> attempts == []
    ensures attempts != [] ==> IsMaximum(Aggregate(attempts).value, attempts)
  {
    hide AtMost, IsMaximum, Better;
    if |attempts| == 1 {
      MaximumOfOne(attempts);
    } else if |attempts| > 1 {
      var front := attempts[..|attempts| - 1];
      AggregateIsMaximum(front);
      MaximumExtends(Aggregate(front).value, attempts);
    }
  }

  lemma MaximumIsUnique(x: Attempt, y: Attempt, attempts: seq<Attempt>)
    requires IsMaximum(x, attempts) && IsMaximum(y, attempts)
    ensures x == y
  {
    AttemptOrder(x, y, x);
  }

  /** Neither the order of the rows nor repeated rows can be seen. */
  lemma OrderIsInvisible(a: seq<Attempt>, b: seq<Attempt>)
    requires forall x: Attempt :: x in a <==> x in b
    ensures Aggregate(a) == Aggregate(b)
  {
    hide AtMost;
    AggregateIsMaximum(a);
    AggregateIsMaximum(b);
    assert a == [] <==> b == [] by {
      if a != [] { assert a[0] in a; }
      if b != [] { assert b[0] in b; }
    }
    if a != [] {
      MaximumIsUnique(Aggregate(a).value, Aggregate(b).value, b);
    }
  }

  /** Rows may be aggregated in two parts and the parts combined. */
  lemma AggregateMerges(a: seq<Attempt>, b: seq<Attempt>)
    ensures a == [] ==> Aggregate(a + b) == Aggregate(b)
    ensures b == [] ==> Aggregate(a + b) == Aggregate(a)
    ensures a != [] && b != [] ==>
              Aggregate(a).Some? && Aggregate(b).Some? &&
              Aggregate(a + b) == Some(Better(Aggregate(a).value, Aggregate(b).value))
  {
    hide AtMost;
    if a == [] {
      assert a + b == b;
    } else if b == [] {
      assert a + b == a;
    } else {
      AggregateIsMaximum(a);
      AggregateIsMaximum(b);
      AggregateIsMaximum(a + b);
      var x, y := Aggregate(a).value, Aggregate(b).value;
      AttemptOrder(x, y, x);
      forall z | z in a + b
        ensures AtMost(z, Better(x, y))
      {
        AttemptOrder(z, x, y);
        AttemptOrder(z, y, x);
      }
      MaximumIsUnique(Better(x, y), Aggregate(a + b).value, a + b);
    }
  }

  /** The invoice reads as terminal exactly when every attempt is terminal. */
  lemma TerminalExactly(attempts: seq<Attempt>)
    requires attempts != []
    ensures Aggregate(attempts).Some?
    ensures Terminal(Aggregate(attempts).value.stage) <==> forall x | x in attempts :: Terminal(x.stage)
  {
    hide TextAtMost;
    AggregateIsMaximum(attempts);
  }

  // ----------------------------------------------------------- in terms of the attempts

  /** The stages that are not terminal, the strongest first. */
  const STRONGEST_FIRST: seq<Stage> :=
    [InvalidConflict, RecoveryRequired, ProofSubmitted, ActiveRecurring, Accepted, Proposed]

  ghost predicate Occurs(attempts: seq<Attempt>, s: Stage) { exists x <- attempts :: x.stage == s }

  /** `x` is an attempt of the strongest stage that occurs, at the latest time it occurs. */
  ghost predicate StrongestLatest(attempts: seq<Attempt>, n: nat, x: Attempt)
    requires n < |STRONGEST_FIRST|
  {
    && x in attempts && x.stage == STRONGEST_FIRST[n]
    && (forall m | 0 <= m < n :: !Occurs(attempts, STRONGEST_FIRST[m]))
    && (forall y <- attempts | y.stage == x.stage :: y.at <= x.at)
  }

  /** Among terminal attempts at one time a rejection counts before an expiry, and that
      before a cancellation, in the order of their spellings. */
  predicate TerminalAtMost(a: Stage, b: Stage) { b.Rejected? || a.Canceled? || a == b }

  ghost predicate LatestTerminal(attempts: seq<Attempt>, x: Attempt) {
    && x in attempts && (forall y <- attempts :: Terminal(y.stage))
    && (forall y <- attempts :: y.at < x.at || (y.at == x.at && TerminalAtMost(y.stage, x.stage)))
  }

  lemma TerminalSpellings()
    ensures TextAtMost(Name(Canceled), Name(ProposalExpired)) && !TextAtMost(Name(ProposalExpired), Name(Canceled))
    ensures TextAtMost(Name(ProposalExpired), Name(Rejected)) && !TextAtMost(Name(Rejected), Name(ProposalExpired))
    ensures TextAtMost(Name(Canceled), Name(Rejected)) && !TextAtMost(Name(Rejected), Name(Canceled))
  {
  }

  /** What the aggregate is, in terms of the attempts alone: an attempt of the strongest
      stage that occurs, at the latest time it occurs, or, if all are terminal, the latest
      one, the greatest spelling on equal times. */
  lemma AggregateExactly(attempts: seq<Attempt>, x: Attempt)
    ensures Aggregate(attempts) == Some(x) <==>
              || (exists n | 0 <= n < |STRONGEST_FIRST| :: StrongestLatest(attempts, n, x))
              || LatestTerminal(attempts, x)
  {
    hide TextAtMost, Name, AtMost;
    AggregateIsMaximum(attempts);
    if Aggregate(attempts) == Some(x) {
      MaximumIsStrongest(x, attempts);
    }
    if n: nat :| n < |STRONGEST_FIRST| && StrongestLatest(attempts, n, x) {
      StrongestIsMaximum(x, attempts, n);
      MaximumIsUnique(x, Aggregate(attempts).value, attempts);
    }
    if LatestTerminal(attempts, x) {
      TerminalIsMaximum(x, attempts);
      MaximumIsUnique(x, Aggregate(attempts).value, attempts);
    }
  }

  lemma MaximumIsStrongest(x: Attempt, attempts: seq<Attempt>)
    requires IsMaximum(x, attempts)
    ensures Terminal(x.stage) ==> LatestTerminal(attempts, x)
    ensures !Terminal(x.stage) ==> exists n | 0 <= n < |STRONGEST_FIRST| :: StrongestLatest(attempts, n, x)
  {
    hide TextAtMost, Name;
    TerminalSpellings();
    if !Terminal(x.stage) {
      var n := StageIndex(x.stage);
      forall m | 0 <= m < n ensures !Occurs(attempts, STRONGEST_FIRST[m]) {
        forall y <- attempts ensures y.stage != STRONGEST_FIRST[m] { assert AtMost(y, x); }
      }
      assert StrongestLatest(attempts, n, x);
    } else {
      forall y <- attempts
        ensures Terminal(y.stage) && (y.at < x.at || (y.at == x.at && TerminalAtMost(y.stage, x.stage)))
      {
        assert AtMost(y, x);
      }
    }
  }

  lemma StrongestIsMaximum(x: Attempt, attempts: seq<Attempt>, n: nat)
    requires n < |STRONGEST_FIRST| && StrongestLatest(attempts, n, x)
    ensures IsMaximum(x, attempts)
  {
    hide TextAtMost, Name;
    forall y <- attempts ensures AtMost(y, x) {
      if y.stage == x.stage {
        TextOrder(Name(x.stage), Name(x.stage), Name(x.stage));
      } else if !Terminal(y.stage) {
        var m := StageIndex(y.stage);
        assert Occurs(attempts, STRONGEST_FIRST[m]);
      }
    }
  }

  lemma StageIndex(s: Stage) returns (m: nat)
    requires !Terminal(s)
    ensures m < |STRONGEST_FIRST| && STRONGEST_FIRST[m] == s
  {
    m := if s.InvalidConflict? then 0 else if s.RecoveryRequired? then 1 else if s.ProofSubmitted? then 2
         else if s.ActiveRecurring? then 3 else if s.Accepted? then 4 else 5;
  }

  lemma TerminalIsMaximum(x: Attempt, attempts: seq<Attempt>)
    requires LatestTerminal(attempts, x)
    ensures IsMaximum(x, attempts)
  {
    TerminalSpellings();
    hide TextAtMost, Name;
    forall y <- attempts ensures AtMost(y, x) {
      TextOrder(Name(x.stage), Name(x.stage), Name(x.stage));
    }
  }

  // ------------------------------------------------------------------------ one stored attempt

  predicate CursorStable(existing: Stage, incoming: Stage) {
    || (existing.Proposed? && incoming.ProposalExpired?)
    || (!existing.InvalidConflict? && !incoming.InvalidConflict?
        && (existing.RecoveryRequired? || incoming.RecoveryRequired?))
  }

  /** A stored attempt, and equally a snapshot that would replace it. */
  datatype Row = Row(stage: Stage, event: Option<nat>, stream: Option<int>, outbound: Option<int>, at: int)

  predicate Regressed(incoming: Option<int>, existing: Option<int>) {
    existing.Some? && (incoming.None? || incoming.value < existing.value)
  }

  predicate SameCursors(a: Row, b: Row) { a.stream == b.stream && a.outbound == b.outbound }

  /** A snapshot is taken as a replay, replaces the row, or conflicts with it. */
  function Apply(row: Row, incoming: Row): Result<Row, ()> {
    if row == incoming then Ok(row)
    else if
      || (row.stage.ProposalExpired? && incoming.stage.Proposed?)
      || Regressed(incoming.stream, row.stream)
      || Regressed(incoming.outbound, row.outbound)
      || incoming.at < row.at
      || (SameCursors(row, incoming)
          && !(row.event == incoming.event
               && (row.stage == incoming.stage || CursorStable(row.stage, incoming.stage))))
    then Err(())
    else Ok(incoming)
  }

  /** The cursors have moved on: neither went back, and one of them is not the same. */
  predicate Advances(row: Row, incoming: Row) {
    && !Regressed(incoming.stream, row.stream) && !Regressed(incoming.outbound, row.outbound)
    && !SameCursors(row, incoming)
  }

  /** Which snapshots are taken. One whose cursors have moved on is taken unless its time
      goes back or it would renew an expired proposal. With the same cursors it must have
      the same state event and a time that does not go back, and its stage is the same, or
      an expiry of a proposal, or on one side of it is a recovery and on neither a conflict.
      All others leave the row as it was. */
  lemma TakenExactly(row: Row, incoming: Row)
    ensures Advances(row, incoming) ==>
              (Apply(row, incoming) == Ok(incoming) <==>
                 row.at <= incoming.at && !(row.stage == ProposalExpired && incoming.stage == Proposed))
    ensures SameCursors(row, incoming) && row.stage == incoming.stage ==>
              (Apply(row, incoming) == Ok(incoming) <==> row.event == incoming.event && row.at <= incoming.at)
    ensures SameCursors(row, incoming) && row.stage != incoming.stage ==>
              (Apply(row, incoming) == Ok(incoming) <==>
                 && row.event == incoming.event && row.at <= incoming.at
                 && (|| (row.stage == Proposed && incoming.stage == ProposalExpired)
                     || (row.stage == RecoveryRequired && incoming.stage != InvalidConflict)
                     || (incoming.stage == RecoveryRequired && row.stage != InvalidConflict)))
    ensures !Advances(row, incoming) && !SameCursors(row, incoming) ==> Apply(row, incoming) == Err(())
    ensures Apply(row, incoming) in {Ok(incoming), Err(())}
  {
  }

  /** A cursor goes back if it disappears or falls; it moves on if it appears or rises. */
  lemma RegressedExactly(incoming: Option<int>, existing: Option<int>)
    ensures !Regressed(incoming, existing) <==>
              || existing == None
              || (incoming.Some? && existing.Some? && existing.value <= incoming.value)
  {
  }

  /** The successive contents of one row; a snapshot that conflicts leaves no trace. */
  ghost predicate IsHistory(rows: seq<Row>) {
    rows != [] && forall i | 0 <= i < |rows| - 1 :: StepAt(rows, i)
  }

  ghost predicate StepAt(rows: seq<Row>, i: nat)
    requires i + 1 < |rows|
  {
    Apply(rows[i], rows[i + 1]) == Ok(rows[i + 1])
  }

  /** Neither cursor nor the event time ever goes back. */
  lemma {:induction false} CursorsAdvance(rows: seq<Row>, i: nat, j: nat)
    requires IsHistory(rows) && i <= j < |rows|
    ensures !Regressed(rows[j].stream, rows[i].stream) && !Regressed(rows[j].outbound, rows[i].outbound)
    ensures rows[i].at <= rows[j].at
  {
    if i == j {
    } else {
      CursorsAdvance(rows, i, j - 1);
      assert StepAt(rows, j - 1);
    }
  }

  /** Between two rows with the same cursors the cursors never moved. */
  lemma CursorsStayed(rows: seq<Row>, i: nat, k: nat, j: nat)
    requires IsHistory(rows) && i <= k <= j < |rows| && SameCursors(rows[i], rows[j])
    ensures SameCursors(rows[i], rows[k])
  {
    CursorsAdvance(rows, i, k);
    CursorsAdvance(rows, k, j);
  }

  /** While the cursors stand still the state event stays, a conflict is neither entered
      nor left, and without a recovery the only change is a proposal that expires. */
  lemma {:induction false} StandingCursors(rows: seq<Row>, i: nat, j: nat)
    requires IsHistory(rows) && i <= j < |rows| && SameCursors(rows[i], rows[j])
    ensures rows[j].event == rows[i].event
    ensures rows[j].stage.InvalidConflict? <==> rows[i].stage.InvalidConflict?
    ensures (forall k | i <= k <= j :: !rows[k].stage.RecoveryRequired?) ==>
              || rows[j].stage == rows[i].stage
              || (rows[i].stage.Proposed? && rows[j].stage.ProposalExpired?)
  {
    if i == j {
    } else {
      CursorsStayed(rows, i, j - 1, j);
      StandingCursors(rows, i, j - 1);
      assert StepAt(rows, j - 1);
    }
  }

  ghost predicate Joins(rows: seq<Row>, from: Row, to: Stage) {
    IsHistory(rows) && rows[0] == from && rows[|rows| - 1] == from.(stage := to)
  }

  /** Exactly which stages can follow while everything but the stage stands still: any
      from any, apart from the conflict, which only stays. */
  lemma ReachableExactly(from: Row, to: Stage)
    ensures (exists rows :: Joins(rows, from, to)) <==>
              (from.stage.InvalidConflict? <==> to.InvalidConflict?)
  {
    if rows :| Joins(rows, from, to) {
      StandingCursors(rows, 0, |rows| - 1);
    }
    if from.stage.InvalidConflict? <==> to.InvalidConflict? {
      if from.stage == to {
        assert Joins([from], from, to);
      } else {
        var rows := [from, from.(stage := RecoveryRequired), from.(stage := to)];
        assert StepAt(rows, 0) && StepAt(rows, 1);
        assert Joins(rows, from, to);
      }
    }
  }

  /** An expired proposal does not become proposed again at once, but a history through
      a recovery leads there with the cursors standing still. */
  lemma ExpiredReturnsThroughRecovery(row: Row)
    requires row.stage.ProposalExpired?
    ensures forall next: Row | next.stage.Proposed? :: Apply(row, next) == Err(())
    ensures exists rows :: Joins(rows, row, Proposed) && |rows| == 3
  {
    var rows := [row, row.(stage := RecoveryRequired), row.(stage := Proposed)];
    assert StepAt(rows, 0) && StepAt(rows, 1);
    assert Joins(rows, row, Proposed);
  }
}
