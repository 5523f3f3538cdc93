/** When the lifecycle tracker reports the payment rail as available. */
module LifecycleReadiness {
  import opened Wrappers

  type Creator = nat

  datatype Event =
    | Enumerated(creators: set<Creator>)
    | EnumerationFailed
    | Completed(creator: Creator, succeeded: bool)

  /** What the tracker is waiting for, and what it last published. */
  datatype State = State(checking: Option<set<Creator>>, available: bool)

  const START: State := State(None, false)

  class Tracker {
    var checking: Option<set<Creator>>
    var available: bool

    ghost function View(): State
      reads this
    {
      State(checking, available)
    }

    constructor ()
      ensures View() == START
    {
      checking, available := None, false;
    }

    method FullPass(creators: set<Creator>)
      modifies this
      ensures View() == Next(old(View()), Enumerated(creators))
    {
      if checking.None? {
        checking := Some(creators);
      }
      PublishIfComplete();
    }

    method Fail()
      modifies this
      ensures View() == Next(old(View()), EnumerationFailed)
    {
      checking, available := None, false;
    }

    method Complete(creator: Creator, succeeded: bool)
      modifies this
      ensures View() == Next(old(View()), Completed(creator, succeeded))
    {
      if !succeeded {
        Fail();
      } else if checking.Some? {
        checking := Some(checking.value - {creator});
        PublishIfComplete();
      }
    }

    method PublishIfComplete()
      modifies this
      ensures View() == Published(old(View()))
    {
      if checking.Some? && checking.value == {} {
        checking, available := None, true;
      }
    }
  }

  function Published(s: State): State {
    if s.checking.Some? && s.checking.value == {} then State(None, true) else s
  }

  predicate Fails(e: Event) { e.EnumerationFailed? || (e.Completed? && !e.succeeded) }

  function Next(s: State, e: Event): State {
    if Fails(e) then START
    else
      match e
      case Enumerated(creators) => Published(if s.checking.None? then s.(checking := Some(creators)) else s)
      case Completed(creator, _) =>
        if s.checking.None? then s else Published(s.(checking := Some(s.checking.value - {creator})))
      case EnumerationFailed => s
  }

  function After(log: seq<Event>, i: nat): State
    requires i <= |log|
  {
    if i == 0 then START else Next(After(log, i - 1), log[i - 1])
  }

  // ------------------------------------------------------------------------ the meaning

  /** The first enumeration since the last failure, among the first `i` events. */
  ghost function FirstEnumeration(log: seq<Event>, i: nat): (e: Option<nat>)
    requires i <= |log|
    ensures e.Some? ==> e.value < i && log[e.value].Enumerated?
  {
    if i == 0 || Fails(log[i - 1]) then None
    else
      var earlier := FirstEnumeration(log, i - 1);
      if earlier.Some? then earlier else if log[i - 1].Enumerated? then Some(i - 1) else None
  }

  ghost predicate CompletedBetween(log: seq<Event>, e: nat, i: nat, c: Creator)
    requires i <= |log|
  {
    exists m | e < m < i :: log[m] == Completed(c, true)
  }

  /** Creators of enumeration `e` that have not completed successfully since. */
  ghost function Remaining(log: seq<Event>, e: nat, i: nat): set<Creator>
    requires e < i <= |log| && log[e].Enumerated?
  {
    set c | c in log[e].creators && !CompletedBetween(log, e, i, c)
  }

  lemma RemainingStep(log: seq<Event>, e: nat, i: nat)
    requires e < i < |log| && log[e].Enumerated?
    ensures log[i].Completed? && log[i].succeeded ==>
              Remaining(log, e, i + 1) == Remaining(log, e, i) - {log[i].creator}
    ensures !(log[i].Completed? && log[i].succeeded) ==> Remaining(log, e, i + 1) == Remaining(log, e, i)
  {
    var next := i + 1;
    forall c: Creator
      ensures CompletedBetween(log, e, next, c) <==> CompletedBetween(log, e, i, c) || log[i] == Completed(c, true)
    {
    }
  }

  lemma RemainingStart(log: seq<Event>, e: nat)
    requires e < |log| && log[e].Enumerated?
    ensures Remaining(log, e, e + 1) == log[e].creators
  {
    var i := e + 1;
    forall c: Creator
      ensures !CompletedBetween(log, e, i, c)
    {
    }
  }

  /** How the tracker's state follows from the log. */
  ghost predicate Explained(log: seq<Event>, i: nat)
    requires i <= |log|
  {
    var s, e := After(log, i), FirstEnumeration(log, i);
    match e
    case None => s == START
    case Some(first) =>
      if Remaining(log, first, i) == {} then s.available
      else s == State(Some(Remaining(log, first, i)), false)
  }

  lemma {:induction false} AlwaysExplained(log: seq<Event>, i: nat)
    requires i <= |log|
    ensures Explained(log, i)
  {
    if i == 0 {
    } else {
      AlwaysExplained(log, i - 1);
      hide Remaining;
      var e, first := log[i - 1], FirstEnumeration(log, i - 1);
      if !Fails(e) {
        if first.Some? { RemainingStep(log, first.value, i - 1); }
        else if e.Enumerated? { RemainingStart(log, i - 1); }
      }
    }
  }

  /** The rail is available exactly when there has been an enumeration since the last
      failure and every Creator of the first such enumeration has completed
      successfully after it. Hints, other Creators' completions, repeated and later
      enumerations neither cause nor hasten it. */
  lemma AvailableExactly(log: seq<Event>, i: nat)
    requires i <= |log|
    ensures After(log, i).available <==>
              (var e := FirstEnumeration(log, i);
               && e.Some?
               && forall c | c in log[e.value].creators :: CompletedBetween(log, e.value, i, c))
  {
    AlwaysExplained(log, i);
    var e := FirstEnumeration(log, i);
    if e.Some? {
      assert Remaining(log, e.value, i) == {} <==>
        forall c | c in log[e.value].creators :: CompletedBetween(log, e.value, i, c) by {
        if forall c | c in log[e.value].creators :: CompletedBetween(log, e.value, i, c) {
          assert Remaining(log, e.value, i) == {};
        } else {
          var c :| c in log[e.value].creators && !CompletedBetween(log, e.value, i, c);
          assert c in Remaining(log, e.value, i);
        }
      }
    }
  }

  ghost predicate FailsBetween(log: seq<Event>, m: nat, i: nat)
    requires i <= |log|
  {
    exists f | m < f < i :: Fails(log[f])
  }

  /** What being the first enumeration since the last failure means. */
  lemma {:induction false} FirstEnumerationMeaning(log: seq<Event>, i: nat, e: nat)
    requires e < i <= |log| && log[e].Enumerated?
    ensures FirstEnumeration(log, i) == Some(e) <==>
              && !FailsBetween(log, e, i)
              && forall m | 0 <= m < e && log[m].Enumerated? :: FailsBetween(log, m, e)
    decreases i
  {
    if i > e + 1 {
      FirstEnumerationMeaning(log, i - 1, e);
      if FirstEnumeration(log, i - 1).None? && !Fails(log[i - 1]) { NoneMeansFailure(log, i - 1, e); }
    } else {
      if FirstEnumeration(log, e).Some? {
        var d := FirstEnumeration(log, e).value;
        FirstEnumerationMeaning(log, e, d);
      } else {
        forall m | 0 <= m < e && log[m].Enumerated? ensures FailsBetween(log, m, e) {
          NoneMeansFailure(log, e, m);
        }
      }
    }
  }

  lemma {:induction false} NoneMeansFailure(log: seq<Event>, i: nat, m: nat)
    requires m < i <= |log| && log[m].Enumerated? && FirstEnumeration(log, i).None?
    ensures FailsBetween(log, m, i)
    decreases i
  {
    if Fails(log[i - 1]) {
      assert m != i - 1;
    } else {
      assert i - 1 != m;
      NoneMeansFailure(log, i - 1, m);
    }
  }
}
