/** Which Bitcoin output an invoice is bound to, as observations come in. */
module PaymentBindings {
  import opened Wrappers

  type Outpoint = nat

  const FINAL_CONFIRMATIONS: nat := 6
  const MAX_STORED_CONFIRMATIONS: nat := 0x7FFF_FFFF

  datatype Action = Update | Replace | Ignore

  /** The stored form: the tracked output and what was last seen of it. */
  datatype DirectBinding = DirectBinding(outpoint: Outpoint, sats: nat, confirmations: nat, present: bool) {
    predicate IsFinal(required: nat) {
      present && sats >= required && confirmations >= FINAL_CONFIRMATIONS
    }

    function ReportedConfirmations(required: nat): nat {
      if sats >= required && confirmations > FINAL_CONFIRMATIONS then FINAL_CONFIRMATIONS else confirmations
    }

    function ActionFor(incoming: Outpoint, incomingPresent: bool, required: nat): Action {
      if incoming == outpoint || !incomingPresent then Update
      else if IsFinal(required) then Ignore
      else if sats < required || !present || confirmations == 0 then Replace
      else Ignore
    }
  }

  /** The domain form, which knows nothing of outputs. */
  datatype PaymentBinding = PaymentBinding(required: nat, observed: Option<nat>, confirmations: nat) {
    predicate IsFinal() {
      observed.Some? && observed.value >= required && confirmations == FINAL_CONFIRMATIONS
    }

    predicate IsReplaceable() {
      match observed
      case None => true
      case Some(sats) => sats < required || (!IsFinal() && confirmations < 1)
    }

    function RegressToUnseen(): PaymentBinding {
      if IsFinal() then this else Undetected(required)
    }
  }

  function Undetected(required: nat): PaymentBinding { PaymentBinding(required, None, 0) }

  function Observed(required: nat, sats: nat, confirmations: nat): PaymentBinding {
    PaymentBinding(required, Some(sats),
                   if sats >= required && confirmations > FINAL_CONFIRMATIONS then FINAL_CONFIRMATIONS
                   else confirmations)
  }

  /** An absent output counts as undetected. */
  function Abstract(b: DirectBinding, required: nat): PaymentBinding {
    if b.present then Observed(required, b.sats, b.confirmations) else Undetected(required)
  }

  /** The two forms agree on finality, and another output present takes over exactly
      when the domain form is replaceable. They report the same confirmations exactly
      when the output is present or was stored with none. */
  lemma BindingsAgree(b: DirectBinding, required: nat, other: Outpoint)
    requires other != b.outpoint
    ensures b.IsFinal(required) <==> Abstract(b, required).IsFinal()
    ensures b.ActionFor(other, true, required) == if Abstract(b, required).IsReplaceable() then Replace else Ignore
    ensures b.ReportedConfirmations(required) == Abstract(b, required).confirmations
       <==> b.present || b.confirmations == 0
  {
  }

  // ------------------------------------------------------------------------ the store

  /** An observation row: whether it belongs to this invoice, and its fixed amount. */
  datatype Row = Row(mine: bool, sats: nat)

  datatype State = State(rows: map<Outpoint, Row>, active: Option<DirectBinding>)

  datatype Event =
    | Report(seen: DirectBinding)                  // an observation for this invoice
    | Elsewhere(outpoint: Outpoint, sats: nat)     // a row inserted for another owner

  datatype Verdict = Refused | Kept | Bound

  function Judge(s: State, required: nat, seen: DirectBinding): Verdict {
    if seen.confirmations > MAX_STORED_CONFIRMATIONS then Refused
    else if seen.outpoint in s.rows && s.rows[seen.outpoint] != Row(true, seen.sats) then Refused
    else
      match s.active
      case None => if seen.present then Bound else Kept
      case Some(active) =>
        if active.IsFinal(required) then Kept
        else if !seen.present && active.outpoint != seen.outpoint then Kept
        else if active.ActionFor(seen.outpoint, seen.present, required) == Ignore then Kept
        else Bound
  }

  predicate Enabled(s: State, e: Event) { e.Elsewhere? ==> e.outpoint !in s.rows }

  function Next(s: State, required: nat, e: Event): State
    requires Enabled(s, e)
  {
    match e
    case Elsewhere(outpoint, sats) => s.(rows := s.rows[outpoint := Row(false, sats)])
    case Report(seen) =>
      if Judge(s, required, seen) == Bound
      then State(s.rows[seen.outpoint := Row(true, seen.sats)], Some(seen))
      else s
  }

  /** The active output has this invoice's row, at the amount of that row. */
  ghost predicate Valid(s: State) {
    s.active.Some? ==>
      s.active.value.outpoint in s.rows && s.rows[s.active.value.outpoint] == Row(true, s.active.value.sats)
  }

  ghost function View(s: State, required: nat): PaymentBinding {
    if s.active.Some? then Abstract(s.active.value, required) else Undetected(required)
  }

  /** What an accepted observation means in the domain: seeing the tracked output sets
      the observation, losing it regresses, another output present takes over a
      replaceable binding, and nothing moves a final one. */
  ghost function PaymentStep(p: PaymentBinding, tracked: bool, seen: DirectBinding): PaymentBinding {
    if !seen.present then if tracked then p.RegressToUnseen() else p
    else if tracked && p.IsFinal() then p
    else if tracked || p.IsReplaceable() then Observed(p.required, seen.sats, seen.confirmations)
    else p
  }

  /** The store's step, seen through the domain form, is the domain's own step. */
  lemma StoreFollowsDomain(s: State, required: nat, seen: DirectBinding)
    requires Valid(s) && Judge(s, required, seen) != Refused
    ensures View(Next(s, required, Report(seen)), required)
         == PaymentStep(View(s, required), s.active.Some? && s.active.value.outpoint == seen.outpoint, seen)
  {
  }

  // -------------------------------------------------------------- what the store takes

  /** A report is refused exactly if its confirmations do not fit in 31 bits, or the output
      has a row of another owner or of another amount. */
  lemma RefusedExactly(s: State, required: nat, seen: DirectBinding)
    ensures Judge(s, required, seen) == Refused <==>
              || seen.confirmations >= 0x8000_0000
              || (seen.outpoint in s.rows
                  && (!s.rows[seen.outpoint].mine || s.rows[seen.outpoint].sats != seen.sats))
  {
  }

  /** The binding `a`, if any, gives way to what was seen: nothing is bound yet and the
      output is there; or the binding is not a payment in full with six confirmations,
      and the report is about the same output, or about another one that is there while
      the bound one pays too little, is gone, or has no confirmation. */
  ghost predicate GivesWay(a: Option<DirectBinding>, required: nat, seen: DirectBinding) {
    match a
    case None => seen.present
    case Some(b) =>
      && !(b.present && b.sats >= required && b.confirmations >= 6)
      && (|| seen.outpoint == b.outpoint
          || (seen.present && (b.sats < required || !b.present || b.confirmations == 0)))
  }

  /** What a report that is not refused does: if the binding gives way to it, it is bound
      and stored as it was seen, and otherwise nothing changes. */
  lemma TakenExactly(s: State, required: nat, seen: DirectBinding)
    requires Judge(s, required, seen) != Refused
    ensures Next(s, required, Report(seen))
         == if GivesWay(s.active, required, seen)
            then State(s.rows[seen.outpoint := Row(true, seen.sats)], Some(seen)) else s
  {
  }

  /** So new facts about the bound output are stored until it is final. */
  lemma TrackedIsUpdated(s: State, required: nat, seen: DirectBinding)
    requires Valid(s) && s.active.Some? && seen.confirmations < 0x8000_0000
    requires seen.outpoint == s.active.value.outpoint && seen.sats == s.active.value.sats
    requires !(s.active.value.present && seen.sats >= required && s.active.value.confirmations >= 6)
    ensures Next(s, required, Report(seen)).active == Some(seen)
  {
    RefusedExactly(s, required, seen);
    TakenExactly(s, required, seen);
  }

  /** And an output new to the store is bound when nothing is, or what is may be replaced. */
  lemma NewIsBound(s: State, required: nat, seen: DirectBinding)
    requires seen.outpoint !in s.rows && seen.present && seen.confirmations < 0x8000_0000
    requires View(s, required).IsReplaceable()
    requires Valid(s)
    ensures Next(s, required, Report(seen)).active == Some(seen)
  {
    RefusedExactly(s, required, seen);
    TakenExactly(s, required, seen);
  }

  // ------------------------------------------------------------------------ runs

  datatype Trace = Trace(required: nat, events: seq<Event>, states: seq<State>)

  ghost predicate StepAt(r: Trace, i: nat)
    requires i < |r.events| && |r.states| == |r.events| + 1
  {
    Enabled(r.states[i], r.events[i]) && r.states[i + 1] == Next(r.states[i], r.required, r.events[i])
  }

  ghost predicate IsRun(r: Trace) {
    && |r.states| == |r.events| + 1 && r.states[0].active.None?
    && forall i | 0 <= i < |r.events| :: StepAt(r, i)
  }

  lemma {:induction false} ReachableIsValid(r: Trace, i: nat)
    requires IsRun(r) && i <= |r.events|
    ensures Valid(r.states[i])
  {
    if i == 0 {
    } else {
      ReachableIsValid(r, i - 1);
      assert StepAt(r, i - 1);
    }
  }

  ghost predicate Tracks(s: State, outpoint: Outpoint) { s.active.Some? && s.active.value.outpoint == outpoint }

  /** The output is confirmed and pays the invoice. */
  ghost predicate Frozen(s: State, required: nat) {
    s.active.Some? && s.active.value.present && s.active.value.sats >= required && s.active.value.confirmations > 0
  }

  /** Event `i` stores that the output is gone or unconfirmed. */
  ghost predicate Thaws(r: Trace, i: nat, outpoint: Outpoint)
    requires i < |r.events| < |r.states|
  {
    && r.events[i].Report? && r.events[i].seen.outpoint == outpoint
    && Judge(r.states[i], r.required, r.events[i].seen) == Bound
    && (!r.events[i].seen.present || r.events[i].seen.confirmations == 0)
  }

  lemma FrozenStep(r: Trace, i: nat)
    requires IsRun(r) && i < |r.events| && Frozen(r.states[i], r.required)
    ensures r.states[i + 1].active.Some?
    ensures r.states[i + 1].active.value.outpoint == r.states[i].active.value.outpoint
    ensures Frozen(r.states[i + 1], r.required) <==> !Thaws(r, i, r.states[i].active.value.outpoint)
  {
    ReachableIsValid(r, i);
    assert StepAt(r, i);
  }

  /** A confirmed output that pays the invoice is given up for another only after it
      was stored as gone or unconfirmed. */
  lemma {:induction false} ConfirmedMatchStays(r: Trace, i: nat, j: nat)
    requires IsRun(r) && i <= j <= |r.events| && Frozen(r.states[i], r.required)
    requires !Tracks(r.states[j], r.states[i].active.value.outpoint)
    ensures exists m | i <= m < j - 1 :: Thaws(r, m, r.states[i].active.value.outpoint)
    decreases j - i
  {
    var o := r.states[i].active.value.outpoint;
    assert i < j;
    FrozenStep(r, i);
    assert i + 1 < j;
    if Frozen(r.states[i + 1], r.required) {
      ConfirmedMatchStays(r, i + 1, j);
    } else {
      assert Thaws(r, i, o);
    }
  }

  /** A final binding is never changed again. */
  lemma {:induction false} FinalIsForever(r: Trace, i: nat, j: nat)
    requires IsRun(r) && i <= j <= |r.events|
    requires r.states[i].active.Some? && r.states[i].active.value.IsFinal(r.required)
    ensures r.states[j].active == r.states[i].active
  {
    if i == j {
    } else {
      FinalIsForever(r, i, j - 1);
      assert StepAt(r, j - 1);
    }
  }

  /** An invoice once bound stays bound, and every output keeps the amount and the owner
      it was first stored with. */
  lemma {:induction false} RowsAreFixed(r: Trace, i: nat, j: nat)
    requires IsRun(r) && i <= j <= |r.events|
    ensures r.states[i].active.Some? ==> r.states[j].active.Some?
    ensures forall o | o in r.states[i].rows :: o in r.states[j].rows && r.states[j].rows[o] == r.states[i].rows[o]
  {
    if i == j {
    } else {
      RowsAreFixed(r, i, j - 1);
      assert StepAt(r, j - 1);
    }
  }

  /** When absences are reported without confirmations, the stored form reports the
      domain's confirmations in every reachable state. */
  lemma {:induction false} ReportsAgree(r: Trace, i: nat)
    requires IsRun(r) && i <= |r.events| && r.states[i].active.Some?
    requires forall m | 0 <= m < i && r.events[m].Report? && !r.events[m].seen.present ::
               r.events[m].seen.confirmations == 0
    ensures r.states[i].active.value.ReportedConfirmations(r.required) == View(r.states[i], r.required).confirmations
  {
    if i == 0 {
    } else {
      assert StepAt(r, i - 1);
      if r.states[i] == r.states[i - 1] || r.events[i - 1].Elsewhere? {
        ReportsAgree(r, i - 1);
      } else {
        var b := r.states[i].active.value;
        BindingsAgree(b, r.required, b.outpoint + 1);
      }
    }
  }
}
