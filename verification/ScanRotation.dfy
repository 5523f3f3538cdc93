/**
 How the candidates of a request rotate for as long as it keeps its slot and its proofs:
 grant by grant, over any stretch of grants, and exactly where the cursor's width shows.
 */
module ScanRotation {
  import opened Wrappers
  import opened ProofScan
  import opened ScanSweep
  import R = Rotation

  // ------------------------------------------------------------------------ the cursor

  /** The cursor after `g` grants: eight times as many, in a machine word. */
  ghost predicate CursorIs(state: ScanState, g: nat) {
    state.cursor == if g == 0 then None else Some(R.Cursor(g))
  }

  lemma TouchMovesCursor(state: ScanState, c: Call, g: nat)
    requires state.fingerprint == c.proofs && CursorIs(state, g)
    ensures CursorIs(Touch(state, c).0, g + if Touch(state, c).1.Granted? then 1 else 0)
    ensures Touch(state, c).1.Granted? ==> Touch(state, c).1 == Granted(R.Cursor(g))
  {
    R.CursorMoves(g);
  }

  lemma FreshCursor(c: Call)
    ensures CursorIs(Fresh(c), 0) && Fresh(c).fingerprint == c.proofs
  {
  }

  lemma ResidentCursor(s: Cache, e: Event, k: Hash, g: nat)
    requires Valid(s) && Enabled(s, e) && k in s.requests && k in Next(s, e).requests
    requires !StartsOver(s, e, k) ==> CursorIs(s.requests[k], g)
    ensures (var from := if StartsOver(s, e, k) then 0 else g;
             && CursorIs(Next(s, e).requests[k], from + if GrantsIt(s, e, k) then 1 else 0)
             && (GrantsIt(s, e, k) ==> OutcomeOf(s, e) == Granted(R.Cursor(from))))
  {
    hide Next, Enabled, OutcomeOf, Touch, Fresh;
    StepOnResident(s, e, k);
    if CallsFor(e, k) {
      if StartsOver(s, e, k) {
        FreshCursor(e.call);
        TouchMovesCursor(Fresh(e.call), e.call, 0);
        TouchStartsOver(s.requests[k], e.call);
      } else {
        TouchMovesCursor(s.requests[k], e.call, g);
      }
    }
  }

  lemma NewcomerCursor(s: Cache, e: Event, k: Hash)
    requires Valid(s) && Enabled(s, e) && k !in s.requests && k in Next(s, e).requests
    ensures CursorIs(Next(s, e).requests[k], if GrantsIt(s, e, k) then 1 else 0)
    ensures GrantsIt(s, e, k) ==> OutcomeOf(s, e) == Granted(0)
  {
    hide Next, Enabled, OutcomeOf, Touch, Fresh;
    StepOnAbsent(s, e, k);
    if CallsFor(e, k) {
      FreshCursor(e.call);
      TouchMovesCursor(Fresh(e.call), e.call, 0);
      TouchReserved([], e.call);
    }
  }

  /** In every reachable cache the cursor is eight times the grants since the sweep
      started, in a machine word, whether or not the sweep is complete. */
  lemma {:induction false} CursorIsExact(r: Trace, i: nat, k: Hash)
    requires IsRun(r) && i <= |r.events| && k in r.states[i].requests
    ensures CursorIs(r.states[i].requests[k], GrantsSince(r, i, k))
  {
    hide Next, Enabled, CursorIs, GrantsIt, StartsOver;
    if i == 0 {
    } else {
      assert StepAt(r, i - 1);
      ReachableIsValid(r, i - 1);
      if k in r.states[i - 1].requests {
        CursorIsExact(r, i - 1, k);
        ResidentCursor(r.states[i - 1], r.events[i - 1], k, GrantsSince(r, i - 1, k));
      } else {
        NewcomerCursor(r.states[i - 1], r.events[i - 1], k);
        OutsiderStartsOver(r.states[i - 1], r.events[i - 1], k);
      }
    }
  }

  /** The number of a grant: how many the sweep had before it. */
  ghost function Number(r: Trace, m: nat, k: Hash): nat
    requires m < |r.events| < |r.states|
  {
    if GrantsSince(r, m + 1, k) == 0 then 0 else GrantsSince(r, m + 1, k) - 1
  }

  lemma GrantIsNumbered(r: Trace, m: nat, k: Hash)
    requires IsRun(r) && m < |r.events| && GrantsIt(r.states[m], r.events[m], k)
    ensures GrantsSince(r, m + 1, k) == Number(r, m, k) + 1
    ensures OutcomeOf(r.states[m], r.events[m]) == Granted(R.Cursor(Number(r, m, k)))
  {
    assert StepAt(r, m);
    ReachableIsValid(r, m);
    GrantEnters(r.states[m], r.events[m], k);
    hide Next, Enabled, OutcomeOf, StartsOver, CursorIs;
    if k in r.states[m].requests {
      CursorIsExact(r, m, k);
      ResidentCursor(r.states[m], r.events[m], k, GrantsSince(r, m, k));
    } else {
      NewcomerCursor(r.states[m], r.events[m], k);
      OutsiderStartsOver(r.states[m], r.events[m], k);
    }
  }

  /** Grant number `g` of a sweep looks up the eight candidates from the `8 * g`-th on,
      round and round, or all if there are fewer. */
  lemma GrantOffers(r: Trace, m: nat, k: Hash)
    requires IsRun(r) && m < |r.events| && GrantsIt(r.states[m], r.events[m], k)
    ensures (var table := Candidates(r.events[m].call.proofs);
             var offer := Offer(r.events[m].call, OutcomeOf(r.states[m], r.events[m]));
             && |offer| == (if |table| < 8 then |table| else 8)
             && forall i | 0 <= i < |offer| ::
                  offer[i] == table[(8 * Number(r, m, k) % 0x1_0000_0000_0000_0000 + i) % |table|])
  {
    hide StepAt, OutcomeOf, Candidates, Window, Number;
    GrantIsNumbered(r, m, k);
    WindowTurns(Candidates(r.events[m].call.proofs), R.Cursor(Number(r, m, k)));
  }

  lemma WindowAt(table: seq<Candidate>, c: nat, i: nat)
    requires i < |Window(table, c)|
    ensures Window(table, c)[i] == table[R.At(c, i, |table|)]
  {
    R.AddsTurns(c, |table|, i);
  }

  lemma WindowTurns(table: seq<Candidate>, c: nat)
    ensures |Window(table, c)| == if |table| < 8 then |table| else 8
    ensures forall i | 0 <= i < |Window(table, c)| :: Window(table, c)[i] == table[R.At(c, i, |table|)]
  {
    hide Window, R.At;
    forall i | 0 <= i < |Window(table, c)| ensures Window(table, c)[i] == table[R.At(c, i, |table|)] {
      WindowAt(table, c, i);
    }
  }

  // ----------------------------------------------------------------------- a stretch

  /** From after event `lo` up to `hi`, `k` keeps its slot and its proofs. */
  ghost predicate KeepsOn(r: Trace, lo: nat, hi: nat, k: Hash)
    requires lo < hi <= |r.events| < |r.states|
  {
    && k in r.states[hi].requests
    && forall m | lo < m < hi :: k in r.states[m].requests && !StartsOver(r.states[m], r.events[m], k)
  }

  /** Grants of such a stretch are numbered one after the other. */
  lemma {:induction false} NumbersGoOn(r: Trace, lo: nat, hi: nat, k: Hash)
    requires IsRun(r) && lo < hi <= |r.events| && KeepsOn(r, lo, hi, k) && GrantsIt(r.states[lo], r.events[lo], k)
    ensures GrantsSince(r, hi, k) == Number(r, lo, k) + GrantsBetween(r, lo, hi, k)
    decreases hi
  {
    hide StepAt, StartsOver, GrantsIt;
    if hi == lo + 1 {
      GrantIsNumbered(r, lo, k);
      assert GrantsBetween(r, lo, lo, k) == 0;
    } else {
      assert k in r.states[hi - 1].requests && !StartsOver(r.states[hi - 1], r.events[hi - 1], k);
      NumbersGoOn(r, lo, hi - 1, k);
    }
  }

  lemma {:induction false} ProofsStay(r: Trace, lo: nat, hi: nat, k: Hash)
    requires IsRun(r) && lo < hi <= |r.events| && KeepsOn(r, lo, hi, k) && GrantsIt(r.states[lo], r.events[lo], k)
    ensures r.states[hi].requests[k].fingerprint == r.events[lo].call.proofs
    decreases hi
  {
    assert StepAt(r, hi - 1);
    if hi == lo + 1 {
      GrantEnters(r.states[lo], r.events[lo], k);
    } else {
      ProofsStay(r, lo, hi - 1, k);
      ReachableIsValid(r, hi - 1);
      assert k in r.states[hi - 1].requests && !StartsOver(r.states[hi - 1], r.events[hi - 1], k);
      hide Next, Enabled;
      StepOnResident(r.states[hi - 1], r.events[hi - 1], k);
    }
  }

  lemma OfferShows(r: Trace, m: nat, k: Hash, p: nat)
    requires IsRun(r) && m < |r.events| && GrantsIt(r.states[m], r.events[m], k)
    requires p < |Candidates(r.events[m].call.proofs)|
    ensures (var table := Candidates(r.events[m].call.proofs);
             table[p] in OfferedNow(r.states[m], r.events[m], k) <==> R.Shows(R.Cursor(Number(r, m, k)), p, |table|))
  {
    GrantIsNumbered(r, m, k);
    CandidatesAreExact(r.events[m].call.proofs);
    hide StepAt, OutcomeOf, Candidates, Window;
    var table, c := Candidates(r.events[m].call.proofs), R.Cursor(Number(r, m, k));
    TableIsDistinct(table, p);
    WindowShows(table, c, p);
  }

  lemma TableIsDistinct(table: seq<Candidate>, p: nat)
    requires Ordered(table) && p < |table|
    ensures forall q | 0 <= q < |table| && table[q] == table[p] :: q == p
  {
  }

  lemma WindowShows(table: seq<Candidate>, c: nat, p: nat)
    requires p < |table| && forall q | 0 <= q < |table| && table[q] == table[p] :: q == p
    ensures table[p] in Window(table, c) <==> R.Shows(c, p, |table|)
  {
    var len, w := |table|, Window(table, c);
    hide Window;
    WindowTurns(table, c);
    if R.Shows(c, p, len) {
      var i :| 0 <= i < 8 && R.At(c, i, len) == p;
      ShortTable(c, len, i);
      var j := if len < 8 then i % len else i;
      assert w[j] == table[R.At(c, j, len)];
    }
    if table[p] in w {
      var j :| 0 <= j < |w| && w[j] == table[p];
      assert R.At(c, j, len) == p;
    }
  }

  lemma ShortTable(c: nat, len: nat, i: nat)
    requires len > 0
    ensures R.At(c, i % len, len) == R.At(c, i, len)
  {
    R.AddsTurns(i, len, c);
    assert i % len + c == c + i % len && i + c == c + i;
  }

  /** A run in which `k` is granted at `lo` and keeps its slot and proofs up to `hi`. */
  ghost predicate Stretch(r: Trace, lo: nat, hi: nat, k: Hash) {
    IsRun(r) && lo < hi <= |r.events| && KeepsOn(r, lo, hi, k) && GrantsIt(r.states[lo], r.events[lo], k)
  }

  lemma StretchShape(r: Trace, lo: nat, hi: nat, k: Hash)
    requires Stretch(r, lo, hi, k)
    ensures lo < hi <= |r.events| && |r.states| == |r.events| + 1 && r.events[lo].Scan?
    ensures IsRun(r) && GrantsIt(r.states[lo], r.events[lo], k)
    ensures 0 <= |Candidates(r.events[lo].call.proofs)| <= MAX_REQUEST_PROOFS
  {
    CandidatesAreExact(r.events[lo].call.proofs);
  }

  lemma StretchShrinks(r: Trace, lo: nat, m: nat, k: Hash)
    requires Stretch(r, lo, m + 1, k) && lo < m
    ensures Stretch(r, lo, m, k)
    ensures GrantsIt(r.states[m], r.events[m], k) ==>
              && r.events[m].Scan? && r.events[m].call.proofs == r.events[lo].call.proofs
              && Number(r, m, k) == Number(r, lo, k) + GrantsBetween(r, lo, m, k)
  {
    assert k in r.states[m].requests && !StartsOver(r.states[m], r.events[m], k);
    hide StepAt, GrantsBetween, OutcomeOf, Number;
    if GrantsIt(r.states[m], r.events[m], k) { NextIsNumbered(r, lo, m, k); }
  }

  lemma BetweenGrows(r: Trace, lo: nat, m: nat, k: Hash)
    requires lo <= m < |r.events| < |r.states|
    ensures OfferedBetween(r, lo, m + 1, k) == OfferedBetween(r, lo, m, k) + OfferedNow(r.states[m], r.events[m], k)
    ensures GrantsBetween(r, lo, m + 1, k)
         == GrantsBetween(r, lo, m, k) + if GrantsIt(r.states[m], r.events[m], k) then 1 else 0
    ensures OfferedBetween(r, lo, lo, k) == {} && GrantsBetween(r, lo, lo, k) == 0
  {
    hide OfferedNow, GrantsIt;
  }

  lemma EventShows(r: Trace, m: nat, k: Hash, table: seq<Candidate>, p: nat)
    requires IsRun(r) && m < |r.events| && p < |table|
    requires GrantsIt(r.states[m], r.events[m], k) ==> r.events[m].Scan? && Candidates(r.events[m].call.proofs) == table
    ensures table[p] in OfferedNow(r.states[m], r.events[m], k) <==>
              GrantsIt(r.states[m], r.events[m], k) && R.Shows(R.Cursor(Number(r, m, k)), p, |table|)
  {
    hide StepAt, OutcomeOf, Candidates, R.Shows, Number;
    if GrantsIt(r.states[m], r.events[m], k) {
      OfferShows(r, m, k, p);
    } else {
      NotGrantedOffersNothing(r.states[m], r.events[m], k);
    }
  }

  lemma ShownGrows(g: nat, n: nat, p: nat, len: nat)
    requires len > 0
    ensures R.ShownBetween(g, g + n + 1, p, len) <==>
              R.ShownBetween(g, g + n, p, len) || R.Shows(R.Cursor(g + n), p, len)
    ensures !R.ShownBetween(g, g, p, len)
  {
    hide R.Shows, R.Cursor;
  }

  /** What a stretch offers, position by position. */
  lemma {:induction false} StretchShows(r: Trace, lo: nat, hi: nat, k: Hash, table: seq<Candidate>, p: nat)
    requires Stretch(r, lo, hi, k) && lo < hi <= |r.events| < |r.states| && r.events[lo].Scan?
    requires table == Candidates(r.events[lo].call.proofs) && p < |table|
    ensures (var g := Number(r, lo, k);
             table[p] in OfferedBetween(r, lo, hi, k)
             <==> R.ShownBetween(g, g + GrantsBetween(r, lo, hi, k), p, |table|))
    decreases hi
  {
    hide IsRun, Stretch, GrantsIt, OfferedNow, OfferedBetween, GrantsBetween, Candidates, Number;
    hide R.ShownBetween, R.Shows, R.Cursor;
    var g, m := Number(r, lo, k), hi - 1;
    StretchShape(r, lo, hi, k);
    BetweenGrows(r, lo, m, k);
    if m == lo {
      ShownGrows(g, 0, p, |table|);
      EventShows(r, lo, k, table, p);
    } else {
      StretchShrinks(r, lo, m, k);
      StretchShows(r, lo, m, k, table, p);
      ShownGrows(g, GrantsBetween(r, lo, m, k), p, |table|);
      EventShows(r, m, k, table, p);
    }
  }

  lemma NextIsNumbered(r: Trace, lo: nat, m: nat, k: Hash)
    requires IsRun(r) && lo < m < |r.events| && KeepsOn(r, lo, m, k) && GrantsIt(r.states[lo], r.events[lo], k)
    requires k in r.states[m].requests && !StartsOver(r.states[m], r.events[m], k)
    requires GrantsIt(r.states[m], r.events[m], k)
    ensures r.events[m].Scan? && r.events[m].call.proofs == r.events[lo].call.proofs
    ensures Number(r, m, k) == Number(r, lo, k) + GrantsBetween(r, lo, m, k)
  {
    ProofsStay(r, lo, m, k);
    SameProofs(r.states[m], r.events[m], k);
    hide StepAt, StartsOver, GrantsIt;
    NumbersGoOn(r, lo, m, k);
    GrantIsNumbered(r, m, k);
  }

  lemma GrantIsScan(s: Cache, e: Event, k: Hash)
    requires GrantsIt(s, e, k)
    ensures e.Scan?
  {
  }

  lemma SameProofs(s: Cache, e: Event, k: Hash)
    requires GrantsIt(s, e, k) && k in s.requests && !StartsOver(s, e, k)
    ensures e.call.proofs == s.requests[k].fingerprint
  {
  }

  lemma NotGrantedOffersNothing(s: Cache, e: Event, k: Hash)
    requires !GrantsIt(s, e, k)
    ensures OfferedNow(s, e, k) == {}
  {
  }

  // ------------------------------------------------------------------------- rotation

  /** Every candidate is offered in the stretch. */
  ghost predicate OffersAll(r: Trace, lo: nat, hi: nat, k: Hash, table: seq<Candidate>)
    requires lo <= hi <= |r.events| < |r.states|
  {
    forall c | c in table :: c in OfferedBetween(r, lo, hi, k)
  }

  lemma OffersWhatShows(r: Trace, lo: nat, hi: nat, k: Hash, table: seq<Candidate>)
    requires Stretch(r, lo, hi, k) && lo < hi <= |r.events| < |r.states| && r.events[lo].Scan?
    requires table == Candidates(r.events[lo].call.proofs)
    ensures (var g := Number(r, lo, k);
             OffersAll(r, lo, hi, k, table) <==> R.ShowsAll(g, g + GrantsBetween(r, lo, hi, k), |table|))
  {
    hide Stretch, OfferedBetween, GrantsBetween, R.ShownBetween, Number, Candidates;
    var g := Number(r, lo, k);
    var to := g + GrantsBetween(r, lo, hi, k);
    forall p | 0 <= p < |table|
      ensures table[p] in OfferedBetween(r, lo, hi, k) <==> R.ShownBetween(g, to, p, |table|)
    {
      StretchShows(r, lo, hi, k, table, p);
    }
  }

  /** The rotation goes on, whether or not the sweep is complete: from any grant on, while
      the request keeps its slot and its proofs, an eighth of the candidates in grants,
      rounded up, offers every candidate, exactly unless the cursor leaves a gap at the
      end of its word. */
  lemma RotationExactly(r: Trace, lo: nat, hi: nat, k: Hash, table: seq<Candidate>)
    requires Stretch(r, lo, hi, k) && lo < hi <= |r.events| < |r.states| && r.events[lo].Scan?
    requires table == Candidates(r.events[lo].call.proofs) && table != []
    requires GrantsBetween(r, lo, hi, k) == R.Rounds(|table|)
    ensures OffersAll(r, lo, hi, k, table) <==> R.NoGap(Number(r, lo, k), |table|)
  {
    hide Stretch, OffersAll, R.NoGap, GrantsBetween, Number, R.ShowsAll, Candidates;
    StretchShape(r, lo, hi, k);
    OffersWhatShows(r, lo, hi, k, table);
    R.ShowsAllExactly(Number(r, lo, k), |table|);
  }

  /** And any more grants do so too. */
  lemma RotationGoesOn(r: Trace, lo: nat, hi: nat, k: Hash, table: seq<Candidate>)
    requires Stretch(r, lo, hi, k) && lo < hi <= |r.events| < |r.states| && r.events[lo].Scan?
    requires table == Candidates(r.events[lo].call.proofs) && table != []
    requires GrantsBetween(r, lo, hi, k) >= R.Rounds(|table|) && R.NoGap(Number(r, lo, k), |table|)
    ensures OffersAll(r, lo, hi, k, table)
  {
    hide Stretch, OffersAll, R.NoGap, GrantsBetween, Number, R.ShowsAll, Candidates;
    var g, n := Number(r, lo, k), GrantsBetween(r, lo, hi, k);
    StretchShape(r, lo, hi, k);
    OffersWhatShows(r, lo, hi, k, table);
    R.ShowsAllExactly(g, |table|);
    R.MoreShows(g, g + R.Rounds(|table|), g + n, |table|);
  }
}
