/**
 The scan cache of the Arbitrum verifier: which payment request may look up
 proof candidates on the chain, and when.

 Times are nanoseconds. A request key is a 256-bit hash, ordered as its
 big-endian bytes are. A fingerprint is modelled by the proofs it
 digests, that is, the digest is taken to be free of collisions.
 */
module ProofScan {
  import opened Wrappers

  const SECOND: nat := 1_000_000_000
  const MAX_REQUEST_PROOFS: nat := 128
  const MAX_SCAN_CANDIDATES: nat := 8
  const MAX_SCAN_REQUESTS: nat := 1024
  const UNMATCHED_RETRY_DELAY: nat := 15 * SECOND
  const SCAN_IDLE_TTL: nat := 300 * SECOND
  const USIZE_SPACE: nat := 0x1_0000_0000_0000_0000
  const HASH_SPACE: nat :=
    0x1_0000000000000000_0000000000000000_0000000000000000_0000000000000000

  type Hash = n: nat | n < HASH_SPACE
  type Instant = nat

  // ---------------------------------------------------------------- candidates

  /** What account attestation makes of one proof: the attested event and the
      recovered signer, or nothing when the proof is invalid. */
  datatype Attestation = Attestation(identity: nat, sender: nat)
  datatype Proof = Proof(raw: nat, parsed: Option<Attestation>)

  /** One event and every signer attested for it. */
  datatype Candidate = Candidate(identity: nat, senders: set<nat>)

  /** Adds one signer to the ordered candidate table. */
  function AddSender(table: seq<Candidate>, a: Attestation): seq<Candidate> {
    if table == [] || a.identity < table[0].identity then
      [Candidate(a.identity, {a.sender})] + table
    else if a.identity == table[0].identity then
      [Candidate(a.identity, table[0].senders + {a.sender})] + table[1..]
    else
      [table[0]] + AddSender(table[1..], a)
  }

  function Candidates(proofs: seq<Proof>): seq<Candidate> {
    if proofs == [] then []
    else
      var table := Candidates(proofs[..|proofs| - 1]);
      match proofs[|proofs| - 1].parsed
      case None => table
      case Some(a) => AddSender(table, a)
  }

  ghost predicate Ordered(table: seq<Candidate>) {
    forall i, j | 0 <= i < j < |table| :: table[i].identity < table[j].identity
  }

  ghost function SendersFor(proofs: seq<Proof>, identity: nat): set<nat> {
    set p | p in proofs && p.parsed.Some? && p.parsed.value.identity == identity :: p.parsed.value.sender
  }

  ghost predicate Holds(table: seq<Candidate>, identity: nat, sender: nat) {
    exists i | 0 <= i < |table| :: table[i].identity == identity && sender in table[i].senders
  }

  lemma {:induction false} AddSenderKeepsOrder(table: seq<Candidate>, a: Attestation)
    requires Ordered(table)
    ensures Ordered(AddSender(table, a))
    ensures |AddSender(table, a)| > 0
    ensures AddSender(table, a)[0].identity
         == if table == [] || a.identity < table[0].identity then a.identity else table[0].identity
  {
    if table != [] && a.identity > table[0].identity {
      AddSenderKeepsOrder(table[1..], a);
      var rest := AddSender(table[1..], a);
      assert |table| > 1 ==> table[1..][0] == table[1] && table[0].identity < table[1].identity;
      assert table[0].identity < rest[0].identity;
      forall i | 0 <= i < |rest| ensures table[0].identity < rest[i].identity {
        assert i > 0 ==> rest[0].identity < rest[i].identity;
      }
    }
  }

  lemma {:induction false} AddSenderSize(table: seq<Candidate>, a: Attestation)
    ensures |AddSender(table, a)| <= |table| + 1
    ensures (forall c <- table :: c.senders != {}) ==> forall c <- AddSender(table, a) :: c.senders != {}
  {
    if table != [] && a.identity > table[0].identity {
      AddSenderSize(table[1..], a);
    }
  }

  lemma {:induction false} AddSenderHolds(table: seq<Candidate>, a: Attestation, identity: nat, sender: nat)
    ensures Holds(AddSender(table, a), identity, sender)
       <==> Holds(table, identity, sender) || a == Attestation(identity, sender)
  {
    var after := AddSender(table, a);
    if table == [] || a.identity < table[0].identity {
      assert forall i | 0 <= i < |table| :: after[i + 1] == table[i];
      assert after[0] == Candidate(a.identity, {a.sender});
      assert forall i | 0 < i < |after| :: after[i] == table[i - 1];
    } else if a.identity == table[0].identity {
      assert forall i | 0 < i < |table| :: after[i] == table[i];
      assert after[0].identity == a.identity && after[0].senders == table[0].senders + {a.sender};
    } else {
      AddSenderHolds(table[1..], a, identity, sender);
      HoldsTail(table, identity, sender);
      HoldsTail(after, identity, sender);
      assert after[1..] == AddSender(table[1..], a);
    }
  }

  lemma HoldsTail(table: seq<Candidate>, identity: nat, sender: nat)
    requires table != []
    ensures Holds(table, identity, sender)
       <==> Holds(table[1..], identity, sender) || (table[0].identity == identity && sender in table[0].senders)
  {
    assert forall i | 0 <= i < |table| - 1 :: table[1..][i] == table[i + 1];
    assert forall i | 0 < i < |table| :: table[i] == table[1..][i - 1];
  }

  /** Keeping all attestations for an event together: the table is strictly
      ordered by event, so each event appears once, never outgrows the proofs,
      and an event's signers are exactly those some proof attests. */
  lemma {:induction false} CandidatesAreExact(proofs: seq<Proof>)
    ensures Ordered(Candidates(proofs))
    ensures |Candidates(proofs)| <= |proofs|
    ensures forall c <- Candidates(proofs) :: c.senders == SendersFor(proofs, c.identity) && c.senders != {}
    ensures forall p <- proofs :: p.parsed.Some? ==>
                exists c <- Candidates(proofs) :: c.identity == p.parsed.value.identity
  {
    CandidatesTable(proofs);
    var table := Candidates(proofs);
    forall c <- table
      ensures c.senders == SendersFor(proofs, c.identity)
    {
      forall sender
        ensures sender in c.senders <==> sender in SendersFor(proofs, c.identity)
      {
        CandidatesHold(proofs, c.identity, sender);
        var i :| 0 <= i < |table| && table[i] == c;
        if Holds(table, c.identity, sender) {
          var j :| 0 <= j < |table| && table[j].identity == c.identity && sender in table[j].senders;
          assert i == j;
        }
      }
    }
    forall p <- proofs | p.parsed.Some?
      ensures exists c <- table :: c.identity == p.parsed.value.identity
    {
      CandidatesHold(proofs, p.parsed.value.identity, p.parsed.value.sender);
      assert Holds(table, p.parsed.value.identity, p.parsed.value.sender);
      var j :| 0 <= j < |table| && table[j].identity == p.parsed.value.identity;
      assert table[j] in table;
    }
  }

  lemma {:induction false} CandidatesTable(proofs: seq<Proof>)
    ensures Ordered(Candidates(proofs)) && |Candidates(proofs)| <= |proofs|
    ensures forall c <- Candidates(proofs) :: c.senders != {}
  {
    if proofs == [] {
    } else {
      var front := proofs[..|proofs| - 1];
      CandidatesTable(front);
      var last := proofs[|proofs| - 1];
      if last.parsed.Some? {
        AddSenderKeepsOrder(Candidates(front), last.parsed.value);
        AddSenderSize(Candidates(front), last.parsed.value);
      }
    }
  }

  lemma {:induction false} CandidatesHold(proofs: seq<Proof>, identity: nat, sender: nat)
    ensures Holds(Candidates(proofs), identity, sender) <==> sender in SendersFor(proofs, identity)
  {
    if proofs == [] {
    } else {
      var front, last := proofs[..|proofs| - 1], proofs[|proofs| - 1];
      CandidatesHold(front, identity, sender);
      assert proofs == front + [last];
      if last.parsed.Some? {
        AddSenderHolds(Candidates(front), last.parsed.value, identity, sender);
      }
      if sender in SendersFor(proofs, identity) && sender !in SendersFor(front, identity) {
        var p :| p in proofs && p.parsed == Some(Attestation(identity, sender));
        assert p !in front && p == last;
      }
    }
  }

  // --------------------------------------------------------------------- cache

  datatype ScanState = ScanState(
    fingerprint: seq<Proof>,
    // None reserves a slot whose first scan has not run.
    cursor: Option<nat>,
    sweepComplete: bool,
    retryAt: Instant,
    lastUsed: Instant)

  datatype Waiter = Waiter(key: Hash, fingerprint: seq<Proof>)

  datatype Cache = Cache(
    requests: map<Hash, ScanState>,
    waiting: Option<Waiter>,
    lastAdmitted: Option<Hash>)

  const EMPTY: Cache := Cache(map[], None, None)

  datatype Call = Call(key: Hash, proofs: seq<Proof>, now: Instant)

  /** Whether resident `k` may give up its slot at `now` to a call for `current`. */
  predicate Evictable(s: Cache, now: Instant, current: Hash, k: Hash) {
    && k in s.requests
    && k != current
    && s.requests[k].retryAt <= now
    && (|| s.requests[k].cursor.None?
        || s.requests[k].sweepComplete
        || now >= s.requests[k].lastUsed + SCAN_IDLE_TTL)
  }

  /** `v` is a least recently used evictable request, any of them on a tie. */
  ghost predicate OldestReady(s: Cache, now: Instant, current: Hash, v: Option<Hash>) {
    match v
    case None => forall k | k in s.requests :: !Evictable(s, now, current, k)
    case Some(oldest) =>
      && Evictable(s, now, current, oldest)
      && forall k | k in s.requests && Evictable(s, now, current, k) ::
           s.requests[oldest].lastUsed <= s.requests[k].lastUsed
  }

  /** The key compares as not after the last admitted one. */
  predicate Wrapped(last: Option<Hash>, k: Hash) {
    last.Some? && k <= last.value
  }

  /** `a` comes no later than `b` in the circular order that starts after `last`. */
  predicate RankAtMost(last: Option<Hash>, a: Hash, b: Hash) {
    (!Wrapped(last, a) && Wrapped(last, b)) || (Wrapped(last, a) == Wrapped(last, b) && a <= b)
  }

  function Defer(s: Cache, key: Hash, fingerprint: seq<Proof>): Cache {
    if s.waiting.None? || RankAtMost(s.lastAdmitted, key, s.waiting.value.key) then
      s.(waiting := Some(Waiter(key, fingerprint)))
    else s
  }

  /** A call first offers a freed slot to the waiting request, unless the caller
      itself holds a reservation it has not used. */
  predicate OffersSlot(s: Cache, key: Hash) {
    (key !in s.requests || s.requests[key].cursor.Some?) && s.waiting.Some?
  }

  function Reserved(fingerprint: seq<Proof>, now: Instant): ScanState {
    ScanState(fingerprint, None, false, now + UNMATCHED_RETRY_DELAY, now)
  }

  /** Gives the slot of `victim` to the waiting request. */
  function Reserve(s: Cache, now: Instant, victim: Hash): Cache
    requires s.waiting.Some?
  {
    var w := s.waiting.value;
    Cache((s.requests - {victim})[w.key := Reserved(w.fingerprint, now)], None, Some(w.key))
  }

  predicate NeedsSlot(s: Cache, key: Hash) {
    key !in s.requests && |s.requests| >= MAX_SCAN_REQUESTS
  }

  datatype Outcome =
    | Skipped               // no proofs, or too many
    | Deferred              // no slot could be freed
    | Cooling               // resident, and still in its retry delay
    | Granted(cursor: nat)  // may look up candidates from this cursor on

  function Fresh(c: Call): ScanState {
    ScanState(c.proofs, None, false, c.now, c.now)
  }

  /** The state a call works on: changed proofs start over, and any call is a use. */
  function Entered(state: ScanState, c: Call): ScanState {
    (if state.fingerprint != c.proofs then Fresh(c) else state).(lastUsed := c.now)
  }

  function Cursor(state: ScanState): nat {
    if state.cursor.Some? then state.cursor.value else 0
  }

  function SaturatingAdd(a: nat, b: nat): nat {
    if a + b < USIZE_SPACE then a + b else USIZE_SPACE - 1
  }

  function Advanced(state: ScanState, c: Call): ScanState {
    var cursor := Cursor(state);
    state.(sweepComplete := state.sweepComplete || SaturatingAdd(cursor, MAX_SCAN_CANDIDATES) >= |c.proofs|,
           cursor := Some((cursor + MAX_SCAN_CANDIDATES) % USIZE_SPACE),
           retryAt := c.now + UNMATCHED_RETRY_DELAY)
  }

  /** What a call does to its own slot. */
  function Touch(slot: ScanState, c: Call): (r: (ScanState, Outcome))
    ensures r.1.Cooling? || r.1.Granted?
    ensures r.0.fingerprint == c.proofs && r.0.lastUsed == c.now && r.0.cursor.Some?
  {
    var state := Entered(slot, c);
    if state.retryAt > c.now && state.cursor.Some? then (state, Cooling)
    else (Advanced(state, c), Granted(Cursor(state)))
  }

  function Occupy(s: Cache, c: Call): (Cache, Outcome) {
    var (state, out) := Touch(if c.key in s.requests then s.requests[c.key] else Fresh(c), c);
    (s.(requests := s.requests[c.key := state]), out)
  }

  predicate Lookable(c: Call) {
    0 < |c.proofs| <= MAX_REQUEST_PROOFS
  }

  /** The second half of the critical section, with the slot already offered. */
  function Admit(s: Cache, c: Call, second: Option<Hash>): (Cache, Outcome) {
    if NeedsSlot(s, c.key) then
      match second
      case None => (Defer(s, c.key, c.proofs), Deferred)
      case Some(v) => Occupy(s.(requests := s.requests - {v}), c)
    else Occupy(s, c)
  }

  /** One critical section of the scan. `first` and `second` are the victims the
      two searches for a free slot return. */
  function ScanStep(s: Cache, c: Call, first: Option<Hash>, second: Option<Hash>): (Cache, Outcome) {
    if Lookable(c) then Admit(AfterOffer(s, c, first), c, second) else (s, Skipped)
  }

  function AfterOffer(s: Cache, c: Call, first: Option<Hash>): Cache {
    if OffersSlot(s, c.key) && first.Some? then Reserve(s, c.now, first.value) else s
  }

  ghost predicate VictimsFit(s: Cache, c: Call, first: Option<Hash>, second: Option<Hash>) {
    && (OffersSlot(s, c.key) ==> OldestReady(s, c.now, c.key, first))
    && var s1 := AfterOffer(s, c, first);
       NeedsSlot(s1, c.key) ==> OldestReady(s1, c.now, c.key, second)
  }

  /** A finished lookup that observed every candidate it was given ends the delay. */
  function FinishStep(s: Cache, key: Hash, proofs: seq<Proof>, now: Instant): Cache {
    if key in s.requests && s.requests[key].fingerprint == proofs then
      s.(requests := s.requests[key := s.requests[key].(retryAt := now)])
    else s
  }

  // ------------------------------------------------------------------ offering

  /** The candidates one grant looks up: at most eight, from the cursor on, cyclically. */
  function Window(table: seq<Candidate>, cursor: nat): (w: seq<Candidate>)
    ensures |w| == if |table| < MAX_SCAN_CANDIDATES then |table| else MAX_SCAN_CANDIDATES
    ensures forall c <- w :: c in table
  {
    if table == [] then []
    else
      var n := if |table| < MAX_SCAN_CANDIDATES then |table| else MAX_SCAN_CANDIDATES;
      seq(n, i requires 0 <= i < n => table[(cursor % |table| + i) % |table|])
  }

  function Offer(c: Call, out: Outcome): seq<Candidate> {
    if out.Granted? then Window(Candidates(c.proofs), out.cursor) else []
  }

  // ---------------------------------------------------------------------- runs

  datatype Event =
    | Scan(call: Call, first: Option<Hash>, second: Option<Hash>)
    | Finish(key: Hash, proofs: seq<Proof>, now: Instant)

  function Time(e: Event): Instant {
    match e
    case Scan(c, _, _) => c.now
    case Finish(_, _, now) => now
  }

  ghost predicate Enabled(s: Cache, e: Event) {
    e.Scan? && Lookable(e.call) ==> VictimsFit(s, e.call, e.first, e.second)
  }

  function Next(s: Cache, e: Event): Cache {
    match e
    case Scan(c, first, second) => ScanStep(s, c, first, second).0
    case Finish(key, proofs, now) => FinishStep(s, key, proofs, now)
  }

  /** A trace: the events and the caches before, between and after them. */
  datatype Trace = Trace(events: seq<Event>, states: seq<Cache>)

  ghost predicate StepAt(r: Trace, i: nat)
    requires i < |r.events| && |r.states| == |r.events| + 1
  {
    Enabled(r.states[i], r.events[i]) && r.states[i + 1] == Next(r.states[i], r.events[i])
  }

  /** The trace starts with an empty cache and takes only steps the code takes. */
  ghost predicate IsRun(r: Trace) {
    && |r.states| == |r.events| + 1
    && r.states[0] == EMPTY
    && forall i | 0 <= i < |r.events| :: StepAt(r, i)
  }

  function OutcomeOf(s: Cache, e: Event): Outcome {
    match e
    case Scan(c, first, second) => ScanStep(s, c, first, second).1
    case Finish(_, _, _) => Skipped
  }

  /** Event `i` grants a scan to request `k`. */
  ghost predicate Grants(r: Trace, i: nat, k: Hash)
    requires i < |r.events| < |r.states|
  {
    && r.events[i].Scan? && r.events[i].call.key == k
    && OutcomeOf(r.states[i], r.events[i]).Granted?
  }

  // ----------------------------------------------------------------- structure

  /** What every reachable cache keeps, whatever the clock does: it is within its
      bound, and a request waits only outside a full cache. */
  ghost predicate Valid(s: Cache) {
    && |s.requests| <= MAX_SCAN_REQUESTS
    && (s.waiting.Some? ==> s.waiting.value.key !in s.requests && |s.requests| == MAX_SCAN_REQUESTS)
  }

  lemma RemoveSize<V>(m: map<Hash, V>, k: Hash)
    requires k in m
    ensures |m - {k}| == |m| - 1
  {
    assert (m - {k}).Keys == m.Keys - {k};
  }

  lemma InsertSize<V>(m: map<Hash, V>, k: Hash, v: V)
    ensures |m[k := v]| == if k in m then |m| else |m| + 1
  {
    assert m[k := v].Keys == m.Keys + {k};
  }

  lemma OfferKeepsValid(s: Cache, c: Call, first: Option<Hash>)
    requires Valid(s)
    requires OffersSlot(s, c.key) ==> OldestReady(s, c.now, c.key, first)
    ensures Valid(AfterOffer(s, c, first))
    ensures |AfterOffer(s, c, first).requests| == |s.requests|
  {
    if OffersSlot(s, c.key) && first.Some? {
      RemoveSize(s.requests, first.value);
      InsertSize(s.requests - {first.value}, s.waiting.value.key, Reserved(s.waiting.value.fingerprint, c.now));
    }
  }

  lemma AdmitKeepsValid(s: Cache, c: Call, second: Option<Hash>)
    requires Valid(s)
    requires NeedsSlot(s, c.key) && second.Some? ==> second.value in s.requests && s.waiting.None?
    ensures Valid(Admit(s, c, second).0)
    ensures |s.requests| <= |Admit(s, c, second).0.requests|
  {
    hide Occupy;
    if NeedsSlot(s, c.key) {
      if second.Some? {
        RemoveSize(s.requests, second.value);
        OccupySize(s.(requests := s.requests - {second.value}), c);
      }
    } else {
      OccupySize(s, c);
    }
  }

  /** A call that evicts for itself leaves nobody waiting: the first search would
      have found the same victim. */
  lemma SecondSearchServesCaller(s: Cache, c: Call, first: Option<Hash>, second: Option<Hash>)
    requires VictimsFit(s, c, first, second)
    requires NeedsSlot(AfterOffer(s, c, first), c.key) && second.Some?
    ensures AfterOffer(s, c, first).waiting.None?
  {
    assert Evictable(AfterOffer(s, c, first), c.now, c.key, second.value);
  }

  lemma StepKeepsValid(s: Cache, e: Event)
    requires Valid(s) && Enabled(s, e)
    ensures Valid(Next(s, e))
    ensures |s.requests| <= |Next(s, e).requests|
  {
    hide AfterOffer, Admit;
    match e
    case Finish(key, proofs, now) =>
      if key in s.requests { InsertSize(s.requests, key, s.requests[key].(retryAt := now)); }
    case Scan(c, first, second) =>
      if Lookable(c) {
        OfferKeepsValid(s, c, first);
        if NeedsSlot(AfterOffer(s, c, first), c.key) && second.Some? {
          SecondSearchServesCaller(s, c, first, second);
        }
        AdmitKeepsValid(AfterOffer(s, c, first), c, second);
      }
  }

  lemma OccupySize(s: Cache, c: Call)
    ensures |Occupy(s, c).0.requests| == if c.key in s.requests then |s.requests| else |s.requests| + 1
    ensures Occupy(s, c).0.requests.Keys == s.requests.Keys + {c.key}
    ensures Occupy(s, c).0.waiting == s.waiting
  {
    InsertSize(s.requests, c.key, Occupy(s, c).0.requests[c.key]);
  }

  lemma {:induction false} ReachableIsValid(r: Trace, i: nat)
    requires IsRun(r) && i <= |r.events|
    ensures Valid(r.states[i])
  {
    if i > 0 {
      ReachableIsValid(r, i - 1);
      assert StepAt(r, i - 1);
      StepKeepsValid(r.states[i - 1], r.events[i - 1]);
    } else {
      assert r.states[0] == EMPTY;
    }
  }

  // --------------------------------------------------------- one slot, one event

  /** What an event makes of the slot of `k`, if `k` keeps it. */
  function Kept(state: ScanState, e: Event, k: Hash): ScanState {
    match e
    case Scan(c, _, _) => if Lookable(c) && c.key == k then Touch(state, c).0 else state
    case Finish(key, proofs, now) =>
      if key == k && state.fingerprint == proofs then state.(retryAt := now) else state
  }

  predicate CallsFor(e: Event, k: Hash) {
    e.Scan? && Lookable(e.call) && e.call.key == k
  }

  /** A slot is lost only to another caller that may evict it; otherwise it
      changes only by its own events. */
  lemma StepOnResident(s: Cache, e: Event, k: Hash)
    requires Valid(s) && Enabled(s, e) && k in s.requests
    ensures k !in Next(s, e).requests ==>
              e.Scan? && Lookable(e.call) && Evictable(s, Time(e), e.call.key, k)
    ensures k in Next(s, e).requests ==> Next(s, e).requests[k] == Kept(s.requests[k], e, k)
    ensures CallsFor(e, k) ==> OutcomeOf(s, e) == Touch(s.requests[k], e.call).1
  {
    hide Touch;
    if e.Scan? && Lookable(e.call) {
      var s1 := AfterOffer(s, e.call, e.first);
      if k in s1.requests {
        assert s1.requests[k] == s.requests[k];
        if NeedsSlot(s1, e.call.key) && e.second == Some(k) {
          assert Evictable(s, Time(e), e.call.key, k);
        }
      }
    }
  }

  /** The event gives the slot of an evicted request to the waiting one. */
  ghost predicate Reserves(s: Cache, e: Event) {
    e.Scan? && Lookable(e.call) && OffersSlot(s, e.call.key) && e.first.Some?
  }

  /** The first call on a reservation behaves as on a new slot. */
  lemma TouchReserved(fingerprint: seq<Proof>, c: Call)
    ensures Touch(Reserved(fingerprint, c.now), c) == Touch(Fresh(c), c)
    ensures Touch(Fresh(c), c).1 == Granted(0)
  {
  }

  /** A request enters by its own call, which is granted from the start, or by a
      reservation made for it. */
  lemma StepOnAbsent(s: Cache, e: Event, k: Hash)
    requires Valid(s) && Enabled(s, e) && k !in s.requests && k in Next(s, e).requests
    ensures CallsFor(e, k) ==>
              OutcomeOf(s, e) == Granted(0) && Next(s, e).requests[k] == Touch(Fresh(e.call), e.call).0
    ensures !CallsFor(e, k) ==>
              && Reserves(s, e) && s.waiting.value.key == k
              && Next(s, e).requests[k] == Reserved(s.waiting.value.fingerprint, Time(e))
  {
    hide Touch, Reserved, OldestReady;
    assert e.Scan? && Lookable(e.call);
    if s.waiting.Some? { TouchReserved(s.waiting.value.fingerprint, e.call); }
    TouchReserved([], e.call);
  }

  // ------------------------------------------------------------- imperative code

  datatype PaymentScan = PaymentScan(key: Hash, fingerprint: seq<Proof>, candidates: seq<Candidate>)

  method FromProofs(proofs: seq<Proof>) returns (r: Option<seq<Candidate>>)
    ensures r == if |proofs| > 128 then None else Some(Candidates(proofs))
  {
    if |proofs| > MAX_REQUEST_PROOFS {
      return None;
    }
    var table: seq<Candidate> := [];
    for i := 0 to |proofs|
      invariant table == Candidates(proofs[..i])
    {
      assert proofs[..i + 1][..i] == proofs[..i];
      match proofs[i].parsed {
        case None =>
        case Some(a) => table := AddSender(table, a);
      }
    }
    assert proofs[..|proofs|] == proofs;
    r := Some(table);
  }

  class ScanCache {
    var requests: map<Hash, ScanState>
    var waiting: Option<Waiter>
    var lastAdmitted: Option<Hash>

    ghost function View(): Cache
      reads this
    {
      Cache(requests, waiting, lastAdmitted)
    }

    constructor ()
      ensures View() == EMPTY
    {
      requests, waiting, lastAdmitted := map[], None, None;
    }

    method FindOldestReady(now: Instant, current: Hash) returns (v: Option<Hash>)
      ensures OldestReady(View(), now, current, v)
    {
      v := None;
      var todo := requests.Keys;
      while todo != {}
        invariant todo <= requests.Keys
        invariant v.None? ==> forall k | k in requests.Keys - todo :: !Evictable(View(), now, current, k)
        invariant v.Some? ==> Evictable(View(), now, current, v.value)
        invariant v.Some? ==> forall k | k in requests.Keys - todo && Evictable(View(), now, current, k) ::
                    requests[v.value].lastUsed <= requests[k].lastUsed
        decreases todo
      {
        var k :| k in todo;
        todo := todo - {k};
        var state := requests[k];
        if && k != current && state.retryAt <= now
           && (state.cursor.None? || state.sweepComplete || now >= state.lastUsed + SCAN_IDLE_TTL)
           && (v.None? || state.lastUsed < requests[v.value].lastUsed)
        {
          v := Some(k);
        }
      }
    }

    method DeferRequest(key: Hash, fingerprint: seq<Proof>)
      modifies this
      ensures View() == Defer(old(View()), key, fingerprint)
    {
      if waiting.None? || RankAtMost(lastAdmitted, key, waiting.value.key) {
        waiting := Some(Waiter(key, fingerprint));
      }
    }

    /** Runs the critical section as one enabled event of the run, and hands out
        exactly the candidates that event offers. */
    method PaymentScanAt(key: Hash, proofs: seq<Proof>, now: Instant)
      returns (scan: Option<PaymentScan>, ghost first: Option<Hash>, ghost second: Option<Hash>)
      modifies this
      ensures Enabled(old(View()), Scan(Call(key, proofs, now), first, second))
      ensures View() == Next(old(View()), Scan(Call(key, proofs, now), first, second))
      ensures scan.None? <==> |proofs| > MAX_REQUEST_PROOFS
      ensures scan.Some? ==> scan.value == PaymentScan(key, proofs,
                Offer(Call(key, proofs, now),
                      OutcomeOf(old(View()), Scan(Call(key, proofs, now), first, second))))
    {
      first, second := None, None;
      if |proofs| > MAX_REQUEST_PROOFS {
        return None, first, second;
      }
      if proofs == [] {
        return Some(PaymentScan(key, proofs, [])), first, second;
      }
      if (key !in requests || requests[key].cursor.Some?) && waiting.Some? {
        var oldest := FindOldestReady(now, key);
        first := oldest;
        if oldest.Some? {
          var w := waiting.value;
          requests := (requests - {oldest.value})
            [w.key := ScanState(w.fingerprint, None, false, now + UNMATCHED_RETRY_DELAY, now)];
          waiting := None;
          lastAdmitted := Some(w.key);
        }
      }
      ghost var c := Call(key, proofs, now);
      assert View() == AfterOffer(old(View()), c, first);
      if key !in requests && |requests| >= MAX_SCAN_REQUESTS {
        var oldest := FindOldestReady(now, key);
        second := oldest;
        if oldest.None? {
          DeferRequest(key, proofs);
          return Some(PaymentScan(key, proofs, [])), first, second;
        }
        requests := requests - {oldest.value};
      }
      var granted, cursor := Enter(key, proofs, now);
      if !granted {
        return Some(PaymentScan(key, proofs, [])), first, second;
      }
      var candidates := FromProofs(proofs);
      scan := Some(PaymentScan(key, proofs, Window(candidates.value, cursor)));
    }

    /** The resident part of the critical section: reset, retry delay, cursor. */
    method Enter(key: Hash, proofs: seq<Proof>, now: Instant) returns (granted: bool, cursor: nat)
      modifies this
      ensures View() == Occupy(old(View()), Call(key, proofs, now)).0
      ensures Occupy(old(View()), Call(key, proofs, now)).1 == if granted then Granted(cursor) else Cooling
    {
      var state := if key in requests then requests[key] else ScanState(proofs, None, false, now, now);
      if state.fingerprint != proofs {
        state := state.(fingerprint := proofs, retryAt := now, cursor := None, sweepComplete := false);
      }
      state := state.(lastUsed := now);
      if state.retryAt > now && state.cursor.Some? {
        requests := requests[key := state];
        return false, 0;
      }
      cursor := match state.cursor case Some(c) => c case None => 0;
      state := state.(sweepComplete := state.sweepComplete
                                       || SaturatingAdd(cursor, MAX_SCAN_CANDIDATES) >= |proofs|);
      state := state.(cursor := Some((cursor + MAX_SCAN_CANDIDATES) % USIZE_SPACE));
      state := state.(retryAt := now + UNMATCHED_RETRY_DELAY);
      requests := requests[key := state];
      granted := true;
    }

    /** Only a lookup that had candidates and observed all of them ends the delay. */
    method FinishPaymentScan(scan: PaymentScan, allObserved: bool, now: Instant)
      modifies this
      ensures View() == if allObserved && scan.candidates != []
                        then Next(old(View()), Finish(scan.key, scan.fingerprint, now))
                        else old(View())
    {
      if allObserved && scan.candidates != [] && scan.key in requests
         && requests[scan.key].fingerprint == scan.fingerprint
      {
        requests := requests[scan.key := requests[scan.key].(retryAt := now)];
      }
    }
  }
}
