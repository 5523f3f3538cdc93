/**
 One lock per key, kept in a registry of weak references: the Creator mutation fence
 and the Marketplace operation fence.

 Every lookup, every copy or drop of a reference and every acquisition is one event.
 */
module MutationLocks {
  type Key = nat
  type Lock = nat
  type Holder = nat

  datatype State = State(
    registry: map<Key, Lock>,     // weak references
    keys: map<Lock, Key>,         // history: what each lock was made for
    holders: map<Holder, Lock>,   // strong references
    owners: set<Holder>)          // those that have acquired their lock

  const START: State := State(map[], map[], map[], {})

  datatype Event =
    | Lookup(holder: Holder, key: Key, made: Lock)
    | Clone(holder: Holder, copy: Holder)
    | Acquire(holder: Holder)
    | Release(holder: Holder)
    | Drop(holder: Holder)

  predicate Alive(holders: map<Holder, Lock>, lock: Lock) { exists h | h in holders :: holders[h] == lock }

  predicate Owned(s: State, lock: Lock) {
    exists h | h in s.holders :: s.holders[h] == lock && h in s.owners
  }

  predicate Enabled(s: State, e: Event) {
    match e
    case Lookup(holder, _, made) => holder !in s.holders && made !in s.keys
    case Clone(holder, copy) => holder in s.holders && copy !in s.holders
    case Acquire(holder) => holder in s.holders && !Owned(s, s.holders[holder])
    case Release(holder) => holder in s.owners
    case Drop(holder) => holder in s.holders
  }

  function Retained(s: State): map<Key, Lock> {
    map k | k in s.registry && Alive(s.holders, s.registry[k]) :: s.registry[k]
  }

  function Next(s: State, e: Event): State
    requires Enabled(s, e)
  {
    match e
    case Lookup(holder, key, made) =>
      var registry := Retained(s);
      if key in registry then s.(registry := registry, holders := s.holders[holder := registry[key]])
      else s.(registry := registry[key := made], keys := s.keys[made := key], holders := s.holders[holder := made])
    case Clone(holder, copy) => s.(holders := s.holders[copy := s.holders[holder]])
    case Acquire(holder) => s.(owners := s.owners + {holder})
    case Release(holder) => s.(owners := s.owners - {holder})
    case Drop(holder) => s.(holders := s.holders - {holder}, owners := s.owners - {holder})
  }

  /** Every lock still held is the registered lock of its key, and a lock has at most
      one owner. */
  ghost predicate Valid(s: State) {
    && (forall k | k in s.registry :: s.registry[k] in s.keys && s.keys[s.registry[k]] == k)
    && (forall h | h in s.holders :: Registered(s, s.holders[h]))
    && s.owners <= s.holders.Keys
    && (forall a, b | a in s.owners && b in s.owners :: SameOwner(s, a, b))
  }

  ghost predicate Registered(s: State, lock: Lock) {
    lock in s.keys && s.keys[lock] in s.registry && s.registry[s.keys[lock]] == lock
  }

  ghost predicate SameOwner(s: State, a: Holder, b: Holder) {
    a in s.holders && b in s.holders && s.holders[a] == s.holders[b] ==> a == b
  }

  lemma NextKeepsOwners(s: State, e: Event, a: Holder, b: Holder)
    requires Valid(s) && Enabled(s, e) && a in Next(s, e).owners && b in Next(s, e).owners
    ensures SameOwner(Next(s, e), a, b)
  {
    if a in s.owners && b in s.owners { assert SameOwner(s, a, b); }
  }

  lemma NextKeepsValid(s: State, e: Event)
    requires Valid(s) && Enabled(s, e)
    ensures Valid(Next(s, e))
  {
    var t := Next(s, e);
    forall h | h in t.holders ensures Registered(t, t.holders[h]) {
      if h in s.holders {
        assert Registered(s, s.holders[h]) && Alive(s.holders, s.holders[h]);
      }
    }
    forall a, b | a in t.owners && b in t.owners ensures SameOwner(t, a, b) { NextKeepsOwners(s, e, a, b); }
  }

  datatype Trace = Trace(events: seq<Event>, states: seq<State>)

  ghost predicate StepAt(r: Trace, i: nat)
    requires i < |r.events| && |r.states| == |r.events| + 1
  {
    Enabled(r.states[i], r.events[i]) && r.states[i + 1] == Next(r.states[i], r.events[i])
  }

  ghost predicate IsRun(r: Trace) {
    && |r.states| == |r.events| + 1 && r.states[0] == START
    && forall i | 0 <= i < |r.events| :: StepAt(r, i)
  }

  lemma {:induction false} ReachableIsValid(r: Trace, i: nat)
    requires IsRun(r) && i <= |r.events|
    ensures Valid(r.states[i])
  {
    hide Enabled, Next;
    if i == 0 {
    } else {
      ReachableIsValid(r, i - 1);
      assert StepAt(r, i - 1);
      NextKeepsValid(r.states[i - 1], r.events[i - 1]);
    }
  }

  /** Under every interleaving of lookups, clones and drops, any two holders of a lock
      for one key hold the same lock. */
  lemma OneLockPerKey(r: Trace, i: nat, a: Holder, b: Holder)
    requires IsRun(r) && i <= |r.events| && a in r.states[i].holders && b in r.states[i].holders
    ensures r.states[i].holders[a] in r.states[i].keys && r.states[i].holders[b] in r.states[i].keys
    ensures r.states[i].keys[r.states[i].holders[a]] == r.states[i].keys[r.states[i].holders[b]]
       <==> r.states[i].holders[a] == r.states[i].holders[b]
  {
    ReachableIsValid(r, i);
    assert Registered(r.states[i], r.states[i].holders[a]) && Registered(r.states[i], r.states[i].holders[b]);
  }

  ghost predicate OwnsKey(s: State, h: Holder, key: Key) {
    h in s.owners && h in s.holders && s.holders[h] in s.keys && s.keys[s.holders[h]] == key
  }

  /** So at most one holder at a time owns the fence of a key, although the lock behind
      the fence may be dropped and made anew between uses. */
  lemma MutualExclusion(r: Trace, i: nat, key: Key, a: Holder, b: Holder)
    requires IsRun(r) && i <= |r.events| && OwnsKey(r.states[i], a, key) && OwnsKey(r.states[i], b, key)
    ensures a == b
  {
    OneLockPerKey(r, i, a, b);
    ReachableIsValid(r, i);
    assert SameOwner(r.states[i], a, b);
  }

  /** A lookup leaves only entries whose lock is held, and loses none of those. */
  lemma LookupPrunes(s: State, e: Event, k: Key)
    requires Valid(s) && Enabled(s, e) && e.Lookup?
    ensures k in Next(s, e).registry <==>
              exists h | h in Next(s, e).holders ::
                Next(s, e).holders[h] in Next(s, e).keys && Next(s, e).keys[Next(s, e).holders[h]] == k
  {
    NextKeepsValid(s, e);
    var t := Next(s, e);
    if k in t.registry {
      if k == e.key {
        assert t.holders[e.holder] == t.registry[k];
      } else {
        var h :| h in s.holders && s.holders[h] == s.registry[k];
        assert t.holders[h] == t.registry[k];
      }
    }
    if h :| h in t.holders && t.holders[h] in t.keys && t.keys[t.holders[h]] == k {
      assert Registered(t, t.holders[h]);
    }
  }

  /** A lookup gives a lock of the key asked for: the one somebody holds, or else a new one. */
  lemma LookupGives(s: State, e: Event)
    requires Valid(s) && Enabled(s, e) && e.Lookup?
    ensures (var t := Next(s, e);
             && e.holder in t.holders && t.holders[e.holder] in t.keys && t.keys[t.holders[e.holder]] == e.key
             && (forall h | h in s.holders && s.holders[h] in s.keys && s.keys[s.holders[h]] == e.key ::
                   t.holders[e.holder] == s.holders[h])
             && ((forall h | h in s.holders && s.holders[h] in s.keys :: s.keys[s.holders[h]] != e.key) ==>
                   t.holders[e.holder] == e.made))
  {
    forall h | h in s.holders && s.holders[h] in s.keys && s.keys[s.holders[h]] == e.key
      ensures Next(s, e).holders[e.holder] == s.holders[h]
    {
      assert Registered(s, s.holders[h]) && Alive(s.holders, s.holders[h]);
    }
  }

  class Registry {
    var registry: map<Key, Lock>
    ghost var keys: map<Lock, Key>
    var holders: map<Holder, Lock>  // the reference counts, holder by holder
    ghost var owners: set<Holder>

    ghost function View(): State
      reads this
    {
      State(registry, keys, holders, owners)
    }

    constructor ()
      ensures View() == START
    {
      registry, keys, holders, owners := map[], map[], map[], {};
    }

    method LockFor(holder: Holder, key: Key, made: Lock) returns (lock: Lock)
      requires Enabled(View(), Lookup(holder, key, made))
      modifies this
      ensures View() == Next(old(View()), Lookup(holder, key, made))
      ensures holder in holders && lock == holders[holder] && key in registry && registry[key] == lock
    {
      registry := map k | k in registry && Alive(holders, registry[k]) :: registry[k];
      if key in registry {
        lock := registry[key];
      } else {
        lock := made;
        registry := registry[key := lock];
        keys := keys[lock := key];
      }
      holders := holders[holder := lock];
    }
  }
}
