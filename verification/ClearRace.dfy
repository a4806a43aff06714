/** When does clearing the cache after a policy change leave it coherent? Readers store their answers without
    a lock, so an answer evaluated before the change may be stored after the clear. */
module ClearRace {
  import opened Text
  import opened Wrappers
  import opened Casbin
  import opened AuthzCache
  import opened Coherence
  import opened Staleness

  function CurrentStore(m: Machine): Store
    requires Shaped(m)
  {
    m.versions[|m.versions| - 1]
  }

  predicate NoWrites(actions: seq<Action>) {
    forall a | a in actions :: !a.Write?
  }

  /** The thread holds an evaluated answer to a NUL-free request that it has not stored yet. */
  predicate Pending(m: Machine, t: nat) {
    var phase := PhaseOf(m, t);
    phase.Evaluated? && Clean(phase.origin.sub, phase.origin.obj, phase.origin.act)
  }

  predicate AnswerHolds(phase: Phase, store: Store)
    requires phase.Evaluated?
  {
    phase.allowed == Enforce(store, phase.origin.sub, phase.origin.obj, phase.origin.act)
  }

  /** Every pending answer is what `store` would answer. */
  ghost predicate PendingHolds(m: Machine, store: Store) {
    forall t: nat | Pending(m, t) :: AnswerHolds(PhaseOf(m, t), store)
  }

  ghost predicate NonePending(m: Machine) {
    forall t: nat :: !Pending(m, t)
  }

  /** The cache after a write, some steps, the clear that follows the write, and more steps. */
  function CacheAfter(ttl: int, m: Machine, store: Store, before: seq<Action>, after: seq<Action>): map<string, CacheEntry>
    requires Shaped(m)
  {
    Run(ttl, Next(ttl, Run(ttl, Next(ttl, m, Write(store)), before), ClearAll), after).cache
  }

  ghost predicate ClearSuffices(ttl: int, m: Machine, store: Store)
    requires Shaped(m)
  {
    forall before, after | NoWrites(before) && NoWrites(after) :: Coherent(CacheAfter(ttl, m, store, before, after), store)
  }

  // ---- steps that change no policy ----

  lemma {:induction false} StoreUnclean(cache: map<string, CacheEntry>, store: Store, user: string, obj: string, act: string, e: CacheEntry)
    requires Coherent(cache, store) && !Clean(user, obj, act)
    ensures Coherent(cache[CacheKey(user, obj, act) := e], store)
  {
    var next := cache[CacheKey(user, obj, act) := e];
    forall u, o, a | Clean(u, o, a) ensures Agrees(next, store, u, o, a) {
      assert Agrees(cache, store, u, o, a);
      if CacheKey(u, o, a) == CacheKey(user, obj, act) {
        CleanKeyIsUnique(u, o, a, user, obj, act);
      }
    }
  }

  lemma {:induction false} PutStaysCoherent(ttl: int, m: Machine, t: nat, store: Store)
    requires Shaped(m) && Coherent(m.cache, store) && PendingHolds(m, store)
    ensures Coherent(Next(ttl, m, Put(t)).cache, store)
  {
    var phase := PhaseOf(m, t);
    if phase.Evaluated? {
      var o := phase.origin;
      if Pending(m, t) {
        assert AnswerHolds(phase, store);
        SetStaysCoherent(m.cache, store, o.sub, o.obj, o.act, ttl, m.now);
      } else if ttl > 0 {
        StoreUnclean(m.cache, store, o.sub, o.obj, o.act, CacheEntry(phase.allowed, m.now + ttl));
      }
    }
  }

  lemma {:induction false} StepStaysCoherent(ttl: int, m: Machine, a: Action, store: Store)
    requires Shaped(m) && !a.Write? && Coherent(m.cache, store) && PendingHolds(m, store)
    ensures Coherent(Next(ttl, m, a).cache, store)
  {
    if a.Put? {
      PutStaysCoherent(ttl, m, a.thread, store);
    } else if !a.Write? {
      FewerEntriesStayCoherent(m.cache, Next(ttl, m, a).cache, store);
    }
  }

  /** An answer that a thread holds after a step was held before or is what the store answers. */
  lemma {:induction false} AnswerAfter(ttl: int, m: Machine, a: Action, t: nat)
    requires Shaped(m) && !a.Write?
    ensures CurrentStore(Next(ttl, m, a)) == CurrentStore(m)
    ensures var phase := PhaseOf(Next(ttl, m, a), t);
            phase.Evaluated? ==> phase == PhaseOf(m, t) || AnswerHolds(phase, CurrentStore(m))
  {
  }

  lemma {:induction false} StepPendingHolds(ttl: int, m: Machine, a: Action)
    requires Shaped(m) && !a.Write? && PendingHolds(m, CurrentStore(m))
    ensures CurrentStore(Next(ttl, m, a)) == CurrentStore(m) && PendingHolds(Next(ttl, m, a), CurrentStore(m))
  {
    var n := Next(ttl, m, a);
    AnswerAfter(ttl, m, a, 0);
    forall t: nat | Pending(n, t) ensures AnswerHolds(PhaseOf(n, t), CurrentStore(m)) {
      AnswerAfter(ttl, m, a, t);
      assert PhaseOf(n, t) == PhaseOf(m, t) ==> Pending(m, t);
    }
  }

  lemma {:induction false} RunPendingHolds(ttl: int, m: Machine, actions: seq<Action>)
    requires Shaped(m) && NoWrites(actions) && PendingHolds(m, CurrentStore(m))
    ensures var n := Run(ttl, m, actions);
            && CurrentStore(n) == CurrentStore(m) && PendingHolds(n, CurrentStore(m))
            && (Coherent(m.cache, CurrentStore(m)) ==> Coherent(n.cache, CurrentStore(m)))
    decreases |actions|
  {
    if |actions| > 0 {
      var k := |actions| - 1;
      RunPendingHolds(ttl, m, actions[..k]);
      var before := Run(ttl, m, actions[..k]);
      StepPendingHolds(ttl, before, actions[k]);
      if Coherent(m.cache, CurrentStore(m)) {
        StepStaysCoherent(ttl, before, actions[k], CurrentStore(m));
      }
    }
  }

  // ---- the exact conditions ----

  /** Clearing after a change to `store` leaves the cache coherent in every continuation without further
      changes if and only if every answer pending at the change is what `store` would answer. */
  lemma {:induction false} ClearSufficesExactly(ttl: int, m: Machine, store: Store)
    requires Shaped(m) && ttl > 0
    ensures ClearSuffices(ttl, m, store) <==> PendingHolds(m, store)
  {
    if PendingHolds(m, store) {
      forall before, after | NoWrites(before) && NoWrites(after)
        ensures Coherent(CacheAfter(ttl, m, store, before, after), store)
      {
        PendingHoldsSuffices(ttl, m, store, before, after);
      }
    } else {
      var t: nat :| Pending(m, t) && !AnswerHolds(PhaseOf(m, t), store);
      LatePutSpoils(ttl, m, store, t);
    }
  }

  lemma {:induction false} PendingHoldsSuffices(ttl: int, m: Machine, store: Store, before: seq<Action>, after: seq<Action>)
    requires Shaped(m) && PendingHolds(m, store) && NoWrites(before) && NoWrites(after)
    ensures Coherent(CacheAfter(ttl, m, store, before, after), store)
  {
    var written := Next(ttl, m, Write(store));
    assert PendingHolds(written, store) by {
      forall t: nat | Pending(written, t) ensures AnswerHolds(PhaseOf(written, t), store) {
        assert Pending(m, t);
      }
    }
    RunPendingHolds(ttl, written, before);
    var mid := Run(ttl, written, before);
    StepPendingHolds(ttl, mid, ClearAll);
    RunPendingHolds(ttl, Next(ttl, mid, ClearAll), after);
  }

  lemma {:induction false} PutSpoils(ttl: int, m: Machine, store: Store, t: nat)
    requires Shaped(m) && ttl > 0 && Pending(m, t) && !AnswerHolds(PhaseOf(m, t), store)
    ensures !Coherent(Next(ttl, m, Put(t)).cache, store)
  {
    var o := PhaseOf(m, t).origin;
    assert !Agrees(Next(ttl, m, Put(t)).cache, store, o.sub, o.obj, o.act);
  }

  lemma {:induction false} LatePutSpoils(ttl: int, m: Machine, store: Store, t: nat)
    requires Shaped(m) && ttl > 0 && Pending(m, t) && !AnswerHolds(PhaseOf(m, t), store)
    ensures NoWrites([]) && NoWrites([Put(t)]) && !Coherent(CacheAfter(ttl, m, store, [], [Put(t)]), store)
  {
    var written := Next(ttl, m, Write(store));
    var cleared := Next(ttl, written, ClearAll);
    assert PhaseOf(cleared, t) == PhaseOf(m, t);
    PutSpoils(ttl, cleared, store, t);
    assert Run(ttl, written, []) == written && [Put(t)][..0] == [] && Run(ttl, cleared, []) == cleared;
  }

  /** So it suffices for every change if and only if no thread holds a pending answer at the change. */
  lemma {:induction false} ClearAlwaysSufficesExactly(ttl: int, m: Machine)
    requires Shaped(m) && ttl > 0
    ensures (forall store :: ClearSuffices(ttl, m, store)) <==> NonePending(m)
  {
    forall store ensures ClearSuffices(ttl, m, store) <==> PendingHolds(m, store) {
      ClearSufficesExactly(ttl, m, store);
    }
    if !NonePending(m) {
      var t: nat :| Pending(m, t);
      var store := Opposite(PhaseOf(m, t));
      assert !PendingHolds(m, store);
    }
  }

  /** A store that answers the other way. */
  lemma {:induction false} Opposite(phase: Phase) returns (store: Store)
    requires phase.Evaluated?
    ensures !AnswerHolds(phase, store)
  {
    var o := phase.origin;
    if phase.allowed {
      store := Store({}, {});
    } else {
      store := AllowAll(o.sub);
    }
  }
}
