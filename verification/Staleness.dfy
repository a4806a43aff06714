/** Authorization answers under arbitrary interleaving. A reader looks in the cache, evaluates under the
    read lock and stores its result later without a lock; writers, clears, invalidations and cleanups may
    come between any two of these. Writers change the store to anything, so failing and half-done
    operations are covered as well. */
module Staleness {
  import opened Text
  import opened Wrappers
  import opened Casbin
  import opened AuthzCache

  datatype Phase =
    | Idle
    | Missed(sub: string, obj: string, act: string)
    | Evaluated(allowed: bool, origin: Origin)

  /** Where an answer comes from: the request, the store version it was evaluated in, and when it was
      evaluated and stored. */
  datatype Origin = Origin(sub: string, obj: string, act: string, version: nat, evaluatedAt: int, storedAt: int)

  datatype Answer = Answer(sub: string, obj: string, act: string, allowed: bool, servedAt: int, origin: Origin)

  /** `versions` are the stores of the run so far, the last one current, `since` when each became current.
      `origins` is bookkeeping beside the cache; no step's outcome depends on it. */
  datatype Machine = Machine(now: int, versions: seq<Store>, since: seq<int>, cache: map<string, CacheEntry>,
                             origins: map<string, Origin>, threads: map<nat, Phase>, served: seq<Answer>)

  datatype Action =
    | Tick(elapsed: nat)
    | Write(store: Store)
    | ClearAll
    | Invalidate(prefix: string)
    | Sweep
    | Look(thread: nat, sub: string, obj: string, act: string)
    | Evaluate(thread: nat)
    | Put(thread: nat)

  function PhaseOf(m: Machine, thread: nat): Phase {
    if thread in m.threads then m.threads[thread] else Idle
  }

  function KeepOnly(m: Machine, cache: map<string, CacheEntry>): Machine {
    m.(cache := cache, origins := map k | k in cache && k in m.origins :: m.origins[k])
  }

  predicate Shaped(m: Machine) {
    |m.versions| == |m.since| >= 1 && m.cache.Keys == m.origins.Keys
  }

  /** One step; a step of a thread that is not at that point does nothing. */
  function Next(ttl: int, m: Machine, a: Action): (n: Machine)
    requires Shaped(m)
    ensures Shaped(n) && m.versions <= n.versions && m.since <= n.since && m.now <= n.now
    ensures n.since == m.since || n.since == m.since + [m.now]
  {
    match a
    case Tick(elapsed) => m.(now := m.now + elapsed)
    case Write(store) => m.(versions := m.versions + [store], since := m.since + [m.now])
    case ClearAll => KeepOnly(m, map[])
    case Invalidate(prefix) => KeepOnly(m, WithoutPrefix(m.cache, prefix))
    case Sweep => KeepOnly(m, WithoutExpired(m.cache, m.now))
    case Look(thread, sub, obj, act) =>
      var key := CacheKey(sub, obj, act);
      if !PhaseOf(m, thread).Idle? then m
      else
        var seen := KeepOnly(m, AfterLookup(m.cache, key, m.now));
        (match Lookup(m.cache, key, m.now)
         case Some(allowed) => seen.(served := m.served + [Answer(sub, obj, act, allowed, m.now, m.origins[key])])
         case None => seen.(threads := m.threads[thread := Missed(sub, obj, act)]))
    case Evaluate(thread) =>
      (match PhaseOf(m, thread)
       case Missed(sub, obj, act) =>
         var v := |m.versions| - 1;
         var allowed := Enforce(m.versions[v], sub, obj, act);
         m.(threads := m.threads[thread := Evaluated(allowed, Origin(sub, obj, act, v, m.now, m.now))])
       case _ => m)
    case Put(thread) =>
      (match PhaseOf(m, thread)
       case Evaluated(allowed, found) =>
         var origin := found.(storedAt := m.now);
         var key := CacheKey(origin.sub, origin.obj, origin.act);
         m.(cache := AfterSet(m.cache, key, allowed, ttl, m.now),
            origins := if ttl <= 0 then m.origins else m.origins[key := origin],
            threads := m.threads[thread := Idle],
            served := m.served + [Answer(origin.sub, origin.obj, origin.act, allowed, m.now, origin)])
       case _ => m)
  }

  function Start(store: Store, now: int): (m: Machine)
    ensures Shaped(m)
  {
    Machine(now, [store], [now], map[], map[], map[], [])
  }

  function Run(ttl: int, m: Machine, actions: seq<Action>): (n: Machine)
    requires Shaped(m)
    ensures Shaped(n)
    decreases |actions|
  {
    if |actions| == 0 then m else Next(ttl, Run(ttl, m, actions[..|actions| - 1]), actions[|actions| - 1])
  }

  /** Version `v` was the current store at time `t`. */
  predicate CurrentAt(m: Machine, v: nat, t: int)
    requires Shaped(m)
  {
    v < |m.versions| && m.since[v] <= t <= m.now && (v + 1 < |m.versions| ==> t <= m.since[v + 1])
  }

  /** `allowed` was the enforcer's answer when it was evaluated. */
  ghost predicate WasTrue(m: Machine, allowed: bool, o: Origin)
    requires Shaped(m)
  {
    CurrentAt(m, o.version, o.evaluatedAt) && o.evaluatedAt <= o.storedAt <= m.now
    && allowed == Enforce(m.versions[o.version], o.sub, o.obj, o.act)
  }

  ghost predicate EntrySound(ttl: int, m: Machine, key: string)
    requires Shaped(m) && key in m.cache
  {
    var o := m.origins[key];
    key == CacheKey(o.sub, o.obj, o.act) && WasTrue(m, m.cache[key].allowed, o) && m.cache[key].expiresAt == o.storedAt + ttl
  }

  ghost predicate AnswerSound(ttl: int, m: Machine, a: Answer)
    requires Shaped(m)
  {
    && CacheKey(a.sub, a.obj, a.act) == CacheKey(a.origin.sub, a.origin.obj, a.origin.act)
    && WasTrue(m, a.allowed, a.origin)
    && a.origin.storedAt <= a.servedAt <= m.now
    && (a.servedAt <= a.origin.storedAt + ttl || a.servedAt == a.origin.storedAt)
  }

  ghost predicate Sound(ttl: int, m: Machine)
    requires Shaped(m)
  {
    SinceSound(m) && EntriesSound(ttl, m) && ThreadsSound(m) && ServedSound(ttl, m)
  }

  ghost predicate SinceSound(m: Machine) {
    forall i | 0 <= i < |m.since| :: m.since[i] <= m.now
  }

  ghost predicate EntriesSound(ttl: int, m: Machine)
    requires Shaped(m)
  {
    forall key | key in m.cache :: EntrySound(ttl, m, key)
  }

  ghost predicate ThreadsSound(m: Machine)
    requires Shaped(m)
  {
    forall t | t in m.threads && m.threads[t].Evaluated? :: WasTrue(m, m.threads[t].allowed, m.threads[t].origin)
  }

  ghost predicate ServedSound(ttl: int, m: Machine)
    requires Shaped(m)
  {
    forall a | a in m.served :: AnswerSound(ttl, m, a)
  }

  /** Time passing and new versions leave every recorded fact true. */
  lemma {:induction false} FactsPersist(m: Machine, n: Machine, allowed: bool, o: Origin)
    requires Shaped(m) && Shaped(n) && WasTrue(m, allowed, o)
    requires m.versions <= n.versions && m.since <= n.since && m.now <= n.now
    requires |n.versions| > |m.versions| ==> n.since[|m.versions|] >= m.now
    ensures WasTrue(n, allowed, o)
  {
  }

  lemma {:induction false} StepStaysSound(ttl: int, m: Machine, a: Action)
    requires Shaped(m) && Sound(ttl, m)
    ensures Sound(ttl, Next(ttl, m, a))
  {
    var n := Next(ttl, m, a);
    forall allowed, o | WasTrue(m, allowed, o)
      ensures WasTrue(n, allowed, o)
    {
      FactsPersist(m, n, allowed, o);
    }
    if a.Look? || a.Evaluate? || a.Put? {
      ThreadStepStaysSound(ttl, m, a);
    } else {
      assert n.served == m.served && n.threads == m.threads;
      forall key | key in n.cache
        ensures EntrySound(ttl, n, key)
      {
        assert EntrySound(ttl, m, key);
      }
      forall b | b in n.served
        ensures AnswerSound(ttl, n, b)
      {
        assert AnswerSound(ttl, m, b);
      }
    }
  }

  /** Steps of a thread: the store, the clock and the old facts stay. */
  lemma {:induction false} OldFactsStaySound(ttl: int, m: Machine, n: Machine)
    requires Shaped(m) && Shaped(n) && Sound(ttl, m)
    requires n.versions == m.versions && n.since == m.since && n.now == m.now
    ensures forall key | key in n.cache && key in m.cache && n.cache[key] == m.cache[key] && n.origins[key] == m.origins[key]
              :: EntrySound(ttl, n, key)
    ensures forall b | b in m.served :: AnswerSound(ttl, n, b)
    ensures forall t | t in m.threads && m.threads[t].Evaluated? :: WasTrue(n, m.threads[t].allowed, m.threads[t].origin)
  {
    forall allowed, o ensures WasTrue(m, allowed, o) <==> WasTrue(n, allowed, o) {}
    OldEntriesStay(ttl, m, n);
    OldAnswersStay(ttl, m, n);
  }

  lemma {:induction false} OldEntriesStay(ttl: int, m: Machine, n: Machine)
    requires Shaped(m) && Shaped(n) && EntriesSound(ttl, m)
    requires n.versions == m.versions && n.since == m.since && n.now == m.now
    ensures forall key | key in n.cache && key in m.cache && n.cache[key] == m.cache[key] && n.origins[key] == m.origins[key]
              :: EntrySound(ttl, n, key)
  {
    forall key | key in n.cache && key in m.cache && n.cache[key] == m.cache[key] && n.origins[key] == m.origins[key]
      ensures EntrySound(ttl, n, key)
    {
      assert EntrySound(ttl, m, key);
    }
  }

  lemma {:induction false} OldAnswersStay(ttl: int, m: Machine, n: Machine)
    requires Shaped(m) && Shaped(n) && ServedSound(ttl, m)
    requires n.versions == m.versions && n.since == m.since && n.now == m.now
    ensures forall b | b in m.served :: AnswerSound(ttl, n, b)
  {
    forall b | b in m.served ensures AnswerSound(ttl, n, b) {
      assert AnswerSound(ttl, m, b);
    }
  }

  lemma {:induction false} ThreadStepStaysSound(ttl: int, m: Machine, a: Action)
    requires Shaped(m) && Sound(ttl, m) && (a.Look? || a.Evaluate? || a.Put?)
    ensures Sound(ttl, Next(ttl, m, a))
  {
    match a
    case Look(_, _, _, _) => LookStaysSound(ttl, m, a);
    case Evaluate(_) => EvaluateStaysSound(ttl, m, a);
    case Put(_) => PutStaysSound(ttl, m, a);
  }

  lemma {:induction false} EvaluateStaysSound(ttl: int, m: Machine, a: Action)
    requires Shaped(m) && Sound(ttl, m) && a.Evaluate?
    ensures Sound(ttl, Next(ttl, m, a))
  {
    OldFactsStaySound(ttl, m, Next(ttl, m, a));
  }

  lemma {:induction false} LookStaysSound(ttl: int, m: Machine, a: Action)
    requires Shaped(m) && Sound(ttl, m) && a.Look?
    ensures Sound(ttl, Next(ttl, m, a))
  {
    var n := Next(ttl, m, a);
    OldFactsStaySound(ttl, m, n);
    LookKeeps(ttl, m, a.thread, a.sub, a.obj, a.act);
    if PhaseOf(m, a.thread).Idle? && Lookup(m.cache, CacheKey(a.sub, a.obj, a.act), m.now).Some? {
      LookHits(ttl, m, a.thread, a.sub, a.obj, a.act);
      HitIsSound(ttl, m, n, a.sub, a.obj, a.act);
    }
  }

  /** A look drops at most an expired entry and changes no other. */
  lemma {:induction false} LookKeeps(ttl: int, m: Machine, thread: nat, sub: string, obj: string, act: string)
    requires Shaped(m)
    ensures var n := Next(ttl, m, Look(thread, sub, obj, act));
            && n.versions == m.versions && n.since == m.since && n.now == m.now
            && (forall k | k in n.cache :: k in m.cache && n.cache[k] == m.cache[k] && n.origins[k] == m.origins[k])
            && (forall t | t in n.threads && n.threads[t].Evaluated? :: t in m.threads && n.threads[t] == m.threads[t])
            && (!(PhaseOf(m, thread).Idle? && Lookup(m.cache, CacheKey(sub, obj, act), m.now).Some?) ==> n.served == m.served)
  {
  }

  lemma {:induction false} HitIsSound(ttl: int, m: Machine, n: Machine, sub: string, obj: string, act: string)
    requires Shaped(m) && Sound(ttl, m) && Shaped(n)
    requires n.versions == m.versions && n.since == m.since && n.now == m.now
    requires Lookup(m.cache, CacheKey(sub, obj, act), m.now).Some?
    ensures var key := CacheKey(sub, obj, act);
            AnswerSound(ttl, n, Answer(sub, obj, act, m.cache[key].allowed, m.now, m.origins[key]))
  {
    var key := CacheKey(sub, obj, act);
    assert EntrySound(ttl, m, key);
    FactsPersist(m, n, m.cache[key].allowed, m.origins[key]);
  }

  lemma {:induction false} PutStaysSound(ttl: int, m: Machine, a: Action)
    requires Shaped(m) && Sound(ttl, m) && a.Put?
    ensures Sound(ttl, Next(ttl, m, a))
  {
    if PhaseOf(m, a.thread).Evaluated? {
      PutKeepsEntries(ttl, m, a.thread);
      PutKeepsThreads(ttl, m, a.thread);
      PutKeepsServed(ttl, m, a.thread);
    }
  }

  lemma {:induction false} PutKeepsEntries(ttl: int, m: Machine, thread: nat)
    requires Shaped(m) && Sound(ttl, m) && PhaseOf(m, thread).Evaluated?
    ensures EntriesSound(ttl, Next(ttl, m, Put(thread))) && SinceSound(Next(ttl, m, Put(thread)))
  {
    var n := Next(ttl, m, Put(thread));
    PutKeeps(ttl, m, thread);
    PutIsSound(ttl, m, n, PhaseOf(m, thread));
    OldFactsStaySound(ttl, m, n);
  }

  lemma {:induction false} PutKeepsThreads(ttl: int, m: Machine, thread: nat)
    requires Shaped(m) && Sound(ttl, m) && PhaseOf(m, thread).Evaluated?
    ensures ThreadsSound(Next(ttl, m, Put(thread)))
  {
    PutKeeps(ttl, m, thread);
    OldFactsStaySound(ttl, m, Next(ttl, m, Put(thread)));
  }

  lemma {:induction false} PutKeepsServed(ttl: int, m: Machine, thread: nat)
    requires Shaped(m) && Sound(ttl, m) && PhaseOf(m, thread).Evaluated?
    ensures ServedSound(ttl, Next(ttl, m, Put(thread)))
  {
    var n := Next(ttl, m, Put(thread));
    PutKeeps(ttl, m, thread);
    PutIsSound(ttl, m, n, PhaseOf(m, thread));
    OldFactsStaySound(ttl, m, n);
  }

  function PutOrigin(m: Machine, found: Phase): Origin
    requires found.Evaluated?
  {
    found.origin.(storedAt := m.now)
  }

  /** A put changes one entry, ends one thread's work and serves one answer. */
  lemma {:induction false} PutKeeps(ttl: int, m: Machine, thread: nat)
    requires Shaped(m) && PhaseOf(m, thread).Evaluated?
    ensures var n := Next(ttl, m, Put(thread));
            var found := PhaseOf(m, thread);
            var o := PutOrigin(m, found);
            var key := CacheKey(o.sub, o.obj, o.act);
            && n.versions == m.versions && n.since == m.since && n.now == m.now
            && (forall k | k in n.cache && (k != key || ttl <= 0) :: k in m.cache && n.cache[k] == m.cache[k] && n.origins[k] == m.origins[k])
            && (ttl > 0 ==> key in n.cache && n.cache[key] == CacheEntry(found.allowed, m.now + ttl) && n.origins[key] == o)
            && (forall t | t in n.threads && n.threads[t].Evaluated? :: t in m.threads && n.threads[t] == m.threads[t])
            && n.served == m.served + [Answer(o.sub, o.obj, o.act, found.allowed, m.now, o)]
  {
  }

  lemma {:induction false} PutIsSound(ttl: int, m: Machine, n: Machine, found: Phase)
    requires Shaped(m) && Shaped(n) && found.Evaluated? && WasTrue(m, found.allowed, found.origin)
    requires n.versions == m.versions && n.since == m.since && n.now == m.now
    ensures var o := PutOrigin(m, found);
            && WasTrue(n, found.allowed, o)
            && AnswerSound(ttl, n, Answer(o.sub, o.obj, o.act, found.allowed, m.now, o))
  {
  }

  lemma {:induction false} RunStaysSound(ttl: int, store: Store, start: int, actions: seq<Action>)
    ensures Sound(ttl, Run(ttl, Start(store, start), actions))
    decreases |actions|
  {
    if |actions| > 0 {
      var n := |actions| - 1;
      RunStaysSound(ttl, store, start, actions[..n]);
      StepStaysSound(ttl, Run(ttl, Start(store, start), actions[..n]), actions[n]);
    }
  }

  /** Bounded staleness: in every interleaving, an answer served to a NUL-free request was the enforcer's
      answer to that very request in the store version that was current when it was evaluated, and
      it was stored at most one TTL before it was served. */
  lemma {:induction false} BoundedStaleness(ttl: nat, store: Store, start: int, actions: seq<Action>, a: Answer)
    requires a in Run(ttl, Start(store, start), actions).served && Clean(a.sub, a.obj, a.act)
    ensures var m := Run(ttl, Start(store, start), actions);
            && CurrentAt(m, a.origin.version, a.origin.evaluatedAt)
            && a.allowed == Enforce(m.versions[a.origin.version], a.sub, a.obj, a.act)
            && a.origin.evaluatedAt <= a.origin.storedAt <= a.servedAt <= a.origin.storedAt + ttl
  {
    var m := Run(ttl, Start(store, start), actions);
    RunStaysSound(ttl, store, start, actions);
    assert AnswerSound(ttl, m, a);
    CleanKeyIsUnique(a.sub, a.obj, a.act, a.origin.sub, a.origin.obj, a.origin.act);
  }

  /** Convergence, even if no invalidation ever happens: if readers store within `delay` of evaluating,
      every answer served more than one TTL plus `delay` after the last write is the current one. */
  lemma {:induction false} AnswersConverge(ttl: nat, delay: nat, store: Store, start: int, actions: seq<Action>, a: Answer)
    requires a in Run(ttl, Start(store, start), actions).served && Clean(a.sub, a.obj, a.act)
    requires a.origin.storedAt <= a.origin.evaluatedAt + delay
    requires var m := Run(ttl, Start(store, start), actions); m.since[|m.since| - 1] + ttl + delay < a.servedAt
    ensures var m := Run(ttl, Start(store, start), actions);
            a.allowed == Enforce(m.versions[|m.versions| - 1], a.sub, a.obj, a.act)
  {
    BoundedStaleness(ttl, store, start, actions, a);
    var m := Run(ttl, Start(store, start), actions);
    SinceIsSorted(ttl, store, start, actions);
    LateIsCurrent(m, a.origin.version, a.origin.evaluatedAt);
  }

  lemma {:induction false} LateIsCurrent(m: Machine, v: nat, t: int)
    requires Shaped(m) && SinceSorted(m) && CurrentAt(m, v, t) && m.since[|m.since| - 1] < t
    ensures v == |m.versions| - 1
  {
  }

  ghost predicate SinceSorted(m: Machine) {
    && (forall i, j | 0 <= i <= j < |m.since| :: m.since[i] <= m.since[j])
    && (forall i | 0 <= i < |m.since| :: m.since[i] <= m.now)
  }

  lemma {:induction false} SinceIsSorted(ttl: int, store: Store, start: int, actions: seq<Action>)
    ensures SinceSorted(Run(ttl, Start(store, start), actions))
    decreases |actions|
  {
    if |actions| > 0 {
      var n := |actions| - 1;
      SinceIsSorted(ttl, store, start, actions[..n]);
      var before := Run(ttl, Start(store, start), actions[..n]);
      SortedAfter(before, Next(ttl, before, actions[n]));
    }
  }

  lemma {:induction false} SortedAfter(m: Machine, n: Machine)
    requires SinceSorted(m) && m.now <= n.now
    requires n.since == m.since || n.since == m.since + [m.now]
    ensures SinceSorted(n)
  {
  }

  /** The interleaving that keeps exact coherence from holding: an answer evaluated before a write is
      stored after the clear that follows the write, and the next reader is served the old answer. */
  lemma {:induction false} StaleAfterClear() returns (store: Store, actions: seq<Action>)
    ensures var m := Run(300, Start(store, 0), actions);
            && |m.served| == 2
            && m.served[1].allowed != Enforce(m.versions[|m.versions| - 1], m.served[1].sub, m.served[1].obj, m.served[1].act)
            && ClearAll in actions
  {
    store := Store({}, {});
    var later := AllowAll("u");
    actions := [Look(1, "u", "o", "a"), Evaluate(1), Write(later), ClearAll, Put(1), Look(2, "u", "o", "a")];
    assert !Enforce(store, "u", "o", "a");
    LatePut(store, later);
    RunSix(300, Start(store, 0), actions);
  }

  lemma {:induction false} AllowAll(sub: string) returns (store: Store)
    ensures forall obj, act :: Enforce(store, sub, obj, act)
  {
    var allow := Policy(sub, "*", "*", "allow");
    store := Store({allow}, {});
    ClosureIsLeast({}, {sub});
    assert "" + "*" + "" == "*";
    forall obj, act ensures Enforce(store, sub, obj, act) {
      KeyMatchMeaning(obj, "", "");
      KeyMatchMeaning(act, "", "");
      assert Applies(allow, Reach({}, sub), obj, act);
    }
  }

  lemma {:induction false} RunSix(ttl: int, m: Machine, a: seq<Action>)
    requires Shaped(m) && |a| == 6
    ensures Run(ttl, m, a)
            == Next(ttl, Next(ttl, Next(ttl, Next(ttl, Next(ttl, Next(ttl, m, a[0]), a[1]), a[2]), a[3]), a[4]), a[5])
  {
    assert a[..0] == [] && a[..6] == a;
    Unroll(ttl, m, a, 1); Unroll(ttl, m, a, 2); Unroll(ttl, m, a, 3);
    Unroll(ttl, m, a, 4); Unroll(ttl, m, a, 5); Unroll(ttl, m, a, 6);
  }

  lemma {:induction false} LatePut(store: Store, later: Store)
    requires Enforce(store, "u", "o", "a") != Enforce(later, "u", "o", "a")
    ensures var s1 := Next(300, Start(store, 0), Look(1, "u", "o", "a"));
            var s2 := Next(300, s1, Evaluate(1));
            var s3 := Next(300, s2, Write(later));
            var s4 := Next(300, s3, ClearAll);
            var s5 := Next(300, s4, Put(1));
            var s6 := Next(300, s5, Look(2, "u", "o", "a"));
            && |s6.served| == 2 && |s6.versions| == 2 && s6.versions[1] == later
            && s6.served[1].sub == "u" && s6.served[1].obj == "o" && s6.served[1].act == "a"
            && s6.served[1].allowed == Enforce(store, "u", "o", "a")
  {
    var s1 := Next(300, Start(store, 0), Look(1, "u", "o", "a"));
    LookMisses(300, Start(store, 0), 1, "u", "o", "a");
    var s2 := Next(300, s1, Evaluate(1));
    var s4 := Next(300, Next(300, s2, Write(later)), ClearAll);
    var s5 := Next(300, s4, Put(1));
    PutStores(300, s4, 1);
    LookHits(300, s5, 2, "u", "o", "a");
  }

  lemma {:induction false} LookMisses(ttl: int, m: Machine, thread: nat, sub: string, obj: string, act: string)
    requires Shaped(m) && PhaseOf(m, thread).Idle? && m.cache == map[]
    ensures var n := Next(ttl, m, Look(thread, sub, obj, act));
            && n.threads == m.threads[thread := Missed(sub, obj, act)] && n.cache == map[]
            && n.versions == m.versions && n.served == m.served && n.now == m.now
  {
  }

  lemma {:induction false} PutStores(ttl: int, m: Machine, thread: nat)
    requires Shaped(m) && PhaseOf(m, thread).Evaluated? && ttl > 0
    ensures var n := Next(ttl, m, Put(thread));
            var o := PhaseOf(m, thread).origin;
            && n.threads == m.threads[thread := Idle] && n.versions == m.versions && n.now == m.now
            && |n.served| == |m.served| + 1
            && CacheKey(o.sub, o.obj, o.act) in n.cache
            && n.cache[CacheKey(o.sub, o.obj, o.act)] == CacheEntry(PhaseOf(m, thread).allowed, m.now + ttl)
  {
  }

  lemma {:induction false} LookHits(ttl: int, m: Machine, thread: nat, sub: string, obj: string, act: string)
    requires Shaped(m) && PhaseOf(m, thread).Idle?
    requires CacheKey(sub, obj, act) in m.cache && m.now <= m.cache[CacheKey(sub, obj, act)].expiresAt
    ensures var n := Next(ttl, m, Look(thread, sub, obj, act));
            var key := CacheKey(sub, obj, act);
            && n.versions == m.versions
            && n.served == m.served + [Answer(sub, obj, act, m.cache[key].allowed, m.now, m.origins[key])]
  {
  }

  lemma {:induction false} Unroll(ttl: int, m: Machine, actions: seq<Action>, k: nat)
    requires Shaped(m) && 0 < k <= |actions|
    ensures Run(ttl, m, actions[..k]) == Next(ttl, Run(ttl, m, actions[..k - 1]), actions[k - 1])
  {
    assert actions[..k][..k - 1] == actions[..k - 1];
  }
}
