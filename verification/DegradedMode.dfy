/** The fallback of the Redis-backed decision cache. When Redis fails, an operation raises the `degraded`
    flag and starts one recovery task; the task pings Redis until it answers, lowers the flag, and clears
    the fallback entries. All of this interleaves freely with other operations: what a thread does with the
    flag and with the fallback map is atomic, everything between is not. */
module DegradedMode {
  import opened Text
  import opened Wrappers
  import opened AuthzCache

  /** 30 seconds, in nanoseconds like every time here. */
  const FALLBACK_TTL := 30_000_000_000

  datatype Call =
    | Get(key: string)
    | Set(key: string, allowed: bool, ttl: int)
    | Delete(key: string)
    | Clear
    | InvalidateByPrefix(prefix: string)

  /** Where a thread stands: an operation that has read the flag, one that met a Redis error, one that raised
      the flag and has to start the recovery, one that has to store in the fallback; or a recovery task in its
      loop, after its successful ping, or after lowering the flag. */
  datatype Phase =
    | Idle
    | Chose(call: Call, degraded: bool)
    | RedisFailed(call: Call)
    | Starting(call: Call)
    | Storing(key: string, allowed: bool)
    | Looping
    | Pinged
    | Clearing

  datatype Put = Put(key: string, allowed: bool, at: int)

  datatype Hit = Hit(key: string, allowed: bool, at: int)

  /** `puts` and `hits` record what was ever stored in the fallback and served from it. */
  datatype Machine = Machine(hasClient: bool, stopped: bool, degraded: bool, phases: map<nat, Phase>,
                             fallback: map<string, CacheEntry>, now: int, puts: set<Put>, hits: seq<Hit>)

  /** `ok` is the outcome of the Redis call of the step, `sees` whether a recovery loop takes the stop branch
      (only possible once stopped). */
  datatype Action =
    | Tick(elapsed: nat)
    | Begin(thread: nat, call: Call)
    | Proceed(thread: nat, ok: bool, sees: bool)
    | Spawn(thread: nat, task: nat)
    | Cleanup
    | Stop

  function Start(hasClient: bool, now: int): Machine {
    Machine(hasClient, false, !hasClient, map[], map[], now, {}, [])
  }

  function PhaseOf(m: Machine, thread: nat): Phase {
    if thread in m.phases then m.phases[thread] else Idle
  }

  /** What is left to do once degraded mode has been entered. */
  function AfterEntering(call: Call): Phase {
    if call.Set? then Storing(call.key, call.allowed) else Idle
  }

  function Store(m: Machine, key: string, allowed: bool): Machine {
    m.(fallback := AfterSet(m.fallback, key, allowed, FALLBACK_TTL, m.now), puts := m.puts + {Put(key, allowed, m.now)})
  }

  /** A call that found the flag raised works on the fallback alone. */
  function OnFallback(m: Machine, call: Call): Machine {
    match call
    case Get(key) =>
      var answer := Lookup(m.fallback, key, m.now);
      m.(fallback := AfterLookup(m.fallback, key, m.now),
         hits := if answer.Some? then m.hits + [Hit(key, answer.value, m.now)] else m.hits)
    case Set(key, allowed, _) => Store(m, key, allowed)
    case Delete(key) => m.(fallback := m.fallback - {key})
    case Clear => m.(fallback := map[])
    case InvalidateByPrefix(prefix) => m.(fallback := WithoutPrefix(m.fallback, prefix))
  }

  function At(m: Machine, thread: nat, phase: Phase): Machine {
    m.(phases := m.phases[thread := phase])
  }

  function Next(m: Machine, a: Action): (n: Machine) {
    match a
    case Tick(elapsed) => m.(now := m.now + elapsed)
    case Cleanup => m.(fallback := WithoutExpired(m.fallback, m.now))
    case Stop => m.(stopped := true)
    case Begin(t, call) =>
      if PhaseOf(m, t) != Idle || (call.Set? && call.ttl <= 0) then m
      else At(m, t, Chose(call, m.degraded))
    case Spawn(t, task) =>
      var phase := PhaseOf(m, t);
      if !phase.Starting? || PhaseOf(m, task) != Idle then m
      else At(At(m, t, AfterEntering(phase.call)), task, Looping)
    case Proceed(t, ok, sees) => Continue(m, t, ok, sees)
  }

  function Continue(m: Machine, t: nat, ok: bool, sees: bool): Machine {
    match PhaseOf(m, t)
    case Chose(call, degraded) =>
      if degraded then OnFallback(At(m, t, Idle), call)
      else if ok || !(call.Get? || call.Set?) then At(m, t, Idle)
      else At(m, t, RedisFailed(call))
    case RedisFailed(call) =>
      if m.degraded then At(m, t, AfterEntering(call)) else At(m.(degraded := true), t, Starting(call))
    case Storing(key, allowed) => Store(At(m, t, Idle), key, allowed)
    case Looping =>
      if m.stopped && sees then At(m, t, Idle) else if ok then At(m, t, Pinged) else m
    case Pinged => At(m.(degraded := false), t, Clearing)
    case Clearing => At(m.(fallback := map[]), t, Idle)
    case _ => m
  }

  function Run(m: Machine, actions: seq<Action>): Machine
    decreases |actions|
  {
    if actions == [] then m else Run(Next(m, actions[0]), actions[1..])
  }

  // ---- one recovery ----

  /** The thread is a recovery task still in its loop, or is about to start one. */
  ghost predicate Recovering(m: Machine, t: nat) {
    var phase := PhaseOf(m, t);
    phase.Starting? || phase.Looping? || phase.Pinged?
  }

  ghost predicate Recovered(m: Machine) {
    forall t: nat :: !Recovering(m, t)
  }

  ghost predicate OnlyRecovery(m: Machine, t: nat) {
    Recovering(m, t) && forall u: nat :: Recovering(m, u) ==> u == t
  }

  ghost predicate OneRecovery(m: Machine) {
    exists t: nat :: OnlyRecovery(m, t)
  }

  /** Without a client nothing ever leaves the fallback. */
  ghost predicate OnFallbackForGood(m: Machine) {
    m.degraded && forall t: nat :: PhaseOf(m, t) == Idle || (PhaseOf(m, t).Chose? && PhaseOf(m, t).degraded)
  }

  /** While it runs, the cache is degraded exactly when there is one recovery, and otherwise there is none;
      once stopped there may also be none while it is degraded. */
  ghost predicate Recoverable(m: Machine) {
    if m.degraded then OneRecovery(m) || (m.stopped && Recovered(m)) else Recovered(m)
  }

  ghost predicate Settled(m: Machine) {
    if m.hasClient then Recoverable(m) else OnFallbackForGood(m)
  }

  /** A step of a thread that neither becomes nor stops being a recovery. */
  lemma {:induction false} SameRecovery(m: Machine, n: Machine)
    requires Recoverable(m) && n.degraded == m.degraded && (m.stopped ==> n.stopped)
    requires forall t: nat :: Recovering(n, t) <==> Recovering(m, t)
    ensures Recoverable(n)
  {
    if OneRecovery(m) {
      var t :| OnlyRecovery(m, t);
      assert OnlyRecovery(n, t);
    }
  }

  lemma {:induction false} EnteringStaysRecoverable(m: Machine, t: nat)
    requires Recoverable(m) && PhaseOf(m, t).RedisFailed?
    ensures Recoverable(Next(m, Proceed(t, false, false)))
  {
    var n := Next(m, Proceed(t, false, false));
    if m.degraded {
      SameRecovery(m, n);
    } else {
      forall u: nat | u != t ensures Recovering(n, u) <==> Recovering(m, u) {}
      assert OnlyRecovery(n, t);
    }
  }

  lemma {:induction false} SpawnStaysRecoverable(m: Machine, t: nat, task: nat)
    requires Recoverable(m)
    ensures Recoverable(Next(m, Spawn(t, task)))
  {
    var n := Next(m, Spawn(t, task));
    if PhaseOf(m, t).Starting? && PhaseOf(m, task) == Idle {
      assert Recovering(m, t);
      var r :| OnlyRecovery(m, r);
      assert t != task;
      forall u: nat | u != task ensures !Recovering(n, u) {
        if u != t {
          assert PhaseOf(n, u) == PhaseOf(m, u) && !Recovering(m, u);
        }
      }
      assert OnlyRecovery(n, task);
    }
  }

  lemma {:induction false} TaskStaysRecoverable(m: Machine, t: nat, ok: bool, sees: bool)
    requires Recoverable(m) && (PhaseOf(m, t).Looping? || PhaseOf(m, t).Pinged?)
    ensures Recoverable(Next(m, Proceed(t, ok, sees)))
  {
    var n := Next(m, Proceed(t, ok, sees));
    assert Recovering(m, t);
    var r :| OnlyRecovery(m, r);
    forall u: nat | u != t ensures !Recovering(n, u) {
      assert PhaseOf(n, u) == PhaseOf(m, u) && !Recovering(m, u);
    }
    if Recovering(n, t) {
      assert OnlyRecovery(n, t);
    }
  }

  ghost predicate Quiet(m: Machine, n: Machine) {
    && n.hasClient == m.hasClient && n.stopped == m.stopped && n.degraded == m.degraded
    && forall u: nat :: Recovering(n, u) <==> Recovering(m, u)
  }

  lemma {:induction false} FallbackCallIsQuiet(m: Machine, call: Call)
    ensures var n := OnFallback(m, call);
            n.hasClient == m.hasClient && n.stopped == m.stopped && n.degraded == m.degraded && n.phases == m.phases
  {}

  lemma {:induction false} MoveIsQuiet(m: Machine, t: nat, phase: Phase)
    requires !Recovering(m, t) && !Recovering(At(m, t, phase), t)
    ensures Quiet(m, At(m, t, phase))
  {
    forall u: nat | u != t ensures PhaseOf(At(m, t, phase), u) == PhaseOf(m, u) {}
  }

  lemma {:induction false} ChosenCallIsQuiet(m: Machine, t: nat, ok: bool, sees: bool)
    requires PhaseOf(m, t).Chose?
    ensures Quiet(m, Continue(m, t, ok, sees))
  {
    var call := PhaseOf(m, t).call;
    MoveIsQuiet(m, t, Idle);
    MoveIsQuiet(m, t, RedisFailed(call));
    FallbackCallIsQuiet(At(m, t, Idle), call);
    SamePhasesQuiet(m, At(m, t, Idle), OnFallback(At(m, t, Idle), call));
  }

  lemma {:induction false} SamePhasesQuiet(m: Machine, n: Machine, k: Machine)
    requires Quiet(m, n) && k.phases == n.phases
    requires k.hasClient == n.hasClient && k.stopped == n.stopped && k.degraded == n.degraded
    ensures Quiet(m, k)
  {
    forall u: nat ensures Recovering(k, u) <==> Recovering(m, u) {
      assert Recovering(n, u) <==> Recovering(m, u);
    }
  }

  /** The other steps change nothing that matters here. */
  lemma {:induction false} PlainStep(m: Machine, t: nat, ok: bool, sees: bool)
    requires var phase := PhaseOf(m, t); !phase.RedisFailed? && !phase.Looping? && !phase.Pinged?
    ensures Quiet(m, Continue(m, t, ok, sees))
  {
    var phase := PhaseOf(m, t);
    if phase.Chose? {
      ChosenCallIsQuiet(m, t, ok, sees);
    } else if phase.Storing? || phase.Clearing? {
      MoveIsQuiet(m, t, Idle);
      SamePhasesQuiet(m, At(m, t, Idle), Continue(m, t, ok, sees));
    }
  }

  lemma {:induction false} StepStaysRecoverable(m: Machine, a: Action)
    requires Recoverable(m)
    ensures Recoverable(Next(m, a))
  {
    match a
    case Spawn(t, task) => SpawnStaysRecoverable(m, t, task);
    case Proceed(t, ok, sees) =>
      var phase := PhaseOf(m, t);
      if phase.RedisFailed? {
        EnteringStaysRecoverable(m, t);
      } else if phase.Looping? || phase.Pinged? {
        TaskStaysRecoverable(m, t, ok, sees);
      } else {
        PlainStep(m, t, ok, sees);
        SameRecovery(m, Continue(m, t, ok, sees));
      }
    case _ =>
      var n := Next(m, a);
      assert forall t: nat :: Recovering(n, t) <==> Recovering(m, t);
      SameRecovery(m, n);
  }

  lemma {:induction false} StepWithoutClient(m: Machine, a: Action)
    requires OnFallbackForGood(m)
    ensures OnFallbackForGood(Next(m, a))
  {
    var n := Next(m, a);
    if a.Begin? || a.Spawn? || a.Proceed? {
      assert PhaseOf(m, a.thread) == Idle || PhaseOf(m, a.thread).Chose?;
      forall t: nat | t != a.thread ensures PhaseOf(n, t) == PhaseOf(m, t) {}
    } else {
      forall t: nat ensures PhaseOf(n, t) == PhaseOf(m, t) {}
    }
  }

  lemma {:induction false} StepStaysSettled(m: Machine, a: Action)
    requires Settled(m)
    ensures Settled(Next(m, a)) && Next(m, a).hasClient == m.hasClient
  {
    if m.hasClient {
      StepStaysRecoverable(m, a);
    } else {
      StepWithoutClient(m, a);
    }
  }

  // ---- the age of fallback hits ----

  ghost predicate WasPut(m: Machine, key: string, allowed: bool, since: int, until: int) {
    exists p :: p in m.puts && p.key == key && p.allowed == allowed && since <= p.at <= until
  }

  ghost predicate EntryFresh(m: Machine, key: string) {
    key in m.fallback ==>
      var at := m.fallback[key].expiresAt - FALLBACK_TTL;
      Put(key, m.fallback[key].allowed, at) in m.puts && at <= m.now
  }

  ghost predicate HitFresh(m: Machine, h: Hit) {
    WasPut(m, h.key, h.allowed, h.at - FALLBACK_TTL, h.at)
  }

  ghost predicate Fresh(m: Machine) {
    && (forall key: string :: EntryFresh(m, key))
    && (forall h :: h in m.hits ==> HitFresh(m, h))
  }

  /** Steps that drop entries, or do not touch the fallback. */
  lemma {:induction false} FewerEntriesStayFresh(m: Machine, n: Machine)
    requires Fresh(m) && n.puts == m.puts && n.hits == m.hits && m.now <= n.now
    requires forall key :: key in n.fallback ==> key in m.fallback && n.fallback[key] == m.fallback[key]
    ensures Fresh(n)
  {
    forall key: string ensures EntryFresh(n, key) {
      assert EntryFresh(m, key);
    }
    forall h | h in n.hits ensures HitFresh(n, h) {
      assert HitFresh(m, h);
    }
  }

  lemma {:induction false} StoreStaysFresh(m: Machine, key: string, allowed: bool)
    requires Fresh(m)
    ensures Fresh(Store(m, key, allowed))
  {
    var n := Store(m, key, allowed);
    forall k: string ensures EntryFresh(n, k) {
      assert EntryFresh(m, k);
    }
    forall h | h in n.hits ensures HitFresh(n, h) {
      assert HitFresh(m, h);
    }
  }

  lemma {:induction false} HitStaysFresh(m: Machine, key: string)
    requires Fresh(m)
    ensures Fresh(OnFallback(m, Get(key)))
  {
    var n := OnFallback(m, Get(key));
    var answer := Lookup(m.fallback, key, m.now);
    forall k: string ensures EntryFresh(n, k) {
      assert EntryFresh(m, k);
    }
    assert EntryFresh(m, key);
    if answer.Some? {
      var p := Put(key, answer.value, m.fallback[key].expiresAt - FALLBACK_TTL);
      assert p in n.puts;
      assert HitFresh(n, Hit(key, answer.value, m.now));
    }
    forall h | h in n.hits ensures HitFresh(n, h) {
      assert h in m.hits ==> HitFresh(m, h);
    }
  }

  lemma {:induction false} CallStaysFresh(m: Machine, call: Call)
    requires Fresh(m)
    ensures Fresh(OnFallback(m, call))
  {
    match call
    case Get(key) => HitStaysFresh(m, key);
    case Set(key, allowed, _) => StoreStaysFresh(m, key, allowed);
    case _ => FewerEntriesStayFresh(m, OnFallback(m, call));
  }

  lemma {:induction false} ContinueStaysFresh(m: Machine, t: nat, ok: bool, sees: bool)
    requires Fresh(m)
    ensures Fresh(Continue(m, t, ok, sees))
  {
    var phase := PhaseOf(m, t);
    var idle := At(m, t, Idle);
    FewerEntriesStayFresh(m, idle);
    if phase.Chose? && phase.degraded {
      CallStaysFresh(idle, phase.call);
    } else if phase.Storing? {
      StoreStaysFresh(idle, phase.key, phase.allowed);
    } else {
      FewerEntriesStayFresh(m, Continue(m, t, ok, sees));
    }
  }

  lemma {:induction false} StepStaysFresh(m: Machine, a: Action)
    requires Fresh(m)
    ensures Fresh(Next(m, a))
  {
    if a.Proceed? {
      ContinueStaysFresh(m, a.thread, a.ok, a.sees);
    } else {
      FewerEntriesStayFresh(m, Next(m, a));
    }
  }

  // ---- whole runs ----

  lemma {:induction false} RunKeeps(m: Machine, actions: seq<Action>)
    requires Settled(m) && Fresh(m)
    ensures Settled(Run(m, actions)) && Fresh(Run(m, actions)) && Run(m, actions).hasClient == m.hasClient
    decreases |actions|
  {
    if actions != [] {
      StepStaysSettled(m, actions[0]);
      StepStaysFresh(m, actions[0]);
      RunKeeps(Next(m, actions[0]), actions[1..]);
    }
  }

  /** In every interleaving, with a client and before Stop, the cache is degraded exactly when one recovery
      is under way, and there is never a second one, even after Stop. */
  lemma {:induction false} DegradedMeansRecovering(now: int, actions: seq<Action>)
    ensures var m := Run(Start(true, now), actions);
            && (!m.stopped ==> (m.degraded <==> OneRecovery(m)))
            && (!m.degraded ==> Recovered(m))
            && (OneRecovery(m) || Recovered(m))
  {
    var m := Run(Start(true, now), actions);
    RunKeeps(Start(true, now), actions);
    if OneRecovery(m) {
      var t :| OnlyRecovery(m, t);
      assert Recovering(m, t);
    }
  }

  /** Without a client the cache stays on its fallback. */
  lemma {:induction false} NoClientStaysDegraded(now: int, actions: seq<Action>)
    ensures OnFallbackForGood(Run(Start(false, now), actions))
  {
    RunKeeps(Start(false, now), actions);
  }

  /** Whatever was served from the fallback had been put there at most 30 seconds earlier. */
  lemma {:induction false} FallbackHitsAreRecent(hasClient: bool, now: int, actions: seq<Action>)
    ensures var m := Run(Start(hasClient, now), actions);
            forall h :: h in m.hits ==> WasPut(m, h.key, h.allowed, h.at - FALLBACK_TTL, h.at)
  {
    var m := Run(Start(hasClient, now), actions);
    RunKeeps(Start(hasClient, now), actions);
    forall h | h in m.hits ensures WasPut(m, h.key, h.allowed, h.at - FALLBACK_TTL, h.at) {
      assert HitFresh(m, h);
    }
  }

  // ---- after Stop ----

  ghost predicate Stranded(m: Machine) {
    m.stopped && m.degraded && Recovered(m)
  }

  /** A recovery loop that sees the stop leaves the flag raised, */
  lemma {:induction false} StopCanStrand(now: int) returns (actions: seq<Action>)
    ensures Stranded(Run(Start(true, now), actions))
  {
    var fail := Proceed(0, false, false);
    var degrade := [Begin(0, Get("")), fail, fail];
    actions := degrade + [Spawn(0, 1), Stop, Proceed(1, true, true)];
    RunThree(Start(true, now), degrade[0], degrade[1], degrade[2], actions[3..]);
    var degraded := Next(Next(Next(Start(true, now), degrade[0]), degrade[1]), degrade[2]);
    RunThree(degraded, Spawn(0, 1), Stop, Proceed(1, true, true), []);
    assert actions[3..] == [Spawn(0, 1), Stop, Proceed(1, true, true)] + [];
    assert actions == degrade + actions[3..];
  }

  lemma {:induction false} RunOne(m: Machine, a: Action, rest: seq<Action>)
    ensures Run(m, [a] + rest) == Run(Next(m, a), rest)
  {
    assert ([a] + rest)[1..] == rest;
  }

  lemma {:induction false} RunThree(m: Machine, a: Action, b: Action, c: Action, rest: seq<Action>)
    ensures Run(m, [a, b, c] + rest) == Run(Next(Next(Next(m, a), b), c), rest)
  {
    RunOne(m, a, [b, c] + rest);
    RunOne(Next(m, a), b, [c] + rest);
    RunOne(Next(Next(m, a), b), c, rest);
    assert [a, b, c] + rest == [a] + ([b, c] + rest) && [b, c] + rest == [b] + ([c] + rest);
  }

  /** and from then on no operation starts another recovery: the cache never leaves its fallback. */
  lemma {:induction false} StrandedForever(m: Machine, actions: seq<Action>)
    requires Stranded(m)
    ensures Stranded(Run(m, actions))
    decreases |actions|
  {
    if actions != [] {
      StaysStranded(m, actions[0]);
      StrandedForever(Next(m, actions[0]), actions[1..]);
    }
  }

  lemma {:induction false} StaysStranded(m: Machine, a: Action)
    requires Stranded(m)
    ensures Stranded(Next(m, a))
  {
    if a.Proceed? {
      assert !Recovering(m, a.thread);
      if !PhaseOf(m, a.thread).RedisFailed? {
        PlainStep(m, a.thread, a.ok, a.sees);
      }
    }
    if a.Spawn? {
      assert !Recovering(m, a.thread);
    }
    forall t: nat ensures !Recovering(Next(m, a), t) {
      assert !Recovering(m, t);
    }
  }

  /** A recovery loop takes the stop branch while the flag is raised. */
  predicate LeavesLoop(m: Machine, a: Action) {
    a.Proceed? && a.sees && m.stopped && m.degraded && PhaseOf(m, a.thread).Looping?
  }

  /** A step strands the cache if and only if it is a recovery loop leaving at the stop. */
  lemma {:induction false} StrandsExactly(m: Machine, a: Action)
    requires Recoverable(m) && !Stranded(m)
    ensures Stranded(Next(m, a)) <==> LeavesLoop(m, a)
  {
    StepStaysRecoverable(m, a);
    if LeavesLoop(m, a) {
      assert Recovering(m, a.thread);
      var t :| OnlyRecovery(m, t);
      forall u: nat ensures !Recovering(Next(m, a), u) {
        assert u != a.thread ==> !Recovering(m, u) && PhaseOf(Next(m, a), u) == PhaseOf(m, u);
      }
    } else if m.degraded {
      StillRecovering(m, a);
    } else {
      StrandingNeedsTheFlag(m, a);
    }
  }

  lemma {:induction false} StillRecovering(m: Machine, a: Action)
    requires Recoverable(m) && !Stranded(m) && m.degraded && !LeavesLoop(m, a)
    ensures !Stranded(Next(m, a))
  {
    var t :| OnlyRecovery(m, t);
    var n := Next(m, a);
    if a.Spawn? && a.thread == t && PhaseOf(m, t).Starting? && PhaseOf(m, a.task) == Idle {
      assert Recovering(n, a.task);
    } else if a.Proceed? && a.thread == t && PhaseOf(m, t).Pinged? {
      assert !n.degraded;
    } else {
      OthersKeepRecovery(m, a, t);
    }
  }

  lemma {:induction false} OthersKeepRecovery(m: Machine, a: Action, t: nat)
    requires OnlyRecovery(m, t) && m.degraded && !LeavesLoop(m, a)
    requires !(a.Spawn? && a.thread == t && PhaseOf(m, t).Starting? && PhaseOf(m, a.task) == Idle)
    requires !(a.Proceed? && a.thread == t && PhaseOf(m, t).Pinged?)
    ensures Recovering(Next(m, a), t)
  {
    if a.Proceed? && a.thread != t {
      assert !Recovering(m, a.thread);
      if !PhaseOf(m, a.thread).RedisFailed? {
        PlainStep(m, a.thread, a.ok, a.sees);
      }
      assert Recovering(m, t);
    }
  }

  /** From a lowered flag a step can raise it, but then it has to start a recovery. */
  lemma {:induction false} StrandingNeedsTheFlag(m: Machine, a: Action)
    requires Recoverable(m) && !m.degraded
    ensures !Stranded(Next(m, a))
  {
    var n := Next(m, a);
    if n.degraded {
      FlagRaised(m, a);
    }
  }

  lemma {:induction false} FlagRaised(m: Machine, a: Action)
    requires !m.degraded && Next(m, a).degraded
    ensures a.Proceed? && Recovering(Next(m, a), a.thread)
  {
    if a.Proceed? && PhaseOf(m, a.thread).Chose? {
      FallbackCallIsQuiet(At(m, a.thread, Idle), PhaseOf(m, a.thread).call);
    }
  }

  predicate SomeLoopLeft(m: Machine, actions: seq<Action>)
    decreases |actions|
  {
    actions != [] && (LeavesLoop(m, actions[0]) || SomeLoopLeft(Next(m, actions[0]), actions[1..]))
  }

  lemma {:induction false} RunStrandsExactly(m: Machine, actions: seq<Action>)
    requires Recoverable(m) && !Stranded(m)
    ensures Stranded(Run(m, actions)) <==> SomeLoopLeft(m, actions)
    decreases |actions|
  {
    if actions != [] {
      var n := Next(m, actions[0]);
      StrandsExactly(m, actions[0]);
      StepStaysRecoverable(m, actions[0]);
      if Stranded(n) {
        StrandedForever(n, actions[1..]);
      } else {
        RunStrandsExactly(n, actions[1..]);
      }
    }
  }

  /** Over whole runs with a client, stopped or not: degraded holds exactly when one recovery is under way if
      and only if no recovery loop has left at the stop. */
  lemma {:induction false} DegradedMeansRecoveringExactly(now: int, actions: seq<Action>)
    ensures var m := Run(Start(true, now), actions);
            (m.degraded <==> OneRecovery(m)) <==> !SomeLoopLeft(Start(true, now), actions)
  {
    var m := Run(Start(true, now), actions);
    RunKeeps(Start(true, now), actions);
    RunStrandsExactly(Start(true, now), actions);
    if OneRecovery(m) {
      var t :| OnlyRecovery(m, t);
      assert Recovering(m, t);
    }
  }
}
