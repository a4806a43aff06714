/** The Redis-backed decision cache as an object, and its calls as runs of the degraded-mode machine. Replies of
    Redis are parameters. */
module RedisCache {
  import opened Text
  import opened Wrappers
  import opened AuthzCache
  import opened DegradedMode

  datatype Reply = Found(allowed: bool) | Missing | Failed

  /** One tick of the recovery loop. */
  datatype Wake = StopSeen | PingFailed | PingOk

  /** The steps of one call that runs alone; `task` is the recovery it starts when Redis fails. */
  function CallSteps(degraded: bool, t: nat, task: nat, call: Call, redisOk: bool): seq<Action> {
    var step := Proceed(t, redisOk, false);
    if degraded || redisOk then [Begin(t, call), step]
    else [Begin(t, call), step, step] + ([Spawn(t, task)] + (if call.Set? then [step] else []))
  }

  lemma {:induction false} RunConcat(m: Machine, a: seq<Action>, b: seq<Action>)
    ensures Run(m, a + b) == Run(Run(m, a), b)
    decreases |a|
  {
    if a == [] {
      assert [] + b == b;
    } else {
      assert (a + b)[1..] == a[1..] + b;
      RunConcat(Next(m, a[0]), a[1..], b);
    }
  }

  lemma {:induction false} QuietCall(m: Machine, t: nat, task: nat, call: Call, redisOk: bool)
    requires PhaseOf(m, t) == Idle && (call.Set? ==> call.ttl > 0) && (m.degraded || redisOk)
    ensures var n := Run(m, CallSteps(m.degraded, t, task, call, redisOk));
            var begun := At(At(m, t, Chose(call, m.degraded)), t, Idle);
            n == if m.degraded then OnFallback(begun, call) else begun
  {
    RunOne(m, Begin(t, call), [Proceed(t, redisOk, false)]);
    RunOne(Next(m, Begin(t, call)), Proceed(t, redisOk, false), []);
  }

  /** A Get or Set that meets a Redis error on an undegraded cache. */
  lemma {:induction false} FailingCall(m: Machine, t: nat, task: nat, call: Call)
    requires PhaseOf(m, t) == Idle == PhaseOf(m, task) && t != task && !m.degraded
    requires call.Get? || (call.Set? && call.ttl > 0)
    ensures var n := Run(m, CallSteps(false, t, task, call, false));
            && n.degraded && PhaseOf(n, t) == Idle && PhaseOf(n, task) == Looping
            && n.fallback == (if call.Set? then AfterSet(m.fallback, call.key, call.allowed, FALLBACK_TTL, m.now) else m.fallback)
            && n.now == m.now && n.hits == m.hits && n.stopped == m.stopped && n.hasClient == m.hasClient
  {
    var step := Proceed(t, false, false);
    var tail := if call.Set? then [step] else [];
    RunThree(m, Begin(t, call), step, step, [Spawn(t, task)] + tail);
    var entered := Next(Next(Next(m, Begin(t, call)), step), step);
    assert PhaseOf(entered, t) == Starting(call) && entered.degraded && entered.fallback == m.fallback;
    assert PhaseOf(entered, task) == Idle;
    RunOne(entered, Spawn(t, task), tail);
    var spawned := Next(entered, Spawn(t, task));
    if call.Set? {
      RunOne(spawned, step, []);
    }
  }

  predicate Ready(m: Machine, t: nat, task: nat) {
    PhaseOf(m, t) == Idle == PhaseOf(m, task) && t != task
  }

  predicate GetRun(m: Machine, key: string, redis: Reply, n: Machine, task: nat) {
    && n.hasClient == m.hasClient && n.degraded == (m.degraded || redis.Failed?)
    && n.fallback == (if m.degraded then AfterLookup(m.fallback, key, m.now) else m.fallback)
    && (!m.degraded && redis.Failed? ==> PhaseOf(n, task) == Looping)
  }

  lemma {:induction false} GetIsARun(m: Machine, t: nat, task: nat, key: string, redis: Reply)
    requires Ready(m, t, task)
    ensures GetRun(m, key, redis, Run(m, CallSteps(m.degraded, t, task, Get(key), !redis.Failed?)), task)
  {
    if m.degraded || !redis.Failed? {
      QuietCall(m, t, task, Get(key), !redis.Failed?);
    } else {
      FailingCall(m, t, task, Get(key));
    }
  }

  predicate SetRun(m: Machine, call: Call, redisOk: bool, n: Machine, task: nat)
    requires call.Set?
  {
    && n.hasClient == m.hasClient && n.degraded == (m.degraded || !redisOk)
    && n.fallback == (if !m.degraded && redisOk then m.fallback
                      else AfterSet(m.fallback, call.key, call.allowed, FALLBACK_TTL, m.now))
    && (!m.degraded && !redisOk ==> PhaseOf(n, task) == Looping)
  }

  lemma {:induction false} SetIsARun(m: Machine, t: nat, task: nat, call: Call, redisOk: bool)
    requires Ready(m, t, task) && call.Set? && call.ttl > 0
    ensures SetRun(m, call, redisOk, Run(m, CallSteps(m.degraded, t, task, call, redisOk)), task)
  {
    if m.degraded || redisOk {
      QuietCall(m, t, task, call, redisOk);
    } else {
      FailingCall(m, t, task, call);
    }
  }

  predicate RecoveryRun(m: Machine, wakes: seq<Wake>, n: Machine, task: nat) {
    var k := FirstDecisive(wakes);
    && n.hasClient == m.hasClient && PhaseOf(n, task) == (if k < |wakes| then Idle else Looping)
    && (if k < |wakes| && wakes[k].PingOk? then !n.degraded && n.fallback == map[]
        else n.degraded == m.degraded && n.fallback == m.fallback)
  }

  lemma {:induction false} RunKeepsClient(m: Machine, actions: seq<Action>)
    ensures Run(m, actions).hasClient == m.hasClient
    decreases |actions|
  {
    if actions != [] {
      NextKeepsClient(m, actions[0]);
      RunKeepsClient(Next(m, actions[0]), actions[1..]);
    }
  }

  lemma {:induction false} NextKeepsClient(m: Machine, a: Action)
    ensures Next(m, a).hasClient == m.hasClient
  {
    if a.Proceed? && PhaseOf(m, a.thread).Chose? {
      FallbackCallIsQuiet(At(m, a.thread, Idle), PhaseOf(m, a.thread).call);
    }
  }

  /** One lookup is counted, as a hit or as a miss, by the store that answers. */
  predicate Counted(here: bool, hits: nat, misses: nat, hitsBefore: nat, missesBefore: nat, hit: nat) {
    if here then hits == hitsBefore + hit && misses == missesBefore + 1 - hit
    else hits == hitsBefore && misses == missesBefore
  }

  function RecoverySteps(task: nat, wakes: seq<Wake>): seq<Action> {
    if wakes == [] then []
    else match wakes[0]
      case StopSeen => [Proceed(task, false, true)]
      case PingFailed => [Proceed(task, false, false)] + RecoverySteps(task, wakes[1..])
      case PingOk => [Proceed(task, true, false), Proceed(task, true, false), Proceed(task, true, false)]
  }

  /** The wake-ups of a recovery are a run of its task. */
  lemma {:induction false} RecoveryIsARun(m: Machine, task: nat, wakes: seq<Wake>)
    requires PhaseOf(m, task) == Looping && (StopSeen in wakes ==> m.stopped)
    ensures var n, k := Run(m, RecoverySteps(task, wakes)), FirstDecisive(wakes);
            && PhaseOf(n, task) == (if k < |wakes| then Idle else Looping)
            && (if k < |wakes| && wakes[k].PingOk? then !n.degraded && n.fallback == map[]
                else n.degraded == m.degraded && n.fallback == m.fallback)
    decreases |wakes|
  {
    if wakes != [] {
      match wakes[0]
      case StopSeen => RunOne(m, Proceed(task, false, true), []);
      case PingFailed =>
        RunOne(m, Proceed(task, false, false), RecoverySteps(task, wakes[1..]));
        RecoveryIsARun(m, task, wakes[1..]);
        var k := FirstDecisive(wakes[1..]);
        assert k < |wakes| - 1 ==> wakes[1..][k] == wakes[k + 1];
      case PingOk =>
        var step := Proceed(task, true, false);
        assert [step, step, step] == [step, step, step] + [];
        RunThree(m, step, step, step, []);
    }
  }

  class RedisAuthorizationCache {
    const hasClient: bool
    var degraded: bool
    var misses: nat
    var hits: nat
    const fallback: InMemoryCache

    constructor (hasClient: bool)
      ensures this.hasClient == hasClient && degraded == !hasClient && fresh(fallback) && fallback.data == map[]
    {
      this.hasClient, degraded, misses, hits := hasClient, !hasClient, 0, 0;
      fallback := new InMemoryCache();
    }

    /** The machine and the object agree on what they both describe. */
    ghost predicate Mirrors(m: Machine)
      reads this, fallback
    {
      m.hasClient == hasClient && m.degraded == degraded && m.fallback == fallback.data
    }

    /** `start` tells whether the caller has to start a recovery task. */
    method EnterDegradedMode() returns (start: bool)
      modifies this`degraded
      ensures degraded && start == !old(degraded)
    {
      var alreadyDegraded := degraded;
      if !degraded {
        degraded := true;
      }
      return !alreadyDegraded;
    }

    /** A Redis error is a miss, and degrades the cache. The call is a run of the machine: from any machine state
        that mirrors the object, the steps of the call lead to one that does, and a recovery task is looping
        if the call had to start one. */
    method Get(user: string, obj: string, act: string, redis: Reply, now: int) returns (answer: Option<bool>, start: bool)
      modifies this`degraded, this`hits, this`misses, fallback
      ensures var key := CacheKey(user, obj, act);
              if old(degraded) then
                answer == Lookup(old(fallback.data), key, now) && fallback.data == AfterLookup(old(fallback.data), key, now)
                && degraded && !start
              else
                answer == (if redis.Found? then Some(redis.allowed) else None) && fallback.data == old(fallback.data)
                && degraded == start == redis.Failed?
      ensures var hit := if answer.Some? then 1 else 0;
              && Counted(old(degraded), fallback.hits, fallback.misses, old(fallback.hits), old(fallback.misses), hit)
              && Counted(!old(degraded), hits, misses, old(hits), old(misses), hit)
      ensures forall m: Machine, t: nat, task: nat | old(Mirrors(m)) && m.now == now && Ready(m, t, task) ::
                var n := Run(m, CallSteps(m.degraded, t, task, Call.Get(CacheKey(user, obj, act)), !redis.Failed?));
                Mirrors(n) && (start ==> PhaseOf(n, task) == Looping)
    {
      ghost var key, ok := CacheKey(user, obj, act), !redis.Failed?;
      forall m: Machine, t: nat, task: nat | Mirrors(m) && m.now == now && Ready(m, t, task)
        ensures GetRun(m, key, redis, Run(m, CallSteps(m.degraded, t, task, Call.Get(key), ok)), task)
      {
        GetIsARun(m, t, task, key, redis);
      }
      start := false;
      if degraded {
        answer := fallback.Get(user, obj, act, now);
        return;
      }
      match redis
      case Failed =>
        start := EnterDegradedMode();
        misses := misses + 1;
        answer := None;
      case Missing =>
        misses := misses + 1;
        answer := None;
      case Found(allowed) =>
        hits := hits + 1;
        answer := Some(allowed);
    }

    /** `written` is what Redis received. The decision goes to exactly one of the two stores. */
    method Set(user: string, obj: string, act: string, allowed: bool, ttl: int, redisOk: bool, now: int)
      returns (written: Option<bool>, start: bool)
      modifies this`degraded, fallback`data
      ensures var key := CacheKey(user, obj, act);
              var toRedis := ttl > 0 && !old(degraded) && redisOk;
              && written == (if toRedis then Some(allowed) else None)
              && fallback.data == (if ttl <= 0 || toRedis then old(fallback.data)
                                   else AfterSet(old(fallback.data), key, allowed, FALLBACK_TTL, now))
              && degraded == (old(degraded) || (ttl > 0 && !redisOk)) && start == (degraded && !old(degraded))
      ensures forall m: Machine, t: nat, task: nat | old(Mirrors(m)) && m.now == now && Ready(m, t, task) && ttl > 0 ::
                var n := Run(m, CallSteps(m.degraded, t, task, Call.Set(CacheKey(user, obj, act), allowed, ttl), redisOk));
                Mirrors(n) && (start ==> PhaseOf(n, task) == Looping)
    {
      ghost var call := Call.Set(CacheKey(user, obj, act), allowed, ttl);
      forall m: Machine, t: nat, task: nat | Mirrors(m) && m.now == now && Ready(m, t, task) && ttl > 0
        ensures SetRun(m, call, redisOk, Run(m, CallSteps(m.degraded, t, task, call, redisOk)), task)
      {
        SetIsARun(m, t, task, call, redisOk);
      }
      written, start := None, false;
      if ttl <= 0 {
        return;
      }
      if degraded {
        fallback.Set(user, obj, act, allowed, FALLBACK_TTL, now);
        return;
      }
      if redisOk {
        written := Some(allowed);
      } else {
        start := EnterDegradedMode();
        fallback.Set(user, obj, act, allowed, FALLBACK_TTL, now);
      }
    }

    /** The recovery loop over its wake-ups; `done` is false when it is still waiting after them. The first
        wake-up that is not a failed ping ends it, and it recovers exactly when that is a successful ping. */
    method TryRecovery(wakes: seq<Wake>) returns (done: bool)
      modifies this`degraded, fallback`data
      ensures var k := FirstDecisive(wakes);
              && done == (k < |wakes|)
              && if k < |wakes| && wakes[k].PingOk? then !degraded && fallback.data == map[]
                 else degraded == old(degraded) && fallback.data == old(fallback.data)
      ensures forall m: Machine, task: nat | old(Mirrors(m)) && PhaseOf(m, task) == Looping && (StopSeen in wakes ==> m.stopped) ::
                var n := Run(m, RecoverySteps(task, wakes));
                Mirrors(n) && (done <==> PhaseOf(n, task) == Idle)
    {
      forall m: Machine, task: nat | Mirrors(m) && PhaseOf(m, task) == Looping && (StopSeen in wakes ==> m.stopped)
        ensures RecoveryRun(m, wakes, Run(m, RecoverySteps(task, wakes)), task)
      {
        RecoveryIsARun(m, task, wakes);
        RunKeepsClient(m, RecoverySteps(task, wakes));
      }
      for i := 0 to |wakes|
        invariant i <= FirstDecisive(wakes)
        invariant degraded == old(degraded) && fallback.data == old(fallback.data)
      {
        match wakes[i]
        case StopSeen => return true;
        case PingFailed =>
        case PingOk =>
          degraded := false;
          fallback.Clear();
          return true;
      }
      return false;
    }
  }

  function FirstDecisive(wakes: seq<Wake>): (k: nat)
    ensures k <= |wakes| && (forall i | 0 <= i < k :: wakes[i].PingFailed?) && (k < |wakes| ==> !wakes[k].PingFailed?)
  {
    if wakes == [] || !wakes[0].PingFailed? then 0 else 1 + FirstDecisive(wakes[1..])
  }
}
