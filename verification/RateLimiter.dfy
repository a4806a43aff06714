/** Login rate limiting per source IP: a sliding window of failures, kept in a map that is pruned on
    every check and cleaned lazily. Times are integers (nanoseconds); clock readings never go back. */
module RateLimiter {

  const MAX_RATE_LIMIT_ENTRIES := 10000

  type pos = n: int | n >= 1 witness 1

  datatype Verdict = Pass | Limited(retryAfter: int)

  /** The failures after `start`, in order. */
  function Recent(h: seq<int>, start: int): (r: seq<int>)
    ensures |r| <= |h|
    decreases |h|
  {
    if |h| == 0 then []
    else
      var n := |h| - 1;
      Recent(h[..n], start) + (if h[n] > start then [h[n]] else [])
  }

  predicate Sorted(h: seq<int>) {
    forall i, j | 0 <= i <= j < |h| :: h[i] <= h[j]
  }

  /** The verdict the full failure history calls for: limited while `max` failures lie in the window,
      until the oldest of them leaves it. */
  function Judge(h: seq<int>, now: int, max: pos, window: int): (v: Verdict)
  {
    var recent := Recent(h, now - window);
    if |recent| < max then Pass
    else
      var retryAfter := recent[0] + window - now;
      Limited(if retryAfter < 0 then 0 else retryAfter)
  }

  /** The first `k` failures are those at or before `start`. */
  ghost predicate Cut(h: seq<int>, start: int, k: int) {
    0 <= k <= |h| && (forall i | 0 <= i < k :: h[i] <= start) && (forall i | k <= i < |h| :: h[i] > start)
  }

  lemma {:induction false} CutIsRecent(h: seq<int>, start: int, k: nat)
    requires Cut(h, start, k)
    ensures Recent(h, start) == h[k..]
    decreases |h|
  {
    if |h| > 0 {
      var n := |h| - 1;
      if k <= n {
        CutIsRecent(h[..n], start, k);
        assert h[..n][k..] + [h[n]] == h[k..];
      } else {
        CutIsRecent(h[..n], start, n);
      }
    }
  }

  lemma {:induction false} CutExists(h: seq<int>, start: int) returns (k: nat)
    requires Sorted(h)
    ensures Cut(h, start, k)
  {
    k := 0;
    while k < |h| && h[k] <= start
      invariant k <= |h| && forall i | 0 <= i < k :: h[i] <= start
    {
      k := k + 1;
    }
  }

  /** In an ordered history the recent failures are its tail. */
  lemma {:induction false} RecentIsTail(h: seq<int>, start: int)
    requires Sorted(h)
    ensures Cut(h, start, |h| - |Recent(h, start)|)
    ensures Recent(h, start) == h[|h| - |Recent(h, start)|..]
  {
    var k := CutExists(h, start);
    CutIsRecent(h, start, k);
  }

  // ---- pruning is invisible ----

  /** `stored` is the history without some first failures, all at or before `cutoff`. */
  ghost predicate Pruned(stored: seq<int>, full: seq<int>, cutoff: int) {
    var d := |full| - |stored|;
    d >= 0 && (forall i | d <= i < |full| :: full[i] == stored[i - d]) && forall i | 0 <= i < d :: full[i] <= cutoff
  }

  lemma {:induction false} RecentDropsOld(full: seq<int>, start: int, d: nat)
    requires d <= |full| && forall i | 0 <= i < d :: full[i] <= start
    ensures Recent(full[d..], start) == Recent(full, start)
    decreases |full|
  {
    if d == |full| {
      if |full| > 0 {
        RecentDropsOld(full[..d - 1], start, d - 1);
        assert full[..d - 1][d - 1..] == [] == full[d..];
      }
    } else {
      var n := |full| - 1;
      assert full[..n][d..] == full[d..][..n - d];
      RecentDropsOld(full[..n], start, d);
    }
  }

  /** A pruned history gets the same verdict as the full one, at any later time. */
  lemma {:induction false} PrunedGetsSameVerdict(stored: seq<int>, full: seq<int>, cutoff: int, now: int, max: pos, window: int)
    requires Pruned(stored, full, cutoff) && cutoff <= now - window
    ensures Judge(stored, now, max, window) == Judge(full, now, max, window)
  {
    assert stored == full[|full| - |stored|..];
    RecentDropsOld(full, now - window, |full| - |stored|);
  }

  lemma {:induction false} PruneAgain(stored: seq<int>, full: seq<int>, cutoff: int, start: int)
    requires Pruned(stored, full, cutoff) && cutoff <= start && Sorted(full)
    ensures Pruned(Recent(stored, start), full, start)
  {
    assert stored == full[|full| - |stored|..];
    RecentDropsOld(full, start, |full| - |stored|);
    RecentIsTail(full, start);
  }

  lemma {:induction false} PrunedAppend(stored: seq<int>, full: seq<int>, cutoff: int, t: int)
    requires Pruned(stored, full, cutoff)
    ensures Pruned(stored + [t], full + [t], cutoff)
  {
  }

  // ---- how far apart failures are ----

  /** Of any `k + 1` consecutive failures, the last comes at least the window after the first. */
  predicate Spaced(h: seq<int>, k: nat, window: int) {
    forall i, j | 0 <= i && i + k <= j < |h| :: h[j] - h[i] >= window
  }

  lemma {:induction false} SpacedAppend(h: seq<int>, k: nat, window: int, t: int)
    requires Spaced(h, k, window) && k >= 1
    requires forall i | 0 <= i <= |h| - k :: h[i] <= t - window
    ensures Spaced(h + [t], k, window)
  {
    var g := h + [t];
    forall i, j | 0 <= i && i + k <= j < |g|
      ensures g[j] - g[i] >= window
    {
      if j == |h| {
        assert g[i] == h[i] <= t - window;
      }
    }
  }

  // ---- how exact the announced wait is ----

  ghost predicate ExactWait(h: seq<int>, now: int, max: pos, window: int, wait: int) {
    forall t: int | t >= now :: Judge(h, t, max, window).Pass? <==> t >= now + wait
  }

  /** The wait is positive and at most the window (the clamp to zero is never needed), and no check passes
      before it is over. Without new failures it is exactly the wait until the next check passes if and
      only if the failure that has to leave the window for a pass is as old as the oldest one in it. */
  lemma {:induction false} RetryAfterExactly(h: seq<int>, now: int, max: pos, window: int)
    requires Sorted(h) && (forall t | t in h :: t <= now)
    requires Judge(h, now, max, window).Limited?
    ensures var recent := Recent(h, now - window);
            var wait := Judge(h, now, max, window).retryAfter;
            && 0 < wait <= window
            && (forall t: int | now <= t < now + wait :: Judge(h, t, max, window).Limited?)
            && (ExactWait(h, now, max, window, wait) <==> recent[|recent| - max] == recent[0])
  {
    var recent := Recent(h, now - window);
    RecentIsTail(h, now - window);
    assert recent[0] == h[|h| - |recent|] && recent[0] in h;
    var wait := Judge(h, now, max, window).retryAfter;
    var leaver := recent[|recent| - max];
    assert leaver == h[|h| - max];
    forall t: int | t >= now
      ensures Judge(h, t, max, window).Pass? <==> t >= leaver + window
    {
      RecentIsTail(h, t - window);
    }
    if leaver != recent[0] {
      assert !Judge(h, now + wait, max, window).Pass?;
    }
  }

  /** In particular the wait is exact whenever the window holds no more than `max` failures. */
  lemma {:induction false} RetryAfterExactAtLimit(h: seq<int>, now: int, max: pos, window: int)
    requires Sorted(h) && (forall t | t in h :: t <= now)
    requires |Recent(h, now - window)| == max
    ensures ExactWait(h, now, max, window, Judge(h, now, max, window).retryAfter)
  {
    RetryAfterExactly(h, now, max, window);
  }

  // ---- the limiter ----

  function At(m: map<string, seq<int>>, key: string): seq<int> {
    if key in m then m[key] else []
  }

  ghost function CountAt(m: map<string, nat>, key: string): nat {
    if key in m then m[key] else 0
  }

  /** At most `max` failures per `window`, and at most `most` undecided attempts at once. */
  datatype Limits = Limits(max: pos, window: pos, most: nat) {
    ghost const bound: nat := max - 1 + most
  }

  /** What holds of one source at all times: `stored` are the failures the map keeps for it, `full` all its
      failures since its last success, `flying` its admitted attempts that are not yet decided. With at most
      `most` of those at once, no window ever holds more than max - 1 + most failures; with one at a time
      that is `max`, and the (k + max)-th failure comes at least a window after the k-th. */
  ghost predicate Fine(stored: seq<int>, full: seq<int>, flying: nat, clock: int, l: Limits) {
    && flying <= l.most
    && Ordered(full, clock)
    && Pruned(stored, full, clock - l.window)
    && Few(full, flying, clock, l)
    && Spaced(full, l.bound, l.window)
  }

  /** Only the last bound - flying failures can be in the window. */
  ghost predicate Few(full: seq<int>, flying: nat, clock: int, l: Limits) {
    flying <= l.bound && forall i | 0 <= i < |full| + flying - l.bound :: i < |full| && full[i] <= clock - l.window
  }

  ghost predicate Ordered(h: seq<int>, clock: int) {
    Sorted(h) && UpTo(h, clock)
  }

  ghost predicate UpTo(h: seq<int>, clock: int) {
    forall i | 0 <= i < |h| :: h[i] <= clock
  }

  /** With at most `most` attempts in flight, a window of any position (here: from `start` on, `c` failures
      before its end) holds at most max - 1 + most failures. */
  lemma {:induction false} WindowBound(stored: seq<int>, full: seq<int>, flying: nat, clock: int, l: Limits, start: int, c: nat)
    requires Fine(stored, full, flying, clock, l)
    requires c <= |full| && forall i | 0 <= i < c :: full[i] < start + l.window
    ensures |Recent(full[..c], start - 1)| <= l.bound
  {
    RecentIsTail(full[..c], start - 1);
    var d := c - |Recent(full[..c], start - 1)|;
    assert d < c ==> full[..c][d] == full[d] && full[..c][c - 1] == full[c - 1];
  }

  lemma {:induction false} FineLater(stored: seq<int>, full: seq<int>, flying: nat, clock: int, l: Limits, now: int)
    requires Fine(stored, full, flying, clock, l) && clock <= now
    ensures Fine(stored, full, flying, now, l)
  {
  }

  /** Dropping what has left the window loses nothing. */
  lemma {:induction false} FinePruned(stored: seq<int>, full: seq<int>, flying: nat, clock: int, l: Limits)
    requires Fine(stored, full, flying, clock, l)
    ensures Fine(Recent(stored, clock - l.window), full, flying, clock, l)
  {
    PruneAgain(stored, full, clock - l.window, clock - l.window);
  }

  lemma {:induction false} FewWhenPassed(full: seq<int>, flying: nat, clock: int, l: Limits)
    requires Sorted(full) && flying < l.most && Judge(full, clock, l.max, l.window).Pass?
    ensures Few(full, flying + 1, clock, l)
  {
    RecentIsTail(full, clock - l.window);
  }

  lemma {:induction false} FineAdmitted(stored: seq<int>, full: seq<int>, flying: nat, clock: int, l: Limits)
    requires Fine(stored, full, flying, clock, l) && flying < l.most && Few(full, flying + 1, clock, l)
    ensures Fine(stored, full, flying + 1, clock, l)
  {}

  lemma {:induction false} OrderedAppend(h: seq<int>, clock: int)
    requires Ordered(h, clock)
    ensures Ordered(h + [clock], clock)
  {}

  lemma {:induction false} FewAppend(full: seq<int>, flying: nat, clock: int, l: Limits)
    requires Few(full, flying, clock, l) && flying > 0
    ensures Few(full + [clock], flying - 1, clock, l)
  {
  }

  lemma {:induction false} FineFailed(stored: seq<int>, full: seq<int>, flying: nat, clock: int, l: Limits)
    requires Fine(stored, full, flying, clock, l) && flying > 0
    ensures Fine(stored + [clock], full + [clock], flying - 1, clock, l)
  {
    PrunedAppend(stored, full, clock - l.window, clock);
    OrderedAppend(full, clock);
    FewAppend(full, flying, clock, l);
    SpacedAppend(full, l.bound, l.window, clock);
  }

  lemma {:induction false} FineFresh(flying: nat, clock: int, l: Limits)
    requires flying <= l.most
    ensures Fine([], [], flying, clock, l)
  {
  }

  /** In sequential runs (one attempt at a time, none undecided at the check) the announced wait is exact. */
  lemma {:induction false} SequentialWaitIsExact(stored: seq<int>, full: seq<int>, clock: int, l: Limits)
    requires l.most == 1 && Fine(stored, full, 0, clock, l) && Judge(full, clock, l.max, l.window).Limited?
    ensures ExactWait(full, clock, l.max, l.window, Judge(full, clock, l.max, l.window).retryAfter)
  {
    assert full[..|full|] == full;
    WindowBound(stored, full, 0, clock, l, clock - l.window + 1, |full|);
    RetryAfterExactAtLimit(full, clock, l.max, l.window);
  }

  /** All sources together. */
  datatype Ledger = Ledger(failed: map<string, seq<int>>, full: map<string, seq<int>>, flying: map<string, nat>, clock: int) {
    ghost predicate FineAt(key: string, l: Limits) {
      Fine(At(failed, key), At(full, key), CountAt(flying, key), clock, l)
    }
  }

  ghost predicate AllFine(b: Ledger, l: Limits) {
    forall key: string :: b.FineAt(key, l)
  }

  /** Steps of one source leave the others alone. */
  lemma {:induction false} OneKey(b: Ledger, c: Ledger, key: string, l: Limits)
    requires AllFine(b, l) && c.FineAt(key, l) && c.clock == b.clock
    requires forall k: string | k != key :: At(c.failed, k) == At(b.failed, k) && At(c.full, k) == At(b.full, k) && CountAt(c.flying, k) == CountAt(b.flying, k)
    ensures AllFine(c, l)
  {
    forall k: string ensures c.FineAt(k, l) {
      if k != key {
        assert b.FineAt(k, l);
      }
    }
  }

  lemma {:induction false} TimePasses(b: Ledger, l: Limits, now: int)
    requires AllFine(b, l) && b.clock <= now
    ensures AllFine(b.(clock := now), l)
  {
    forall k: string ensures b.(clock := now).FineAt(k, l) {
      assert b.FineAt(k, l);
      FineLater(At(b.failed, k), At(b.full, k), CountAt(b.flying, k), b.clock, l, now);
    }
  }

  lemma {:induction false} KeepRecent(b: Ledger, l: Limits, key: string)
    requires AllFine(b, l)
    ensures AllFine(b.(failed := b.failed[key := Recent(At(b.failed, key), b.clock - l.window)]), l)
  {
    assert b.FineAt(key, l);
    FinePruned(At(b.failed, key), At(b.full, key), CountAt(b.flying, key), b.clock, l);
    OneKey(b, b.(failed := b.failed[key := Recent(At(b.failed, key), b.clock - l.window)]), key, l);
  }

  lemma {:induction false} ForgetStale(b: Ledger, l: Limits)
    requires AllFine(b, l)
    ensures AllFine(b.(failed := WithoutStale(b.failed, b.clock - l.window)), l)
  {
    var c := b.(failed := WithoutStale(b.failed, b.clock - l.window));
    forall k: string ensures c.FineAt(k, l) {
      assert b.FineAt(k, l);
      if At(c.failed, k) != At(b.failed, k) {
        FinePruned(At(b.failed, k), At(b.full, k), CountAt(b.flying, k), b.clock, l);
      }
    }
  }

  ghost function Admit(b: Ledger, key: string): Ledger {
    b.(flying := b.flying[key := CountAt(b.flying, key) + 1])
  }

  lemma {:induction false} AdmittedKey(b: Ledger, l: Limits, key: string)
    requires b.FineAt(key, l) && CountAt(b.flying, key) < l.most
    requires Few(At(b.full, key), CountAt(b.flying, key) + 1, b.clock, l)
    ensures Admit(b, key).FineAt(key, l)
  {
    FineAdmitted(At(b.failed, key), At(b.full, key), CountAt(b.flying, key), b.clock, l);
    assert CountAt(Admit(b, key).flying, key) == CountAt(b.flying, key) + 1;
  }

  lemma {:induction false} Admitted(b: Ledger, l: Limits, key: string)
    requires AllFine(b, l) && CountAt(b.flying, key) < l.most
    requires Judge(At(b.full, key), b.clock, l.max, l.window).Pass?
    ensures AllFine(Admit(b, key), l)
  {
    assert b.FineAt(key, l);
    FewWhenPassed(At(b.full, key), CountAt(b.flying, key), b.clock, l);
    AdmittedKey(b, l, key);
    OneKey(b, Admit(b, key), key, l);
  }

  ghost function Fail(b: Ledger, key: string): Ledger
    requires CountAt(b.flying, key) > 0
  {
    Ledger(b.failed[key := At(b.failed, key) + [b.clock]], b.full[key := At(b.full, key) + [b.clock]],
           b.flying[key := CountAt(b.flying, key) - 1], b.clock)
  }

  lemma {:induction false} FailedKey(b: Ledger, l: Limits, key: string)
    requires b.FineAt(key, l) && CountAt(b.flying, key) > 0
    ensures Fail(b, key).FineAt(key, l)
  {
    var c := Fail(b, key);
    FineFailed(At(b.failed, key), At(b.full, key), CountAt(b.flying, key), b.clock, l);
    assert At(c.failed, key) == At(b.failed, key) + [b.clock];
    assert At(c.full, key) == At(b.full, key) + [b.clock];
    assert CountAt(c.flying, key) == CountAt(b.flying, key) - 1;
  }

  lemma {:induction false} Failed(b: Ledger, l: Limits, key: string)
    requires AllFine(b, l) && CountAt(b.flying, key) > 0
    ensures AllFine(Fail(b, key), l)
  {
    assert b.FineAt(key, l);
    FailedKey(b, l, key);
    OneKey(b, Fail(b, key), key, l);
  }

  ghost function Forgive(b: Ledger, key: string): Ledger
    requires CountAt(b.flying, key) > 0
  {
    Ledger(b.failed - {key}, b.full - {key}, b.flying[key := CountAt(b.flying, key) - 1], b.clock)
  }

  lemma {:induction false} Forgiven(b: Ledger, l: Limits, key: string)
    requires AllFine(b, l) && CountAt(b.flying, key) > 0
    ensures AllFine(Forgive(b, key), l)
  {
    assert b.FineAt(key, l);
    FineFresh(CountAt(b.flying, key) - 1, b.clock, l);
    OneKey(b, Forgive(b, key), key, l);
  }

  lemma {:induction false} FineVerdict(stored: seq<int>, full: seq<int>, flying: nat, clock: int, l: Limits)
    requires Fine(stored, full, flying, clock, l)
    ensures Judge(stored, clock, l.max, l.window) == Judge(full, clock, l.max, l.window)
  {
    PrunedGetsSameVerdict(stored, full, clock - l.window, clock, l.max, l.window);
  }

  lemma {:induction false} SameVerdict(b: Ledger, l: Limits, key: string)
    requires AllFine(b, l)
    ensures Judge(At(b.failed, key), b.clock, l.max, l.window) == Judge(At(b.full, key), b.clock, l.max, l.window)
  {
    assert b.FineAt(key, l);
    FineVerdict(At(b.failed, key), At(b.full, key), CountAt(b.flying, key), b.clock, l);
  }

  lemma {:induction false} SequentialWaits(b: Ledger, l: Limits, key: string)
    requires AllFine(b, l) && l.most == 1 && CountAt(b.flying, key) == 0
    ensures var v := Judge(At(b.full, key), b.clock, l.max, l.window);
            v.Limited? ==> ExactWait(At(b.full, key), b.clock, l.max, l.window, v.retryAfter)
  {
    assert b.FineAt(key, l);
    if Judge(At(b.full, key), b.clock, l.max, l.window).Limited? {
      SequentialWaitIsExact(At(b.failed, key), At(b.full, key), b.clock, l);
    }
  }

  lemma {:induction false} NothingRecent(h: seq<int>, start: int)
    ensures Recent(h, start) == [] <==> UpTo(h, start)
    decreases |h|
  {
    if |h| > 0 {
      NothingRecent(h[..|h| - 1], start);
    }
  }

  datatype Login = UnknownAccount | LoginDisabled | NoPassword | WrongPassword | RightPassword

  datatype Outcome = RateLimited(retryAfter: int) | InvalidCredentials | Disabled | Welcome

  /** What a login attempt does to the failures of its source: `at` is when it is checked, `recorded` when a
      failure of it is recorded. */
  datatype Try = Try(login: Login, at: int, recorded: int)

  /** While the source is limited nothing else matters. Otherwise exactly the right password gets in and wipes
      the failures; any other attempt is refused and adds one. */
  ghost predicate Tried(h: seq<int>, t: Try, max: pos, window: int, o: Outcome, after: seq<int>) {
    match Judge(h, t.at, max, window)
    case Limited(retryAfter) => o == RateLimited(retryAfter) && after == h
    case Pass =>
      && (o.Welcome? <==> t.login == RightPassword)
      && (o.Disabled? <==> t.login == LoginDisabled)
      && !o.RateLimited?
      && after == if t.login == RightPassword then [] else h + [t.recorded]
  }

  /** A run of attempts from one source: outcomes and histories in step with the attempts. */
  ghost predicate TriedAll(hs: seq<seq<int>>, ts: seq<Try>, os: seq<Outcome>, max: pos, window: int) {
    && |os| == |ts| && |hs| == |ts| + 1
    && forall i | 0 <= i < |ts| :: Tried(hs[i], ts[i], max, window, os[i], hs[i + 1])
  }

  lemma {:induction false} FailureAdds(h: seq<int>, t: Try, max: pos, window: int, o: Outcome, after: seq<int>)
    requires Tried(h, t, max, window, o, after) && t.login != RightPassword && !o.RateLimited?
    ensures after == h + [t.recorded]
  {
  }

  lemma {:induction false} FailuresAddUp(hs: seq<seq<int>>, ts: seq<Try>, os: seq<Outcome>, max: pos, window: int, n: nat)
    requires TriedAll(hs, ts, os, max, window) && n <= |ts|
    requires forall i | 0 <= i < n :: ts[i].login != RightPassword && !os[i].RateLimited?
    ensures |hs[n]| == |hs[0]| + n && forall i | 0 <= i < n :: hs[n][|hs[0]| + i] == ts[i].recorded
  {
    if n > 0 {
      FailuresAddUp(hs, ts, os, max, window, n - 1);
      FailureAdds(hs[n - 1], ts[n - 1], max, window, os[n - 1], hs[n]);
    }
  }

  /** The verdict read off the history: a pass exactly when the failure that is `max` places from the end has
      left the window, or does not exist; the wait is that of the oldest failure inside. */
  lemma {:induction false} JudgeMeans(h: seq<int>, now: int, max: pos, window: int)
    requires Sorted(h)
    ensures Judge(h, now, max, window).Pass? <==> |h| < max || h[|h| - max] <= now - window
    ensures Judge(h, now, max, window).Limited? ==>
              exists i | 0 <= i < |h| :: h[i] > now - window && (forall j | 0 <= j < i :: h[j] <= now - window)
                && Judge(h, now, max, window).retryAfter == h[i] + window - now
  {
    RecentIsTail(h, now - window);
    var d := |h| - |Recent(h, now - window)|;
    assert |h| >= max && d < |h| ==> (h[|h| - max] > now - window <==> |h| - max >= d);
    assert d < |h| ==> h[d] == Recent(h, now - window)[0];
  }

  /** Guessing is limited: once `max` attempts of a source have failed inside a window, unlimited, the next one
      before the window has passed is limited, whatever its password. */
  lemma {:induction false} FailuresLimit(hs: seq<seq<int>>, ts: seq<Try>, os: seq<Outcome>, max: pos, window: int)
    requires TriedAll(hs, ts, os, max, window) && |ts| == max + 1 && Sorted(hs[max])
    requires forall i | 0 <= i < max :: ts[i].login != RightPassword && !os[i].RateLimited?
    requires ts[max].at < ts[0].recorded + window
    ensures os[max].RateLimited? && hs[max + 1] == hs[max]
  {
    FailuresAddUp(hs, ts, os, max, window, max);
    var h := hs[max];
    assert h[|h| - max] == ts[0].recorded;
    JudgeMeans(h, ts[max].at, max, window);
    assert Tried(h, ts[max], max, window, os[max], hs[max + 1]);
  }

  ghost function WithoutStale(m: map<string, seq<int>>, start: int): map<string, seq<int>> {
    map k | k in m && Recent(m[k], start) != [] :: m[k]
  }

  /** The cleanup forgets a source exactly when no failure of it is in the window, and alters no other. */
  lemma {:induction false} CleanupForgetsExactly(m: map<string, seq<int>>, start: int)
    ensures forall k :: k in WithoutStale(m, start) <==> k in m && exists i | 0 <= i < |m[k]| :: m[k][i] > start
    ensures forall k | k in WithoutStale(m, start) :: WithoutStale(m, start)[k] == m[k]
  {
    forall k | k in m ensures Recent(m[k], start) != [] <==> exists i | 0 <= i < |m[k]| :: m[k][i] > start {
      NothingRecent(m[k], start);
    }
  }

  class AccountStore {
    const maxAttempts: pos
    const attemptWindow: pos
    const cleanupEvery: int
    var failedAttempts: map<string, seq<int>>
    var lastCleanup: int

    /** All failures since the last success and the undecided attempts, per source; the latest clock reading;
        and how many attempts of one source may be in flight at once. */
    ghost var history: map<string, seq<int>>
    ghost var inFlight: map<string, nat>
    ghost var clock: int
    ghost const most: nat

    constructor (maxAttempts: pos, attemptWindow: pos, cleanupEvery: int, ghost most: nat, ghost now: int)
      ensures Valid() && history == map[] && inFlight == map[] && clock == now
      ensures TheLimits() == Limits(maxAttempts, attemptWindow, most)
    {
      this.maxAttempts, this.attemptWindow, this.cleanupEvery := maxAttempts, attemptWindow, cleanupEvery;
      failedAttempts, lastCleanup := map[], 0;
      history, inFlight, clock, this.most := map[], map[], now, most;
      new;
      FineFresh(0, now, TheLimits());
      forall k: string ensures TheLedger().FineAt(k, TheLimits()) {}
    }

    ghost function TheLimits(): Limits {
      Limits(maxAttempts, attemptWindow, most)
    }

    ghost function TheLedger(): Ledger
      reads this
    {
      Ledger(failedAttempts, history, inFlight, clock)
    }

    ghost predicate Valid()
      reads this
    {
      AllFine(TheLedger(), TheLimits())
    }

    /** `latest` is the clock reading taken again inside the cleanup. */
    method CheckRateLimit(key: string, now: int, latest: int) returns (v: Verdict)
      requires Valid() && clock <= now && CountAt(inFlight, key) < most
      modifies this
      ensures Valid() && clock == now && history == old(history)
      ensures v == Judge(At(history, key), now, maxAttempts, attemptWindow)
      ensures most == 1 && v.Limited? ==> ExactWait(At(history, key), now, maxAttempts, attemptWindow, v.retryAfter)
      ensures inFlight == if v.Pass? then old(inFlight)[key := CountAt(old(inFlight), key) + 1] else old(inFlight)
    {
      TimePasses(TheLedger(), TheLimits(), now);
      clock := now;
      CleanupStale(now, latest);
      SameVerdict(TheLedger(), TheLimits(), key);
      if most == 1 {
        SequentialWaits(TheLedger(), TheLimits(), key);
      }
      v := Count(key, now);
      if v.Pass? {
        Admitted(TheLedger(), TheLimits(), key);
        inFlight := inFlight[key := CountAt(inFlight, key) + 1];
      }
    }

    /** Prunes the failures of one source and judges what is left. */
    method Count(key: string, now: int) returns (v: Verdict)
      requires Valid() && clock == now
      modifies this`failedAttempts
      ensures Valid()
      ensures v == Judge(At(old(failedAttempts), key), now, maxAttempts, attemptWindow)
    {
      var windowStart := now - attemptWindow;
      if key !in failedAttempts {
        return Pass;
      }
      var recent := Filter(failedAttempts[key], windowStart);
      KeepRecent(TheLedger(), TheLimits(), key);
      failedAttempts := failedAttempts[key := recent];
      if |recent| < maxAttempts {
        return Pass;
      }
      var retryAfter := recent[0] + attemptWindow - now;
      return Limited(if retryAfter < 0 then 0 else retryAfter);
    }

    static method Filter(attempts: seq<int>, windowStart: int) returns (recent: seq<int>)
      ensures recent == Recent(attempts, windowStart)
    {
      recent := [];
      for i := 0 to |attempts|
        invariant recent == Recent(attempts[..i], windowStart)
      {
        assert attempts[..i + 1][..i] == attempts[..i];
        if attempts[i] > windowStart {
          recent := recent + [attempts[i]];
        }
      }
      assert attempts[..|attempts|] == attempts;
    }

    /** Forgets the sources without a failure in the window, now and then or when there are too many. */
    method CleanupStale(now: int, latest: int)
      requires Valid() && clock == now
      modifies this`failedAttempts, this`lastCleanup
      ensures Valid()
      ensures var due := latest - old(lastCleanup) > cleanupEvery || |old(failedAttempts)| > MAX_RATE_LIMIT_ENTRIES;
              && lastCleanup == (if due then now else old(lastCleanup))
              && failedAttempts == (if due then WithoutStale(old(failedAttempts), now - attemptWindow) else old(failedAttempts))
    {
      if latest - lastCleanup <= cleanupEvery && |failedAttempts| <= MAX_RATE_LIMIT_ENTRIES {
        return;
      }
      var windowStart := now - attemptWindow;
      var toDelete := StaleKeys(failedAttempts, windowStart);
      ForgetStale(TheLedger(), TheLimits());
      assert failedAttempts - toDelete == WithoutStale(failedAttempts, windowStart);
      failedAttempts := failedAttempts - toDelete;
      lastCleanup := now;
    }

    static method StaleKeys(failedAttempts: map<string, seq<int>>, windowStart: int) returns (toDelete: set<string>)
      ensures forall k :: k in toDelete <==> k in failedAttempts && Recent(failedAttempts[k], windowStart) == []
    {
      toDelete := {};
      var left := failedAttempts.Keys;
      while left != {}
        invariant left <= failedAttempts.Keys
        invariant forall k :: k in toDelete <==> k in failedAttempts && k !in left && Recent(failedAttempts[k], windowStart) == []
      {
        var key :| key in left;
        left := left - {key};
        var hasRecent := HasRecent(failedAttempts[key], windowStart);
        if !hasRecent {
          toDelete := toDelete + {key};
        }
      }
    }

    static method HasRecent(attempts: seq<int>, windowStart: int) returns (hasRecent: bool)
      ensures hasRecent <==> Recent(attempts, windowStart) != []
    {
      NothingRecent(attempts, windowStart);
      hasRecent := false;
      for i := 0 to |attempts|
        invariant !hasRecent && forall j | 0 <= j < i :: attempts[j] <= windowStart
      {
        if attempts[i] > windowStart {
          return true;
        }
      }
    }

    method RecordFailedAttempt(key: string, now: int)
      requires Valid() && clock <= now && CountAt(inFlight, key) > 0
      modifies this
      ensures Valid() && clock == now
      ensures history == old(history)[key := At(old(history), key) + [now]]
      ensures inFlight == old(inFlight)[key := CountAt(old(inFlight), key) - 1]
    {
      TimePasses(TheLedger(), TheLimits(), now);
      clock := now;
      Failed(TheLedger(), TheLimits(), key);
      failedAttempts := failedAttempts[key := At(failedAttempts, key) + [now]];
      history := history[key := At(history, key) + [now]];
      inFlight := inFlight[key := CountAt(inFlight, key) - 1];
    }

    method ClearFailedAttempts(key: string)
      requires Valid() && CountAt(inFlight, key) > 0
      modifies this
      ensures Valid() && clock == old(clock) && history == old(history) - {key}
      ensures inFlight == old(inFlight)[key := CountAt(old(inFlight), key) - 1]
    {
      Forgiven(TheLedger(), TheLimits(), key);
      failedAttempts, history := failedAttempts - {key}, history - {key};
      inFlight := inFlight[key := CountAt(inFlight, key) - 1];
    }

    /** One login attempt, with the clock readings of the check, of its cleanup and of the recorded failure.
        The verdict is that of the full history, whatever the map has pruned or forgotten; in sequential use
        the announced wait is exact. */
    method ValidatePassword(login: Login, sourceIP: string, now: int, latest: int, later: int) returns (o: Outcome)
      requires Valid() && clock <= now <= later && CountAt(inFlight, sourceIP) < most
      modifies this
      ensures Valid() && forall k :: CountAt(inFlight, k) == CountAt(old(inFlight), k)
      ensures Tried(At(old(history), sourceIP), Try(login, now, later), maxAttempts, attemptWindow, o, At(history, sourceIP))
      ensures forall k | k != sourceIP :: At(history, k) == At(old(history), k)
      ensures !o.RateLimited? ==> (o.Welcome? <==> login == RightPassword) && (o.Disabled? <==> login == LoginDisabled)
      ensures most == 1 && o.RateLimited? ==> ExactWait(At(history, sourceIP), now, maxAttempts, attemptWindow, o.retryAfter)
    {
      var verdict := CheckRateLimit(sourceIP, now, latest);
      if verdict.Limited? {
        return RateLimited(verdict.retryAfter);
      }
      if login != RightPassword {
        RecordFailedAttempt(sourceIP, later);
        return if login.LoginDisabled? then Disabled else InvalidCredentials;
      }
      ClearFailedAttempts(sourceIP);
      return Welcome;
    }
  }
}
