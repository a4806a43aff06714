/** The in-memory cache of authorization decisions: keys, expiry and invalidation. */
module AuthzCache {
  import opened Text
  import opened Wrappers

  const NUL := '\0'

  datatype CacheEntry = CacheEntry(allowed: bool, expiresAt: int)

  function CacheKey(user: string, obj: string, act: string): (key: string) {
    user + [NUL] + (obj + [NUL] + act)
  }

  predicate Clean(user: string, obj: string, act: string) {
    Free(user, NUL) && Free(obj, NUL) && Free(act, NUL)
  }

  /** A NUL-free request shares its key with no other request at all, NUL-free or not. */
  lemma {:induction false} CleanKeyIsUnique(user: string, obj: string, act: string, user': string, obj': string, act': string)
    requires Clean(user, obj, act)
    requires CacheKey(user, obj, act) == CacheKey(user', obj', act')
    ensures user == user' && obj == obj' && act == act'
  {
    KeyNuls(user, obj, act);
    KeyNuls(user', obj', act');
    CountFree(user, NUL); CountFree(obj, NUL); CountFree(act, NUL);
    CountFree(user', NUL); CountFree(obj', NUL); CountFree(act', NUL);
    FirstCutUnique(user, obj + [NUL] + act, NUL, user', obj' + [NUL] + act');
    FirstCutUnique(obj, act, NUL, obj', act');
  }

  lemma {:induction false} KeyNuls(user: string, obj: string, act: string)
    ensures Count(CacheKey(user, obj, act), NUL) == 2 + Count(user, NUL) + Count(obj, NUL) + Count(act, NUL)
  {
    assert Count([NUL], NUL) == 1;
    CountConcat(obj, [NUL], NUL);
    CountConcat(obj + [NUL], act, NUL);
    CountConcat(user, [NUL], NUL);
    CountConcat(user + [NUL], obj + [NUL] + act, NUL);
  }

  /** The invalidation prefix of a NUL-free user selects that user's keys among NUL-free requests, and no others. */
  lemma {:induction false} PrefixSelectsUser(user: string, obj: string, act: string, target: string)
    requires Free(user, NUL) && Free(target, NUL)
    ensures HasPrefix(CacheKey(user, obj, act), target + [NUL]) <==> user == target
  {
    var key := CacheKey(user, obj, act);
    if HasPrefix(key, target + [NUL]) {
      FirstCutUnique(user, obj + [NUL] + act, NUL, target, key[|target| + 1..]);
    }
  }

  /** An entry is still served at its expiry instant, and not after it. */
  predicate Expired(e: CacheEntry, now: int) {
    now > e.expiresAt
  }

  /** The answer of a lookup, and the entries it leaves: an expired entry is dropped. */
  function Lookup(data: map<string, CacheEntry>, key: string, now: int): (answer: Option<bool>) {
    if key in data && !Expired(data[key], now) then Some(data[key].allowed) else None
  }

  function AfterLookup(data: map<string, CacheEntry>, key: string, now: int): (left: map<string, CacheEntry>) {
    if key in data && Expired(data[key], now) then data - {key} else data
  }

  function AfterSet(data: map<string, CacheEntry>, key: string, allowed: bool, ttl: int, now: int): (left: map<string, CacheEntry>) {
    if ttl <= 0 then data else data[key := CacheEntry(allowed, now + ttl)]
  }

  function WithoutPrefix(data: map<string, CacheEntry>, prefix: string): (left: map<string, CacheEntry>) {
    map k | k in data && !HasPrefix(k, prefix) :: data[k]
  }

  function WithoutExpired(data: map<string, CacheEntry>, now: int): (left: map<string, CacheEntry>) {
    map k | k in data && !Expired(data[k], now) :: data[k]
  }

  /** Dropping expired entries early changes no later answer. */
  lemma CleanupIsInvisible(data: map<string, CacheEntry>, key: string, cleaned: int, now: int)
    requires cleaned <= now
    ensures Lookup(WithoutExpired(data, cleaned), key, now) == Lookup(data, key, now)
    ensures Lookup(AfterLookup(data, key, cleaned), key, now) == Lookup(data, key, now)
  {
  }

  /** What a cleanup and a prefix invalidation leave, entry by entry. */
  lemma {:induction false} SweepsExactly(data: map<string, CacheEntry>, prefix: string, now: int, key: string)
    ensures key in WithoutExpired(data, now) <==> key in data && now <= data[key].expiresAt
    ensures key in WithoutPrefix(data, prefix) <==> key in data && !HasPrefix(key, prefix)
    ensures key in WithoutExpired(data, now) ==> WithoutExpired(data, now)[key] == data[key]
    ensures key in WithoutPrefix(data, prefix) ==> WithoutPrefix(data, prefix)[key] == data[key]
  {
  }

  class InMemoryCache {
    var data: map<string, CacheEntry>
    var hits: nat
    var misses: nat

    constructor ()
      ensures data == map[] && hits == 0 && misses == 0
    {
      data, hits, misses := map[], 0, 0;
    }

    method Get(user: string, obj: string, act: string, now: int) returns (answer: Option<bool>)
      modifies this
      ensures answer == Lookup(old(data), CacheKey(user, obj, act), now)
      ensures data == AfterLookup(old(data), CacheKey(user, obj, act), now)
      ensures hits == old(hits) + (if answer.Some? then 1 else 0)
      ensures misses == old(misses) + (if answer.Some? then 0 else 1)
    {
      var key := CacheKey(user, obj, act);
      if key !in data {
        misses := misses + 1;
        return None;
      }
      var entry := data[key];
      if Expired(entry, now) {
        data := data - {key};
        misses := misses + 1;
        return None;
      }
      hits := hits + 1;
      return Some(entry.allowed);
    }

    method Set(user: string, obj: string, act: string, allowed: bool, ttl: int, now: int)
      modifies this`data
      ensures data == AfterSet(old(data), CacheKey(user, obj, act), allowed, ttl, now)
    {
      if ttl <= 0 {
        return;
      }
      data := data[CacheKey(user, obj, act) := CacheEntry(allowed, now + ttl)];
    }

    method Clear()
      modifies this`data
      ensures data == map[]
    {
      data := map[];
    }

    /** Visits the keys in some order, as a range over the Go map does. */
    method InvalidateByPrefix(prefix: string) returns (count: nat)
      modifies this`data
      ensures data == WithoutPrefix(old(data), prefix)
      ensures count == |old(data)| - |data|
    {
      ghost var before := data;
      var left := data.Keys;
      count := 0;
      while left != {}
        invariant left <= before.Keys
        invariant data.Keys == set k | k in before && (k in left || !HasPrefix(k, prefix))
        invariant forall k | k in data :: data[k] == before[k]
        invariant count + |data| == |before|
        decreases left
      {
        var key :| key in left;
        left := left - {key};
        if HasPrefix(key, prefix) {
          data := data - {key};
          count := count + 1;
        }
      }
      assert data == WithoutPrefix(before, prefix);
    }

    method Cleanup(now: int)
      modifies this`data
      ensures data == WithoutExpired(old(data), now)
    {
      ghost var before := data;
      var left := data.Keys;
      while left != {}
        invariant left <= before.Keys
        invariant data.Keys == set k | k in before && (k in left || !Expired(before[k], now))
        invariant forall k | k in data :: data[k] == before[k]
        decreases left
      {
        var key :| key in left;
        left := left - {key};
        if Expired(data[key], now) {
          data := data - {key};
        }
      }
      assert data == WithoutExpired(before, now);
    }
  }
}
