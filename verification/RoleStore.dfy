/** User-to-role sets persisted in Redis, one set per user. Redis is taken to be reachable and its
    keys unexpired. */
module RoleStore {
  import opened Casbin
  import opened RbacState

  class RedisRoleStore {
    var sets: map<string, set<string>>

    constructor (sets: map<string, set<string>>)
      ensures this.sets == sets
    {
      this.sets := sets;
    }

    /** Replaces the user's set; saving no roles deletes the key. */
    method SaveUserRoles(user: string, roles: seq<string>) returns (ok: bool)
      modifies this
      ensures ok <==> user != ""
      ensures sets == if ok then Save(old(sets), user, set r | r in roles) else old(sets)
    {
      if user == "" {
        return false;
      }
      ghost var saved := set r | r in roles;
      sets := sets - {user};
      if |roles| > 0 {
        assert roles[0] in saved;
        sets := sets[user := set r | r in roles];
        assert sets == old(sets)[user := saved];
      } else {
        assert saved == {};
      }
      return true;
    }

    method DeleteUserRoles(user: string) returns (ok: bool)
      modifies this
      ensures ok <==> user != ""
      ensures sets == if ok then Save(old(sets), user, {}) else old(sets)
    {
      if user == "" {
        return false;
      }
      sets := sets - {user};
      return true;
    }

    /** A scan of all keys on a healthy Redis. */
    method LoadAllUserRoles() returns (users: map<string, set<string>>)
      ensures users == Loadable(sets)
    {
      var keys := Snapshot(sets.Keys);
      users := ScanUserRoles([Keys(keys)], {});
      WholeScan(sets, [Keys(keys)]);
    }

    /** The loop over the batches of a scan, which may repeat a key or list one that has expired since. A user
        whose set cannot be read is skipped; a failing scan gives nothing. */
    method ScanUserRoles(batches: seq<Batch>, unreadable: set<string>) returns (users: map<string, set<string>>)
      ensures users == if ScanFailed in batches then map[] else Readable(sets, batches, unreadable)
    {
      users := map[];
      for i := 0 to |batches|
        invariant ScanFailed !in batches[..i]
        invariant users == Readable(sets, batches[..i], unreadable)
      {
        assert batches[..i + 1] == batches[..i] + [batches[i]];
        if batches[i].ScanFailed? {
          assert ScanFailed in batches;
          return map[];
        }
        users := LoadBatch(batches[..i], batches[i].keys, unreadable, users);
      }
      assert batches[..|batches|] == batches;
    }

    method LoadBatch(ghost before: seq<Batch>, keys: seq<string>, unreadable: set<string>, loaded: map<string, set<string>>)
      returns (users: map<string, set<string>>)
      requires loaded == Readable(sets, before, unreadable)
      ensures users == Readable(sets, before + [Keys(keys)], unreadable)
    {
      users := loaded;
      for i := 0 to |keys|
        invariant users == Readable(sets, before + [Keys(keys[..i])], unreadable)
      {
        var user := keys[i];
        OneKeyMore(sets, before, keys, i, unreadable);
        if user == "" || user in unreadable {
          continue;
        }
        var roles := if user in sets then sets[user] else {};
        if roles != {} {
          users := users[user := roles];
        }
      }
      assert keys[..|keys|] == keys;
    }
  }

  /** One page of a SCAN. */
  datatype Batch = Keys(keys: seq<string>) | ScanFailed

  predicate Scanned(batches: seq<Batch>, user: string) {
    exists b | b in batches :: b.Keys? && user in b.keys
  }

  function Readable(sets: map<string, set<string>>, batches: seq<Batch>, unreadable: set<string>): map<string, set<string>> {
    map u | u in Loadable(sets) && Scanned(batches, u) && u !in unreadable :: sets[u]
  }

  lemma {:induction false} OneKeyMore(sets: map<string, set<string>>, before: seq<Batch>, keys: seq<string>, i: nat, unreadable: set<string>)
    requires i < |keys|
    ensures var now, next := Readable(sets, before + [Keys(keys[..i])], unreadable), Readable(sets, before + [Keys(keys[..i + 1])], unreadable);
            next == if keys[i] in Loadable(sets) && keys[i] !in unreadable then now[keys[i] := sets[keys[i]]] else now
  {
    assert keys[..i + 1] == keys[..i] + [keys[i]];
    forall u ensures Scanned(before + [Keys(keys[..i + 1])], u) <==> Scanned(before + [Keys(keys[..i])], u) || u == keys[i] {
      ScannedAppend(before, keys[..i], u);
      ScannedAppend(before, keys[..i + 1], u);
    }
  }

  lemma {:induction false} ScannedAppend(before: seq<Batch>, keys: seq<string>, u: string)
    ensures Scanned(before + [Keys(keys)], u) <==> Scanned(before, u) || u in keys
  {
    assert Keys(keys) in before + [Keys(keys)];
    assert forall b | b in before :: b in before + [Keys(keys)];
  }

  /** A scan that lists every key that was there throughout, however often, loads every user. */
  lemma {:induction false} WholeScan(sets: map<string, set<string>>, batches: seq<Batch>)
    requires ScanFailed !in batches && forall u | u in sets :: Scanned(batches, u)
    ensures Readable(sets, batches, {}) == Loadable(sets)
  {
  }
}
