/** The Casbin engine as the server configures it (casbin_model.conf): policies `p`, groupings `g`,
    keyMatch on objects and actions, and "some allow and no deny" as the effect. The second role
    relation `g2` of the configuration is never written to by the server, so it is left empty. */
module Casbin {
  import opened Text

  datatype Policy = Policy(sub: string, obj: string, act: string, eft: string)

  datatype Grouping = Grouping(user: string, role: string)

  datatype Store = Store(policies: set<Policy>, groupings: set<Grouping>)

  /** Casbin's keyMatch: compare up to the first `*` of the pattern. */
  predicate KeyMatch(key: string, pattern: string) {
    var i := IndexFrom(pattern, "*", 0);
    if i == -1 then key == pattern
    else if |key| > i then key[..i] == pattern[..i]
    else key == pattern[..i]
  }

  /** A pattern without a star matches only itself; `stem*...` matches every key that starts with `stem`. */
  lemma {:induction false} KeyMatchMeaning(key: string, stem: string, rest: string)
    requires Free(stem, '*')
    ensures KeyMatch(key, stem) <==> key == stem
    ensures KeyMatch(key, stem + "*" + rest) <==> HasPrefix(key, stem)
  {
    NoStar(stem);
    FirstStar(stem, rest);
    assert (stem + "*" + rest)[..|stem|] == stem;
  }

  lemma {:induction false} NoStar(stem: string)
    requires Free(stem, '*')
    ensures IndexFrom(stem, "*", 0) == -1
  {
    assert forall j: nat :: OccursAt(stem, "*", j) ==> stem[j] == '*' && stem[j] in stem;
  }

  lemma {:induction false} FirstStar(stem: string, rest: string)
    requires Free(stem, '*')
    ensures IndexFrom(stem + "*" + rest, "*", 0) == |stem|
  {
    var pattern := stem + "*" + rest;
    assert forall j: nat :: j < |stem| ==> stem[j] in stem && stem[j] == pattern[j];
    assert forall j: nat :: OccursAt(pattern, "*", j) ==> pattern[j] == '*';
    assert OccursAt(pattern, "*", |stem|) by { assert pattern[|stem|..] == "*" + rest; }
  }

  /** Every pattern is of one of the two shapes. */
  lemma {:induction false} CutAtStar(pattern: string) returns (stem: string, rest: string)
    ensures Free(stem, '*')
    ensures pattern == stem || pattern == stem + "*" + rest
    ensures Free(pattern, '*') <==> pattern == stem
  {
    var i := IndexFrom(pattern, "*", 0);
    if i == -1 {
      stem, rest := pattern, "";
      assert forall k :: 0 <= k < |pattern| && pattern[k] == '*' ==> OccursAt(pattern, "*", k);
    } else {
      stem, rest := pattern[..i], pattern[i + 1..];
      assert pattern[i] == '*' && pattern[i] in pattern;
      assert forall k :: 0 <= k < i && pattern[k] == '*' ==> OccursAt(pattern, "*", k);
      assert pattern == stem + "*" + rest;
    }
  }

  /** Everything reachable from `from` over groupings, `from` included. */
  function Closure(g: set<Grouping>, from: set<string>): (reached: set<string>)
    decreases (set e | e in g :: e.role) - from
  {
    var next := from + (set e | e in g && e.user in from :: e.role);
    if next == from then from
    else
      var x :| x in next && x !in from;
      assert x in set e | e in g :: e.role;
      Closure(g, next)
  }

  ghost predicate Closed(g: set<Grouping>, s: set<string>) {
    forall e | e in g && e.user in s :: e.role in s
  }

  /** The closure is the least closed set around its start. */
  lemma {:induction false} ClosureIsLeast(g: set<Grouping>, from: set<string>)
    ensures from <= Closure(g, from) && Closed(g, Closure(g, from))
    ensures forall s: set<string> :: from <= s && Closed(g, s) ==> Closure(g, from) <= s
    decreases (set e | e in g :: e.role) - from
  {
    var next := from + (set e | e in g && e.user in from :: e.role);
    if next != from {
      var x :| x in next && x !in from;
      assert x in set e | e in g :: e.role;
      ClosureIsLeast(g, next);
    }
  }

  function Reach(g: set<Grouping>, subject: string): (reached: set<string>) {
    Closure(g, {subject})
  }

  lemma {:induction false} ReachTransitive(g: set<Grouping>, x: string, y: string)
    requires y in Reach(g, x)
    ensures Reach(g, y) <= Reach(g, x)
  {
    ClosureIsLeast(g, {x});
    ClosureIsLeast(g, {y});
  }

  /** Groupings of a subject that `x` does not reach make no difference to `x`. */
  lemma {:induction false} ReachIgnores(g: set<Grouping>, h: set<Grouping>, x: string, u: string)
    requires u !in Reach(g, x)
    requires forall e: Grouping | e.user != u :: e in g <==> e in h
    ensures Reach(h, x) == Reach(g, x)
  {
    ClosureIsLeast(g, {x});
    ClosureIsLeast(h, {x});
    assert Closed(h, Reach(g, x));
    assert u !in Reach(h, x);
    assert Closed(g, Reach(h, x));
  }

  predicate Applies(p: Policy, reached: set<string>, obj: string, act: string) {
    p.sub in reached && KeyMatch(obj, p.obj) && KeyMatch(act, p.act)
  }

  /** enforcer.Enforce: some matching policy allows and none denies. */
  predicate Enforce(store: Store, sub: string, obj: string, act: string) {
    var reached := Reach(store.groupings, sub);
    && (exists p | p in store.policies :: Applies(p, reached, obj, act) && p.eft == "allow")
    && !(exists p | p in store.policies :: Applies(p, reached, obj, act) && p.eft == "deny")
  }

  ghost predicate AllowOnly(store: Store) {
    forall p | p in store.policies :: p.eft != "deny"
  }

  /** Direct roles of a user. */
  function RolesOf(g: set<Grouping>, user: string): (roles: set<string>) {
    set e | e in g && e.user == user :: e.role
  }

  /** GetImplicitRolesForUser: reachable, other than the user itself. */
  function ImplicitRoles(g: set<Grouping>, user: string): (roles: set<string>) {
    Reach(g, user) - {user}
  }

  /** The elements of a set in some order: what a Casbin or Go-map read hands to a loop. */
  method Snapshot<T(==)>(s: set<T>) returns (items: seq<T>)
    ensures forall x :: x in items <==> x in s
    ensures forall i, j :: 0 <= i < j < |items| ==> items[i] != items[j]
  {
    items := [];
    var left := s;
    while left != {}
      invariant left <= s
      invariant forall x :: x in items <==> x in s - left
      invariant forall i, j :: 0 <= i < j < |items| ==> items[i] != items[j]
      decreases left
    {
      var x :| x in left;
      assert x !in items;
      items := items + [x];
      left := left - {x};
    }
  }

  /** CasbinEnforcer: the shared store and its in-place edits. */
  class CasbinEnforcer {
    var store: Store

    constructor (policies: set<Policy>)
      ensures store == Store(policies, {})
    {
      store := Store(policies, {});
    }

    method AddPolicy(sub: string, obj: string, act: string, eft: string) returns (added: bool)
      modifies this
      ensures added <==> Policy(sub, obj, act, eft) !in old(store.policies)
      ensures store == old(store).(policies := old(store.policies) + {Policy(sub, obj, act, eft)})
    {
      added := Policy(sub, obj, act, eft) !in store.policies;
      store := store.(policies := store.policies + {Policy(sub, obj, act, eft)});
    }

    method RemovePolicy(sub: string, obj: string, act: string, eft: string) returns (removed: bool)
      modifies this
      ensures removed <==> Policy(sub, obj, act, eft) in old(store.policies)
      ensures store == old(store).(policies := old(store.policies) - {Policy(sub, obj, act, eft)})
    {
      removed := Policy(sub, obj, act, eft) in store.policies;
      store := store.(policies := store.policies - {Policy(sub, obj, act, eft)});
    }

    method AddUserRole(user: string, role: string) returns (added: bool)
      modifies this
      ensures added <==> Grouping(user, role) !in old(store.groupings)
      ensures store == old(store).(groupings := old(store.groupings) + {Grouping(user, role)})
    {
      added := Grouping(user, role) !in store.groupings;
      store := store.(groupings := store.groupings + {Grouping(user, role)});
    }

    method RemoveUserRole(user: string, role: string) returns (removed: bool)
      modifies this
      ensures removed <==> Grouping(user, role) in old(store.groupings)
      ensures store == old(store).(groupings := old(store.groupings) - {Grouping(user, role)})
    {
      removed := Grouping(user, role) in store.groupings;
      store := store.(groupings := store.groupings - {Grouping(user, role)});
    }

    method GetAllPolicies() returns (policies: seq<Policy>)
      ensures forall p :: p in policies <==> p in store.policies
    {
      policies := Snapshot(store.policies);
    }

    method GetAllRoles() returns (roles: seq<string>)
      ensures forall r :: r in roles <==> exists e :: e in store.groupings && e.role == r
    {
      roles := Snapshot(set e | e in store.groupings :: e.role);
    }

    method GetUsersForRole(role: string) returns (users: seq<string>)
      ensures forall u :: u in users <==> Grouping(u, role) in store.groupings
    {
      users := Snapshot(set e | e in store.groupings && e.role == role :: e.user);
    }

    method GetRolesForUser(user: string) returns (roles: seq<string>)
      ensures forall r :: r in roles <==> r in RolesOf(store.groupings, user)
    {
      roles := Snapshot(RolesOf(store.groupings, user));
    }

    method GetImplicitRolesForUser(user: string) returns (roles: seq<string>)
      ensures forall r :: r in roles <==> r in ImplicitRoles(store.groupings, user)
    {
      roles := Snapshot(ImplicitRoles(store.groupings, user));
    }

    method GetPoliciesForRole(role: string) returns (policies: seq<Policy>)
      ensures forall p :: p in policies <==> p in store.policies && p.sub == role
    {
      policies := Snapshot(set p | p in store.policies && p.sub == role);
    }
  }
}
