/** What the operations of the enforcer do to the roles of a user, to everybody else, and to what a later
    restart gives back, stated on the state they leave. */
module RoleOperations {
  import opened Text
  import opened Wrappers
  import opened Subjects
  import opened Casbin
  import opened Policies
  import opened AuthzCache
  import opened RbacState
  import opened Rebuild
  import opened Restart

  /** Bindings and saved roles of everyone else are as before. */
  ghost predicate OthersKept(before: State, after: State, user: string) {
    && (forall e: Grouping | e.user != user :: e in after.store.groupings <==> e in before.store.groupings)
    && (forall u: string | u != user :: SavedFor(after, u) == SavedFor(before, u))
  }

  function SavedFor(st: State, user: string): Option<set<string>> {
    if user in st.persisted then Some(st.persisted[user]) else None
  }

  /** The user holds exactly these roles. */
  ghost predicate Holds(st: State, user: string, roles: set<string>) {
    forall r: string :: Grouping(user, r) in st.store.groupings <==> r in roles
  }

  ghost predicate ProjectsKept(before: State, after: State) {
    after.store.policies == before.store.policies && after.loaded == before.loaded
  }

  lemma {:induction false} UnboundReachesNothing(g: set<Grouping>, user: string)
    requires forall r: string :: Grouping(user, r) !in g
    ensures Reach(g, user) == {user}
  {
    ClosureIsLeast(g, {user});
    assert forall e | e in g :: e == Grouping(e.user, e.role);
    assert Closed(g, {user});
  }

  /** Removing all roles: the user is left without any, in Casbin and in Redis, reaches nobody else's
      permissions, and gets nothing back from a restore; everyone else keeps what they have. */
  lemma {:induction false} RemoveUserRolesErases(cfg: Config, st: State, user: string)
    ensures var r := RemoveUserRoles(cfg, st, user);
            && (r.ok <==> user != "")
            && (!r.ok ==> r.state == st)
            && (r.ok ==>
                  && Holds(r.state, user, {}) && Reach(r.state.store.groupings, user) == {user}
                  && OthersKept(st, r.state, user) && ProjectsKept(st, r.state)
                  && SavedFor(r.state, user) == (if cfg.hasRoleStore then None else SavedFor(st, user))
                  && r.state.cache == (if cfg.cached then map[] else st.cache))
  {
    if user != "" {
      UnboundReachesNothing(RemoveUserRoles(cfg, st, user).state.store.groupings, user);
    }
  }

  lemma {:induction false} ErasedStaysErased(cfg: Config, st: State, user: string)
    requires user != "" && cfg.hasRoleStore
    ensures var erased := RemoveUserRoles(cfg, st, user).state;
            Holds(RestorePersistedRoles(cfg, erased).state, user, {})
  {
    var erased := RemoveUserRoles(cfg, st, user).state;
    RemoveUserRolesErases(cfg, st, user);
    RestoreBindsExactly(cfg, erased);
    assert user !in erased.persisted by { assert SavedFor(erased, user) == None; }
  }

  /** Removing one role removes that binding and no other. Redis then holds the rest, or nothing when there is
      none; only when the rest reads as nil is Redis left as it was. */
  lemma {:induction false} RemoveUserRoleErasesOne(cfg: Config, st: State, user: string, role: string)
    ensures var r := RemoveUserRole(cfg, st, user, role);
            var rest := RolesOf(r.state.store.groupings, user);
            && (r.ok <==> user != "" && role != "")
            && (!r.ok ==> r.state == st)
            && (r.ok ==>
                  && (forall e :: e in r.state.store.groupings <==> e in st.store.groupings && e != Grouping(user, role))
                  && OthersKept(st, r.state, user) && ProjectsKept(st, r.state)
                  && SavedFor(r.state, user)
                     == (if !cfg.hasRoleStore || (rest == {} && cfg.emptyReadIsNil) then SavedFor(st, user)
                         else if rest == {} then None else Some(rest))
                  && r.state.cache == (if cfg.cached then map[] else st.cache))
  {
  }

  /** The position of the first role that is neither empty nor well-formed, or the length. */
  function FirstInvalid(roles: seq<string>): (k: nat)
    ensures k <= |roles| && (forall i | 0 <= i < k :: roles[i] == "" || IsValidRoleFormat(roles[i]))
    ensures k < |roles| ==> roles[k] != "" && !IsValidRoleFormat(roles[k])
  {
    if roles == [] || (roles[0] != "" && !IsValidRoleFormat(roles[0])) then 0 else 1 + FirstInvalid(roles[1..])
  }

  lemma {:induction false} AcceptedAreFirst(roles: seq<string>)
    ensures forall r :: r in Accepted(roles) <==> r != "" && r in roles[..FirstInvalid(roles)]
    ensures RolesValid(roles) <==> FirstInvalid(roles) == |roles|
  {
    if roles != [] {
      assert roles == [roles[0]] + roles[1..];
      if roles[0] == "" || IsValidRoleFormat(roles[0]) {
        var k := FirstInvalid(roles[1..]);
        AcceptedAreFirst(roles[1..]);
        assert roles[..1 + k] == [roles[0]] + roles[1..][..k];
      }
    }
  }

  /** Assigning roles: whatever the user had is replaced by the non-empty roles before the first invalid one.
      Only when there is no invalid one does the call succeed, save the list and drop the user's entries. */
  lemma {:induction false} AssignUserRolesReplaces(cfg: Config, st: State, user: string, roles: seq<string>)
    ensures var r, k := AssignUserRoles(cfg, st, user, roles), FirstInvalid(roles);
            && (r.ok <==> user != "" && k == |roles|)
            && (user == "" ==> r.state == st)
            && (user != "" ==>
                  Holds(r.state, user, set x | x in roles[..k] && x != "") && OthersKept(st, r.state, user) && ProjectsKept(st, r.state))
            && (user != "" && !r.ok ==> SavedFor(r.state, user) == SavedFor(st, user) && r.state.cache == st.cache)
            && (r.ok ==> SavedFor(r.state, user)
                         == (if !cfg.hasRoleStore then SavedFor(st, user)
                             else if roles == [] then None else Some(set x | x in roles)))
            && (r.ok ==> forall key :: key in r.state.cache <==>
                         key in st.cache && !(cfg.cached && HasPrefix(key, user + [NUL])))
  {
    AcceptedAreFirst(roles);
    SavedRoles(st.persisted, user, roles, set x | x in roles);
  }

  lemma {:induction false} SavedRoles(persisted: map<string, set<string>>, user: string, roles: seq<string>, all: set<string>)
    requires forall x :: x in all <==> x in roles
    ensures var saved := Save(persisted, user, all);
            if roles == [] then user !in saved else user in saved && saved[user] == all
  {
    assert roles != [] ==> roles[0] in all;
  }

  /** Restoring adds exactly the well-formed roles that Redis holds for named users, and removes nothing. */
  lemma {:induction false} RestoreBindsExactly(cfg: Config, st: State)
    ensures var r := RestorePersistedRoles(cfg, st);
            && r.ok && ProjectsKept(st, r.state) && r.state.persisted == st.persisted
            && forall e: Grouping :: e in r.state.store.groupings <==>
                 || e in st.store.groupings
                 || (cfg.hasRoleStore && e.user != "" && e.user in st.persisted && e.role in st.persisted[e.user]
                     && e.role != "" && IsValidRoleFormat(e.role))
  {
    if cfg.hasRoleStore {
      RestoreAdds(cfg, st);
    }
  }

  /** What is assigned comes back: erase Casbin, restore, and the user has the assigned roles again. */
  lemma {:induction false} AssignedIsRestored(cfg: Config, st: State, user: string, roles: seq<string>)
    requires cfg.hasRoleStore && AssignUserRoles(cfg, st, user, roles).ok
    ensures var saved := AssignUserRoles(cfg, st, user, roles).state;
            Holds(RestorePersistedRoles(cfg, Fresh(saved.persisted)).state, user, set x | x in roles && x != "")
  {
    var saved := AssignUserRoles(cfg, st, user, roles).state;
    AssignUserRolesReplaces(cfg, st, user, roles);
    RestoreBindsExactly(cfg, Fresh(saved.persisted));
    assert forall i | 0 <= i < |roles| :: roles[i] == "" || IsValidRoleFormat(roles[i]);
    assert SavedFor(saved, user) == if roles == [] then None else Some(set x | x in roles);
  }

  // ---- project operations ----

  /** A load succeeds exactly when the project has a name and all its rules compile; only then is it marked and
      the cache cleared. */
  lemma {:induction false} LoadOutcome(cfg: Config, st: State, project: Project)
    ensures var r := LoadProject(cfg, st, project);
            && (r.ok <==> LoadSucceeds(project))
            && r.state.loaded == (if r.ok then st.loaded + {project.name} else st.loaded)
            && r.state.cache == (if r.ok && cfg.cached then map[] else st.cache)
            && r.state.persisted == st.persisted
  {
  }

  lemma {:induction false} RemoveOutcome(cfg: Config, st: State, name: string)
    ensures var r := RemoveProject(cfg, st, name);
            && (r.ok <==> name != "")
            && (!r.ok ==> r.state == st)
            && (r.ok ==> r.state.loaded == st.loaded - {name} && r.state.cache == (if cfg.cached then map[] else st.cache))
            && r.state.persisted == st.persisted
            && (r.ok ==> forall p :: p in r.state.store.policies <==> p in st.store.policies && !IsProjectRole(name, p.sub))
            && (r.ok ==> forall e :: e in r.state.store.groupings <==>
                                     e in st.store.groupings && !(IsProjectRole(name, e.role) && HasPrefix(e.user, "group:")))
  {
  }

  lemma {:induction false} SyncLoadsOk(st: State, projects: seq<Project>)
    ensures SyncLoads(st, projects).ok <==> forall p | p in projects :: LoadSucceeds(p)
    decreases |projects|
  {
    if projects != [] {
      SyncLoadsOk(st, projects[..|projects| - 1]);
      LastLoadOk(st, projects);
      AllLast(projects);
    }
  }

  lemma {:induction false} LastLoadOk(st: State, projects: seq<Project>)
    requires projects != []
    ensures var n := |projects| - 1;
            SyncLoads(st, projects).ok <==> SyncLoads(st, projects[..n]).ok && LoadSucceeds(projects[n])
  {
  }

  lemma {:induction false} AllLast(projects: seq<Project>)
    requires projects != []
    ensures var n := |projects| - 1;
            (forall p | p in projects :: LoadSucceeds(p)) <==> (forall p | p in projects[..n] :: LoadSucceeds(p)) && LoadSucceeds(projects[n])
  {
    assert projects == projects[..|projects| - 1] + [projects[|projects| - 1]];
  }

  /** A sync reports success exactly when every listed project loads; it clears the cache either way. */
  lemma {:induction false} SyncOutcome(cfg: Config, st: State, projects: seq<Project>)
    ensures var r := SyncProjects(cfg, st, projects);
            && (r.ok <==> forall p | p in projects :: LoadSucceeds(p))
            && r.state.cache == (if cfg.cached then map[] else st.cache)
            && r.state.persisted == st.persisted
  {
    SyncLoadsOk(st, projects);
  }

  // ---- decisions ----

  /** An entry is served through its expiry instant and not after it. */
  lemma {:induction false} StoredIsServed(data: map<string, CacheEntry>, key: string, allowed: bool, ttl: int, at: int, now: int)
    requires ttl > 0 && at <= now
    ensures Lookup(AfterSet(data, key, allowed, ttl, at), key, now) == if now <= at + ttl then Some(allowed) else None
    ensures forall other | other != key :: Lookup(AfterSet(data, key, allowed, ttl, at), other, now) == Lookup(data, other, now)
  {
  }

  /** A decision evaluated now is answered from the cache for one time-to-live, even if the store changes. */
  lemma {:induction false} DecisionIsRemembered(cfg: Config, st: State, sub: string, obj: string, act: string, at: int, other: Store, now: int)
    requires cfg.cached && cfg.ttl > 0 && Lookup(st.cache, CacheKey(sub, obj, act), at) == None && at <= now <= at + cfg.ttl
    ensures var first := Decide(cfg, st, sub, obj, act, at);
            && first.0 == Enforce(st.store, sub, obj, act)
            && Decide(cfg, st.(cache := first.1, store := other), sub, obj, act, now).0 == first.0
  {
    StoredIsServed(AfterLookup(st.cache, CacheKey(sub, obj, act), at), CacheKey(sub, obj, act),
                   Enforce(st.store, sub, obj, act), cfg.ttl, at, now);
  }

  /** A request without a user, object or action is an error and changes nothing. */
  lemma {:induction false} RequestOutcome(cfg: Config, st: State, user: string, obj: string, act: string, now: int)
    ensures var r := CanAccess(cfg, st, user, obj, act, now);
            && (r.ok <==> user != "" && obj != "" && act != "")
            && (!r.ok ==> r.state == st)
            && r.state.store == st.store && r.state.loaded == st.loaded && r.state.persisted == st.persisted
  {
  }
}
