/** The decision cache agrees with the enforcer over every sequential run of successful operations. */
module Coherence {
  import opened Text
  import opened Wrappers
  import opened Subjects
  import opened Casbin
  import opened Policies
  import opened AuthzCache
  import opened RbacState
  import opened Rebuild
  import opened Restart

  ghost predicate Agrees(cache: map<string, CacheEntry>, store: Store, user: string, obj: string, act: string) {
    CacheKey(user, obj, act) in cache ==> cache[CacheKey(user, obj, act)].allowed == Enforce(store, user, obj, act)
  }

  /** Every entry of a NUL-free request is what Enforce answers now. */
  ghost predicate Coherent(cache: map<string, CacheEntry>, store: Store) {
    forall user, obj, act | Clean(user, obj, act) :: Agrees(cache, store, user, obj, act)
  }

  lemma {:induction false} FewerEntriesStayCoherent(cache: map<string, CacheEntry>, fewer: map<string, CacheEntry>, store: Store)
    requires Coherent(cache, store) && forall k | k in fewer :: k in cache && fewer[k] == cache[k]
    ensures Coherent(fewer, store)
  {
    forall user, obj, act | Clean(user, obj, act)
      ensures Agrees(fewer, store, user, obj, act)
    {
      assert Agrees(cache, store, user, obj, act);
    }
  }

  /** Caching what Enforce says keeps the cache coherent, whatever bytes the request holds. */
  lemma {:induction false} SetStaysCoherent(cache: map<string, CacheEntry>, store: Store, user: string, obj: string, act: string, ttl: int, now: int)
    requires Coherent(cache, store)
    ensures Coherent(AfterSet(cache, CacheKey(user, obj, act), Enforce(store, user, obj, act), ttl, now), store)
  {
    var next := AfterSet(cache, CacheKey(user, obj, act), Enforce(store, user, obj, act), ttl, now);
    forall u, o, a | Clean(u, o, a)
      ensures Agrees(next, store, u, o, a)
    {
      assert Agrees(cache, store, u, o, a);
      if CacheKey(u, o, a) == CacheKey(user, obj, act) {
        CleanKeyIsUnique(u, o, a, user, obj, act);
      }
    }
  }

  /** A decision taken through a coherent cache is the enforcer's decision, and leaves the cache coherent. */
  lemma {:induction false} DecideIsEnforce(cfg: Config, st: State, sub: string, obj: string, act: string, now: int)
    requires Coherent(st.cache, st.store)
    ensures Coherent(Decide(cfg, st, sub, obj, act, now).1, st.store)
    ensures Clean(sub, obj, act) ==> Decide(cfg, st, sub, obj, act, now).0 == Enforce(st.store, sub, obj, act)
  {
    var left := AfterLookup(st.cache, CacheKey(sub, obj, act), now);
    FewerEntriesStayCoherent(st.cache, left, st.store);
    SetStaysCoherent(left, st.store, sub, obj, act, cfg.ttl, now);
    if Clean(sub, obj, act) {
      assert Agrees(st.cache, st.store, sub, obj, act);
    }
  }

  // ---- targeted invalidation ----

  /** Nobody else has the subject as a role. */
  predicate NobodysRole(g: set<Grouping>, user: string) {
    forall e | e in g && e.role == user :: e.user == user
  }

  lemma {:induction false} NobodyReaches(g: set<Grouping>, user: string, x: string)
    requires NobodysRole(g, user) && x != user
    ensures user !in Reach(g, x)
  {
    ClosureIsLeast(g, {x});
    assert Closed(g, Reach(g, x) - {user});
  }

  /** Replacing a user's roles and dropping only that user's entries keeps the cache coherent. */
  lemma {:induction false} AssignStaysCoherent(cache: map<string, CacheEntry>, store: Store, user: string, roles: seq<string>)
    requires Coherent(cache, store) && NobodysRole(store.groupings, user)
    ensures Coherent(WithoutPrefix(cache, user + [NUL]), AssignStore(store, user, roles))
  {
    var left, next := WithoutPrefix(cache, user + [NUL]), AssignStore(store, user, roles);
    forall u, o, a | Clean(u, o, a)
      ensures Agrees(left, next, u, o, a)
    {
      if u == user {
        assert CacheKey(u, o, a) == user + [NUL] + (o + [NUL] + a);
      } else {
        NobodyReaches(store.groupings, user, u);
        ReachIgnores(store.groupings, next.groupings, u, user);
        assert Agrees(cache, store, u, o, a);
      }
    }
  }

  lemma {:induction false} FreshRole(taken: set<string>, pad: string) returns (role: string)
    requires Free(pad, NUL)
    ensures role !in taken && Free(role, NUL) && |role| > |pad| + 5 && HasPrefix(role, "role:")
    decreases taken
  {
    role := "role:" + pad + "x";
    if role in taken {
      var candidate := role;
      role := FreshRole(taken - {candidate}, pad + "x");
    }
  }

  /** Someone who has the user as a role keeps a stale answer. */
  lemma {:induction false} SharedRoleGoesStale(g: set<Grouping>, user: string, other: string)
    returns (policies: set<Policy>, cache: map<string, CacheEntry>, roles: seq<string>)
    requires Free(user, NUL) && Free(other, NUL) && other != user && Grouping(other, user) in g
    ensures RolesValid(roles) && Coherent(cache, Store(policies, g))
    ensures !Coherent(WithoutPrefix(cache, user + [NUL]), AssignStore(Store(policies, g), user, roles))
  {
    var role := FreshRole(Reach(g, other), "");
    policies := {Policy(role, "*", "*", "allow")};
    roles := [role];
    var key := CacheKey(other, "o", "a");
    cache := map[key := CacheEntry(false, 0)];
    var before, after := Store(policies, g), AssignStore(Store(policies, g), user, roles);
    forall u, o, a | Clean(u, o, a)
      ensures Agrees(cache, before, u, o, a)
    {
      if CacheKey(u, o, a) == key {
        CleanKeyIsUnique(u, o, a, other, "o", "a");
      }
    }
    PrefixSelectsUser(other, "o", "a", user);
    NowReached(after.groupings, other, user, role);
    KeyMatchMeaning("o", "", "");
    KeyMatchMeaning("a", "", "");
    assert "" + "*" + "" == "*";
    assert Applies(Policy(role, "*", "*", "allow"), Reach(after.groupings, other), "o", "a");
    assert Enforce(after, other, "o", "a");
    assert key in WithoutPrefix(cache, user + [NUL]);
    assert !Agrees(WithoutPrefix(cache, user + [NUL]), after, other, "o", "a");
  }

  lemma {:induction false} NowReached(g: set<Grouping>, x: string, y: string, z: string)
    requires Grouping(x, y) in g && Grouping(y, z) in g
    ensures z in Reach(g, x)
  {
    ClosureIsLeast(g, {x});
    assert y in Reach(g, x);
  }

  ghost predicate AssignSafe(g: set<Grouping>, user: string, policies: set<Policy>, cache: map<string, CacheEntry>, roles: seq<string>) {
    RolesValid(roles) && Coherent(cache, Store(policies, g))
    ==> Coherent(WithoutPrefix(cache, user + [NUL]), AssignStore(Store(policies, g), user, roles))
  }

  /** Dropping only the user's own entries is enough, for all policies, caches and role lists, exactly
      when no other subject has that user as a role. */
  lemma {:induction false} TargetedInvalidationExactly(g: set<Grouping>, user: string)
    requires Free(user, NUL) && forall e | e in g :: Free(e.user, NUL)
    ensures (forall policies, cache, roles :: AssignSafe(g, user, policies, cache, roles)) <==> NobodysRole(g, user)
  {
    if NobodysRole(g, user) {
      forall policies, cache, roles
        ensures AssignSafe(g, user, policies, cache, roles)
      {
        if Coherent(cache, Store(policies, g)) {
          AssignStaysCoherent(cache, Store(policies, g), user, roles);
        }
      }
    } else {
      var e :| e in g && e.role == user && e.user != user;
      assert e == Grouping(e.user, user);
      var policies, cache, roles := SharedRoleGoesStale(g, user, e.user);
      assert !AssignSafe(g, user, policies, cache, roles);
    }
  }

  // ---- runs ----

  /** Roles look like roles and users do not: the two name spaces stay apart. */
  ghost predicate Kinded(g: set<Grouping>) {
    forall e | e in g :: IsValidRoleFormat(e.role) && !IsValidRoleFormat(e.user)
  }

  predicate PlainBindings(project: Project) {
    forall b | b in project.bindings :: b.isGroup || !IsValidRoleFormat(b.subject)
  }

  /** The event binds only users whose name is not itself a role name. */
  predicate PlainUsers(e: Event) {
    match e
    case Assign(user, _) => !IsValidRoleFormat(user)
    case Load(project) => PlainBindings(project)
    case Sync(projects) => forall p | p in projects :: PlainBindings(p)
    case _ => true
  }

  predicate PlainKeys(persisted: map<string, set<string>>) {
    forall u | u in persisted :: !IsValidRoleFormat(u)
  }

  lemma {:induction false} GroupIsNoRole(subject: string)
    requires IsGroup(subject)
    ensures !IsValidRoleFormat(subject)
  {
    assert subject[0] == 'g' && "role:"[0] == 'r' && "proj:"[0] == 'p';
  }

  lemma {:induction false} OwnRoleIsRole(project: string, subject: string)
    requires OwnRole(project, subject)
    ensures IsValidRoleFormat(subject)
  {
    var role :| FormatProjectRole(project, role) == Some(subject);
    FormattedSplits(project, role);
  }

  lemma {:induction false} CompiledIsKinded(project: Project)
    requires PlainBindings(project)
    ensures Kinded(Compile(project).groupings)
  {
    CompileOwned(project);
    RolesBindOnlyGroups(project.name, project.roles);
    var roles := CompileRoles(project.name, project.roles);
    forall e | e in Compile(project).groupings
      ensures IsValidRoleFormat(e.role) && !IsValidRoleFormat(e.user)
    {
      OwnRoleIsRole(project.name, e.role);
      if e in roles.groupings {
        assert e !in UserPart(roles.groupings);
        GroupIsNoRole(e.user);
      } else {
        var b :| b in project.bindings && e in BindingTuple(project.name, b);
        BindingIsPlain(project.name, b, e);
      }
    }
  }

  lemma {:induction false} BindingIsPlain(project: string, b: Binding, e: Grouping)
    requires e in BindingTuple(project, b) && (b.isGroup || !IsValidRoleFormat(b.subject))
    ensures !IsValidRoleFormat(e.user)
  {
    if b.isGroup {
      assert IsGroup(e.user);
      GroupIsNoRole(e.user);
    }
  }

  lemma {:induction false} LoadIsKinded(store: Store, project: Project)
    requires Kinded(store.groupings) && PlainBindings(project)
    ensures Kinded(LoadStore(store, project).groupings)
  {
    CompiledIsKinded(project);
  }

  lemma {:induction false} SyncIsKinded(st: State, projects: seq<Project>)
    requires Kinded(st.store.groupings) && forall p | p in projects :: PlainBindings(p)
    ensures Kinded(SyncLoads(st, projects).store.groupings)
    decreases |projects|
  {
    if |projects| > 0 {
      var n := |projects| - 1;
      SyncIsKinded(st, projects[..n]);
      LoadIsKinded(SyncLoads(st, projects[..n]).store, projects[n]);
    }
  }

  lemma {:induction false} AcceptedAreRoles(roles: seq<string>)
    ensures forall r | r in Accepted(roles) :: IsValidRoleFormat(r)
  {
    if |roles| > 0 {
      AcceptedAreRoles(roles[1..]);
    }
  }

  lemma {:induction false} StepStaysKinded(cfg: Config, st: State, e: Event)
    requires Kinded(st.store.groupings) && PlainKeys(st.persisted) && PlainUsers(e)
    requires (e.DropAll? || e.Drop?) ==> !IsValidRoleFormat(e.user)
    ensures var next := Step(cfg, st, e).state; Kinded(next.store.groupings) && PlainKeys(next.persisted)
  {
    match e
    case Load(project) => LoadIsKinded(st.store, project);
    case Sync(projects) => SyncIsKinded(st, projects);
    case Assign(user, roles) => AcceptedAreRoles(roles);
    case _ =>
  }

  /** The cache is coherent, and empty if there is none. */
  ghost predicate CacheSound(cfg: Config, st: State) {
    Coherent(st.cache, st.store) && (!cfg.cached ==> st.cache == map[])
  }

  lemma {:induction false} StepStaysCoherent(cfg: Config, st: State, e: Event)
    requires CacheSound(cfg, st) && Kinded(st.store.groupings) && PlainUsers(e) && Step(cfg, st, e).ok
    ensures CacheSound(cfg, Step(cfg, st, e).state)
  {
    match e
    case Assign(user, roles) =>
      assert NobodysRole(st.store.groupings, user);
      AssignStaysCoherent(st.cache, st.store, user, roles);
    case Ask(user, obj, act, now) =>
      DecideIsEnforce(cfg, st, user, obj, act, now);
    case Cleanup(now) =>
      FewerEntriesStayCoherent(st.cache, WithoutExpired(st.cache, now), st.store);
    case _ =>
  }

  /** Over every run of successful operations on plain users, each cached decision is the decision
      the enforcer would take now; so the last answer given is right, too. */
  lemma {:induction false} RunStaysCoherent(cfg: Config, persisted: map<string, set<string>>, events: seq<Event>)
    requires PlainKeys(persisted) && Succeeds(cfg, Fresh(persisted), events)
    requires forall e | e in events :: PlainUsers(e) && ((e.DropAll? || e.Drop?) ==> !IsValidRoleFormat(e.user))
    ensures var st := Run(cfg, Fresh(persisted), events);
            CacheSound(cfg, st) && Kinded(st.store.groupings) && PlainKeys(st.persisted)
    decreases |events|
  {
    if |events| > 0 {
      var n := |events| - 1;
      RunStaysCoherent(cfg, persisted, events[..n]);
      var st := Run(cfg, Fresh(persisted), events[..n]);
      StepStaysKinded(cfg, st, events[n]);
      StepStaysCoherent(cfg, st, events[n]);
    }
  }
}
