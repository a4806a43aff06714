/** What each operation of the policy enforcer does to the whole RBAC state: the Casbin store, the
    set of loaded projects, the decision cache and the role sets persisted in Redis. The class in
    PolicyEnforcer.dfy is proved against these functions; runs of them are studied in the modules
    Rebuild, Restart and Coherence. */
module RbacState {
  import opened Text
  import opened Wrappers
  import opened Subjects
  import opened Casbin
  import opened Policies
  import opened AuthzCache

  /** `cached` and `hasRoleStore` say whether the optional parts are configured. `emptyReadIsNil` is
      whether Casbin reports "no roles left" as a nil slice, which the sources alone do not tell. */
  datatype Config = Config(cached: bool, ttl: int, hasRoleStore: bool, emptyReadIsNil: bool)

  datatype State = State(store: Store, loaded: set<string>, cache: map<string, CacheEntry>, persisted: map<string, set<string>>)

  /** The state after an operation, and whether it returned without an error. */
  datatype Outcome = Outcome(state: State, ok: bool)

  function Browse(role: string, category: string): (policies: set<Policy>)
    ensures forall p | p in policies :: p.sub == role && p.eft == "allow"
  {
    { Policy(role, "rgds/" + category + "/*", "get", "allow"), Policy(role, "rgds/" + category + "/*", "list", "allow") }
  }

  const SERVER_ADMIN_OBJECTS := {
    "*", "projects/*", "rgds/*", "instances/*", "users/*", "applications/*", "repositories/*", "namespaces/*",
    "settings/*", "compliance/*", "secrets/*"
  }

  /** loadBuiltinPoliciesLocked. */
  function BuiltIn(): (policies: set<Policy>)
    ensures forall p | p in policies :: p.sub in {"role:serveradmin", "role:operator", "role:developer"} && p.eft == "allow"
  {
    (set obj | obj in SERVER_ADMIN_OBJECTS :: Policy("role:serveradmin", obj, "*", "allow"))
    + Browse("role:operator", "infrastructure") + Browse("role:operator", "networking") + Browse("role:operator", "storage")
    + Browse("role:developer", "applications") + Browse("role:developer", "observability")
  }

  function Fresh(persisted: map<string, set<string>>): State {
    State(Store(BuiltIn(), {}), {}, map[], persisted)
  }

  // ---- loading, removing and syncing projects ----

  predicate OfAny(names: set<string>, subject: string) {
    exists name | name in names :: IsProjectRole(name, subject)
  }

  predicate IsGroup(subject: string) {
    HasPrefix(subject, "group:")
  }

  /** removeProjectPoliciesLocked, for each of `names`: the projects' policies go, and so do their
      group mappings; mappings of users stay. */
  function RemoveProjects(store: Store, names: set<string>): (left: Store) {
    Store(set p | p in store.policies && !OfAny(names, p.sub),
          set e | e in store.groupings && !(OfAny(names, e.role) && IsGroup(e.user)))
  }

  function AddCompiled(store: Store, c: Compiled): (more: Store) {
    Store(store.policies + c.policies, store.groupings + c.groupings)
  }

  function LoadStore(store: Store, project: Project): (next: Store) {
    AddCompiled(RemoveProjects(store, {project.name}), Compile(project))
  }

  function ClearCache(cfg: Config, cache: map<string, CacheEntry>): map<string, CacheEntry> {
    if cfg.cached then map[] else cache
  }

  function LoadProject(cfg: Config, st: State, project: Project): (r: Outcome) {
    if project.name == "" then Outcome(st, false)
    else
      var store := LoadStore(st.store, project);
      if Compile(project).failed then Outcome(st.(store := store), false)
      else Outcome(st.(store := store, loaded := st.loaded + {project.name}, cache := ClearCache(cfg, st.cache)), true)
  }

  function RemoveProject(cfg: Config, st: State, name: string): (r: Outcome) {
    if name == "" then Outcome(st, false)
    else Outcome(st.(store := RemoveProjects(st.store, {name}), loaded := st.loaded - {name}, cache := ClearCache(cfg, st.cache)), true)
  }

  datatype Synced = Synced(store: Store, loaded: set<string>, ok: bool)

  /** The loads of a sync, in list order; errors are collected and the sync goes on. */
  function SyncLoads(st: State, projects: seq<Project>): (s: Synced)
    decreases |projects|
  {
    if |projects| == 0 then Synced(st.store, st.loaded, true)
    else
      var n := |projects| - 1;
      var s := SyncLoads(st, projects[..n]);
      if projects[n].name == "" then s.(ok := false)
      else if Compile(projects[n]).failed then s.(store := LoadStore(s.store, projects[n]), ok := false)
      else s.(store := LoadStore(s.store, projects[n]), loaded := s.loaded + {projects[n].name})
  }

  function Names(projects: seq<Project>): (names: set<string>) {
    set p | p in projects :: p.name
  }

  function SyncProjects(cfg: Config, st: State, projects: seq<Project>): (r: Outcome) {
    var s := SyncLoads(st, projects);
    var stale := s.loaded - Names(projects);
    Outcome(st.(store := RemoveProjects(s.store, stale), loaded := s.loaded - stale, cache := ClearCache(cfg, st.cache)), s.ok)
  }

  // ---- user roles ----

  predicate RolesValid(roles: seq<string>) {
    forall r | r in roles :: r == "" || IsValidRoleFormat(r)
  }

  /** The roles an assignment adds: the non-empty ones, up to the first invalid one. */
  function Accepted(roles: seq<string>): (accepted: set<string>)
    ensures RolesValid(roles) ==> accepted == set r | r in roles && r != ""
  {
    if |roles| == 0 then {}
    else if roles[0] == "" then Accepted(roles[1..])
    else if !IsValidRoleFormat(roles[0]) then {}
    else {roles[0]} + Accepted(roles[1..])
  }

  function Bind(user: string, roles: set<string>): set<Grouping> {
    set r | r in roles :: Grouping(user, r)
  }

  function Unbind(g: set<Grouping>, user: string): set<Grouping> {
    set e | e in g && e.user != user
  }

  function AssignStore(store: Store, user: string, roles: seq<string>): Store {
    store.(groupings := Unbind(store.groupings, user) + Bind(user, Accepted(roles)))
  }

  /** SaveUserRoles: the set replaces the old one; an empty set deletes the key. */
  function Save(persisted: map<string, set<string>>, user: string, roles: set<string>): map<string, set<string>> {
    if roles == {} then persisted - {user} else persisted[user := roles]
  }

  function SaveIfStored(cfg: Config, persisted: map<string, set<string>>, user: string, roles: set<string>): map<string, set<string>> {
    if cfg.hasRoleStore then Save(persisted, user, roles) else persisted
  }

  function AssignUserRoles(cfg: Config, st: State, user: string, roles: seq<string>): (r: Outcome) {
    if user == "" then Outcome(st, false)
    else
      var store := AssignStore(st.store, user, roles);
      if !RolesValid(roles) then Outcome(st.(store := store), false)
      else
        Outcome(st.(store := store,
                    persisted := SaveIfStored(cfg, st.persisted, user, set r | r in roles),
                    cache := if cfg.cached then WithoutPrefix(st.cache, user + [NUL]) else st.cache), true)
  }

  function RemoveUserRoles(cfg: Config, st: State, user: string): (r: Outcome) {
    if user == "" then Outcome(st, false)
    else
      Outcome(st.(store := st.store.(groupings := Unbind(st.store.groupings, user)),
                  persisted := SaveIfStored(cfg, st.persisted, user, {}),
                  cache := ClearCache(cfg, st.cache)), true)
  }

  function RemoveUserRole(cfg: Config, st: State, user: string, role: string): (r: Outcome) {
    if user == "" || role == "" then Outcome(st, false)
    else
      var groupings := st.store.groupings - {Grouping(user, role)};
      var remaining := RolesOf(groupings, user);
      Outcome(st.(store := st.store.(groupings := groupings),
                  persisted := if remaining == {} && cfg.emptyReadIsNil then st.persisted
                               else SaveIfStored(cfg, st.persisted, user, remaining),
                  cache := ClearCache(cfg, st.cache)), true)
  }

  /** LoadAllUserRoles: keys with an empty user or an empty set are not reported. */
  function Loadable(persisted: map<string, set<string>>): (users: map<string, set<string>>) {
    map u | u in persisted && u != "" && persisted[u] != {} :: persisted[u]
  }

  function Restored(persisted: map<string, set<string>>): (g: set<Grouping>) {
    set u, r | u in persisted && u != "" && r in persisted[u] && r != "" && IsValidRoleFormat(r) :: Grouping(u, r)
  }

  function RestorePersistedRoles(cfg: Config, st: State): (r: Outcome) {
    if !cfg.hasRoleStore || Loadable(st.persisted) == map[] then Outcome(st, true)
    else
      Outcome(st.(store := st.store.(groupings := st.store.groupings + Restored(st.persisted)), cache := ClearCache(cfg, st.cache)), true)
  }

  // ---- decisions ----

  /** One cached decision, as in CanAccess after its argument checks. */
  function Decide(cfg: Config, st: State, sub: string, obj: string, act: string, now: int): (r: (bool, map<string, CacheEntry>)) {
    var key := CacheKey(sub, obj, act);
    if !cfg.cached then (Enforce(st.store, sub, obj, act), st.cache)
    else
      var left := AfterLookup(st.cache, key, now);
      match Lookup(st.cache, key, now)
      case Some(allowed) => (allowed, left)
      case None =>
        var allowed := Enforce(st.store, sub, obj, act);
        (allowed, AfterSet(left, key, allowed, cfg.ttl, now))
  }

  function CanAccess(cfg: Config, st: State, user: string, obj: string, act: string, now: int): (r: Outcome) {
    if user == "" || obj == "" || act == "" then Outcome(st, false)
    else Outcome(st.(cache := Decide(cfg, st, user, obj, act, now).1), true)
  }

  // ---- runs ----

  datatype Event =
    | Load(project: Project)
    | Remove(name: string)
    | Sync(projects: seq<Project>)
    | Assign(user: string, roles: seq<string>)
    | DropAll(user: string)
    | Drop(user: string, role: string)
    | Restore
    | Ask(user: string, obj: string, act: string, now: int)
    | Cleanup(now: int)

  function Step(cfg: Config, st: State, e: Event): (r: Outcome) {
    match e
    case Load(project) => LoadProject(cfg, st, project)
    case Remove(name) => RemoveProject(cfg, st, name)
    case Sync(projects) => SyncProjects(cfg, st, projects)
    case Assign(user, roles) => AssignUserRoles(cfg, st, user, roles)
    case DropAll(user) => RemoveUserRoles(cfg, st, user)
    case Drop(user, role) => RemoveUserRole(cfg, st, user, role)
    case Restore => RestorePersistedRoles(cfg, st)
    case Ask(user, obj, act, now) => CanAccess(cfg, st, user, obj, act, now)
    case Cleanup(now) => Outcome(st.(cache := WithoutExpired(st.cache, now)), true)
  }

  function Run(cfg: Config, st: State, events: seq<Event>): (final: State)
    decreases |events|
  {
    if |events| == 0 then st
    else Step(cfg, Run(cfg, st, events[..|events| - 1]), events[|events| - 1]).state
  }

  /** Every operation of the run returned without an error. */
  predicate Succeeds(cfg: Config, st: State, events: seq<Event>)
    decreases |events|
  {
    |events| == 0
    || (var n := |events| - 1;
        Succeeds(cfg, st, events[..n]) && Step(cfg, Run(cfg, st, events[..n]), events[n]).ok)
  }
}
