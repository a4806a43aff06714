/** Restarting the server: policies come back from the projects, user roles from Redis. */
module Restart {
  import opened Text
  import opened Subjects
  import opened Casbin
  import opened Policies
  import opened RbacState
  import opened Rebuild

  /** No annotation of the project binds a user (annotations may bind groups). */
  predicate NoUserBindings(project: Project) {
    forall b | b in project.bindings :: b.isGroup || IsGroup(b.subject)
  }

  predicate ProjectsBindNoUsers(e: Event) {
    match e
    case Load(project) => NoUserBindings(project)
    case Sync(projects) => forall p | p in projects :: NoUserBindings(p)
    case _ => true
  }

  lemma {:induction false} RolesBindOnlyGroups(project: string, roles: seq<Role>)
    ensures UserPart(CompileRoles(project, roles).groupings) == {}
    decreases |roles|
  {
    if |roles| > 0 {
      var n := |roles| - 1;
      RolesBindOnlyGroups(project, roles[..n]);
      RoleBindsOnlyGroups(project, roles[n]);
      assert UserPart(CompileRoles(project, roles).groupings)
          <= UserPart(CompileRoles(project, roles[..n]).groupings) + UserPart(CompileRole(project, roles[n]).groupings);
    }
  }

  lemma {:induction false} RulesBindNobody(project: string, role: string, texts: seq<string>, destinations: seq<string>)
    ensures AddScopedRules(project, role, texts, destinations).groupings == {}
    ensures AddBuiltInRules(role, texts, destinations, project).groupings == {}
    decreases |texts|
  {
    if |texts| > 0 {
      var n := |texts| - 1;
      RulesBindNobody(project, role, texts[..n], destinations);
      BuiltInBindsNobody(project, role, texts[n], destinations);
    }
  }

  lemma {:induction false} BuiltInBindsNobody(project: string, role: string, text: string, destinations: seq<string>)
    ensures AddBuiltInRule(role, text, destinations, project).groupings == {}
  {
    var parts := TrimmedParts(TrimSpace(text));
    if |parts| == 3 {
      DestinationsBindNobody(role, "instances", project, destinations, parts[1], parts[2]);
      DestinationsBindNobody(role, "secrets", project, destinations, parts[1], parts[2]);
    }
  }

  lemma {:induction false} DestinationsBindNobody(role: string, res: string, project: string, destinations: seq<string>, act: string, eft: string)
    ensures AddDestinationRules(role, res, project, destinations, act, eft).groupings == {}
    decreases |destinations|
  {
    if |destinations| > 0 {
      DestinationsBindNobody(role, res, project, destinations[..|destinations| - 1], act, eft);
    }
  }

  lemma {:induction false} RoleBindsOnlyGroups(project: string, role: Role)
    ensures UserPart(CompileRole(project, role).groupings) == {}
  {
    var formatted := FormatProjectRole(project, role.name);
    if role.name != "" && formatted.Some? {
      RulesBindNobody(project, formatted.value, role.policies, role.destinations);
      RulesBindNobody(project, formatted.value, BuiltInAdminPolicies(project), role.destinations);
      RulesBindNobody(project, formatted.value, BuiltInReadonlyPolicies(project), role.destinations);
      assert CompileRole(project, role).groupings <= GroupBindings(formatted.value, role.groups);
    }
  }

  lemma {:induction false} ProjectBindsOnlyGroups(project: Project)
    requires NoUserBindings(project)
    ensures UserPart(Compile(project).groupings) == {}
  {
    RolesBindOnlyGroups(project.name, project.roles);
    assert UserPart(BindingTuples(project.name, project.bindings)) == {};
    assert UserPart(Compile(project).groupings)
        <= UserPart(CompileRoles(project.name, project.roles).groupings) + UserPart(BindingTuples(project.name, project.bindings));
  }

  lemma {:induction false} SyncKeepsUsers(st: State, projects: seq<Project>)
    requires forall p | p in projects :: NoUserBindings(p)
    ensures UserPart(SyncLoads(st, projects).store.groupings) == UserPart(st.store.groupings)
    decreases |projects|
  {
    if |projects| > 0 {
      var n := |projects| - 1;
      SyncKeepsUsers(st, projects[..n]);
      ProjectBindsOnlyGroups(projects[n]);
      UsersSurviveLoad(SyncLoads(st, projects[..n]).store, projects[n]);
    }
  }

  /** Loads, removals and syncs leave the users' roles exactly as they were. */
  lemma {:induction false} ProjectEventKeepsUsers(cfg: Config, st: State, e: Event)
    requires (e.Load? || e.Remove? || e.Sync?) && ProjectsBindNoUsers(e)
    ensures var next := Step(cfg, st, e).state;
            UserPart(next.store.groupings) == UserPart(st.store.groupings) && next.persisted == st.persisted
  {
    match e
    case Load(project) =>
      ProjectBindsOnlyGroups(project);
      UsersSurviveLoad(st.store, project);
    case Remove(name) =>
      UsersSurviveRemove(st.store, {name});
    case Sync(projects) =>
      SyncKeepsUsers(st, projects);
      var s := SyncLoads(st, projects);
      UsersSurviveRemove(s.store, s.loaded - Names(projects));
  }

  /** Redis holds exactly the users' roles. */
  ghost predicate Linked(st: State) {
    NoGroupKeys(st.persisted) && UserPart(st.store.groupings) == Restored(st.persisted)
  }

  lemma {:induction false} AssignStaysLinked(cfg: Config, st: State, user: string, roles: seq<string>)
    requires Linked(st) && cfg.hasRoleStore && !IsGroup(user) && user != "" && RolesValid(roles)
    ensures Linked(AssignUserRoles(cfg, st, user, roles).state)
  {
    var next := AssignUserRoles(cfg, st, user, roles).state;
    SavedIsRestored(st.persisted, user, set r | r in roles);
    assert UserPart(next.store.groupings) == Unbind(UserPart(st.store.groupings), user) + Bind(user, Accepted(roles));
  }

  /** What a save makes restorable: the other users' roles as before, and this user's valid ones. */
  lemma {:induction false} SavedIsRestored(persisted: map<string, set<string>>, user: string, roles: set<string>)
    requires user != "" && forall r | r in roles :: r == "" || IsValidRoleFormat(r)
    ensures Restored(Save(persisted, user, roles)) == Unbind(Restored(persisted), user) + Bind(user, roles - {""})
  {
    var saved := Save(persisted, user, roles);
    forall e | e in Unbind(Restored(persisted), user) ensures e in Restored(saved) {
      assert saved[e.user] == persisted[e.user];
    }
    forall e | e in Bind(user, roles - {""}) ensures e in Restored(saved) {
      assert saved[user] == roles;
    }
    forall e | e in Restored(saved) && e.user != user ensures e in Restored(persisted) {
      assert saved[e.user] == persisted[e.user];
    }
  }

  lemma {:induction false} RemoveRolesStaysLinked(cfg: Config, st: State, user: string)
    requires Linked(st) && cfg.hasRoleStore && !IsGroup(user) && user != ""
    ensures Linked(RemoveUserRoles(cfg, st, user).state)
  {
    SavedIsRestored(st.persisted, user, {});
    var next := RemoveUserRoles(cfg, st, user).state;
    assert UserPart(next.store.groupings) == Unbind(UserPart(st.store.groupings), user);
  }

  /** Removing one role keeps Redis in step with Casbin exactly when it is not the case that the user's
      last role goes and Casbin reports the empty rest as nil: then Redis keeps the removed role. */
  lemma {:induction false} RemoveRoleLinkedExactly(cfg: Config, st: State, user: string, role: string)
    requires Linked(st) && cfg.hasRoleStore && !IsGroup(user) && user != "" && role != ""
    ensures Linked(RemoveUserRole(cfg, st, user, role).state)
            <==> !(cfg.emptyReadIsNil && RolesOf(st.store.groupings, user) == {role})
  {
    var next := RemoveUserRole(cfg, st, user, role).state;
    var remaining := RolesOf(next.store.groupings, user);
    assert remaining == RolesOf(st.store.groupings, user) - {role};
    assert UserPart(next.store.groupings) == UserPart(st.store.groupings) - {Grouping(user, role)};
    if remaining == {} && cfg.emptyReadIsNil {
      assert Grouping(user, role) in UserPart(st.store.groupings) <==> role in RolesOf(st.store.groupings, user);
    } else {
      ValidRolesOnly(st, user);
      SavedIsRestored(st.persisted, user, remaining);
      UnbindRest(UserPart(st.store.groupings), user, role);
      assert remaining - {""} == remaining;
      assert remaining == RolesOf(UserPart(st.store.groupings) - {Grouping(user, role)}, user);
    }
  }

  lemma {:induction false} ValidRolesOnly(st: State, user: string)
    requires Linked(st) && !IsGroup(user)
    ensures forall r | r in RolesOf(st.store.groupings, user) :: r != "" && IsValidRoleFormat(r)
  {
    forall r | r in RolesOf(st.store.groupings, user) ensures r != "" && IsValidRoleFormat(r) {
      assert Grouping(user, r) in UserPart(st.store.groupings);
    }
  }

  lemma {:induction false} UnbindRest(g: set<Grouping>, user: string, role: string)
    ensures Unbind(g, user) + Bind(user, RolesOf(g - {Grouping(user, role)}, user)) == g - {Grouping(user, role)}
  {
  }

  /** A rejected assignment has already changed Casbin but not Redis: the two stay in step exactly
      when the user had precisely the roles accepted before the invalid one. */
  lemma {:induction false} RejectedAssignLinkedExactly(cfg: Config, st: State, user: string, roles: seq<string>)
    requires Linked(st) && !IsGroup(user) && user != "" && !RolesValid(roles)
    ensures !AssignUserRoles(cfg, st, user, roles).ok
    ensures Linked(AssignUserRoles(cfg, st, user, roles).state) <==> RolesOf(st.store.groupings, user) == Accepted(roles)
  {
    var before, after := st.store.groupings, AssignStore(st.store, user, roles).groupings;
    assert RolesOf(after, user) == Accepted(roles);
    assert RolesOf(UserPart(after), user) == RolesOf(after, user) && RolesOf(UserPart(before), user) == RolesOf(before, user);
    assert Unbind(before, user) + Bind(user, RolesOf(before, user)) == before;
  }

  lemma {:induction false} RestoreStaysLinked(cfg: Config, st: State)
    requires NoGroupKeys(st.persisted) && cfg.hasRoleStore && UserPart(st.store.groupings) <= Restored(st.persisted)
    ensures var next := RestorePersistedRoles(cfg, st).state;
            && Linked(next) && next.persisted == st.persisted
            && GroupPart(next.store.groupings) == GroupPart(st.store.groupings)
  {
    var next := RestorePersistedRoles(cfg, st).state;
    assert forall e | e in Restored(st.persisted) :: e.user in Loadable(st.persisted);
    assert UserPart(Restored(st.persisted)) == Restored(st.persisted);
    assert UserPart(st.store.groupings + Restored(st.persisted)) == UserPart(st.store.groupings) + Restored(st.persisted);
  }

  /** The one caller-visible exception above, as a condition on an event. */
  predicate KeepsARole(cfg: Config, st: State, e: Event) {
    e.Drop? && cfg.emptyReadIsNil ==> RolesOf(st.store.groupings, e.user) != {e.role}
  }

  predicate KeepRoles(cfg: Config, st: State, events: seq<Event>)
    decreases |events|
  {
    |events| == 0
    || (var n := |events| - 1; KeepRoles(cfg, st, events[..n]) && KeepsARole(cfg, Run(cfg, st, events[..n]), events[n]))
  }

  lemma {:induction false} StepStaysLinked(cfg: Config, st: State, e: Event)
    requires Linked(st) && cfg.hasRoleStore && OnUsers(e) && ProjectsBindNoUsers(e)
    requires Step(cfg, st, e).ok && KeepsARole(cfg, st, e)
    ensures Linked(Step(cfg, st, e).state)
  {
    match e
    case Assign(user, roles) => AssignStaysLinked(cfg, st, user, roles);
    case DropAll(user) => RemoveRolesStaysLinked(cfg, st, user);
    case Drop(user, role) => RemoveRoleLinkedExactly(cfg, st, user, role);
    case Restore => RestoreStaysLinked(cfg, st);
    case Ask(_, _, _, _) =>
    case Cleanup(_) =>
    case _ => ProjectEventKeepsUsers(cfg, st, e);
  }

  lemma {:induction false} RunStaysLinked(cfg: Config, st: State, events: seq<Event>)
    requires Linked(st) && cfg.hasRoleStore
    requires forall e | e in events :: OnUsers(e) && ProjectsBindNoUsers(e)
    requires Succeeds(cfg, st, events) && KeepRoles(cfg, st, events)
    ensures Linked(Run(cfg, st, events))
    decreases |events|
  {
    if |events| > 0 {
      var n := |events| - 1;
      RunStaysLinked(cfg, st, events[..n]);
      StepStaysLinked(cfg, Run(cfg, st, events[..n]), events[n]);
    }
  }

  // ---- what a restart gives ----

  /** Start-up: sync the projects, then restore the persisted roles. */
  function Boot(cfg: Config, persisted: map<string, set<string>>, listing: seq<Project>): State {
    RestorePersistedRoles(cfg, SyncProjects(cfg, Fresh(persisted), listing).state).state
  }

  function BootHeld(listing: seq<Project>): Held {
    NextHeld(NOTHING_HELD, Sync(listing))
  }

  /** All bindings, of groups and of users, that the projects declare. */
  function Declared(present: map<string, Project>): set<Grouping> {
    set n, e | n in present && e in Compile(present[n]).groupings :: e
  }

  /** Loading a project once more, or for the first time, into what some projects declare. */
  lemma {:induction false} LoadDeclares(store: Store, present: map<string, Project>, project: Project)
    requires WellNamed(present) && store.groupings == Declared(present)
    requires project.name in present ==> present[project.name] == project
    ensures LoadStore(store, project).groupings == Declared(present[project.name := project])
  {
    var after, next := LoadStore(store, project).groupings, present[project.name := project];
    forall e | e in after ensures e in Declared(next) {
      if e in Compile(project).groupings {
        assert e in Compile(next[project.name]).groupings;
      } else {
        var n :| n in present && e in Compile(present[n]).groupings;
        assert next[n] == present[n];
      }
    }
    forall e | e in Declared(next) ensures e in after {
      var n :| n in next && e in Compile(next[n]).groupings;
      if n != project.name {
        CompiledIsFound(present[n]);
        assert e in Declared(present) && !IsProjectRole(project.name, e.role);
      }
    }
  }

  lemma {:induction false} LoadsDeclare(st: State, present: map<string, Project>, listing: seq<Project>)
    requires st.store.groupings == {} && WellNamed(present) && forall p | p in listing :: p.name in present && present[p.name] == p
    ensures SyncLoads(st, listing).store.groupings == Declared(LoadsHeld(NOTHING_HELD, listing).present)
    ensures WellNamed(LoadsHeld(NOTHING_HELD, listing).present)
    decreases |listing|
  {
    if |listing| > 0 {
      var n := |listing| - 1;
      assert listing[n] in listing && forall p | p in listing[..n] :: p in listing;
      LoadsDeclare(st, present, listing[..n]);
      ListedLoads(present, listing[..n]);
      SyncLoadsStep(st, listing);
      ListedLoadDeclares(SyncLoads(st, listing[..n]).store, LoadsHeld(NOTHING_HELD, listing[..n]), present, Names(listing[..n]), listing[n]);
    }
  }

  lemma {:induction false} SyncLoadsStep(st: State, listing: seq<Project>)
    requires listing != [] && listing[|listing| - 1].name != ""
    ensures var n := |listing| - 1;
            && SyncLoads(st, listing).store == LoadStore(SyncLoads(st, listing[..n]).store, listing[n])
            && LoadsHeld(NOTHING_HELD, listing) == LoadHeld(LoadsHeld(NOTHING_HELD, listing[..n]), listing[n])
  {
  }

  lemma {:induction false} ListedLoadDeclares(store: Store, h: Held, present: map<string, Project>, names: set<string>, project: Project)
    requires IsListed(h, present, names) && WellNamed(h.present) && store.groupings == Declared(h.present)
    requires project.name != "" && project.name in present && present[project.name] == project
    ensures LoadStore(store, project).groupings == Declared(LoadHeld(h, project).present) && WellNamed(LoadHeld(h, project).present)
  {
    LoadDeclares(store, h.present, project);
  }

  lemma {:induction false} RemoveNothing(store: Store)
    ensures RemoveProjects(store, {}) == store
  {
  }

  /** A restart binds exactly what the projects declare and what Redis holds, for users and groups alike. */
  lemma {:induction false} BootGives(cfg: Config, persisted: map<string, set<string>>, listing: seq<Project>, present: map<string, Project>)
    requires cfg.hasRoleStore && WellNamed(present) && Lists(listing, present)
    ensures var st := Boot(cfg, persisted, listing);
            && st.store == Store(PoliciesOf(present), Declared(present) + Restored(persisted))
            && st.loaded == BootHeld(listing).loaded && BootHeld(listing).present == present && st.persisted == persisted
  {
    var empty := Fresh(persisted);
    FreshInStep(persisted);
    SyncStaysInStep(cfg, empty, NOTHING_HELD, listing);
    ListedIsHeld(present, listing);
    LoadsDeclare(empty, present, listing);
    ListedLoads(present, listing);
    var s := SyncLoads(empty, listing);
    SyncLoadsStayInStep(empty, NOTHING_HELD, listing);
    assert s.loaded - Names(listing) == {};
    RemoveNothing(s.store);
    assert LoadsHeld(NOTHING_HELD, listing).present == present by { AllListed(present, listing); }
    RestoreAdds(cfg, SyncProjects(cfg, empty, listing).state);
  }

  lemma {:induction false} AllListed(present: map<string, Project>, listing: seq<Project>)
    requires WellNamed(present) && Lists(listing, present)
    ensures LoadsHeld(NOTHING_HELD, listing).present == present
  {
    ListedLoads(present, listing);
    forall n | n in present ensures n in Names(listing) {
      assert present[n] in listing && present[n].name == n;
    }
  }

  lemma {:induction false} RestoreAdds(cfg: Config, st: State)
    requires cfg.hasRoleStore
    ensures var next := RestorePersistedRoles(cfg, st).state;
            next.store == st.store.(groupings := st.store.groupings + Restored(st.persisted))
            && next.loaded == st.loaded && next.persisted == st.persisted
  {
    assert forall e | e in Restored(st.persisted) :: e.user in Loadable(st.persisted);
  }

  /** The binding survives a restart: a project declares it or Redis holds it. */
  predicate Kept(present: map<string, Project>, persisted: map<string, set<string>>, e: Grouping) {
    e in Declared(present) || e in Restored(persisted)
  }

  /** After any run at all (role events on users or groups, failing calls), a restart gives the policies from
      before and what Redis holds; the whole store is the same if and only if the bindings from before are
      exactly those a current project declares or Redis holds. */
  lemma {:induction false} RestartExactly(cfg: Config, persisted: map<string, set<string>>, listing: seq<Project>, events: seq<Event>, later: seq<Project>)
    requires cfg.hasRoleStore && Lists(later, HeldAfter(BootHeld(listing), events).present)
    ensures var before, present := Run(cfg, Boot(cfg, persisted, listing), events), HeldAfter(BootHeld(listing), events).present;
            var after := Boot(cfg, before.persisted, later);
            && after.store.policies == before.store.policies && after.persisted == before.persisted
            && (after.loaded == before.loaded <==> AllMarked(HeldAfter(BootHeld(listing), events)))
            && (forall e :: e in after.store.groupings <==> Kept(present, before.persisted, e))
            && (after.store == before.store <==> forall e :: e in before.store.groupings <==> Kept(present, before.persisted, e))
  {
    BootInStep(cfg, persisted, listing);
    RunStaysInStep(cfg, Boot(cfg, persisted, listing), BootHeld(listing), events);
    var before, present := Run(cfg, Boot(cfg, persisted, listing), events), HeldAfter(BootHeld(listing), events).present;
    BootGives(cfg, before.persisted, later, present);
    ListedIsHeld(present, later);
    StepKeepsMarks(NOTHING_HELD, Sync(listing));
    RunKeepsMarks(BootHeld(listing), events);
  }

  lemma {:induction false} BootInStep(cfg: Config, persisted: map<string, set<string>>, listing: seq<Project>)
    ensures var st := Boot(cfg, persisted, listing);
            && InStep(st.store, st.loaded, BootHeld(listing)) && st.persisted == persisted
            && (NoGroupKeys(persisted) ==> UsersOnly(st, BootHeld(listing)))
  {
    FreshInStep(persisted);
    SyncStaysInStep(cfg, Fresh(persisted), NOTHING_HELD, listing);
    var synced := SyncProjects(cfg, Fresh(persisted), listing).state;
    RoleEventKeepsProjects(cfg, synced, Restore);
  }

  // ---- runs on users ----

  /** Redis holds no more than Casbin does. */
  ghost predicate Backed(st: State) {
    NoGroupKeys(st.persisted) && Restored(st.persisted) <= st.store.groupings
  }

  /** Saving roles that Casbin holds. */
  lemma {:induction false} SaveStaysBacked(g: set<Grouping>, persisted: map<string, set<string>>, user: string, roles: set<string>)
    requires !IsGroup(user) && NoGroupKeys(persisted)
    requires forall e | e in Restored(persisted) && e.user != user :: e in g
    requires forall r | r in roles && r != "" :: Grouping(user, r) in g
    ensures Restored(Save(persisted, user, roles)) <= g && NoGroupKeys(Save(persisted, user, roles))
  {
    var saved := Save(persisted, user, roles);
    forall e | e in Restored(saved) ensures e in g {
      if e.user != user {
        assert saved[e.user] == persisted[e.user];
        assert e in Restored(persisted);
      }
    }
  }

  lemma {:induction false} ValidAreAccepted(roles: seq<string>)
    requires RolesValid(roles)
    ensures forall r | r in roles && r != "" :: r in Accepted(roles)
  {
    if roles != [] {
      ValidAreAccepted(roles[1..]);
      assert roles == [roles[0]] + roles[1..];
    }
  }

  lemma {:induction false} RoleEventStaysBacked(cfg: Config, st: State, e: Event)
    requires Backed(st) && cfg.hasRoleStore && OnUsers(e) && Step(cfg, st, e).ok && KeepsARole(cfg, st, e)
    requires e.Assign? || e.DropAll? || e.Drop?
    ensures Backed(Step(cfg, st, e).state)
  {
    var g := Step(cfg, st, e).state.store.groupings;
    match e
    case Assign(user, roles) =>
      ValidAreAccepted(roles);
      SaveStaysBacked(g, st.persisted, user, set r | r in roles);
    case DropAll(user) =>
      SaveStaysBacked(g, st.persisted, user, {});
    case Drop(user, role) =>
      var remaining := RolesOf(g, user);
      if remaining != {} || !cfg.emptyReadIsNil {
        SaveStaysBacked(g, st.persisted, user, remaining);
      } else {
        assert RolesOf(st.store.groupings, user) == {};
        assert Grouping(user, role) !in st.store.groupings;
      }
  }

  lemma {:induction false} ProjectEventStaysBacked(cfg: Config, st: State, e: Event)
    requires Backed(st) && (e.Load? || e.Remove? || e.Sync?)
    ensures Backed(Step(cfg, st, e).state)
  {
    ProjectEventAddsUsers(cfg, st, e);
    forall b | b in Restored(st.persisted) ensures b in UserPart(st.store.groupings) {}
  }

  /** Loads, removals and syncs drop no user's roles. */
  lemma {:induction false} ProjectEventAddsUsers(cfg: Config, st: State, e: Event)
    requires e.Load? || e.Remove? || e.Sync?
    ensures var next := Step(cfg, st, e).state;
            UserPart(st.store.groupings) <= UserPart(next.store.groupings) && next.persisted == st.persisted
  {
    match e
    case Load(project) => UsersSurviveLoad(st.store, project);
    case Remove(name) => UsersSurviveRemove(st.store, {name});
    case Sync(projects) =>
      SyncAddsUsers(st, projects);
      var s := SyncLoads(st, projects);
      UsersSurviveRemove(s.store, s.loaded - Names(projects));
  }

  lemma {:induction false} SyncAddsUsers(st: State, projects: seq<Project>)
    ensures UserPart(st.store.groupings) <= UserPart(SyncLoads(st, projects).store.groupings)
    decreases |projects|
  {
    if |projects| > 0 {
      var n := |projects| - 1;
      SyncAddsUsers(st, projects[..n]);
      UsersSurviveLoad(SyncLoads(st, projects[..n]).store, projects[n]);
    }
  }

  lemma {:induction false} StepStaysBacked(cfg: Config, st: State, e: Event)
    requires Backed(st) && cfg.hasRoleStore && OnUsers(e) && Step(cfg, st, e).ok && KeepsARole(cfg, st, e)
    ensures Backed(Step(cfg, st, e).state)
  {
    match e
    case Assign(_, _) => RoleEventStaysBacked(cfg, st, e);
    case DropAll(_) => RoleEventStaysBacked(cfg, st, e);
    case Drop(_, _) => RoleEventStaysBacked(cfg, st, e);
    case Restore => RestoreAdds(cfg, st);
    case Ask(_, _, _, _) =>
    case Cleanup(_) =>
    case _ => ProjectEventStaysBacked(cfg, st, e);
  }

  lemma {:induction false} RunStaysBacked(cfg: Config, st: State, events: seq<Event>)
    requires Backed(st) && cfg.hasRoleStore && forall e | e in events :: OnUsers(e)
    requires Succeeds(cfg, st, events) && KeepRoles(cfg, st, events)
    ensures Backed(Run(cfg, st, events))
    decreases |events|
  {
    if |events| > 0 {
      var n := |events| - 1;
      RunStaysBacked(cfg, st, events[..n]);
      StepStaysBacked(cfg, Run(cfg, st, events[..n]), events[n]);
    }
  }

  lemma {:induction false} BootIsBacked(cfg: Config, persisted: map<string, set<string>>, listing: seq<Project>)
    requires NoGroupKeys(persisted) && cfg.hasRoleStore
    ensures Backed(Boot(cfg, persisted, listing))
  {
    RestoreAdds(cfg, SyncProjects(cfg, Fresh(persisted), listing).state);
  }

  /** The users' bindings are as a restart would make them: every binding a current annotation declares is
      there, and every binding there is declared now or in Redis. */
  predicate UsersAsDeclared(st: State, present: map<string, Project>) {
    && (forall e | e in Declared(present) && !IsGroup(e.user) :: e in st.store.groupings)
    && (forall e | e in st.store.groupings && !IsGroup(e.user) :: Kept(present, st.persisted, e))
  }

  /** Runs of successful events on users, with projects whose annotations bind users: a restart gives the same
      store if and only if those bindings were in place (a later assignment may have replaced one) and no
      binding is left from an annotation that has changed since. */
  lemma {:induction false} RestartOnUsersExactly(cfg: Config, persisted: map<string, set<string>>, listing: seq<Project>, events: seq<Event>, later: seq<Project>)
    requires NoGroupKeys(persisted) && cfg.hasRoleStore && forall e | e in events :: OnUsers(e)
    requires Succeeds(cfg, Boot(cfg, persisted, listing), events) && KeepRoles(cfg, Boot(cfg, persisted, listing), events)
    requires Lists(later, HeldAfter(BootHeld(listing), events).present)
    ensures var before, present := Run(cfg, Boot(cfg, persisted, listing), events), HeldAfter(BootHeld(listing), events).present;
            Boot(cfg, before.persisted, later).store == before.store <==> UsersAsDeclared(before, present)
  {
    var boot, h := Boot(cfg, persisted, listing), HeldAfter(BootHeld(listing), events);
    RestartExactly(cfg, persisted, listing, events, later);
    BootInStep(cfg, persisted, listing);
    RunKeepsGroups(cfg, boot, BootHeld(listing), events);
    BootIsBacked(cfg, persisted, listing);
    RunStaysBacked(cfg, boot, events);
    KeptOnUsers(Run(cfg, boot, events), h);
  }

  lemma {:induction false} KeptOnUsers(st: State, h: Held)
    requires GroupsInStep(st.store, h) && Backed(st)
    ensures (forall e :: e in st.store.groupings <==> Kept(h.present, st.persisted, e)) <==> UsersAsDeclared(st, h.present)
  {
    forall e: Grouping | IsGroup(e.user) ensures e in st.store.groupings <==> Kept(h.present, st.persisted, e) {
      GroupEdge(h.present, e);
      assert e in GroupPart(st.store.groupings) <==> e in st.store.groupings;
    }
  }

  lemma {:induction false} GroupEdge(present: map<string, Project>, e: Grouping)
    requires IsGroup(e.user)
    ensures e in PartGroupings(CompileAll(present)) <==> e in Declared(present)
  {
    if e in PartGroupings(CompileAll(present)) {
      var n :| n in CompileAll(present) && e in CompileAll(present)[n].groupings;
      assert e in Compile(present[n]).groupings;
    }
    if e in Declared(present) {
      var n :| n in present && e in Compile(present[n]).groupings;
      assert e in CompileAll(present)[n].groupings;
    }
  }

  // ---- projects that bind no users ----

  lemma {:induction false} BootIsLinked(cfg: Config, persisted: map<string, set<string>>, listing: seq<Project>)
    requires NoGroupKeys(persisted) && cfg.hasRoleStore && forall p | p in listing :: NoUserBindings(p)
    ensures Linked(Boot(cfg, persisted, listing)) && Boot(cfg, persisted, listing).persisted == persisted
  {
    ProjectEventKeepsUsers(cfg, Fresh(persisted), Sync(listing));
    assert UserPart({}) == {};
    RestoreStaysLinked(cfg, SyncProjects(cfg, Fresh(persisted), listing).state);
  }

  /** Without annotation user bindings a restart after such a run gives back the very same Casbin store
      (policies and all groupings). */
  lemma {:induction false} RestartEquivalence(cfg: Config, persisted: map<string, set<string>>, listing: seq<Project>, events: seq<Event>, later: seq<Project>)
    requires NoGroupKeys(persisted) && cfg.hasRoleStore
    requires forall p | p in listing + later :: NoUserBindings(p)
    requires forall e | e in events :: OnUsers(e) && ProjectsBindNoUsers(e)
    requires Succeeds(cfg, Boot(cfg, persisted, listing), events) && KeepRoles(cfg, Boot(cfg, persisted, listing), events)
    requires Lists(later, HeldAfter(BootHeld(listing), events).present)
    ensures var before := Run(cfg, Boot(cfg, persisted, listing), events);
            var after := Boot(cfg, before.persisted, later);
            after.store == before.store && after.persisted == before.persisted
  {
    RestartExactly(cfg, persisted, listing, events, later);
    RestartOnUsersExactly(cfg, persisted, listing, events, later);
    BootIsLinked(cfg, persisted, listing);
    RunStaysLinked(cfg, Boot(cfg, persisted, listing), events);
    LinkedAsDeclared(Run(cfg, Boot(cfg, persisted, listing), events), HeldAfter(BootHeld(listing), events).present, later);
  }

  lemma {:induction false} LinkedAsDeclared(st: State, present: map<string, Project>, later: seq<Project>)
    requires Linked(st) && Lists(later, present) && forall p | p in later :: NoUserBindings(p)
    ensures UsersAsDeclared(st, present)
  {
    forall e | e in Declared(present) ensures IsGroup(e.user) {
      var n :| n in present && e in Compile(present[n]).groupings;
      ProjectBindsOnlyGroups(present[n]);
      assert e in UserPart(Compile(present[n]).groupings) <==> !IsGroup(e.user);
    }
    forall e | e in st.store.groupings && !IsGroup(e.user) ensures e in Restored(st.persisted) {
      assert e in UserPart(st.store.groupings);
    }
  }
}
