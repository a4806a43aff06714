/** The policy enforcer: compiles projects into the Casbin store in place, keeps users' roles in Casbin
    and Redis, and answers access questions through the decision cache. Each operation is proved to
    make exactly the state change RbacState gives for it. */
module PolicyEnforcer {
  import opened Text
  import opened KeyOrder
  import opened Wrappers
  import opened Subjects
  import opened Casbin
  import opened Scoping
  import opened Policies
  import opened AuthzCache
  import opened RbacState
  import opened RoleStore
  import opened Coherence
  import opened Access

  // ---- lists of rules, one element at a time ----

  lemma {:induction false} NextAction(role: string, obj: string, actions: seq<string>, j: nat, eft: string)
    requires j < |actions|
    ensures Tuples(role, [obj], actions[..j + 1], eft) == Tuples(role, [obj], actions[..j], eft) + {Policy(role, obj, actions[j], eft)}
  {
    assert actions[..j + 1] == actions[..j] + [actions[j]];
  }

  lemma {:induction false} NextTuples(role: string, objects: seq<string>, i: nat, actions: seq<string>, eft: string)
    requires i < |objects|
    ensures Tuples(role, objects[..i + 1], actions, eft)
            == Tuples(role, objects[..i], actions, eft) + Tuples(role, [objects[i]], actions, eft)
  {
    assert objects[..i + 1] == objects[..i] + [objects[i]];
  }

  lemma {:induction false} ThenStore(store: Store, a: Compiled, b: Compiled)
    requires !a.failed
    ensures AddCompiled(AddCompiled(store, a), b) == AddCompiled(store, Then(a, b))
  {
  }

  lemma {:induction false} FailedScoped(project: string, role: string, texts: seq<string>, destinations: seq<string>, k: nat)
    requires k <= |texts| && AddScopedRules(project, role, texts[..k], destinations).failed
    ensures AddScopedRules(project, role, texts, destinations) == AddScopedRules(project, role, texts[..k], destinations)
    decreases |texts|
  {
    if k < |texts| {
      assert texts[..|texts| - 1][..k] == texts[..k];
      FailedScoped(project, role, texts[..|texts| - 1], destinations, k);
    } else {
      assert texts[..k] == texts;
    }
  }

  lemma {:induction false} FailedBuiltIn(role: string, texts: seq<string>, destinations: seq<string>, project: string, k: nat)
    requires k <= |texts| && AddBuiltInRules(role, texts[..k], destinations, project).failed
    ensures AddBuiltInRules(role, texts, destinations, project) == AddBuiltInRules(role, texts[..k], destinations, project)
    decreases |texts|
  {
    if k < |texts| {
      assert texts[..|texts| - 1][..k] == texts[..k];
      FailedBuiltIn(role, texts[..|texts| - 1], destinations, project, k);
    } else {
      assert texts[..k] == texts;
    }
  }

  lemma {:induction false} FailedDestinations(role: string, res: string, project: string, destinations: seq<string>, act: string, eft: string, k: nat)
    requires k <= |destinations| && AddDestinationRules(role, res, project, destinations[..k], act, eft).failed
    ensures AddDestinationRules(role, res, project, destinations, act, eft) == AddDestinationRules(role, res, project, destinations[..k], act, eft)
    decreases |destinations|
  {
    if k < |destinations| {
      assert destinations[..|destinations| - 1][..k] == destinations[..k];
      FailedDestinations(role, res, project, destinations[..|destinations| - 1], act, eft, k);
    } else {
      assert destinations[..k] == destinations;
    }
  }

  lemma {:induction false} FailedRoles(project: string, roles: seq<Role>, k: nat)
    requires k <= |roles| && CompileRoles(project, roles[..k]).failed
    ensures CompileRoles(project, roles) == CompileRoles(project, roles[..k])
    decreases |roles|
  {
    if k < |roles| {
      assert roles[..|roles| - 1][..k] == roles[..k];
      FailedRoles(project, roles[..|roles| - 1], k);
    } else {
      assert roles[..k] == roles;
    }
  }

  lemma {:induction false} RemoveTwice(store: Store, a: set<string>, b: set<string>)
    ensures RemoveProjects(RemoveProjects(store, a), b) == RemoveProjects(store, a + b)
  {
    forall s ensures OfAny(a + b, s) <==> OfAny(a, s) || OfAny(b, s) {
    }
  }

  class PolicyEnforcer {
    const enforcer: CasbinEnforcer
    const cache: InMemoryCache?
    const roleStore: RedisRoleStore?
    const cacheTTL: int
    const emptyReadIsNil: bool
    var loadedProjects: set<string>

    constructor (cache: InMemoryCache?, roleStore: RedisRoleStore?, cacheTTL: int, emptyReadIsNil: bool)
      ensures this.cache == cache && this.roleStore == roleStore && this.cacheTTL == cacheTTL && this.emptyReadIsNil == emptyReadIsNil
      ensures fresh(enforcer)
      ensures enforcer.store == Fresh(map[]).store && loadedProjects == {}
    {
      this.cache, this.roleStore := cache, roleStore;
      this.cacheTTL, this.emptyReadIsNil := cacheTTL, emptyReadIsNil;
      enforcer := new CasbinEnforcer(BuiltIn());
      loadedProjects := {};
    }

    function Cfg(): Config {
      Config(cache != null, cacheTTL, roleStore != null, emptyReadIsNil)
    }

    function View(): State
      reads this, enforcer, cache, roleStore
    {
      State(enforcer.store, loadedProjects,
            if cache == null then map[] else cache.data,
            if roleStore == null then map[] else roleStore.sets)
    }

    // ---- compiling projects into the store ----

    method AddTuples(role: string, objects: seq<string>, actions: seq<string>, eft: string)
      modifies enforcer
      ensures enforcer.store == AddCompiled(old(enforcer.store), Compiled(Tuples(role, objects, actions, eft), {}, false))
    {
      ghost var base := enforcer.store;
      for i := 0 to |objects|
        invariant enforcer.store.groupings == base.groupings
        invariant enforcer.store.policies == base.policies + Tuples(role, objects[..i], actions, eft)
      {
        ghost var done := enforcer.store.policies;
        for j := 0 to |actions|
          invariant enforcer.store.groupings == base.groupings
          invariant enforcer.store.policies == done + Tuples(role, [objects[i]], actions[..j], eft)
        {
          NextAction(role, objects[i], actions, j, eft);
          var added := enforcer.AddPolicy(role, objects[i], actions[j], eft);
        }
        assert actions[..|actions|] == actions;
        NextTuples(role, objects, i, actions, eft);
      }
      assert objects[..|objects|] == objects;
    }

    method AddPolicyFromString(role: string, text: string) returns (ok: bool)
      modifies enforcer
      ensures ok <==> !AddRule(role, text).failed
      ensures enforcer.store == AddCompiled(old(enforcer.store), AddRule(role, text))
    {
      var parsed := ParseRule(text);
      match parsed
      case Err(_) =>
        return false;
      case Ok(None) =>
        return true;
      case Ok(Some(rule)) =>
        AddTuples(role, [rule.obj], NormalizeAction(rule.act), rule.eft);
        return true;
    }

    method AddProjectScopedPolicy(project: string, role: string, text: string, destinations: seq<string>) returns (ok: bool)
      modifies enforcer
      ensures ok <==> !AddScopedRule(project, role, text, destinations).failed
      ensures enforcer.store == AddCompiled(old(enforcer.store), AddScopedRule(project, role, text, destinations))
    {
      var parsed := ParseRule(text);
      match parsed
      case Err(_) =>
        return false;
      case Ok(None) =>
        return true;
      case Ok(Some(rule)) =>
        AddTuples(role, ScopeObject(project, rule.obj, destinations), NormalizeAction(rule.act), rule.eft);
        return true;
    }

    method AddPerDestination(role: string, res: string, project: string, destinations: seq<string>, act: string, eft: string) returns (ok: bool)
      modifies enforcer
      ensures ok <==> !AddDestinationRules(role, res, project, destinations, act, eft).failed
      ensures enforcer.store == AddCompiled(old(enforcer.store), AddDestinationRules(role, res, project, destinations, act, eft))
    {
      ghost var base := enforcer.store;
      for i := 0 to |destinations|
        invariant !AddDestinationRules(role, res, project, destinations[..i], act, eft).failed
        invariant enforcer.store == AddCompiled(base, AddDestinationRules(role, res, project, destinations[..i], act, eft))
      {
        ghost var before := AddDestinationRules(role, res, project, destinations[..i], act, eft);
        var text := RuleText(PerDestination(res, project, destinations[i]), act, eft);
        ok := AddPolicyFromString(role, text);
        assert destinations[..i + 1][..i] == destinations[..i];
        ThenStore(base, before, AddRule(role, text));
        if !ok {
          FailedDestinations(role, res, project, destinations, act, eft, i + 1);
          return false;
        }
      }
      assert destinations[..|destinations|] == destinations;
      ok := true;
    }

    method AddPolicyFromStringWithDests(role: string, text: string, destinations: seq<string>, project: string) returns (ok: bool)
      modifies enforcer
      ensures ok <==> !AddBuiltInRule(role, text, destinations, project).failed
      ensures enforcer.store == AddCompiled(old(enforcer.store), AddBuiltInRule(role, text, destinations, project))
    {
      if |destinations| == 0 {
        ok := AddPolicyFromString(role, text);
        return;
      }
      var policyStr := TrimSpace(text);
      if policyStr == "" {
        return true;
      }
      var parts := TrimmedParts(policyStr);
      if |parts| != 3 {
        ok := AddPolicyFromString(role, policyStr);
      } else if parts[0] == "instances/" + (project + "/*") {
        ok := AddPerDestination(role, "instances", project, destinations, parts[1], parts[2]);
      } else if parts[0] == "secrets/" + (project + "/*") {
        ok := AddPerDestination(role, "secrets", project, destinations, parts[1], parts[2]);
      } else {
        ok := AddPolicyFromString(role, policyStr);
      }
    }

    method AddScopedPolicies(project: string, role: string, texts: seq<string>, destinations: seq<string>) returns (ok: bool)
      modifies enforcer
      ensures ok <==> !AddScopedRules(project, role, texts, destinations).failed
      ensures enforcer.store == AddCompiled(old(enforcer.store), AddScopedRules(project, role, texts, destinations))
    {
      ghost var base := enforcer.store;
      for i := 0 to |texts|
        invariant !AddScopedRules(project, role, texts[..i], destinations).failed
        invariant enforcer.store == AddCompiled(base, AddScopedRules(project, role, texts[..i], destinations))
      {
        ghost var before := AddScopedRules(project, role, texts[..i], destinations);
        ok := AddProjectScopedPolicy(project, role, texts[i], destinations);
        assert texts[..i + 1][..i] == texts[..i];
        ThenStore(base, before, AddScopedRule(project, role, texts[i], destinations));
        if !ok {
          FailedScoped(project, role, texts, destinations, i + 1);
          return false;
        }
      }
      assert texts[..|texts|] == texts;
      ok := true;
    }

    method AddBuiltInPolicies(role: string, texts: seq<string>, destinations: seq<string>, project: string) returns (ok: bool)
      modifies enforcer
      ensures ok <==> !AddBuiltInRules(role, texts, destinations, project).failed
      ensures enforcer.store == AddCompiled(old(enforcer.store), AddBuiltInRules(role, texts, destinations, project))
    {
      ghost var base := enforcer.store;
      for i := 0 to |texts|
        invariant !AddBuiltInRules(role, texts[..i], destinations, project).failed
        invariant enforcer.store == AddCompiled(base, AddBuiltInRules(role, texts[..i], destinations, project))
      {
        ghost var before := AddBuiltInRules(role, texts[..i], destinations, project);
        ok := AddPolicyFromStringWithDests(role, texts[i], destinations, project);
        assert texts[..i + 1][..i] == texts[..i];
        ThenStore(base, before, AddBuiltInRule(role, texts[i], destinations, project));
        if !ok {
          FailedBuiltIn(role, texts, destinations, project, i + 1);
          return false;
        }
      }
      assert texts[..|texts|] == texts;
      ok := true;
    }

    method BindGroups(role: string, groups: seq<string>)
      modifies enforcer
      ensures enforcer.store == AddCompiled(old(enforcer.store), Compiled({}, GroupBindings(role, groups), false))
    {
      ghost var base := enforcer.store;
      for i := 0 to |groups|
        invariant enforcer.store == base.(groupings := base.groupings + GroupBindings(role, groups[..i]))
      {
        assert groups[..i + 1] == groups[..i] + [groups[i]];
        var subject := FormatGroupSubject(groups[i]);
        if subject == None {
          assert GroupBindings(role, groups[..i + 1]) == GroupBindings(role, groups[..i]);
          continue;
        }
        var added := enforcer.AddUserRole(subject.value, role);
        assert GroupBindings(role, groups[..i + 1]) == GroupBindings(role, groups[..i]) + {Grouping(subject.value, role)};
      }
      assert groups[..|groups|] == groups;
    }

    method LoadRole(project: string, role: Role) returns (ok: bool)
      modifies enforcer
      ensures ok <==> !CompileRole(project, role).failed
      ensures enforcer.store == AddCompiled(old(enforcer.store), CompileRole(project, role))
    {
      if role.name == "" {
        return true;
      }
      var formatted := FormatProjectRole(project, role.name);
      if formatted == None {
        return false;
      }
      var roleName := formatted.value;
      CompileRoleSteps(project, role, roleName);
      ghost var base := enforcer.store;
      ok := AddScopedPolicies(project, roleName, role.policies, role.destinations);
      if !ok {
        return false;
      }
      ok := AddBuiltIns(project, roleName, role);
      ghost var custom := AddScopedRules(project, roleName, role.policies, role.destinations);
      ghost var more := Then(AdminPart(project, roleName, role), ReadonlyPart(project, roleName, role));
      ThenStore(base, custom, more);
      if !ok {
        return false;
      }
      BindGroups(roleName, role.groups);
      ThenStore(base, Then(custom, more), Compiled({}, GroupBindings(roleName, role.groups), false));
      ok := true;
    }

    method AddBuiltIns(project: string, roleName: string, role: Role) returns (ok: bool)
      modifies enforcer
      ensures var c := Then(AdminPart(project, roleName, role), ReadonlyPart(project, roleName, role));
              ok == !c.failed && enforcer.store == AddCompiled(old(enforcer.store), c)
    {
      ghost var base := enforcer.store;
      ok := AddBuiltInsNamed("admin", BuiltInAdminPolicies(project), project, roleName, role);
      if !ok {
        return false;
      }
      ok := AddBuiltInsNamed("readonly", BuiltInReadonlyPolicies(project), project, roleName, role);
      ThenStore(base, AdminPart(project, roleName, role), ReadonlyPart(project, roleName, role));
    }

    /** Adds the built-in rules if the role has the given name, in any letter case. */
    method AddBuiltInsNamed(name: string, texts: seq<string>, project: string, roleName: string, role: Role) returns (ok: bool)
      modifies enforcer
      ensures var c := if Lower(role.name) == name then AddBuiltInRules(roleName, texts, role.destinations, project) else NOTHING;
              ok == !c.failed && enforcer.store == AddCompiled(old(enforcer.store), c)
    {
      if Lower(role.name) != name {
        return true;
      }
      ok := AddBuiltInPolicies(roleName, texts, role.destinations, project);
    }

    method BindAnnotations(project: string, bindings: seq<Binding>)
      modifies enforcer
      ensures enforcer.store == AddCompiled(old(enforcer.store), Compiled({}, BindingTuples(project, bindings), false))
    {
      ghost var base := enforcer.store;
      for i := 0 to |bindings|
        invariant enforcer.store == base.(groupings := base.groupings + BindingTuples(project, bindings[..i]))
      {
        var b := bindings[i];
        NextBinding(project, bindings, i);
        var roleName := FormatProjectRole(project, b.role);
        if roleName == None {
          continue;
        }
        var subject := b.subject;
        if b.isGroup {
          var formatted := FormatGroupSubject(b.subject);
          if formatted == None {
            continue;
          }
          subject := formatted.value;
        }
        var added := enforcer.AddUserRole(subject, roleName.value);
      }
      assert bindings[..|bindings|] == bindings;
    }

    method RemoveProjectPoliciesLocked(name: string)
      modifies enforcer
      ensures enforcer.store == RemoveProjects(old(enforcer.store), {name})
    {
      ghost var base := enforcer.store;
      var prefix := RolePrefix(name);
      var policies := enforcer.GetAllPolicies();
      for i := 0 to |policies|
        invariant enforcer.store.groupings == base.groupings
        invariant enforcer.store.policies == set p | p in base.policies && !(p in policies[..i] && HasPrefix(p.sub, prefix))
      {
        var p := policies[i];
        assert policies[..i + 1] == policies[..i] + [p];
        if HasPrefix(p.sub, prefix) {
          var removed := enforcer.RemovePolicy(p.sub, p.obj, p.act, p.eft);
        }
      }
      assert policies[..|policies|] == policies;
      assert enforcer.store.policies == RemoveProjects(base, {name}).policies;
      var roles := enforcer.GetAllRoles();
      for i := 0 to |roles|
        invariant enforcer.store.policies == RemoveProjects(base, {name}).policies
        invariant enforcer.store.groupings
               == set e | e in base.groupings && !(e.role in roles[..i] && HasPrefix(e.role, prefix) && IsGroup(e.user))
      {
        assert roles[..i + 1] == roles[..i] + [roles[i]];
        if HasPrefix(roles[i], prefix) {
          UnbindGroups(roles[i]);
        }
      }
      assert roles[..|roles|] == roles;
      assert enforcer.store.groupings == RemoveProjects(base, {name}).groupings;
    }

    method UnbindGroups(role: string)
      modifies enforcer
      ensures enforcer.store == old(enforcer.store).(groupings := set e | e in old(enforcer.store.groupings) && !(e.role == role && IsGroup(e.user)))
    {
      ghost var base := enforcer.store;
      var users := enforcer.GetUsersForRole(role);
      for j := 0 to |users|
        invariant enforcer.store.policies == base.policies
        invariant enforcer.store.groupings
               == set e | e in base.groupings && !(e.role == role && e.user in users[..j] && IsGroup(e.user))
      {
        assert users[..j + 1] == users[..j] + [users[j]];
        if HasPrefix(users[j], "group:") {
          var removed := enforcer.RemoveUserRole(users[j], role);
        }
      }
      assert users[..|users|] == users;
      assert forall e | e in base.groupings && e.role == role :: e == Grouping(e.user, role) && e.user in users;
    }

    method LoadProjectPoliciesLocked(project: Project) returns (ok: bool)
      modifies enforcer, `loadedProjects
      ensures ok <==> !Compile(project).failed
      ensures enforcer.store == LoadStore(old(enforcer.store), project)
      ensures loadedProjects == old(loadedProjects) + (if ok then {project.name} else {})
    {
      RemoveProjectPoliciesLocked(project.name);
      ghost var base := enforcer.store;
      ok := LoadRoles(project.name, project.roles);
      if !ok {
        return false;
      }
      BindAnnotations(project.name, project.bindings);
      ThenStore(base, CompileRoles(project.name, project.roles), Compiled({}, BindingTuples(project.name, project.bindings), false));
      loadedProjects := loadedProjects + {project.name};
      ok := true;
    }

    method LoadRoles(project: string, roles: seq<Role>) returns (ok: bool)
      modifies enforcer
      ensures ok <==> !CompileRoles(project, roles).failed
      ensures enforcer.store == AddCompiled(old(enforcer.store), CompileRoles(project, roles))
    {
      ghost var base := enforcer.store;
      for i := 0 to |roles|
        invariant !CompileRoles(project, roles[..i]).failed
        invariant enforcer.store == AddCompiled(base, CompileRoles(project, roles[..i]))
      {
        ok := LoadRole(project, roles[i]);
        NextRole(base, project, roles, i);
        if !ok {
          FailedRoles(project, roles, i + 1);
          return false;
        }
      }
      assert roles[..|roles|] == roles;
      ok := true;
    }

    method ClearDecisions()
      modifies cache
      ensures cache != null ==> cache.data == map[]
    {
      if cache != null {
        cache.Clear();
      }
    }

    method LoadProjectPolicies(project: Project) returns (ok: bool)
      modifies this, enforcer, cache
      ensures Outcome(View(), ok) == LoadProject(Cfg(), old(View()), project)
    {
      if project.name == "" {
        return false;
      }
      ok := LoadProjectPoliciesLocked(project);
      if !ok {
        return false;
      }
      ClearDecisions();
    }

    method RemoveProjectPolicies(name: string) returns (ok: bool)
      modifies this, enforcer, cache
      ensures Outcome(View(), ok) == RemoveProject(Cfg(), old(View()), name)
    {
      if name == "" {
        return false;
      }
      loadedProjects := loadedProjects - {name};
      ClearDecisions();
      RemoveProjectPoliciesLocked(name);
      ok := true;
    }

    /** `projects` is what the reader lists, or None without a reader or when listing fails. */
    method SyncPolicies(projects: Option<seq<Project>>) returns (ok: bool)
      modifies this, enforcer, cache
      ensures projects == None ==> View() == old(View()) && !ok
      ensures projects.Some? ==> Outcome(View(), ok) == SyncProjects(Cfg(), old(View()), projects.value)
    {
      if projects == None {
        return false;
      }
      var current;
      current, ok := LoadListed(projects.value);
      RemoveStale(current);
      ClearDecisions();
    }

    /** The loads of a sync: errors are noted and the loop goes on. */
    method LoadListed(listed: seq<Project>) returns (current: set<string>, ok: bool)
      modifies enforcer, `loadedProjects
      ensures current == Names(listed)
      ensures Synced(enforcer.store, loadedProjects, ok) == SyncLoads(old(View()), listed)
    {
      ghost var st := View();
      current, ok := {}, true;
      for i := 0 to |listed|
        invariant current == Names(listed[..i])
        invariant Synced(enforcer.store, loadedProjects, ok) == SyncLoads(st, listed[..i])
      {
        NextListed(st, listed, i);
        current := current + {listed[i].name};
        if listed[i].name == "" {
          ok := false;
          continue;
        }
        var loaded := LoadProjectPoliciesLocked(listed[i]);
        if !loaded {
          ok := false;
        }
      }
      assert listed[..|listed|] == listed;
    }

    /** Removes the loaded projects that are not among `current`. */
    method RemoveStale(current: set<string>)
      modifies enforcer, `loadedProjects
      ensures enforcer.store == RemoveProjects(old(enforcer.store), old(loadedProjects) - current)
      ensures loadedProjects == old(loadedProjects) - (old(loadedProjects) - current)
    {
      ghost var base, loaded := enforcer.store, loadedProjects;
      var names := Snapshot(loadedProjects);
      ghost var gone: set<string> := {};
      RemoveNone(base);
      for i := 0 to |names|
        invariant gone == set n | n in names[..i] && n !in current
        invariant enforcer.store == RemoveProjects(base, gone)
        invariant loadedProjects == loaded - gone
      {
        assert names[..i + 1] == names[..i] + [names[i]];
        if names[i] !in current {
          RemoveProjectPoliciesLocked(names[i]);
          RemoveTwice(base, gone, {names[i]});
          loadedProjects := loadedProjects - {names[i]};
          gone := gone + {names[i]};
        }
      }
      assert names[..|names|] == names;
      assert gone == loaded - current;
    }

    // ---- user roles ----

    method AssignUserRolesInCasbin(user: string, roles: seq<string>) returns (ok: bool)
      modifies enforcer
      ensures ok <==> RolesValid(roles)
      ensures enforcer.store == AssignStore(old(enforcer.store), user, roles)
    {
      UnbindUser(user);
      ghost var bare := enforcer.store;
      assert roles[..0] == [];
      for i := 0 to |roles|
        invariant RolesValid(roles[..i])
        invariant enforcer.store.policies == bare.policies
        invariant enforcer.store.groupings == bare.groupings + Bind(user, Accepted(roles[..i]))
      {
        NextAccepted(user, roles, i);
        if roles[i] == "" {
          continue;
        }
        if !IsValidRoleFormat(roles[i]) {
          return false;
        }
        var added := enforcer.AddUserRole(user, roles[i]);
      }
      assert roles[..|roles|] == roles;
      ok := true;
    }

    method UnbindUser(user: string)
      modifies enforcer
      ensures enforcer.store == old(enforcer.store).(groupings := Unbind(old(enforcer.store.groupings), user))
    {
      ghost var base := enforcer.store;
      var existing := enforcer.GetRolesForUser(user);
      for i := 0 to |existing|
        invariant enforcer.store.policies == base.policies
        invariant enforcer.store.groupings == set e | e in base.groupings && !(e.user == user && e.role in existing[..i])
      {
        assert existing[..i + 1] == existing[..i] + [existing[i]];
        var removed := enforcer.RemoveUserRole(user, existing[i]);
      }
      assert existing[..|existing|] == existing;
      assert forall e | e in base.groupings && e.user == user :: e.role in RolesOf(base.groupings, user);
    }

    method AssignRoles(user: string, roles: seq<string>) returns (ok: bool)
      modifies enforcer, cache, roleStore
      ensures Outcome(View(), ok) == AssignUserRoles(Cfg(), old(View()), user, roles)
    {
      if user == "" {
        return false;
      }
      ok := AssignUserRolesInCasbin(user, roles);
      if !ok {
        return false;
      }
      if roleStore != null {
        var saved := roleStore.SaveUserRoles(user, roles);
      }
      if cache != null {
        var count := cache.InvalidateByPrefix(user + [NUL]);
      }
    }

    method RemoveRoles(user: string) returns (ok: bool)
      modifies enforcer, cache, roleStore
      ensures Outcome(View(), ok) == RemoveUserRoles(Cfg(), old(View()), user)
    {
      if user == "" {
        return false;
      }
      UnbindUser(user);
      if roleStore != null {
        var deleted := roleStore.DeleteUserRoles(user);
      }
      ClearDecisions();
      ok := true;
    }

    method RemoveRole(user: string, role: string) returns (ok: bool)
      modifies enforcer, cache, roleStore
      ensures Outcome(View(), ok) == RemoveUserRole(Cfg(), old(View()), user, role)
    {
      if user == "" || role == "" {
        return false;
      }
      var removed := enforcer.RemoveUserRole(user, role);
      if roleStore != null {
        var remaining := enforcer.GetRolesForUser(user);
        var isNil := |remaining| == 0 && emptyReadIsNil;
        SameRoles(remaining, RolesOf(enforcer.store.groupings, user));
        if !isNil {
          var saved := roleStore.SaveUserRoles(user, remaining);
        }
      }
      ClearDecisions();
      ok := true;
    }

    method RestoreRoles() returns (ok: bool)
      modifies enforcer, cache
      ensures Outcome(View(), ok) == RestorePersistedRoles(Cfg(), old(View()))
    {
      if roleStore == null {
        return true;
      }
      ghost var st := View();
      var allRoles := roleStore.LoadAllUserRoles();
      assert allRoles == Loadable(st.persisted);
      if allRoles == map[] {
        return true;
      }
      ghost var base := enforcer.store;
      var users := Snapshot(allRoles.Keys);
      for i := 0 to |users|
        invariant enforcer.store.policies == base.policies
        invariant enforcer.store.groupings == base.groupings + RestoredOf(allRoles, users[..i])
      {
        assert users[..i + 1] == users[..i] + [users[i]];
        var user := users[i];
        RestoreUser(user, allRoles[user]);
        assert RestoredOf(allRoles, users[..i + 1]) == RestoredOf(allRoles, users[..i]) + ValidBindings(user, allRoles[user]);
      }
      assert users[..|users|] == users;
      assert RestoredOf(allRoles, users) == Restored(roleStore.sets) by { RestoredIsAll(roleStore.sets, users); }
      assert enforcer.store == base.(groupings := base.groupings + Restored(st.persisted));
      ClearDecisions();
      ok := true;
    }

    method RestoreUser(user: string, roles: set<string>)
      modifies enforcer
      ensures enforcer.store == old(enforcer.store).(groupings := old(enforcer.store.groupings) + ValidBindings(user, roles))
    {
      ghost var base := enforcer.store;
      var list := Snapshot(roles);
      for j := 0 to |list|
        invariant enforcer.store.policies == base.policies
        invariant enforcer.store.groupings == base.groupings + ValidBindings(user, Elements(list[..j]))
      {
        assert list[..j + 1] == list[..j] + [list[j]];
        if list[j] == "" || !IsValidRoleFormat(list[j]) {
          continue;
        }
        var added := enforcer.AddUserRole(user, list[j]);
        assert ValidBindings(user, Elements(list[..j + 1]))
            == ValidBindings(user, Elements(list[..j])) + {Grouping(user, list[j])};
      }
      assert list[..|list|] == list;
      assert Elements(list) == roles;
    }

    // ---- decisions ----

    /** Cache, then Casbin, then the cache again: the lookup shared by users, groups and roles. */
    method DecideCached(sub: string, obj: string, act: string, now: int) returns (allowed: bool)
      modifies cache
      ensures (allowed, View().cache) == Decide(Cfg(), old(View()), sub, obj, act, now)
      ensures View() == old(View()).(cache := View().cache)
      ensures old(CacheOk()) ==> CacheOk() && (Clean(sub, obj, act) ==> allowed == Enforce(enforcer.store, sub, obj, act))
    {
      ghost var st, sound := View(), CacheOk();
      if sound {
        DecideIsEnforce(Cfg(), st, sub, obj, act, now);
      }
      if cache != null {
        var found := cache.Get(sub, obj, act, now);
        if found.Some? {
          return found.value;
        }
      }
      allowed := Enforce(enforcer.store, sub, obj, act);
      if cache != null && cacheTTL > 0 {
        cache.Set(sub, obj, act, allowed, cacheTTL, now);
      }
    }

    method CanAccessUser(user: string, obj: string, act: string, now: int) returns (r: Option<bool>)
      modifies cache
      ensures Outcome(View(), r.Some?) == CanAccess(Cfg(), old(View()), user, obj, act, now)
      ensures r.Some? ==> r.value == Decide(Cfg(), old(View()), user, obj, act, now).0
    {
      if user == "" || obj == "" || act == "" {
        return None;
      }
      var allowed := DecideCached(user, obj, act, now);
      r := Some(allowed);
    }

    /** One subject against all objects, stopping at the first allow. */
    method CheckSubject(sub: string, objects: seq<string>, act: string, now: int) returns (granted: bool)
      modifies cache
      ensures View() == old(View()).(cache := View().cache)
      ensures old(CacheOk()) ==> CacheOk()
      ensures old(CacheOk()) && AllClean({sub}, Elements(objects), act) ==>
                (granted <==> AnyAllowed(enforcer.store, {sub}, Elements(objects), act))
    {
      ghost var sound, clean := CacheOk(), AllClean({sub}, Elements(objects), act);
      for i := 0 to |objects|
        invariant View() == old(View()).(cache := View().cache)
        invariant sound ==> CacheOk()
        invariant sound && clean ==> !AnyAllowed(enforcer.store, {sub}, Elements(objects[..i]), act)
      {
        NextObject(enforcer.store, sub, objects, i, act);
        var allowed := DecideCached(sub, objects[i], act, now);
        if allowed {
          return true;
        }
      }
      assert objects[..|objects|] == objects;
      granted := false;
    }

    ghost predicate CacheOk()
      reads this, enforcer, cache, roleStore
    {
      Coherent(View().cache, enforcer.store)
    }

    // ---- objects to check ----

    /** Adds what one role contributes to a list request, skipping what was seen before. */
    method AddRoleWildcards(role: string, res: string, wildcards: seq<string>, seenProjects: set<string>, seenObjects: set<string>)
      returns (more: seq<string>, projects: set<string>, objects: set<string>)
      requires Listed(res, wildcards, seenProjects, seenObjects)
      ensures Listed(res, more, projects, objects)
      ensures forall o :: o in more <==> o in wildcards || o in RoleWildcards(enforcer.store, role, res)
    {
      more, projects, objects := wildcards, seenProjects, seenObjects;
      if HasPrefix(role, "proj:") {
        var parts := Split(role, ':');
        if |parts| >= 2 {
          var name := parts[1];
          if name !in projects {
            projects := projects + {name};
            more := more + [ProjectWide(res, name)];
          }
        }
      }
      ghost var start := more;
      var policies := enforcer.GetPoliciesForRole(role);
      for i := 0 to |policies|
        invariant Listed(res, more, projects, objects)
        invariant Elements(more) == Elements(start) + NamedObjects(policies[..i], res)
      {
        NextNamed(policies, i, res);
        var obj := policies[i].obj;
        if Named(obj, res) {
          if obj !in objects {
            AddedToList(more, obj);
            objects, more := objects + {obj}, more + [obj];
          }
        }
      }
      assert policies[..|policies|] == policies;
      NamedAreRoleObjects(enforcer.store, role, policies, res);
      assert forall o :: o in more <==> o in Elements(more);
    }

    method GetProjectScopedWildcards(groups: seq<string>, res: string) returns (wildcards: seq<string>)
      ensures forall o :: o in wildcards <==> o in ScopedWildcards(enforcer.store, groups, res)
    {
      wildcards := [];
      var seenProjects, seenObjects := {}, {};
      for i := 0 to |groups|
        invariant Listed(res, wildcards, seenProjects, seenObjects)
        invariant forall o :: o in wildcards <==> o in ScopedWildcards(enforcer.store, groups[..i], res)
      {
        NextGroup(enforcer.store, groups, i, res);
        var subject := FormatGroupSubject(groups[i]);
        if subject == None {
          continue;
        }
        var roles := enforcer.GetRolesForUser(subject.value);
        ghost var start := wildcards;
        for j := 0 to |roles|
          invariant Listed(res, wildcards, seenProjects, seenObjects)
          invariant forall o :: o in wildcards <==> o in start || exists r :: r in roles[..j] && o in RoleWildcards(enforcer.store, r, res)
        {
          assert roles[..j + 1] == roles[..j] + [roles[j]];
          wildcards, seenProjects, seenObjects := AddRoleWildcards(roles[j], res, wildcards, seenProjects, seenObjects);
        }
        assert roles[..|roles|] == roles;
      }
      assert groups[..|groups|] == groups;
    }

    method ObjectsToCheck(reader: Reader, q: Request) returns (objects: seq<string>)
      ensures |objects| > 0 && objects[0] == q.obj
      ensures forall o :: o in objects <==> o in ObjectsAsked(enforcer.store, reader, q)
    {
      objects := [q.obj];
      if reader.present {
        var resolved := ResolveNamespace(q.obj, reader.owner);
        if resolved.Some? {
          objects := objects + [resolved.value];
        }
      }
      if q.act == "list" && HasSuffix(q.obj, "/*") && reader.present {
        var additional := GetProjectScopedWildcards(q.groups, q.obj[..|q.obj| - 2]);
        objects := objects + additional;
      }
    }

    /** Users first, then groups, then server-side roles; the first allow wins. Without an error, and
        through a coherent cache, the answer is that someone asked is allowed some object asked. */
    method CanAccessWithGroups(reader: Reader, q: Request, now: int) returns (r: Option<bool>)
      modifies cache
      ensures View() == old(View()).(cache := View().cache)
      ensures old(CacheOk()) ==> CacheOk()
      ensures r == None <==> q.user == "" || q.obj == "" || q.act == ""
      ensures old(CacheOk()) && r.Some? && CleanRequest(enforcer.store, reader, q) ==> r.value == Granted(enforcer.store, reader, q)
    {
      var objects := ObjectsToCheck(reader, q);
      if q.user == "" || q.obj == "" || q.act == "" {
        // CanAccess rejects the first object checked
        return None;
      }
      var granted := CheckSubject(q.user, objects, q.act, now);
      if !granted {
        granted := CheckGroups(q.groups, objects, q.act, now);
      }
      if !granted {
        var roles := ServerSideRoles(q.user);
        granted := CheckRoles(roles, objects, q.act, now);
      }
      ghost var store := enforcer.store;
      assert Elements(objects) == ObjectsAsked(store, reader, q);
      AllowedInParts(store, {q.user}, GroupSubjects(q.groups), ServerRoles(store.groupings, q.user) - {""}, Elements(objects), q.act);
      return Some(granted);
    }

    /** The user's implicit roles, or those of the other spelling of its name when there are none. */
    method ServerSideRoles(user: string) returns (roles: seq<string>)
      ensures Elements(roles) == ServerRoles(enforcer.store.groupings, user)
    {
      roles := enforcer.GetImplicitRolesForUser(user);
      SameRoles(roles, ImplicitRoles(enforcer.store.groupings, user));
      if |roles| == 0 {
        roles := enforcer.GetImplicitRolesForUser(OtherSpelling(user));
      }
    }

    method CheckGroups(groups: seq<string>, objects: seq<string>, act: string, now: int) returns (granted: bool)
      modifies cache
      ensures View() == old(View()).(cache := View().cache)
      ensures old(CacheOk()) ==> CacheOk()
      ensures old(CacheOk()) && AllClean(GroupSubjects(groups), Elements(objects), act) ==>
                (granted <==> AnyAllowed(enforcer.store, GroupSubjects(groups), Elements(objects), act))
    {
      ghost var sound, clean := CacheOk(), AllClean(GroupSubjects(groups), Elements(objects), act);
      for i := 0 to |groups|
        invariant View() == old(View()).(cache := View().cache)
        invariant sound ==> CacheOk()
        invariant sound && clean ==> !AnyAllowed(enforcer.store, GroupSubjects(groups[..i]), Elements(objects), act)
      {
        NextGroupSubject(groups, i);
        var subject := FormatGroupSubject(groups[i]);
        if subject == None {
          continue;
        }
        NextSubject(enforcer.store, GroupSubjects(groups[..i]), subject.value, GroupSubjects(groups), Elements(objects), act);
        granted := CheckSubject(subject.value, objects, act, now);
        if granted {
          return;
        }
      }
      assert groups[..|groups|] == groups;
      granted := false;
    }

    method CheckRoles(roles: seq<string>, objects: seq<string>, act: string, now: int) returns (granted: bool)
      modifies cache
      ensures View() == old(View()).(cache := View().cache)
      ensures old(CacheOk()) ==> CacheOk()
      ensures old(CacheOk()) && AllClean(Elements(roles) - {""}, Elements(objects), act) ==>
                (granted <==> AnyAllowed(enforcer.store, Elements(roles) - {""}, Elements(objects), act))
    {
      ghost var sound, clean := CacheOk(), AllClean(Elements(roles) - {""}, Elements(objects), act);
      for i := 0 to |roles|
        invariant View() == old(View()).(cache := View().cache)
        invariant sound ==> CacheOk()
        invariant sound && clean ==> !AnyAllowed(enforcer.store, Elements(roles[..i]) - {""}, Elements(objects), act)
      {
        NextRoleSubject(roles, i);
        if roles[i] == "" {
          continue;
        }
        NextSubject(enforcer.store, Elements(roles[..i]) - {""}, roles[i], Elements(roles) - {""}, Elements(objects), act);
        granted := CheckSubject(roles[i], objects, act, now);
        if granted {
          return;
        }
      }
      assert roles[..|roles|] == roles;
      granted := false;
    }

    /** `names` is what the reader lists; without a reader the answer is the empty list. */
    method GetAccessibleProjects(reader: Reader, names: Option<seq<string>>, user: string, groups: seq<string>, now: int) returns (r: Option<seq<string>>)
      modifies cache
      ensures View() == old(View()).(cache := View().cache)
      ensures old(CacheOk()) ==> CacheOk()
      ensures r == None <==> reader.present && names == None
      ensures !reader.present || user == "" ==> r == None || r.value == []
      ensures old(CacheOk()) && reader.present && names.Some? && user != ""
              && CleanRequest(enforcer.store, reader, Request(user, groups, "projects/*", "get"))
              && CleanList(enforcer.store, reader, user, groups, names.value)
              ==> r == Some(Accessible(enforcer.store, reader, user, groups, names.value))
                  && (if Granted(enforcer.store, reader, Request(user, groups, "projects/*", "get")) then r.value == names.value
                      else forall n :: n in r.value <==> n in names.value && Granted(enforcer.store, reader, ProjectRequest(user, groups, n)))
    {
      if !reader.present {
        return Some([]);
      }
      if names == None {
        return None;
      }
      var projects := names.value;
      AccessibleExactly(enforcer.store, reader, user, groups, projects);
      var wildcard := CanAccessWithGroups(reader, Request(user, groups, "projects/*", "get"), now);
      if wildcard == Some(true) {
        return Some(projects);
      }
      var kept := KeepGranted(reader, projects, user, groups, now);
      return Some(kept);
    }

    /** One request per project; a refusal does not stop the loop. */
    method KeepGranted(reader: Reader, projects: seq<string>, user: string, groups: seq<string>, now: int) returns (kept: seq<string>)
      modifies cache
      ensures View() == old(View()).(cache := View().cache)
      ensures old(CacheOk()) ==> CacheOk()
      ensures user == "" ==> kept == []
      ensures old(CacheOk()) && user != "" && CleanList(enforcer.store, reader, user, groups, projects)
              ==> kept == AccessibleByLoop(enforcer.store, reader, user, groups, projects)
    {
      ghost var sound, clean := CacheOk(), CleanList(enforcer.store, reader, user, groups, projects);
      kept := [];
      for i := 0 to |projects|
        invariant View() == old(View()).(cache := View().cache)
        invariant sound ==> CacheOk()
        invariant user == "" ==> kept == []
        invariant sound && clean && user != "" ==> kept == AccessibleByLoop(enforcer.store, reader, user, groups, projects[..i])
      {
        NextProject(enforcer.store, reader, user, groups, projects, i);
        var access := CanAccessWithGroups(reader, ProjectRequest(user, groups, projects[i]), now);
        if access == Some(true) {
          kept := kept + [projects[i]];
        }
      }
      assert projects[..|projects|] == projects;
    }
  }

  lemma {:induction false} CompileRoleSteps(project: string, role: Role, roleName: string)
    requires role.name != "" && FormatProjectRole(project, role.name) == Some(roleName)
    ensures var custom := AddScopedRules(project, roleName, role.policies, role.destinations);
            var more := Then(AdminPart(project, roleName, role), ReadonlyPart(project, roleName, role));
            CompileRole(project, role)
            == if custom.failed || more.failed then Then(custom, more)
               else Then(Then(custom, more), Compiled({}, GroupBindings(roleName, role.groups), false))
  {
    ThenAssociative(AddScopedRules(project, roleName, role.policies, role.destinations),
                    AdminPart(project, roleName, role), ReadonlyPart(project, roleName, role));
  }

  lemma {:induction false} ThenAssociative(a: Compiled, b: Compiled, c: Compiled)
    ensures Then(Then(a, b), c) == Then(a, Then(b, c))
  {
  }

  lemma {:induction false} NextRole(base: Store, project: string, roles: seq<Role>, i: nat)
    requires i < |roles| && !CompileRoles(project, roles[..i]).failed
    ensures AddCompiled(AddCompiled(base, CompileRoles(project, roles[..i])), CompileRole(project, roles[i]))
            == AddCompiled(base, CompileRoles(project, roles[..i + 1]))
    ensures CompileRoles(project, roles[..i + 1]).failed == CompileRole(project, roles[i]).failed
  {
    assert roles[..i + 1][..i] == roles[..i];
    ThenStore(base, CompileRoles(project, roles[..i]), CompileRole(project, roles[i]));
  }

  lemma {:induction false} NextBinding(project: string, bindings: seq<Binding>, i: nat)
    requires i < |bindings|
    ensures BindingTuples(project, bindings[..i + 1]) == BindingTuples(project, bindings[..i]) + BindingTuple(project, bindings[i])
  {
    assert bindings[..i + 1] == bindings[..i] + [bindings[i]];
  }

  // ---- objects to check ----

  predicate Named(obj: string, res: string) {
    HasPrefix(obj, res + "/") && obj != res + "/*"
  }

  function NamedObjects(policies: seq<Policy>, res: string): (objects: set<string>) {
    set p | p in policies && Named(p.obj, res) :: p.obj
  }

  lemma {:induction false} NextNamed(policies: seq<Policy>, i: nat, res: string)
    requires i < |policies|
    ensures NamedObjects(policies[..i + 1], res)
            == NamedObjects(policies[..i], res) + if Named(policies[i].obj, res) then {policies[i].obj} else {}
  {
    assert policies[..i + 1] == policies[..i] + [policies[i]];
  }

  lemma {:induction false} AddedToList(list: seq<string>, o: string)
    ensures Elements(list + [o]) == Elements(list) + {o}
  {
  }

  lemma {:induction false} NamedAreRoleObjects(store: Store, role: string, policies: seq<Policy>, res: string)
    requires forall p :: p in policies <==> p in store.policies && p.sub == role
    ensures NamedObjects(policies, res) == RoleObjects(store, role, res)
  {
  }

  /** Everything marked as seen is already in the list. */
  ghost predicate Listed(res: string, wildcards: seq<string>, seenProjects: set<string>, seenObjects: set<string>) {
    && (forall n | n in seenProjects :: ProjectWide(res, n) in wildcards)
    && (forall o | o in seenObjects :: o in wildcards)
  }

  lemma {:induction false} NextGroup(store: Store, groups: seq<string>, i: nat, res: string)
    requires i < |groups|
    ensures var subject := FormatGroupSubject(groups[i]);
            forall o :: o in ScopedWildcards(store, groups[..i + 1], res)
              <==> o in ScopedWildcards(store, groups[..i], res)
                   || (subject.Some? && exists r :: r in RolesOf(store.groupings, subject.value) && o in RoleWildcards(store, r, res))
  {
    assert groups[..i + 1] == groups[..i] + [groups[i]];
    var subject := FormatGroupSubject(groups[i]);
    assert GroupSubjects(groups[..i + 1]) == GroupSubjects(groups[..i]) + (if subject.Some? then {subject.value} else {});
  }

  ghost predicate AllClean(subjects: set<string>, objects: set<string>, act: string) {
    (forall s | s in subjects :: Free(s, NUL)) && (forall o | o in objects :: Free(o, NUL)) && Free(act, NUL)
  }

  /** The request and everything it leads to hold no NUL byte. */
  ghost predicate CleanRequest(store: Store, reader: Reader, q: Request) {
    AllClean(SubjectsAsked(store, q.user, q.groups), ObjectsAsked(store, reader, q), q.act)
  }

  lemma {:induction false} AllowedInParts(store: Store, a: set<string>, b: set<string>, c: set<string>, objects: set<string>, act: string)
    ensures AnyAllowed(store, a + b + c, objects, act)
            <==> AnyAllowed(store, a, objects, act) || AnyAllowed(store, b, objects, act) || AnyAllowed(store, c, objects, act)
    ensures AllClean(a + b + c, objects, act) ==>
              AllClean(a, objects, act) && AllClean(b, objects, act) && AllClean(c, objects, act)
  {
  }

  /** One more object of the list: allowed when it is. */
  lemma {:induction false} NextObject(store: Store, sub: string, objects: seq<string>, i: nat, act: string)
    requires i < |objects|
    ensures AnyAllowed(store, {sub}, Elements(objects[..i + 1]), act)
            <==> AnyAllowed(store, {sub}, Elements(objects[..i]), act) || Enforce(store, sub, objects[i], act)
    ensures Enforce(store, sub, objects[i], act) ==> AnyAllowed(store, {sub}, Elements(objects), act)
    ensures AllClean({sub}, Elements(objects), act) ==> Clean(sub, objects[i], act)
  {
    assert objects[..i + 1] == objects[..i] + [objects[i]];
    assert objects[i] in Elements(objects) && sub in {sub};
    assert Elements(objects[..i + 1]) == Elements(objects[..i]) + {objects[i]};
  }

  /** One more subject out of `all`. */
  lemma {:induction false} NextSubject(store: Store, before: set<string>, sub: string, all: set<string>, objects: set<string>, act: string)
    requires sub in all
    ensures AnyAllowed(store, before + {sub}, objects, act) <==> AnyAllowed(store, before, objects, act) || AnyAllowed(store, {sub}, objects, act)
    ensures AnyAllowed(store, {sub}, objects, act) ==> AnyAllowed(store, all, objects, act)
    ensures AllClean(all, objects, act) ==> AllClean({sub}, objects, act)
  {
  }

  lemma {:induction false} NextGroupSubject(groups: seq<string>, i: nat)
    requires i < |groups|
    ensures var subject := FormatGroupSubject(groups[i]);
            if subject == None then GroupSubjects(groups[..i + 1]) == GroupSubjects(groups[..i])
            else subject.value in GroupSubjects(groups) && GroupSubjects(groups[..i + 1]) == GroupSubjects(groups[..i]) + {subject.value}
  {
    assert groups[..i + 1] == groups[..i] + [groups[i]];
  }

  lemma {:induction false} NextRoleSubject(roles: seq<string>, i: nat)
    requires i < |roles|
    ensures if roles[i] == "" then Elements(roles[..i + 1]) - {""} == Elements(roles[..i]) - {""}
            else roles[i] in Elements(roles) - {""} && Elements(roles[..i + 1]) - {""} == Elements(roles[..i]) - {""} + {roles[i]}
  {
    assert roles[..i + 1] == roles[..i] + [roles[i]];
    assert Elements(roles[..i + 1]) == Elements(roles[..i]) + {roles[i]};
  }

  /** The requests for all projects of the list hold none either. */
  ghost predicate CleanList(store: Store, reader: Reader, user: string, groups: seq<string>, names: seq<string>) {
    forall n | n in names :: CleanRequest(store, reader, ProjectRequest(user, groups, n))
  }

  lemma {:induction false} NextProject(store: Store, reader: Reader, user: string, groups: seq<string>, names: seq<string>, i: nat)
    requires i < |names|
    ensures AccessibleByLoop(store, reader, user, groups, names[..i + 1])
            == AccessibleByLoop(store, reader, user, groups, names[..i])
               + if Granted(store, reader, ProjectRequest(user, groups, names[i])) then [names[i]] else []
    ensures CleanList(store, reader, user, groups, names) ==> CleanRequest(store, reader, ProjectRequest(user, groups, names[i]))
  {
    assert names[..i + 1][..i] == names[..i] && names[i] in names;
  }

  // ---- restoring ----

  function ValidBindings(user: string, roles: set<string>): (g: set<Grouping>) {
    set r | r in roles && r != "" && IsValidRoleFormat(r) :: Grouping(user, r)
  }

  function RestoredOf(allRoles: map<string, set<string>>, users: seq<string>): (g: set<Grouping>) {
    set u, e | u in users && u in allRoles && e in ValidBindings(u, allRoles[u]) :: e
  }

  lemma {:induction false} RestoredIsAll(persisted: map<string, set<string>>, users: seq<string>)
    requires forall u :: u in users <==> u in Loadable(persisted)
    ensures RestoredOf(Loadable(persisted), users) == Restored(persisted)
  {
    forall e | e in Restored(persisted) ensures e in RestoredOf(Loadable(persisted), users) {
      assert e.user in Loadable(persisted) && e in ValidBindings(e.user, Loadable(persisted)[e.user]);
    }
  }

  lemma {:induction false} RemoveNone(store: Store)
    ensures RemoveProjects(store, {}) == store
  {
  }

  lemma {:induction false} SameRoles(list: seq<string>, roles: set<string>)
    requires forall r :: r in list <==> r in roles
    ensures (set r | r in list) == roles && (|list| == 0 <==> roles == {})
  {
    if |list| > 0 {
      assert list[0] in roles;
    }
  }

  lemma {:induction false} NextListed(st: State, listed: seq<Project>, i: nat)
    requires i < |listed|
    ensures Names(listed[..i + 1]) == Names(listed[..i]) + {listed[i].name}
    ensures var s := SyncLoads(st, listed[..i]);
            SyncLoads(st, listed[..i + 1])
            == if listed[i].name == "" then s.(ok := false)
               else if Compile(listed[i]).failed then s.(store := LoadStore(s.store, listed[i]), ok := false)
               else s.(store := LoadStore(s.store, listed[i]), loaded := s.loaded + {listed[i].name})
  {
    assert listed[..i + 1] == listed[..i] + [listed[i]] && listed[..i + 1][..i] == listed[..i];
  }

  /** Accepting a role list one element at a time. */
  /** One more role: skipped when empty, the end of the list when invalid, and otherwise bound. */
  lemma {:induction false} NextAccepted(user: string, roles: seq<string>, i: nat)
    requires i < |roles| && RolesValid(roles[..i])
    ensures if roles[i] == "" then RolesValid(roles[..i + 1]) && Accepted(roles[..i + 1]) == Accepted(roles[..i])
            else if IsValidRoleFormat(roles[i]) then
              && RolesValid(roles[..i + 1])
              && Bind(user, Accepted(roles[..i + 1])) == Bind(user, Accepted(roles[..i])) + {Grouping(user, roles[i])}
            else !RolesValid(roles) && Accepted(roles) == Accepted(roles[..i])
  {
    if roles[i] == "" || IsValidRoleFormat(roles[i]) {
      assert roles[..i + 1] == roles[..i] + [roles[i]];
      assert RolesValid(roles[..i + 1]);
      assert Accepted(roles[..i + 1]) == Accepted(roles[..i]) + (if roles[i] == "" then {} else {roles[i]});
    } else {
      assert roles[i] in roles;
      AcceptedStops(roles, i);
    }
  }

  lemma {:induction false} AcceptedStops(roles: seq<string>, i: nat)
    requires i < |roles| && RolesValid(roles[..i]) && roles[i] != "" && !IsValidRoleFormat(roles[i])
    ensures Accepted(roles) == Accepted(roles[..i])
  {
    if i > 0 {
      assert roles[0] in roles[..i];
      assert roles[1..][..i - 1] == roles[..i][1..];
      AcceptedStops(roles[1..], i - 1);
    }
  }
}
