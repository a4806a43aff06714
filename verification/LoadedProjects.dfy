/** A loaded project end to end: when a load fails, which policies and bindings it leaves, and what a member of
    one of its roles may do. */
module LoadedProjects {
  import opened Text
  import opened Wrappers
  import opened Subjects
  import opened Casbin
  import opened Scoping
  import opened Policies
  import opened Grants
  import opened ProjectGrants
  import opened RbacState
  import opened Rebuild

  /** What a role of the project grants or denies: its rules, and for admin and readonly, in any letter case,
      the built-in rights. */
  predicate RoleMeans(project: string, role: Role, eft: string, o: string, a: string) {
    || (exists t | t in role.policies :: TextGives(project, t, role.destinations, eft, o, a))
    || (eft == "allow" && Lower(role.name) == "admin" && AdminMeans(project, role.destinations, o, a))
    || (eft == "allow" && Lower(role.name) == "readonly" && ReadonlyMeans(project, role.destinations, o, a))
  }

  /** The role cannot be compiled: its name is not valid, or one of its rules does not parse. */
  predicate RoleFails(project: string, role: Role) {
    role.name != "" && (FormatProjectRole(project, role.name) == None || exists t | t in role.policies :: ParseRule(t).Err?)
  }

  lemma {:induction false} AllowsGives(c: Compiled, role: string, eft: string, o: string, a: string)
    requires Allows(c, role)
    ensures Gives(c, eft, o, a) <==> eft == "allow" && Gives(c, "allow", o, a)
  {
  }

  lemma {:induction false} BuiltInParts(project: string, subject: string, role: Role, eft: string, o: string, a: string)
    requires Fits(project, role.destinations)
    ensures var x, y := AdminPart(project, subject, role), ReadonlyPart(project, subject, role);
            && Allows(x, subject) && Allows(y, subject)
            && (Gives(x, eft, o, a) <==> eft == "allow" && Lower(role.name) == "admin" && AdminMeans(project, role.destinations, o, a))
            && (Gives(y, eft, o, a) <==> eft == "allow" && Lower(role.name) == "readonly" && ReadonlyMeans(project, role.destinations, o, a))
  {
    AdminExactly(project, subject, role.destinations, o, a);
    ReadonlyExactly(project, subject, role.destinations, o, a);
    AllowsGives(AdminPart(project, subject, role), subject, eft, o, a);
    AllowsGives(ReadonlyPart(project, subject, role), subject, eft, o, a);
  }

  lemma {:induction false} RoleParts(project: string, role: Role, subject: string)
    requires role.name != "" && FormatProjectRole(project, role.name) == Some(subject)
    ensures CompileRole(project, role)
            == Then(Then(Then(AddScopedRules(project, subject, role.policies, role.destinations), AdminPart(project, subject, role)),
                         ReadonlyPart(project, subject, role)),
                    Compiled({}, GroupBindings(subject, role.groups), false))
  {
  }

  /** Compiling a role: it fails exactly when it cannot be compiled, and otherwise its policies are the role's own
      and grant exactly what the role means. */
  lemma {:induction false} RoleExactly(project: string, role: Role, subject: string, eft: string, o: string, a: string)
    requires role.name != "" && FormatProjectRole(project, role.name) == Some(subject) && Fits(project, role.destinations)
    ensures var c := CompileRole(project, role);
            && (c.failed <==> exists t | t in role.policies :: ParseRule(t).Err?)
            && (forall p | p in c.policies :: p.sub == subject)
            && (!c.failed ==> (Gives(c, eft, o, a) <==> RoleMeans(project, role, eft, o, a)) && c.groupings == GroupBindings(subject, role.groups))
  {
    RoleParts(project, role, subject);
    RuleListGives(project, subject, role.policies, role.destinations, eft, o, a);
    BuiltInParts(project, subject, role, eft, o, a);
    RoleAssembled(project, role, subject, AddScopedRules(project, subject, role.policies, role.destinations),
                  AdminPart(project, subject, role), ReadonlyPart(project, subject, role), GroupBindings(subject, role.groups), eft, o, a);
  }

  lemma {:induction false} RoleAssembled(project: string, role: Role, subject: string, custom: Compiled, x: Compiled, y: Compiled, bound: set<Grouping>, eft: string, o: string, a: string)
    requires Allows(x, subject) && Allows(y, subject) && custom.groupings == {} && forall p | p in custom.policies :: p.sub == subject
    requires !custom.failed ==> (Gives(custom, eft, o, a) <==> exists t | t in role.policies :: TextGives(project, t, role.destinations, eft, o, a))
    requires Gives(x, eft, o, a) <==> eft == "allow" && Lower(role.name) == "admin" && AdminMeans(project, role.destinations, o, a)
    requires Gives(y, eft, o, a) <==> eft == "allow" && Lower(role.name) == "readonly" && ReadonlyMeans(project, role.destinations, o, a)
    ensures var c := Then(Then(Then(custom, x), y), Compiled({}, bound, false));
            && c.failed == custom.failed && (forall p | p in c.policies :: p.sub == subject)
            && (!c.failed ==> (Gives(c, eft, o, a) <==> RoleMeans(project, role, eft, o, a)) && c.groupings == bound)
  {
    if !custom.failed {
      FourParts(custom, x, y, Compiled({}, bound, false), eft, o, a);
    }
  }

  lemma {:induction false} FourParts(custom: Compiled, x: Compiled, y: Compiled, bound: Compiled, eft: string, o: string, a: string)
    requires !custom.failed && !x.failed && !y.failed && bound.policies == {}
    ensures var c := Then(Then(Then(custom, x), y), bound);
            Gives(c, eft, o, a) <==> Gives(custom, eft, o, a) || Gives(x, eft, o, a) || Gives(y, eft, o, a)
  {
    GivesThen(custom, x, eft, o, a);
    GivesThen(Then(custom, x), y, eft, o, a);
    GivesThen(Then(Then(custom, x), y), bound, eft, o, a);
  }

  lemma {:induction false} RoleFailsExactly(project: string, role: Role)
    requires Fits(project, role.destinations)
    ensures CompileRole(project, role).failed <==> RoleFails(project, role)
  {
    if role.name != "" && FormatProjectRole(project, role.name).Some? {
      RoleExactly(project, role, FormatProjectRole(project, role.name).value, "allow", "", "");
    }
  }

  // ---- all roles ----

  predicate RolesFit(project: string, roles: seq<Role>) {
    forall r | r in roles :: Fits(project, r.destinations)
  }

  /** Compiling a list of roles fails exactly when one of them does, and otherwise is the union of them. */
  lemma {:induction false} RolesExactly(project: string, roles: seq<Role>)
    requires RolesFit(project, roles)
    ensures var c := CompileRoles(project, roles);
            && (c.failed <==> exists r | r in roles :: RoleFails(project, r))
            && (!c.failed ==>
                  && (forall p :: p in c.policies <==> exists r | r in roles :: p in CompileRole(project, r).policies)
                  && (forall e :: e in c.groupings <==> exists r | r in roles :: e in CompileRole(project, r).groupings))
    decreases |roles|
  {
    if roles != [] {
      var n := |roles| - 1;
      assert roles[n] in roles && forall r | r in roles[..n] :: r in roles;
      RolesExactly(project, roles[..n]);
      RoleFailsExactly(project, roles[n]);
      assert forall r :: r in roles <==> r in roles[..n] || r == roles[n];
    }
  }

  /** A load fails exactly when a named role has an invalid name or a rule that does not parse. */
  lemma {:induction false} LoadFailsExactly(project: Project)
    requires RolesFit(project.name, project.roles)
    ensures Compile(project).failed <==> exists r | r in project.roles :: RoleFails(project.name, r)
  {
    RolesExactly(project.name, project.roles);
  }

  // ---- what a loaded role grants ----

  /** Some role of this name in the project means this. */
  predicate NamedRoleMeans(project: Project, name: string, eft: string, o: string, a: string) {
    exists r | r in project.roles :: r.name == name && RoleMeans(project.name, r, eft, o, a)
  }

  ghost predicate SubjectGives(policies: set<Policy>, subject: string, eft: string, o: string, a: string) {
    exists p | p in policies :: p.sub == subject && p.eft == eft && KeyMatch(o, p.obj) && KeyMatch(a, p.act)
  }

  lemma {:induction false} CompiledRoleGives(project: Project, name: string, subject: string, eft: string, o: string, a: string)
    requires !Compile(project).failed && RolesFit(project.name, project.roles)
    requires name != "" && FormatProjectRole(project.name, name) == Some(subject)
    ensures SubjectGives(Compile(project).policies, subject, eft, o, a) <==> NamedRoleMeans(project, name, eft, o, a)
  {
    UnionGives(project, subject, eft, o, a);
    RolesExactly(project.name, project.roles);
    forall r | r in project.roles
      ensures RoleHas(project.name, r, subject, eft, o, a) <==> r.name == name && RoleMeans(project.name, r, eft, o, a)
    {
      OneRoleGives(project.name, r, name, subject, eft, o, a);
    }
  }

  ghost predicate RoleHas(project: string, r: Role, subject: string, eft: string, o: string, a: string) {
    SubjectGives(CompileRole(project, r).policies, subject, eft, o, a)
  }

  lemma {:induction false} UnionGives(project: Project, subject: string, eft: string, o: string, a: string)
    requires !Compile(project).failed && RolesFit(project.name, project.roles)
    ensures SubjectGives(Compile(project).policies, subject, eft, o, a)
            <==> exists r | r in project.roles :: RoleHas(project.name, r, subject, eft, o, a)
  {
    RolesExactly(project.name, project.roles);
    var all := CompileRoles(project.name, project.roles).policies;
    assert Compile(project).policies == all;
    forall r | r in project.roles && RoleHas(project.name, r, subject, eft, o, a) ensures SubjectGives(all, subject, eft, o, a) {
      var p :| p in CompileRole(project.name, r).policies && p.sub == subject && p.eft == eft && KeyMatch(o, p.obj) && KeyMatch(a, p.act);
      assert p in all;
    }
  }

  lemma {:induction false} OneRoleGives(project: string, r: Role, name: string, subject: string, eft: string, o: string, a: string)
    requires !RoleFails(project, r) && Fits(project, r.destinations)
    requires name != "" && FormatProjectRole(project, name) == Some(subject)
    ensures SubjectGives(CompileRole(project, r).policies, subject, eft, o, a) <==> r.name == name && RoleMeans(project, r, eft, o, a)
  {
    if r.name != "" {
      var own := FormatProjectRole(project, r.name).value;
      RoleExactly(project, r, own, eft, o, a);
      if own == subject {
        ProjectRoleInjective(project, r.name, project, name);
      }
    }
  }

  /** After a successful load, the policies of one of the project's roles grant and deny exactly what the roles of
      that name mean, whatever the store held before. */
  lemma {:induction false} LoadedRoleGives(store: Store, project: Project, name: string, subject: string, eft: string, o: string, a: string)
    requires !Compile(project).failed && RolesFit(project.name, project.roles)
    requires name != "" && FormatProjectRole(project.name, name) == Some(subject)
    ensures SubjectGives(LoadStore(store, project).policies, subject, eft, o, a) <==> NamedRoleMeans(project, name, eft, o, a)
  {
    CompiledRoleGives(project, name, subject, eft, o, a);
    LoadCompiles(store, project);
    assert OwnRole(project.name, subject);
  }

  /** A member whose only role is one of the project's, and who has no policies under its own name, is allowed
      exactly what the role grants and does not deny. */
  lemma {:induction false} SoleRoleDecides(store: Store, project: Project, name: string, subject: string, member: string, o: string, a: string)
    requires !Compile(project).failed && RolesFit(project.name, project.roles)
    requires name != "" && FormatProjectRole(project.name, name) == Some(subject)
    requires Reach(LoadStore(store, project).groupings, member) == {member, subject}
    requires forall p | p in LoadStore(store, project).policies :: p.sub != member
    ensures Enforce(LoadStore(store, project), member, o, a)
            <==> NamedRoleMeans(project, name, "allow", o, a) && !NamedRoleMeans(project, name, "deny", o, a)
  {
    LoadedRoleGives(store, project, name, subject, "allow", o, a);
    LoadedRoleGives(store, project, name, subject, "deny", o, a);
    OneSubjectDecides(LoadStore(store, project), member, subject, o, a);
  }

  lemma {:induction false} OneSubjectDecides(store: Store, member: string, subject: string, o: string, a: string)
    requires Reach(store.groupings, member) == {member, subject} && forall p | p in store.policies :: p.sub != member
    ensures Enforce(store, member, o, a)
            <==> SubjectGives(store.policies, subject, "allow", o, a) && !SubjectGives(store.policies, subject, "deny", o, a)
  {
    forall p | p in store.policies
      ensures Applies(p, Reach(store.groupings, member), o, a) <==> p.sub == subject && KeyMatch(o, p.obj) && KeyMatch(a, p.act)
    {
    }
  }

  // ---- bindings ----

  /** The project's roles list the group. */
  predicate ListsGroup(project: Project, name: string, group: string) {
    exists r | r in project.roles :: r.name == name && group in r.groups
  }

  predicate Annotates(project: Project, name: string, subject: string, isGroup: bool) {
    exists b | b in project.bindings :: b.role == name && b.subject == subject && b.isGroup == isGroup
  }

  lemma {:induction false} AnnotatedExactly(project: Project, name: string, role: string, user: string)
    requires FormatProjectRole(project.name, name) == Some(role)
    ensures Grouping(user, role) in BindingTuples(project.name, project.bindings) <==>
      || Annotates(project, name, user, false)
      || exists b | b in project.bindings :: b.isGroup && b.role == name && ValidIdentifier(b.subject) && user == "group:" + b.subject
  {
    forall b | b in project.bindings
      ensures Grouping(user, role) in BindingTuple(project.name, b) <==>
        b.role == name && (if b.isGroup then ValidIdentifier(b.subject) && user == "group:" + b.subject else user == b.subject)
    {
      if FormatProjectRole(project.name, b.role) == Some(role) {
        ProjectRoleInjective(project.name, b.role, project.name, name);
      }
    }
  }

  lemma {:induction false} ListedExactly(role: string, groups: seq<string>, user: string)
    ensures Grouping(user, role) in GroupBindings(role, groups) <==> exists g | g in groups :: ValidIdentifier(g) && user == "group:" + g
  {
    forall g | g in groups ensures FormatGroupSubject(g) == (if ValidIdentifier(g) then Some("group:" + g) else None) {}
  }

  lemma {:induction false} RoleBindsExactly(project: string, r: Role, name: string, role: string, user: string)
    requires !RoleFails(project, r) && Fits(project, r.destinations) && name != "" && FormatProjectRole(project, name) == Some(role)
    ensures Grouping(user, role) in CompileRole(project, r).groupings
            <==> r.name == name && exists g | g in r.groups :: ValidIdentifier(g) && user == "group:" + g
  {
    if r.name != "" {
      var own := FormatProjectRole(project, r.name).value;
      RoleExactly(project, r, own, "allow", "", "");
      ListedExactly(own, r.groups, user);
      if own == role {
        ProjectRoleInjective(project, r.name, project, name);
      }
    }
  }

  /** Who a successful load binds to one of the project's roles: the valid groups that the roles of that name list,
      the valid groups and the users that annotations name, and nobody else. */
  lemma {:induction false} BoundExactly(project: Project, name: string, role: string, user: string)
    requires !Compile(project).failed && RolesFit(project.name, project.roles)
    requires name != "" && FormatProjectRole(project.name, name) == Some(role)
    ensures Grouping(user, role) in Compile(project).groupings <==>
      || (exists r | r in project.roles :: r.name == name && exists g | g in r.groups :: ValidIdentifier(g) && user == "group:" + g)
      || Annotates(project, name, user, false)
      || (exists b | b in project.bindings :: b.isGroup && b.role == name && ValidIdentifier(b.subject) && user == "group:" + b.subject)
  {
    RolesExactly(project.name, project.roles);
    AnnotatedExactly(project, name, role, user);
    forall r | r in project.roles
      ensures Grouping(user, role) in CompileRole(project.name, r).groupings
              <==> r.name == name && exists g | g in r.groups :: ValidIdentifier(g) && user == "group:" + g
    {
      RoleBindsExactly(project.name, r, name, role, user);
    }
  }

  /** So a listed group is a member after the load, whatever the store held before. */
  lemma {:induction false} ListedGroupIsMember(store: Store, project: Project, name: string, role: string, group: string)
    requires !Compile(project).failed && RolesFit(project.name, project.roles)
    requires name != "" && FormatProjectRole(project.name, name) == Some(role) && ListsGroup(project, name, group) && ValidIdentifier(group)
    ensures role in Reach(LoadStore(store, project).groupings, "group:" + group)
  {
    BoundExactly(project, name, role, "group:" + group);
    var g := LoadStore(store, project).groupings;
    ClosureIsLeast(g, {"group:" + group});
    assert Grouping("group:" + group, role) in g;
  }

  /** And an annotated user. */
  lemma {:induction false} AnnotatedUserIsMember(store: Store, project: Project, name: string, role: string, user: string)
    requires !Compile(project).failed && RolesFit(project.name, project.roles)
    requires name != "" && FormatProjectRole(project.name, name) == Some(role) && Annotates(project, name, user, false)
    ensures role in Reach(LoadStore(store, project).groupings, user)
  {
    BoundExactly(project, name, role, user);
    var g := LoadStore(store, project).groupings;
    ClosureIsLeast(g, {user});
    assert Grouping(user, role) in g;
  }

  // ---- the server's own roles ----

  lemma {:induction false} BrowseGives(role: string, category: string, head: string, subject: string, o: string, a: string)
    requires Free(category, '*') && head == "rgds/" + category + "/"
    ensures SubjectGives(Browse(role, category), subject, "allow", o, a)
            <==> subject == role && (a == "get" || a == "list") && HasPrefix(o, head)
  {
    var obj := "rgds/" + category + "/*";
    MatchesUnder(o, "rgds/" + category + "/");
    assert obj == "rgds/" + category + "/" + "*";
    MatchesLiteral(a, "get");
    MatchesLiteral(a, "list");
    assert Policy(role, obj, "get", "allow") in Browse(role, category) && Policy(role, obj, "list", "allow") in Browse(role, category);
  }

  lemma {:induction false} GivesUnion(x: set<Policy>, y: set<Policy>, subject: string, eft: string, o: string, a: string)
    ensures SubjectGives(x + y, subject, eft, o, a) <==> SubjectGives(x, subject, eft, o, a) || SubjectGives(y, subject, eft, o, a)
  {
    assert forall p | p in x || p in y :: p in x + y;
  }

  function AdminPolicies(): set<Policy> {
    set obj | obj in SERVER_ADMIN_OBJECTS :: Policy("role:serveradmin", obj, "*", "allow")
  }

  lemma {:induction false} AdminPoliciesGive(subject: string, o: string, a: string)
    ensures SubjectGives(AdminPolicies(), subject, "allow", o, a) <==> subject == "role:serveradmin"
  {
    assert Policy("role:serveradmin", "*", "*", "allow") in AdminPolicies();
    MatchesUnder(o, "");
    MatchesUnder(a, "");
    assert "" + "*" == "*";
  }

  /** What a fresh server grants: everything to its administrators, browsing three categories of the catalog to
      operators and two to developers, nothing to anyone else; and it denies nothing. */
  lemma {:induction false} FreshServerGrants(subject: string, o: string, a: string)
    ensures SubjectGives(BuiltIn(), subject, "allow", o, a) <==>
      || subject == "role:serveradmin"
      || (subject == "role:operator" && (a == "get" || a == "list")
          && (HasPrefix(o, "rgds/infrastructure/") || HasPrefix(o, "rgds/networking/") || HasPrefix(o, "rgds/storage/")))
      || (subject == "role:developer" && (a == "get" || a == "list")
          && (HasPrefix(o, "rgds/applications/") || HasPrefix(o, "rgds/observability/")))
    ensures !SubjectGives(BuiltIn(), subject, "deny", o, a)
  {
    BuiltInParts6(subject, o, a);
    AdminPoliciesGive(subject, o, a);
    OperatorBrowses(subject, o, a);
    DeveloperBrowses(subject, o, a);
  }

  lemma {:induction false} BuiltInParts6(subject: string, o: string, a: string)
    ensures SubjectGives(BuiltIn(), subject, "allow", o, a) <==>
      || SubjectGives(AdminPolicies(), subject, "allow", o, a)
      || SubjectGives(Browse("role:operator", "infrastructure"), subject, "allow", o, a)
      || SubjectGives(Browse("role:operator", "networking"), subject, "allow", o, a)
      || SubjectGives(Browse("role:operator", "storage"), subject, "allow", o, a)
      || SubjectGives(Browse("role:developer", "applications"), subject, "allow", o, a)
      || SubjectGives(Browse("role:developer", "observability"), subject, "allow", o, a)
  {
    GivesSix(AdminPolicies(), Browse("role:operator", "infrastructure"), Browse("role:operator", "networking"), Browse("role:operator", "storage"),
             Browse("role:developer", "applications"), Browse("role:developer", "observability"), subject, "allow", o, a);
  }

  lemma {:induction false} GivesSix(p0: set<Policy>, p1: set<Policy>, p2: set<Policy>, p3: set<Policy>, p4: set<Policy>, p5: set<Policy>,
                                    subject: string, eft: string, o: string, a: string)
    ensures SubjectGives(p0 + p1 + p2 + p3 + p4 + p5, subject, eft, o, a) <==>
      || SubjectGives(p0, subject, eft, o, a) || SubjectGives(p1, subject, eft, o, a) || SubjectGives(p2, subject, eft, o, a)
      || SubjectGives(p3, subject, eft, o, a) || SubjectGives(p4, subject, eft, o, a) || SubjectGives(p5, subject, eft, o, a)
  {
    GivesUnion(p0 + p1 + p2 + p3 + p4, p5, subject, eft, o, a);
    GivesUnion(p0 + p1 + p2 + p3, p4, subject, eft, o, a);
    GivesUnion(p0 + p1 + p2, p3, subject, eft, o, a);
    GivesUnion(p0 + p1, p2, subject, eft, o, a);
    GivesUnion(p0, p1, subject, eft, o, a);
  }

  lemma {:induction false} OperatorBrowses(subject: string, o: string, a: string)
    ensures SubjectGives(Browse("role:operator", "infrastructure"), subject, "allow", o, a)
            <==> subject == "role:operator" && (a == "get" || a == "list") && HasPrefix(o, "rgds/infrastructure/")
    ensures SubjectGives(Browse("role:operator", "networking"), subject, "allow", o, a)
            <==> subject == "role:operator" && (a == "get" || a == "list") && HasPrefix(o, "rgds/networking/")
    ensures SubjectGives(Browse("role:operator", "storage"), subject, "allow", o, a)
            <==> subject == "role:operator" && (a == "get" || a == "list") && HasPrefix(o, "rgds/storage/")
  {
    BrowseGives("role:operator", "infrastructure", "rgds/infrastructure/", subject, o, a);
    BrowseGives("role:operator", "networking", "rgds/networking/", subject, o, a);
    BrowseGives("role:operator", "storage", "rgds/storage/", subject, o, a);
  }

  lemma {:induction false} DeveloperBrowses(subject: string, o: string, a: string)
    ensures SubjectGives(Browse("role:developer", "applications"), subject, "allow", o, a)
            <==> subject == "role:developer" && (a == "get" || a == "list") && HasPrefix(o, "rgds/applications/")
    ensures SubjectGives(Browse("role:developer", "observability"), subject, "allow", o, a)
            <==> subject == "role:developer" && (a == "get" || a == "list") && HasPrefix(o, "rgds/observability/")
  {
    BrowseGives("role:developer", "applications", "rgds/applications/", subject, o, a);
    BrowseGives("role:developer", "observability", "rgds/observability/", subject, o, a);
  }
}
