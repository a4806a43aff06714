/** Tenant isolation end to end: from the policy strings of a project, through compilation and loading,
    to the decisions of the enforcer. */
module Tenancy {
  import opened Text
  import opened Wrappers
  import opened Subjects
  import opened Casbin
  import opened Scoping
  import opened Policies
  import opened RbacState
  import opened Rebuild

  /** Everything the pattern matches lies in the project or in the shared catalog. */
  ghost predicate CoversOnly(project: string, pattern: string) {
    forall request :: KeyMatch(request, pattern) ==> InProject(project, request)
  }

  ghost predicate OnlyInside(project: string, c: Compiled) {
    forall p | p in c.policies :: CoversOnly(project, p.obj)
  }

  /** Whether a pattern stays inside can be read off its text before the first star. */
  predicate PatternInside(project: string, pattern: string) {
    var i := IndexFrom(pattern, "*", 0);
    if i == -1 then InProject(project, pattern) else HeadInside(project, pattern[..i])
  }

  predicate HeadInside(project: string, head: string) {
    HasPrefix(head, "rgds/") || exists res | res in SCOPED_RESOURCES :: HasPrefix(head, res + "/" + project + "/")
  }

  lemma {:induction false} CoversOnlyExactly(project: string, pattern: string)
    ensures CoversOnly(project, pattern) <==> PatternInside(project, pattern)
  {
    var stem, rest := CutAtStar(pattern);
    if pattern == stem {
      NoStar(stem);
      forall request ensures KeyMatch(request, pattern) <==> request == pattern {
        KeyMatchMeaning(request, stem, rest);
      }
    } else {
      FirstStar(stem, rest);
      assert pattern[..|stem|] == stem;
      StarredCovers(project, stem, rest);
    }
  }

  lemma {:induction false} StarredCovers(project: string, head: string, rest: string)
    requires Free(head, '*')
    ensures CoversOnly(project, head + "*" + rest) <==> HeadInside(project, head)
  {
    forall request ensures KeyMatch(request, head + "*" + rest) <==> HasPrefix(request, head) {
      KeyMatchMeaning(request, head, rest);
    }
    if HeadInside(project, head) {
      forall request | HasPrefix(request, head) ensures InProject(project, request) {
        HeadInsideWidens(project, head, request);
      }
    } else {
      NotInsideLeaks(project, head);
      assert KeyMatch(head, head + "*" + rest) && KeyMatch(head + "!", head + "*" + rest);
    }
  }

  lemma {:induction false} HeadInsideWidens(project: string, head: string, request: string)
    requires HeadInside(project, head) && HasPrefix(request, head)
    ensures InProject(project, request)
  {
  }

  lemma {:induction false} NotInsideLeaks(project: string, head: string)
    requires !HeadInside(project, head)
    ensures !InProject(project, head) || !InProject(project, head + "!")
  {
    if InProject(project, head) {
      OneTooLong(project);
    }
  }

  lemma {:induction false} OneTooLong(project: string)
    ensures !InProject(project, "projects/" + project + "!")
  {
    var request := "projects/" + project + "!";
    assert request[0] == 'p';
  }

  /** The object of a custom rule is a wildcard form, or an explicit object inside the project. */
  predicate SafeRule(project: string, text: string) {
    var r := ParseRule(text);
    r.Ok? && r.value.Some? ==> IsWildcardForm(project, r.value.value.obj) || PatternInside(project, r.value.value.obj)
  }

  // ---- custom rules ----

  /** Scoping a custom rule confines it to its project exactly when the rule is safe. */
  lemma {:induction false} ScopedRuleInsideExactly(project: string, role: string, text: string, destinations: seq<string>)
    requires Free(project, '*')
    ensures OnlyInside(project, AddScopedRule(project, role, text, destinations)) <==> SafeRule(project, text)
  {
    var r := ParseRule(text);
    if r.Ok? && r.value.Some? {
      var rule := r.value.value;
      CoversOnlyExactly(project, rule.obj);
      var objects, actions := ScopeObject(project, rule.obj, destinations), NormalizeAction(rule.act);
      if IsWildcardForm(project, rule.obj) {
        forall o, request | o in objects && KeyMatch(request, o)
          ensures InProject(project, request)
        {
          ScopedFormStaysInProject(project, rule.obj, destinations, request);
        }
      } else {
        assert objects == [rule.obj];
        assert Policy(role, rule.obj, actions[0], rule.eft) in Tuples(role, objects, actions, rule.eft);
      }
    }
  }

  lemma {:induction false} NotAWildcardForm(project: string, other: string)
    requires Free(project, '/') && other != ""
    ensures !IsWildcardForm(project, "instances/" + other + "/*")
  {
    var obj := "instances/" + other + "/*";
    assert obj[0] == 'i' && |obj| > 12;
    assert obj[..|obj| - 2][9] == '/';
    assert (project + "/*")[..|project|] == project;
  }

  lemma {:induction false} OtherInstanceOutside(project: string, other: string)
    requires Free(project, '/') && Free(other, '/') && other != project
    ensures !InProject(project, "instances/" + other + "/x")
  {
    var request := "instances/" + other + "/x";
    assert request[0] == 'i';
    forall res | res in SCOPED_RESOURCES ensures !HasPrefix(request, res + "/" + project + "/") {
      if res == "instances" {
        OtherName(project, other);
      } else {
        DifferentHeads(request, res + "/" + project + "/", 0);
      }
    }
    DifferentHeads(request, "rgds/", 0);
    DifferentHeads(request, "projects/" + project, 0);
  }

  lemma {:induction false} OtherName(project: string, other: string)
    requires Free(project, '/') && Free(other, '/') && other != project
    ensures !HasPrefix("instances/" + other + "/x", "instances/" + project + "/")
  {
    var request, prefix := "instances/" + other + "/x", "instances/" + project + "/";
    if HasPrefix(request, prefix) {
      assert request == "instances/" + (other + "/x") && prefix == "instances/" + (project + "/");
      StripPrefix("instances/", other + "/x", project + "/");
      FirstCutUnique(other, "x", '/', project, (other + "/x")[|project| + 1..]);
    }
  }

  /** Scoping passes an explicit object through as it is: a rule of one project that names another project's
      instances grants exactly those. */
  lemma {:induction false} ExplicitObjectLeaks(project: string, other: string, role: string, act: string, destinations: seq<string>)
    returns (granted: Policy)
    requires Free(project, '/') && Free(other, '*') && Free(other, '/') && Free(other, ',') && other != project && other != ""
    requires Free(act, ',') && Trimmed(act) && |RuleText("instances/" + other + "/*", act, "allow")| <= MAX_PATTERN_LENGTH
    ensures var rule := RuleText("instances/" + other + "/*", act, "allow");
            && !SafeRule(project, rule)
            && granted in AddScopedRule(project, role, rule, destinations).policies
            && granted.sub == role && granted.obj == "instances/" + other + "/*" && granted.eft == "allow"
            && KeyMatch("instances/" + other + "/x", granted.obj) && !InProject(project, "instances/" + other + "/x")
  {
    var obj := "instances/" + other + "/*";
    NotAWildcardForm(project, other);
    InstancePatternTame(other);
    granted := ExplicitRuleAdds(project, role, obj, act, destinations);
    OthersNotInside(project, other, obj, "instances/" + other + "/x");
  }

  lemma {:induction false} OthersNotInside(project: string, other: string, obj: string, request: string)
    requires Free(project, '/') && Free(other, '/') && other != project
    requires request == "instances/" + other + "/x" && KeyMatch(request, obj)
    ensures !InProject(project, request) && !PatternInside(project, obj)
  {
    OtherInstanceOutside(project, other);
    CoversOnlyExactly(project, obj);
  }

  lemma {:induction false} InstancePatternTame(other: string)
    requires Free(other, '*') && Free(other, ',')
    ensures var obj := "instances/" + other + "/*";
            Free(obj, ',') && Trimmed(obj) && KeyMatch("instances/" + other + "/x", obj)
  {
    var obj := "instances/" + other + "/*";
    assert obj[0] == 'i' && obj[|obj| - 1] == '*';
    KeyMatchMeaning("instances/" + other + "/x", "instances/" + other + "/", "");
    assert obj == "instances/" + other + "/" + "*" + "";
    assert "instances/" + other + "/x" == "instances/" + other + "/" + "x";
  }

  lemma {:induction false} ExplicitRuleAdds(project: string, role: string, obj: string, act: string, destinations: seq<string>)
    returns (granted: Policy)
    requires !IsWildcardForm(project, obj) && Free(obj, ',') && Free(act, ',') && Trimmed(obj) && Trimmed(act)
    requires |RuleText(obj, act, "allow")| <= MAX_PATTERN_LENGTH
    ensures granted in AddScopedRule(project, role, RuleText(obj, act, "allow"), destinations).policies
    ensures granted.sub == role && granted.obj == obj && granted.eft == "allow"
    ensures SafeRule(project, RuleText(obj, act, "allow")) <==> PatternInside(project, obj)
  {
    FormattedRuleParses(obj, act, "allow");
    granted := Policy(role, obj, NormalizeAction(act)[0], "allow");
    assert ScopeObject(project, obj, destinations) == [obj];
    assert granted in Tuples(role, [obj], NormalizeAction(act), "allow");
  }

  lemma {:induction false} ScopedRulesInside(project: string, role: string, texts: seq<string>, destinations: seq<string>)
    requires Free(project, '*') && forall t | t in texts :: SafeRule(project, t)
    ensures OnlyInside(project, AddScopedRules(project, role, texts, destinations))
    decreases |texts|
  {
    if |texts| > 0 {
      var n := |texts| - 1;
      ScopedRulesInside(project, role, texts[..n], destinations);
      ScopedRuleInsideExactly(project, role, texts[n], destinations);
    }
  }

  // ---- built-in rules ----

  lemma {:induction false} UnderResource(project: string, res: string, tail: string)
    requires Free(project, '*') && res in SCOPED_RESOURCES
    ensures CoversOnly(project, res + "/" + project + "/" + tail)
  {
    forall request | KeyMatch(request, res + "/" + project + "/" + tail)
      ensures InProject(project, request)
    {
      KeyMatchWidens(request, res + "/" + project + "/", tail);
    }
  }

  lemma {:induction false} AddedRuleInside(project: string, role: string, obj: string, act: string)
    requires Free(obj, ',') && Free(act, ',') && Trimmed(obj) && Trimmed(act) && CoversOnly(project, obj)
    ensures OnlyInside(project, AddRule(role, RuleText(obj, act, "allow")))
  {
    FormattedRuleParses(obj, act, "allow");
  }

  lemma {:induction false} PerDestinationTame(res: string, project: string, dest: string)
    requires res in {"instances", "secrets"}
    ensures PerDestination(res, project, dest) == res + "/" + project + "/" + (dest + "/*")
    ensures Trimmed(PerDestination(res, project, dest))
    ensures Free(project, ',') && Free(dest, ',') ==> Free(PerDestination(res, project, dest), ',')
  {
    var obj := PerDestination(res, project, dest);
    assert obj[0] == res[0] && obj[|obj| - 1] == '*';
  }

  lemma {:induction false} DestinationRulesInside(project: string, role: string, res: string, destinations: seq<string>, act: string)
    requires Free(project, '*') && Free(project, ',') && res in {"instances", "secrets"} && Free(act, ',') && Trimmed(act)
    requires forall d | d in destinations :: Free(d, ',')
    ensures OnlyInside(project, AddDestinationRules(role, res, project, destinations, act, "allow"))
    decreases |destinations|
  {
    if |destinations| > 0 {
      var n := |destinations| - 1;
      var obj := PerDestination(res, project, destinations[n]);
      DestinationRulesInside(project, role, res, destinations[..n], act);
      UnderResource(project, res, destinations[n] + "/*");
      PerDestinationTame(res, project, destinations[n]);
      assert destinations[n] in destinations;
      AddedRuleInside(project, role, obj, act);
    }
  }

  /** Names without the characters that have a meaning in policy strings and patterns. */
  predicate TameName(name: string) {
    Free(name, '*') && Free(name, ',') && Trimmed(name)
  }

  predicate TameDestinations(destinations: seq<string>) {
    forall d | d in destinations :: Free(d, ',')
  }

  lemma {:induction false} BuiltInRuleInside(project: string, role: string, obj: string, act: string, destinations: seq<string>)
    requires TameName(project) && TameDestinations(destinations)
    requires Free(obj, ',') && Free(act, ',') && Trimmed(obj) && Trimmed(act) && CoversOnly(project, obj)
    ensures OnlyInside(project, AddBuiltInRule(role, Allow(obj, act), destinations, project))
  {
    RuleTextParts(obj, act, "allow");
    AddedRuleInside(project, role, obj, act);
    DestinationRulesInside(project, role, "instances", destinations, act);
    DestinationRulesInside(project, role, "secrets", destinations, act);
  }

  /** The objects of built-in rules. */
  predicate BuiltInObject(project: string, obj: string) {
    obj == "rgds/*" || obj == "projects/" + project || exists res | res in SCOPED_RESOURCES :: obj == ProjectWide(res, project)
  }

  lemma {:induction false} BuiltInObjectIsTame(project: string, obj: string)
    requires TameName(project) && BuiltInObject(project, obj)
    ensures Free(obj, ',') && Trimmed(obj) && CoversOnly(project, obj)
  {
    if obj == "rgds/*" || obj == "projects/" + project {
      forall request | KeyMatch(request, obj) ensures InProject(project, request) {
        SingleObjectsStayInProject(project, request);
      }
      assert obj == "projects/" + project ==> obj[|obj| - 1] == project[|project| - 1];
    } else {
      var res :| res in SCOPED_RESOURCES && obj == ProjectWide(res, project);
      UnderResource(project, res, "*");
      assert obj == res + "/" + project + "/" + "*";
      assert obj[0] == res[0] && obj[|obj| - 1] == '*';
    }
  }

  predicate BuiltInPair(project: string, rule: (string, string)) {
    BuiltInObject(project, rule.0) && Free(rule.1, ',') && Trimmed(rule.1)
  }

  lemma {:induction false} BuiltInRulesInside(project: string, role: string, rules: seq<(string, string)>, destinations: seq<string>)
    requires TameName(project) && TameDestinations(destinations)
    requires forall r | r in rules :: BuiltInPair(project, r)
    ensures OnlyInside(project, AddBuiltInRules(role, AllowTexts(rules), destinations, project))
    decreases |rules|
  {
    if |rules| > 0 {
      var n := |rules| - 1;
      BuiltInRulesInside(project, role, rules[..n], destinations);
      assert AllowTexts(rules)[..n] == AllowTexts(rules[..n]);
      assert rules[n] in rules;
      BuiltInObjectIsTame(project, rules[n].0);
      BuiltInRuleInside(project, role, rules[n].0, rules[n].1, destinations);
    }
  }

  lemma {:induction false} WidePair(project: string, res: string, act: string)
    requires res in SCOPED_RESOURCES && Free(act, ',') && Trimmed(act)
    ensures BuiltInPair(project, (ProjectWide(res, project), act))
  {
    assert BuiltInObject(project, ProjectWide(res, project));
  }

  lemma {:induction false} AdminPairs(project: string)
    ensures forall r | r in AdminRules(project) :: BuiltInPair(project, r)
  {
    WidePair(project, "repositories", "*");
    WidePair(project, "instances", "*");
    WidePair(project, "compliance", "get");
    WidePair(project, "compliance", "list");
    WidePair(project, "secrets", "*");
  }

  lemma {:induction false} ReadonlyPairs(project: string)
    ensures forall r | r in ReadonlyRules(project) :: BuiltInPair(project, r)
  {
    forall res, act | res in SCOPED_RESOURCES && act in {"get", "list"} ensures BuiltInPair(project, (ProjectWide(res, project), act)) {
      WidePair(project, res, act);
    }
  }

  // ---- whole projects ----

  predicate TameRole(project: string, role: Role) {
    TameDestinations(role.destinations) && forall t | t in role.policies :: SafeRule(project, t)
  }

  predicate TameProject(project: Project) {
    TameName(project.name) && forall r | r in project.roles :: TameRole(project.name, r)
  }

  lemma {:induction false} RoleInside(project: string, role: Role)
    requires TameName(project) && TameRole(project, role)
    ensures OnlyInside(project, CompileRole(project, role))
  {
    var formatted := FormatProjectRole(project, role.name);
    if role.name != "" && formatted.Some? {
      ScopedRulesInside(project, formatted.value, role.policies, role.destinations);
      AdminPairs(project);
      ReadonlyPairs(project);
      BuiltInRulesInside(project, formatted.value, AdminRules(project), role.destinations);
      BuiltInRulesInside(project, formatted.value, ReadonlyRules(project), role.destinations);
    }
  }

  lemma {:induction false} RolesInside(project: string, roles: seq<Role>)
    requires TameName(project) && forall r | r in roles :: TameRole(project, r)
    ensures OnlyInside(project, CompileRoles(project, roles))
    decreases |roles|
  {
    if |roles| > 0 {
      var n := |roles| - 1;
      RolesInside(project, roles[..n]);
      assert roles[n] in roles;
      RoleInside(project, roles[n]);
    }
  }

  /** Someone whose every role belongs to one project. */
  ghost predicate MemberOnlyOf(store: Store, subject: string, name: string) {
    && !HasPrefix(subject, "role:") && !HasPrefix(subject, "proj:")
    && forall r | r in Reach(store.groupings, subject) && r != subject :: IsProjectRole(name, r)
  }

  /** After any run at all (role events on users or groups, calls that fail), whatever the enforcer allows to a
      member of one project only lies in that project or in the shared catalog, whatever the other projects'
      policies say. */
  lemma {:induction false} TenantIsolation(cfg: Config, persisted: map<string, set<string>>, events: seq<Event>,
                                           name: string, subject: string, request: string, act: string)
    requires var present := HeldAfter(NOTHING_HELD, events).present; name in present ==> TameProject(present[name])
    requires var store := Run(cfg, Fresh(persisted), events).store;
             MemberOnlyOf(store, subject, name) && Enforce(store, subject, request, act)
    ensures InProject(name, request)
  {
    var store, present := Run(cfg, Fresh(persisted), events).store, HeldAfter(NOTHING_HELD, events).present;
    FreshInStep(persisted);
    RunStaysInStep(cfg, Fresh(persisted), NOTHING_HELD, events);
    var p :| p in store.policies && Applies(p, Reach(store.groupings, subject), request, act) && p.eft == "allow";
    PolicyOfMember(store, present, subject, name, p);
    ProjectInside(present[name], p, request);
  }

  lemma {:induction false} ProjectInside(project: Project, p: Policy, request: string)
    requires TameProject(project) && p in Compile(project).policies && KeyMatch(request, p.obj)
    ensures InProject(project.name, request)
  {
    RolesInside(project.name, project.roles);
    assert p in CompileRoles(project.name, project.roles).policies;
  }

  lemma {:induction false} BuiltInNotReached(store: Store, subject: string, name: string)
    requires MemberOnlyOf(store, subject, name)
    ensures forall p | p in BuiltIn() :: p.sub !in Reach(store.groupings, subject)
  {
    BuiltInIsNotProject(name);
    assert HasPrefix("role:serveradmin", "role:") && HasPrefix("role:operator", "role:") && HasPrefix("role:developer", "role:");
  }

  lemma {:induction false} PolicyOfMember(store: Store, cur: map<string, Project>, subject: string, name: string, p: Policy)
    requires WellNamed(cur) && PoliciesBuilt(store.policies, CompileAll(cur)) && MemberOnlyOf(store, subject, name)
    requires p in store.policies && p.sub in Reach(store.groupings, subject)
    ensures name in cur && p in Compile(cur[name]).policies && cur[name].name == name
  {
    var parts := CompileAll(cur);
    BuiltInNotReached(store, subject, name);
    var n :| n in parts && p in parts[n].policies;
    assert FoundBy(n, parts[n]) && IsProjectRole(n, p.sub);
    assert HasPrefix(p.sub, "proj:") by { assert RolePrefix(n)[..5] == "proj:"; }
    assert IsProjectRole(name, p.sub);
  }
}
