/** What a loaded project grants: its roles' rules, the built-in rights of admin and readonly roles, and the
    bindings it declares, each exactly. */
module ProjectGrants {
  import opened Text
  import opened Wrappers
  import opened Subjects
  import opened Casbin
  import opened Scoping
  import opened Policies
  import opened Grants
  import opened RbacState
  import opened Rebuild

  lemma {:induction false} GivesThen(x: Compiled, y: Compiled, eft: string, o: string, a: string)
    requires !x.failed
    ensures Gives(Then(x, y), eft, o, a) <==> Gives(x, eft, o, a) || Gives(y, eft, o, a)
  {
    assert forall p | p in x.policies || p in y.policies :: p in Then(x, y).policies;
  }

  // ---- the custom rules of a role ----

  /** The rule text grants or denies this in its project. */
  predicate TextGives(project: string, text: string, destinations: seq<string>, eft: string, o: string, a: string) {
    var r := ParseRule(text);
    r.Ok? && r.value.Some? && r.value.value.eft == eft
    && ObjectGiven(project, r.value.value.obj, destinations, o) && ActionGiven(r.value.value.act, a)
  }

  lemma {:induction false} ScopedRuleGives(project: string, role: string, text: string, destinations: seq<string>, eft: string, o: string, a: string)
    ensures var c := AddScopedRule(project, role, text, destinations);
            && (c.failed <==> ParseRule(text).Err?)
            && (Gives(c, eft, o, a) <==> TextGives(project, text, destinations, eft, o, a))
            && (forall p | p in c.policies :: p.sub == role) && c.groupings == {}
  {
    var r := ParseRule(text);
    if r.Ok? && r.value.Some? {
      RuleGivesExactly(project, role, text, destinations, r.value.value, o, a);
    }
  }

  /** A list of rules fails exactly when one does not parse, and otherwise gives what its rules give. */
  lemma {:induction false} RuleListGives(project: string, role: string, texts: seq<string>, destinations: seq<string>, eft: string, o: string, a: string)
    ensures var c := AddScopedRules(project, role, texts, destinations);
            && (c.failed <==> exists t | t in texts :: ParseRule(t).Err?)
            && (!c.failed ==> (Gives(c, eft, o, a) <==> exists t | t in texts :: TextGives(project, t, destinations, eft, o, a)))
            && (forall p | p in c.policies :: p.sub == role) && c.groupings == {}
    decreases |texts|
  {
    if texts != [] {
      var n := |texts| - 1;
      var before, last := AddScopedRules(project, role, texts[..n], destinations), AddScopedRule(project, role, texts[n], destinations);
      RuleListGives(project, role, texts[..n], destinations, eft, o, a);
      ScopedRuleGives(project, role, texts[n], destinations, eft, o, a);
      if !before.failed {
        GivesThen(before, last, eft, o, a);
      }
      assert forall t :: t in texts <==> t in texts[..n] || t == texts[n];
    }
  }

  // ---- built-in rules ----

  /** Names and destinations for which built-in rule texts stay within the accepted length. */
  predicate Fits(project: string, destinations: seq<string>) {
    && Free(project, ',') && project != "" && !IsSpace(project[|project| - 1]) && |project| <= MAX_PROJECT_NAME_LENGTH
    && forall d | d in destinations :: Free(d, ',') && |d| <= 253
  }

  predicate RuleAction(act: string) {
    Free(act, ',') && Trimmed(act) && |act| <= 20
  }

  /** What a built-in rule means: instances and secrets are narrowed to the destinations. */
  predicate PairGives(project: string, obj: string, act: string, destinations: seq<string>, o: string, a: string) {
    && ActionGiven(act, a)
    && if destinations == [] then KeyMatch(o, obj)
       else if obj == "instances/" + project + "/*" then ResourceGiven("instances", project, destinations, o)
       else if obj == "secrets/" + project + "/*" then ResourceGiven("secrets", project, destinations, o)
       else KeyMatch(o, obj)
  }

  /** What compiling an allow rule of one role yields. */
  ghost predicate Allows(c: Compiled, role: string) {
    !c.failed && c.groupings == {} && forall p | p in c.policies :: p.sub == role && p.eft == "allow"
  }

  lemma {:induction false} AllowRuleGives(role: string, obj: string, act: string, o: string, a: string)
    requires Free(obj, ',') && Trimmed(obj) && RuleAction(act) && |obj| <= 450
    ensures var c := AddRule(role, RuleText(obj, act, "allow"));
            Allows(c, role) && (Gives(c, "allow", o, a) <==> KeyMatch(o, obj) && ActionGiven(act, a))
  {
    FormattedRuleParses(obj, act, "allow");
    UnscopedRuleGivesExactly(role, RuleText(obj, act, "allow"), Rule(obj, act, "allow"), o, a);
  }

  lemma {:induction false} DestinationText(res: string, project: string, d: string)
    requires res in {"instances", "secrets"} && Free(project, ',') && Free(d, ',') && |project| <= 128 && |d| <= 253
    ensures var obj := PerDestination(res, project, d);
            Free(obj, ',') && Trimmed(obj) && |obj| <= 450 && obj == res + "/" + project + "/" + d + "/*"
  {
    var obj := PerDestination(res, project, d);
    assert obj[0] == res[0] && obj[|obj| - 1] == '*';
  }

  lemma {:induction false} DestinationRulesGive(project: string, role: string, res: string, destinations: seq<string>, act: string, o: string, a: string)
    requires res in {"instances", "secrets"} && Fits(project, destinations) && RuleAction(act)
    ensures var c := AddDestinationRules(role, res, project, destinations, act, "allow");
            && Allows(c, role)
            && (Gives(c, "allow", o, a) <==>
                  ActionGiven(act, a) && exists d | d in destinations :: KeyMatch(o, res + "/" + project + "/" + d + "/*"))
    decreases |destinations|
  {
    if destinations != [] {
      var n := |destinations| - 1;
      var d := destinations[n];
      assert d in destinations && forall x | x in destinations[..n] :: x in destinations;
      DestinationRulesGive(project, role, res, destinations[..n], act, o, a);
      DestinationText(res, project, d);
      AllowRuleGives(role, PerDestination(res, project, d), act, o, a);
      GivesThen(AddDestinationRules(role, res, project, destinations[..n], act, "allow"),
                AddRule(role, RuleText(PerDestination(res, project, d), act, "allow")), "allow", o, a);
      assert forall x :: x in destinations <==> x in destinations[..n] || x == d;
    }
  }

  /** Which texts a built-in rule stands for. */
  lemma {:induction false} BuiltInCases(project: string, role: string, obj: string, act: string, destinations: seq<string>)
    requires Free(obj, ',') && Trimmed(obj) && RuleAction(act)
    ensures AddBuiltInRule(role, Allow(obj, act), destinations, project)
            == if destinations != [] && obj == "instances/" + project + "/*" then AddDestinationRules(role, "instances", project, destinations, act, "allow")
               else if destinations != [] && obj == "secrets/" + project + "/*" then AddDestinationRules(role, "secrets", project, destinations, act, "allow")
               else AddRule(role, RuleText(obj, act, "allow"))
  {
    RuleTextParts(obj, act, "allow");
    assert "instances/" + project + "/*" == "instances/" + (project + "/*");
    assert "secrets/" + project + "/*" == "secrets/" + (project + "/*");
  }

  lemma {:induction false} BuiltInRuleGives(project: string, role: string, obj: string, act: string, destinations: seq<string>, o: string, a: string)
    requires Fits(project, destinations) && Free(obj, ',') && Trimmed(obj) && |obj| <= 450 && RuleAction(act)
    ensures var c := AddBuiltInRule(role, Allow(obj, act), destinations, project);
            Allows(c, role) && (Gives(c, "allow", o, a) <==> PairGives(project, obj, act, destinations, o, a))
  {
    BuiltInCases(project, role, obj, act, destinations);
    if destinations != [] && obj == "instances/" + project + "/*" {
      DestinationRulesGive(project, role, "instances", destinations, act, o, a);
    } else if destinations != [] && obj == "secrets/" + project + "/*" {
      DestinationRulesGive(project, role, "secrets", destinations, act, o, a);
    } else {
      AllowRuleGives(role, obj, act, o, a);
    }
  }

  predicate RuleShape(rule: (string, string)) {
    ObjectFits(rule.0) && RuleAction(rule.1)
  }

  predicate SomePairGives(project: string, rules: seq<(string, string)>, destinations: seq<string>, o: string, a: string) {
    exists r | r in rules :: PairGives(project, r.0, r.1, destinations, o, a)
  }

  lemma {:induction false} SomePairLast(project: string, rules: seq<(string, string)>, destinations: seq<string>, o: string, a: string)
    requires rules != []
    ensures var n := |rules| - 1;
            SomePairGives(project, rules, destinations, o, a)
            <==> SomePairGives(project, rules[..n], destinations, o, a) || PairGives(project, rules[n].0, rules[n].1, destinations, o, a)
  {
    assert rules == rules[..|rules| - 1] + [rules[|rules| - 1]];
  }

  lemma {:induction false} BuiltInListLast(project: string, role: string, rules: seq<(string, string)>, destinations: seq<string>)
    requires rules != []
    ensures var n := |rules| - 1;
            AddBuiltInRules(role, AllowTexts(rules), destinations, project)
            == Then(AddBuiltInRules(role, AllowTexts(rules[..n]), destinations, project),
                    AddBuiltInRule(role, Allow(rules[n].0, rules[n].1), destinations, project))
  {
    assert AllowTexts(rules)[..|rules| - 1] == AllowTexts(rules[..|rules| - 1]);
  }

  lemma {:induction false} BuiltInListGives(project: string, role: string, rules: seq<(string, string)>, destinations: seq<string>, o: string, a: string)
    requires Fits(project, destinations) && AllShaped(rules)
    ensures var c := AddBuiltInRules(role, AllowTexts(rules), destinations, project);
            Allows(c, role) && (Gives(c, "allow", o, a) <==> SomePairGives(project, rules, destinations, o, a))
    decreases |rules|
  {
    if rules == [] {
      assert AllowTexts([]) == [];
    } else {
      var n := |rules| - 1;
      assert rules[n] in rules && forall r | r in rules[..n] :: r in rules;
      BuiltInListGives(project, role, rules[..n], destinations, o, a);
      BuiltInListLast(project, role, rules, destinations);
      BuiltInRuleGives(project, role, rules[n].0, rules[n].1, destinations, o, a);
      GivesThen(AddBuiltInRules(role, AllowTexts(rules[..n]), destinations, project),
                AddBuiltInRule(role, Allow(rules[n].0, rules[n].1), destinations, project), "allow", o, a);
      SomePairLast(project, rules, destinations, o, a);
    }
  }

  // ---- admin and readonly roles ----

  /** Every right of a readonly role: reading the project, the catalog and the project's resources. */
  predicate ReadonlyMeans(project: string, destinations: seq<string>, o: string, a: string) {
    || (a == "get" && KeyMatch(o, "projects/" + project))
    || ((a == "get" || a == "list") &&
        (|| KeyMatch(o, "rgds/*")
         || ResourceGiven("instances", project, destinations, o) || ResourceGiven("secrets", project, destinations, o)
         || ResourceGiven("repositories", project, [], o) || ResourceGiven("applications", project, [], o)))
  }

  /** Every right of an admin role: all of the project's instances, secrets and repositories, reading the catalog
      and compliance, and changing the project and its members. */
  predicate AdminMeans(project: string, destinations: seq<string>, o: string, a: string) {
    || ResourceGiven("instances", project, destinations, o) || ResourceGiven("secrets", project, destinations, o)
    || ResourceGiven("repositories", project, [], o)
    || ((a == "update" || a == "member-add" || a == "member-remove") && KeyMatch(o, "projects/" + project))
    || ((a == "get" || a == "list") && (KeyMatch(o, "rgds/*") || ResourceGiven("compliance", project, [], o)))
  }

  /** An action name: lower-case letters and hyphens, other than the two that stand for something else. */
  predicate ActionName(act: string) {
    0 < |act| <= 20 && act != "view" && act != "deploy" && forall i | 0 <= i < |act| :: 'a' <= act[i] <= 'z' || act[i] == '-'
  }

  lemma {:induction false} NamedAction(act: string, a: string)
    requires ActionName(act)
    ensures RuleAction(act) && (ActionGiven(act, a) <==> a == act)
  {
    assert Lower(act) == act;
    MatchesLiteral(a, act);
  }

  lemma {:induction false} AnyAction(a: string)
    ensures RuleAction("*") && ActionGiven("*", a)
  {
    assert Lower("*")[0] == '*';
    MatchesUnder(a, "");
    assert "" + "*" == "*";
  }

  lemma {:induction false} WidePairGives(project: string, res: string, act: string, destinations: seq<string>, o: string, a: string)
    requires res in SCOPED_RESOURCES
    ensures PairGives(project, ProjectWide(res, project), act, destinations, o, a)
            <==> ActionGiven(act, a) && ResourceGiven(res, project, if res == "instances" || res == "secrets" then destinations else [], o)
  {
    var obj := ProjectWide(res, project);
    assert obj == res + "/" + project + "/*" && obj[0] == res[0];
    assert ("instances/" + project + "/*")[0] == 'i' && ("secrets/" + project + "/*")[0] == 's';
  }

  lemma {:induction false} OtherPairGives(project: string, obj: string, act: string, destinations: seq<string>, o: string, a: string)
    requires obj == "projects/" + project || obj == "rgds/*"
    ensures PairGives(project, obj, act, destinations, o, a) <==> ActionGiven(act, a) && KeyMatch(o, obj)
  {
    assert obj[0] == 'p' || obj[0] == 'r';
    assert ("instances/" + project + "/*")[0] == 'i' && ("secrets/" + project + "/*")[0] == 's';
  }

  lemma {:induction false} WideFits(project: string, res: string)
    requires Fits(project, []) && Free(res, ',') && 0 < |res| <= 12 && !IsSpace(res[0])
    ensures ObjectFits(ProjectWide(res, project))
  {
    var obj := ProjectWide(res, project);
    assert obj[0] == res[0] && obj[|obj| - 1] == '*';
  }

  lemma {:induction false} ProjectFits(project: string)
    requires Fits(project, [])
    ensures ObjectFits("projects/" + project)
  {
    var obj := "projects/" + project;
    assert obj[0] == 'p' && obj[|obj| - 1] == project[|project| - 1];
  }

  lemma {:induction false} ResourceFits(project: string, res: string)
    requires Fits(project, []) && res in SCOPED_RESOURCES
    ensures ObjectFits(ProjectWide(res, project))
  {
    WideFits(project, res);
  }

  // ---- lists of pairs ----

  type Pair = (string, string)

  predicate AnyOf(p: Pair -> bool, rules: seq<Pair>) {
    exists r | r in rules :: p(r)
  }

  lemma {:induction false} AnyConcat(p: Pair -> bool, xs: seq<Pair>, ys: seq<Pair>)
    ensures AnyOf(p, xs + ys) <==> AnyOf(p, xs) || AnyOf(p, ys)
  {
    assert forall r :: r in xs + ys <==> r in xs || r in ys;
  }

  lemma {:induction false} AnyOne(p: Pair -> bool, r: Pair)
    ensures AnyOf(p, [r]) <==> p(r)
  {
    assert r in [r];
  }

  function ReadBoth(obj: string): seq<Pair> {
    [(obj, "get")] + [(obj, "list")]
  }

  lemma {:induction false} AnyBoth(p: Pair -> bool, obj: string)
    ensures AnyOf(p, ReadBoth(obj)) <==> p((obj, "get")) || p((obj, "list"))
  {
    AnyConcat(p, [(obj, "get")], [(obj, "list")]);
    AnyOne(p, (obj, "get"));
    AnyOne(p, (obj, "list"));
  }

  lemma {:induction false} AnySix(p: Pair -> bool, g0: seq<Pair>, g1: seq<Pair>, g2: seq<Pair>, g3: seq<Pair>, g4: seq<Pair>, g5: seq<Pair>)
    ensures AnyOf(p, g0 + g1 + g2 + g3 + g4 + g5)
            <==> AnyOf(p, g0) || AnyOf(p, g1) || AnyOf(p, g2) || AnyOf(p, g3) || AnyOf(p, g4) || AnyOf(p, g5)
  {
    AnyConcat(p, g0, g1);
    AnyConcat(p, g0 + g1, g2);
    AnyConcat(p, g0 + g1 + g2, g3);
    AnyConcat(p, g0 + g1 + g2 + g3, g4);
    AnyConcat(p, g0 + g1 + g2 + g3 + g4, g5);
  }

  /** The readonly rules, by their objects. */
  function ReadonlyList(pj: string, inst: string, rg: string, rep: string, app: string, sec: string): seq<Pair> {
    [(pj, "get")] + ReadBoth(inst) + ReadBoth(rg) + ReadBoth(rep) + ReadBoth(app) + ReadBoth(sec)
  }

  lemma {:induction false} AnyReadonly(p: Pair -> bool, pj: string, inst: string, rg: string, rep: string, app: string, sec: string)
    ensures AnyOf(p, ReadonlyList(pj, inst, rg, rep, app, sec)) <==>
      || p((pj, "get")) || (p((inst, "get")) || p((inst, "list"))) || (p((rg, "get")) || p((rg, "list")))
      || (p((rep, "get")) || p((rep, "list"))) || (p((app, "get")) || p((app, "list"))) || (p((sec, "get")) || p((sec, "list")))
  {
    AnySix(p, [(pj, "get")], ReadBoth(inst), ReadBoth(rg), ReadBoth(rep), ReadBoth(app), ReadBoth(sec));
    AnyOne(p, (pj, "get"));
    AnyBoth(p, inst);
    AnyBoth(p, rg);
    AnyBoth(p, rep);
    AnyBoth(p, app);
    AnyBoth(p, sec);
  }

  function ChangeList(pj: string): seq<Pair> {
    [(pj, "update")] + [(pj, "member-add")] + [(pj, "member-remove")]
  }

  function AdminList(rep: string, pj: string, inst: string, rg: string, com: string, sec: string): seq<Pair> {
    [(rep, "*")] + ChangeList(pj) + [(inst, "*")] + ReadBoth(rg) + ReadBoth(com) + [(sec, "*")]
  }

  lemma {:induction false} AnyAdmin(p: Pair -> bool, rep: string, pj: string, inst: string, rg: string, com: string, sec: string)
    ensures AnyOf(p, AdminList(rep, pj, inst, rg, com, sec)) <==>
      || p((rep, "*")) || (p((pj, "update")) || p((pj, "member-add")) || p((pj, "member-remove"))) || p((inst, "*"))
      || (p((rg, "get")) || p((rg, "list"))) || (p((com, "get")) || p((com, "list"))) || p((sec, "*"))
  {
    AnySix(p, [(rep, "*")], ChangeList(pj), [(inst, "*")], ReadBoth(rg), ReadBoth(com), [(sec, "*")]);
    AnyConcat(p, [(pj, "update")] + [(pj, "member-add")], [(pj, "member-remove")]);
    AnyConcat(p, [(pj, "update")], [(pj, "member-add")]);
    AnyOne(p, (rep, "*"));
    AnyOne(p, (pj, "update"));
    AnyOne(p, (pj, "member-add"));
    AnyOne(p, (pj, "member-remove"));
    AnyOne(p, (inst, "*"));
    AnyBoth(p, rg);
    AnyBoth(p, com);
    AnyOne(p, (sec, "*"));
  }

  lemma {:induction false} ReadonlyListed(project: string)
    ensures ReadonlyRules(project) == ReadonlyList("projects/" + project, ProjectWide("instances", project), "rgds/*",
              ProjectWide("repositories", project), ProjectWide("applications", project), ProjectWide("secrets", project))
  {
  }

  lemma {:induction false} AdminListed(project: string)
    ensures AdminRules(project) == AdminList(ProjectWide("repositories", project), "projects/" + project, ProjectWide("instances", project),
              "rgds/*", ProjectWide("compliance", project), ProjectWide("secrets", project))
  {
  }

  // ---- the rules are well-formed ----

  predicate AllShaped(rules: seq<Pair>) {
    forall r | r in rules :: RuleShape(r)
  }

  lemma {:induction false} ShapedUnless(rules: seq<Pair>)
    ensures AllShaped(rules) <==> !AnyOf((r: Pair) => !RuleShape(r), rules)
  {
  }

  lemma {:induction false} Names()
    ensures ActionName("get") && ActionName("list") && ActionName("update")
  {
  }

  lemma {:induction false} MemberNames()
    ensures ActionName("member-add") && ActionName("member-remove")
  {
  }

  predicate ObjectFits(obj: string) {
    Free(obj, ',') && Trimmed(obj) && |obj| <= 450
  }

  lemma {:induction false} PairFits(obj: string, act: string)
    requires ObjectFits(obj) && (act == "*" || ActionName(act))
    ensures RuleShape((obj, act))
  {
    if act == "*" {
      AnyAction("");
    } else {
      NamedAction(act, "");
    }
  }

  lemma {:induction false} BothFit(obj: string)
    requires ObjectFits(obj)
    ensures RuleShape((obj, "get")) && RuleShape((obj, "list"))
  {
    Names();
    PairFits(obj, "get");
    PairFits(obj, "list");
  }

  lemma {:induction false} ChangesFit(obj: string)
    requires ObjectFits(obj)
    ensures RuleShape((obj, "update")) && RuleShape((obj, "member-add")) && RuleShape((obj, "member-remove"))
  {
    Names();
    MemberNames();
    PairFits(obj, "update");
    PairFits(obj, "member-add");
    PairFits(obj, "member-remove");
  }

  lemma {:induction false} ReadonlyShaped(pj: string, inst: string, rg: string, rep: string, app: string, sec: string)
    requires ObjectFits(pj) && ObjectFits(inst) && ObjectFits(rg) && ObjectFits(rep) && ObjectFits(app) && ObjectFits(sec)
    ensures AllShaped(ReadonlyList(pj, inst, rg, rep, app, sec))
  {
    ShapedUnless(ReadonlyList(pj, inst, rg, rep, app, sec));
    AnyReadonly((r: Pair) => !RuleShape(r), pj, inst, rg, rep, app, sec);
    BothFit(pj);
    BothFit(inst);
    BothFit(rg);
    BothFit(rep);
    BothFit(app);
    BothFit(sec);
  }

  lemma {:induction false} AdminShaped(rep: string, pj: string, inst: string, rg: string, com: string, sec: string)
    requires ObjectFits(pj) && ObjectFits(inst) && ObjectFits(rg) && ObjectFits(rep) && ObjectFits(com) && ObjectFits(sec)
    ensures AllShaped(AdminList(rep, pj, inst, rg, com, sec))
  {
    ShapedUnless(AdminList(rep, pj, inst, rg, com, sec));
    AnyAdmin((r: Pair) => !RuleShape(r), rep, pj, inst, rg, com, sec);
    PairFits(rep, "*");
    ChangesFit(pj);
    PairFits(inst, "*");
    BothFit(rg);
    BothFit(com);
    PairFits(sec, "*");
  }

  lemma {:induction false} RulesShaped(project: string)
    requires Fits(project, [])
    ensures AllShaped(ReadonlyRules(project)) && AllShaped(AdminRules(project))
  {
    var inst, sec, rep, app, com := ProjectWide("instances", project), ProjectWide("secrets", project),
                                    ProjectWide("repositories", project), ProjectWide("applications", project), ProjectWide("compliance", project);
    ResourceFits(project, "instances");
    ResourceFits(project, "secrets");
    ResourceFits(project, "repositories");
    ResourceFits(project, "applications");
    ResourceFits(project, "compliance");
    ProjectFits(project);
    CatalogFits();
    ReadonlyListed(project);
    AdminListed(project);
    ReadonlyShaped("projects/" + project, inst, "rgds/*", rep, app, sec);
    AdminShaped(rep, "projects/" + project, inst, "rgds/*", com, sec);
  }

  lemma {:induction false} CatalogFits()
    ensures ObjectFits("rgds/*")
  {
  }

  // ---- what they mean ----

  lemma {:induction false} ReadPairs(project: string, res: string, destinations: seq<string>, o: string, a: string)
    requires res in SCOPED_RESOURCES
    ensures PairGives(project, ProjectWide(res, project), "get", destinations, o, a) || PairGives(project, ProjectWide(res, project), "list", destinations, o, a)
            <==> (a == "get" || a == "list") && ResourceGiven(res, project, if res == "instances" || res == "secrets" then destinations else [], o)
  {
    NamedAction("get", a);
    NamedAction("list", a);
    WidePairGives(project, res, "get", destinations, o, a);
    WidePairGives(project, res, "list", destinations, o, a);
  }

  lemma {:induction false} CatalogPairs(project: string, destinations: seq<string>, o: string, a: string)
    ensures PairGives(project, "rgds/*", "get", destinations, o, a) || PairGives(project, "rgds/*", "list", destinations, o, a)
            <==> (a == "get" || a == "list") && KeyMatch(o, "rgds/*")
  {
    NamedAction("get", a);
    NamedAction("list", a);
    OtherPairGives(project, "rgds/*", "get", destinations, o, a);
    OtherPairGives(project, "rgds/*", "list", destinations, o, a);
  }

  lemma {:induction false} ProjectPair(project: string, act: string, destinations: seq<string>, o: string, a: string)
    requires ActionName(act)
    ensures PairGives(project, "projects/" + project, act, destinations, o, a) <==> a == act && KeyMatch(o, "projects/" + project)
  {
    NamedAction(act, a);
    OtherPairGives(project, "projects/" + project, act, destinations, o, a);
  }

  lemma {:induction false} ChangePairs(project: string, destinations: seq<string>, o: string, a: string)
    ensures var obj := "projects/" + project;
            PairGives(project, obj, "update", destinations, o, a) || PairGives(project, obj, "member-add", destinations, o, a)
            || PairGives(project, obj, "member-remove", destinations, o, a)
            <==> (a == "update" || a == "member-add" || a == "member-remove") && KeyMatch(o, obj)
  {
    Names();
    MemberNames();
    ProjectPair(project, "update", destinations, o, a);
    ProjectPair(project, "member-add", destinations, o, a);
    ProjectPair(project, "member-remove", destinations, o, a);
  }

  lemma {:induction false} StarPair(project: string, res: string, destinations: seq<string>, o: string, a: string)
    requires res in SCOPED_RESOURCES
    ensures PairGives(project, ProjectWide(res, project), "*", destinations, o, a)
            <==> ResourceGiven(res, project, if res == "instances" || res == "secrets" then destinations else [], o)
  {
    AnyAction(a);
    WidePairGives(project, res, "*", destinations, o, a);
  }

  ghost function PairTest(project: string, destinations: seq<string>, o: string, a: string): Pair -> bool {
    (r: Pair) => PairGives(project, r.0, r.1, destinations, o, a)
  }

  lemma {:induction false} ReadonlyPairs(project: string, destinations: seq<string>, o: string, a: string)
    ensures SomePairGives(project, ReadonlyRules(project), destinations, o, a) <==> ReadonlyMeans(project, destinations, o, a)
  {
    var p := PairTest(project, destinations, o, a);
    assert SomePairGives(project, ReadonlyRules(project), destinations, o, a) <==> AnyOf(p, ReadonlyRules(project));
    ReadonlyListed(project);
    AnyReadonly(p, "projects/" + project, ProjectWide("instances", project), "rgds/*", ProjectWide("repositories", project),
                ProjectWide("applications", project), ProjectWide("secrets", project));
    Names();
    ProjectPair(project, "get", destinations, o, a);
    ReadPairs(project, "instances", destinations, o, a);
    CatalogPairs(project, destinations, o, a);
    ReadPairs(project, "repositories", destinations, o, a);
    ReadPairs(project, "applications", destinations, o, a);
    ReadPairs(project, "secrets", destinations, o, a);
  }

  lemma {:induction false} AdminPairs(project: string, destinations: seq<string>, o: string, a: string)
    ensures SomePairGives(project, AdminRules(project), destinations, o, a) <==> AdminMeans(project, destinations, o, a)
  {
    var p := PairTest(project, destinations, o, a);
    assert SomePairGives(project, AdminRules(project), destinations, o, a) <==> AnyOf(p, AdminRules(project));
    AdminListed(project);
    AnyAdmin(p, ProjectWide("repositories", project), "projects/" + project, ProjectWide("instances", project), "rgds/*",
             ProjectWide("compliance", project), ProjectWide("secrets", project));
    ChangePairs(project, destinations, o, a);
    StarPair(project, "repositories", destinations, o, a);
    StarPair(project, "instances", destinations, o, a);
    CatalogPairs(project, destinations, o, a);
    ReadPairs(project, "compliance", destinations, o, a);
    StarPair(project, "secrets", destinations, o, a);
  }

  /** What the built-in policies of a readonly role allow, exactly; they deny nothing. */
  lemma {:induction false} ReadonlyExactly(project: string, role: string, destinations: seq<string>, o: string, a: string)
    requires Fits(project, destinations)
    ensures var c := AddBuiltInRules(role, BuiltInReadonlyPolicies(project), destinations, project);
            Allows(c, role) && (Gives(c, "allow", o, a) <==> ReadonlyMeans(project, destinations, o, a))
  {
    RulesShaped(project);
    ReadonlyPairs(project, destinations, o, a);
    BuiltInListGives(project, role, ReadonlyRules(project), destinations, o, a);
  }

  /** And those of an admin role. */
  lemma {:induction false} AdminExactly(project: string, role: string, destinations: seq<string>, o: string, a: string)
    requires Fits(project, destinations)
    ensures var c := AddBuiltInRules(role, BuiltInAdminPolicies(project), destinations, project);
            Allows(c, role) && (Gives(c, "allow", o, a) <==> AdminMeans(project, destinations, o, a))
  {
    RulesShaped(project);
    AdminPairs(project, destinations, o, a);
    BuiltInListGives(project, role, AdminRules(project), destinations, o, a);
  }
}
