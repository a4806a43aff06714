/** Compiling a Project resource into Casbin tuples: parsing policy strings, scoping them to the
    project, adding the built-in admin and readonly rules, and binding groups to roles. */
module Policies {
  import opened Text
  import opened Wrappers
  import opened Subjects
  import opened Casbin
  import opened Scoping

  const MAX_PATTERN_LENGTH := 500

  datatype Role = Role(name: string, policies: seq<string>, groups: seq<string>, destinations: seq<string>)

  /** A binding from the project's annotation; `isGroup` is its type field being "group". */
  datatype Binding = Binding(role: string, subject: string, isGroup: bool)

  /** `bindings` is the annotation already decoded (empty when absent or malformed). */
  datatype Project = Project(name: string, roles: seq<Role>, bindings: seq<Binding>)

  datatype Rule = Rule(obj: string, act: string, eft: string)

  datatype PolicyError = PolicyTooLong | InvalidFormat | InvalidEffect

  /** The tuples added by a load, up to its first error if it has one. */
  datatype Compiled = Compiled(policies: set<Policy>, groupings: set<Grouping>, failed: bool)

  const NOTHING := Compiled({}, {}, false)

  /** Do `a`, then `b` unless `a` failed. */
  function Then(a: Compiled, b: Compiled): Compiled {
    if a.failed then a else Compiled(a.policies + b.policies, a.groupings + b.groupings, b.failed)
  }

  predicate IsSpace(c: char) {
    c == ' ' || c == '\t' || c == '\n' || c == '\r' || c == (11 as char) || c == (12 as char)
  }

  function TrimLeft(s: string): string {
    if s != "" && IsSpace(s[0]) then TrimLeft(s[1..]) else s
  }

  function TrimRight(s: string): string {
    if s != "" && IsSpace(s[|s| - 1]) then TrimRight(s[..|s| - 1]) else s
  }

  function TrimSpace(s: string): string {
    TrimRight(TrimLeft(s))
  }

  function TrimmedParts(s: string): (parts: seq<string>)
    ensures |parts| == |Split(s, ',')|
    ensures forall i :: 0 <= i < |parts| ==> parts[i] == TrimSpace(Split(s, ',')[i])
  {
    var raw := Split(s, ',');
    seq(|raw|, i requires 0 <= i < |raw| => TrimSpace(raw[i]))
  }

  function NormalizeResourceType(resourceType: string): string {
    var lower := Lower(resourceType);
    if lower == "rgd" then "rgds"
    else if lower == "instance" then "instances"
    else if lower == "project" then "projects"
    else if lower == "repository" then "repositories"
    else if lower == "secret" then "secrets"
    else resourceType
  }

  function NormalizeAction(action: string): (actions: seq<string>)
    ensures |actions| >= 1
  {
    var lower := Lower(action);
    if lower == "view" then ["list", "get"]
    else if lower == "*" then ["*"]
    else if lower == "deploy" then ["create"]
    else [action]
  }

  /** Both policy-string formats; the subject named inside the string is ignored. */
  function ParseRule(text: string): (r: Result<Option<Rule>, PolicyError>) {
    var policyStr := TrimSpace(text);
    if policyStr == "" then Ok(None)
    else if |policyStr| > MAX_PATTERN_LENGTH then Err(PolicyTooLong)
    else
      var parts := TrimmedParts(policyStr);
      if |parts| == 3 then CheckEffect(Rule(parts[0], parts[1], parts[2]))
      else if |parts| == 6 then
        var resourceType := NormalizeResourceType(parts[2]);
        var obj := if parts[4] == "*" then resourceType + "/*"
                   else if resourceType == "*" then parts[4]
                   else resourceType + "/" + parts[4];
        CheckEffect(Rule(obj, parts[3], parts[5]))
      else Err(InvalidFormat)
  }

  function CheckEffect(rule: Rule): (r: Result<Option<Rule>, PolicyError>) {
    if rule.eft == "allow" || rule.eft == "deny" then Ok(Some(rule)) else Err(InvalidEffect)
  }

  function Tuples(role: string, objects: seq<string>, actions: seq<string>, eft: string): (tuples: set<Policy>) {
    set o, a | o in objects && a in actions :: Policy(role, o, a, eft)
  }

  /** addPolicyFromString: the rule as written. */
  function AddRule(role: string, text: string): (c: Compiled) {
    match ParseRule(text)
    case Err(_) => NOTHING.(failed := true)
    case Ok(None) => NOTHING
    case Ok(Some(rule)) => Compiled(Tuples(role, [rule.obj], NormalizeAction(rule.act), rule.eft), {}, false)
  }

  /** addProjectScopedPolicyFromStringWithDests: the rule narrowed to the project. */
  function AddScopedRule(project: string, role: string, text: string, destinations: seq<string>): (c: Compiled) {
    match ParseRule(text)
    case Err(_) => NOTHING.(failed := true)
    case Ok(None) => NOTHING
    case Ok(Some(rule)) =>
      Compiled(Tuples(role, ScopeObject(project, rule.obj, destinations), NormalizeAction(rule.act), rule.eft), {}, false)
  }

  function RuleText(obj: string, act: string, eft: string): string {
    obj + ", " + act + ", " + eft
  }

  function AddDestinationRules(role: string, res: string, project: string, destinations: seq<string>, act: string, eft: string): (c: Compiled)
    decreases |destinations|
  {
    if |destinations| == 0 then NOTHING
    else
      var n := |destinations| - 1;
      Then(AddDestinationRules(role, res, project, destinations[..n], act, eft),
           AddRule(role, RuleText(PerDestination(res, project, destinations[n]), act, eft)))
  }

  /** addPolicyFromStringWithDests: a built-in rule, expanded per destination where it is namespaced. */
  function AddBuiltInRule(role: string, text: string, destinations: seq<string>, project: string): (c: Compiled) {
    if |destinations| == 0 then AddRule(role, text)
    else
      var policyStr := TrimSpace(text);
      if policyStr == "" then NOTHING
      else
        var parts := TrimmedParts(policyStr);
        if |parts| != 3 then AddRule(role, policyStr)
        else if parts[0] == "instances/" + (project + "/*") then
          AddDestinationRules(role, "instances", project, destinations, parts[1], parts[2])
        else if parts[0] == "secrets/" + (project + "/*") then
          AddDestinationRules(role, "secrets", project, destinations, parts[1], parts[2])
        else AddRule(role, policyStr)
  }

  function Allow(obj: string, act: string): string {
    RuleText(obj, act, "allow")
  }

  /** Object and action of the built-in rules of a project's admin role. */
  function AdminRules(project: string): seq<(string, string)> {
    [ (ProjectWide("repositories", project), "*"),
      ("projects/" + project, "update"),
      ("projects/" + project, "member-add"),
      ("projects/" + project, "member-remove"),
      (ProjectWide("instances", project), "*"),
      ("rgds/*", "get"),
      ("rgds/*", "list"),
      (ProjectWide("compliance", project), "get"),
      (ProjectWide("compliance", project), "list"),
      (ProjectWide("secrets", project), "*") ]
  }

  function ReadonlyRules(project: string): seq<(string, string)> {
    [ ("projects/" + project, "get"),
      (ProjectWide("instances", project), "get"),
      (ProjectWide("instances", project), "list"),
      ("rgds/*", "get"),
      ("rgds/*", "list"),
      (ProjectWide("repositories", project), "get"),
      (ProjectWide("repositories", project), "list"),
      (ProjectWide("applications", project), "get"),
      (ProjectWide("applications", project), "list"),
      (ProjectWide("secrets", project), "get"),
      (ProjectWide("secrets", project), "list") ]
  }

  function AllowTexts(rules: seq<(string, string)>): (texts: seq<string>)
    ensures |texts| == |rules| && forall i :: 0 <= i < |rules| ==> texts[i] == Allow(rules[i].0, rules[i].1)
  {
    seq(|rules|, i requires 0 <= i < |rules| => Allow(rules[i].0, rules[i].1))
  }

  function BuiltInAdminPolicies(project: string): seq<string> {
    AllowTexts(AdminRules(project))
  }

  function BuiltInReadonlyPolicies(project: string): seq<string> {
    AllowTexts(ReadonlyRules(project))
  }

  function AddScopedRules(project: string, role: string, texts: seq<string>, destinations: seq<string>): (c: Compiled)
    decreases |texts|
  {
    if |texts| == 0 then NOTHING
    else
      var n := |texts| - 1;
      Then(AddScopedRules(project, role, texts[..n], destinations), AddScopedRule(project, role, texts[n], destinations))
  }

  function AddBuiltInRules(role: string, texts: seq<string>, destinations: seq<string>, project: string): (c: Compiled)
    decreases |texts|
  {
    if |texts| == 0 then NOTHING
    else
      var n := |texts| - 1;
      Then(AddBuiltInRules(role, texts[..n], destinations, project), AddBuiltInRule(role, texts[n], destinations, project))
  }

  /** Groups with an invalid name are skipped. */
  function GroupBindings(role: string, groups: seq<string>): (g: set<Grouping>) {
    set group | group in groups && FormatGroupSubject(group).Some? :: Grouping(FormatGroupSubject(group).value, role)
  }

  function AdminPart(project: string, roleName: string, role: Role): (c: Compiled) {
    if Lower(role.name) == "admin" then AddBuiltInRules(roleName, BuiltInAdminPolicies(project), role.destinations, project) else NOTHING
  }

  function ReadonlyPart(project: string, roleName: string, role: Role): (c: Compiled) {
    if Lower(role.name) == "readonly" then AddBuiltInRules(roleName, BuiltInReadonlyPolicies(project), role.destinations, project) else NOTHING
  }

  function CompileRole(project: string, role: Role): (c: Compiled) {
    if role.name == "" then NOTHING
    else match FormatProjectRole(project, role.name)
    case None => NOTHING.(failed := true)
    case Some(roleName) =>
      var custom := AddScopedRules(project, roleName, role.policies, role.destinations);
      Then(Then(Then(custom, AdminPart(project, roleName, role)), ReadonlyPart(project, roleName, role)),
           Compiled({}, GroupBindings(roleName, role.groups), false))
  }

  function CompileRoles(project: string, roles: seq<Role>): (c: Compiled)
    decreases |roles|
  {
    if |roles| == 0 then NOTHING
    else
      var n := |roles| - 1;
      Then(CompileRoles(project, roles[..n]), CompileRole(project, roles[n]))
  }

  /** One annotation binding; an invalid role or group name is skipped. */
  function BindingTuple(project: string, b: Binding): (g: set<Grouping>) {
    match FormatProjectRole(project, b.role)
    case None => {}
    case Some(roleName) =>
      if b.isGroup then
        match FormatGroupSubject(b.subject)
        case None => {}
        case Some(subject) => {Grouping(subject, roleName)}
      else {Grouping(b.subject, roleName)}
  }

  function BindingTuples(project: string, bindings: seq<Binding>): (g: set<Grouping>) {
    set b, e | b in bindings && e in BindingTuple(project, b) :: e
  }

  /** Everything a load of the project adds, in order, up to its first error. */
  function Compile(project: Project): (c: Compiled) {
    Then(CompileRoles(project.name, project.roles), Compiled({}, BindingTuples(project.name, project.bindings), false))
  }

  // ---- parsing what was formatted ----

  predicate Trimmed(s: string) {
    s != "" && !IsSpace(s[0]) && !IsSpace(s[|s| - 1])
  }

  lemma {:induction false} TrimSpaceAround(s: string)
    requires Trimmed(s)
    ensures TrimSpace(s) == s && TrimSpace(" " + s) == s
  {
    assert (" " + s)[1..] == s;
    assert TrimLeft(" " + s) == TrimLeft(s) == s;
  }

  lemma {:induction false} SplitRuleText(obj: string, act: string, eft: string)
    requires Free(obj, ',') && Free(act, ',') && Free(eft, ',')
    ensures Split(RuleText(obj, act, eft), ',') == [obj, " " + act, " " + eft]
  {
    var rest := " " + act + "," + (" " + eft);
    assert RuleText(obj, act, eft) == obj + [','] + rest;
    SplitFirst(obj, ',', rest);
    SplitFirst(" " + act, ',', " " + eft);
    SplitFree(" " + eft, ',');
  }

  lemma {:induction false} RuleTextParts(obj: string, act: string, eft: string)
    requires Free(obj, ',') && Free(act, ',') && Free(eft, ',') && Trimmed(obj) && Trimmed(act) && Trimmed(eft)
    ensures TrimSpace(RuleText(obj, act, eft)) == RuleText(obj, act, eft)
    ensures TrimmedParts(RuleText(obj, act, eft)) == [obj, act, eft]
  {
    var text := RuleText(obj, act, eft);
    assert text[0] == obj[0] && text[|text| - 1] == eft[|eft| - 1];
    TrimSpaceAround(text);
    SplitRuleText(obj, act, eft);
    TrimSpaceAround(obj);
    TrimSpaceAround(act);
    TrimSpaceAround(eft);
  }

  /** A formatted rule parses back to itself, unless it is too long to be accepted at all. */
  lemma {:induction false} FormattedRuleParses(obj: string, act: string, eft: string)
    requires Free(obj, ',') && Free(act, ',') && Trimmed(obj) && Trimmed(act) && (eft == "allow" || eft == "deny")
    ensures ParseRule(RuleText(obj, act, eft))
            == if |RuleText(obj, act, eft)| > MAX_PATTERN_LENGTH then Err(PolicyTooLong) else Ok(Some(Rule(obj, act, eft)))
  {
    RuleTextParts(obj, act, eft);
  }

  // ---- every compiled tuple belongs to the project ----

  predicate IsProjectRole(project: string, subject: string) {
    HasPrefix(subject, RolePrefix(project))
  }

  /** All tuples name a role that FormatProjectRole made for this project. */
  ghost predicate Owned(project: string, c: Compiled) {
    && (forall p | p in c.policies :: OwnRole(project, p.sub))
    && (forall e | e in c.groupings :: OwnRole(project, e.role))
  }

  ghost predicate OwnRole(project: string, subject: string) {
    exists role :: FormatProjectRole(project, role) == Some(subject)
  }

  lemma {:induction false} OwnedRuleLists(project: string, role: string, texts: seq<string>, destinations: seq<string>)
    requires OwnRole(project, role)
    ensures Owned(project, AddScopedRules(project, role, texts, destinations))
    ensures Owned(project, AddBuiltInRules(role, texts, destinations, project))
    decreases |texts|
  {
    if |texts| > 0 {
      var n := |texts| - 1;
      OwnedRuleLists(project, role, texts[..n], destinations);
      OwnedBuiltIn(project, role, texts[n], destinations);
    }
  }

  lemma {:induction false} OwnedBuiltIn(project: string, role: string, text: string, destinations: seq<string>)
    requires OwnRole(project, role)
    ensures Owned(project, AddBuiltInRule(role, text, destinations, project))
  {
    var parts := TrimmedParts(TrimSpace(text));
    if |parts| == 3 {
      OwnedDestinations(project, role, "instances", destinations, parts[1], parts[2]);
      OwnedDestinations(project, role, "secrets", destinations, parts[1], parts[2]);
    }
  }

  lemma {:induction false} OwnedDestinations(project: string, role: string, res: string, destinations: seq<string>, act: string, eft: string)
    requires OwnRole(project, role)
    ensures Owned(project, AddDestinationRules(role, res, project, destinations, act, eft))
    decreases |destinations|
  {
    if |destinations| > 0 {
      OwnedDestinations(project, role, res, destinations[..|destinations| - 1], act, eft);
    }
  }

  lemma {:induction false} OwnedRoles(project: string, roles: seq<Role>)
    ensures Owned(project, CompileRoles(project, roles))
    decreases |roles|
  {
    if |roles| > 0 {
      var n := |roles| - 1;
      OwnedRoles(project, roles[..n]);
      OwnedRole(project, roles[n]);
    }
  }

  lemma {:induction false} OwnedRole(project: string, role: Role)
    ensures Owned(project, CompileRole(project, role))
  {
    var formatted := FormatProjectRole(project, role.name);
    if role.name != "" && formatted.Some? {
      assert OwnRole(project, formatted.value);
      OwnedRuleLists(project, formatted.value, role.policies, role.destinations);
      OwnedRuleLists(project, formatted.value, BuiltInAdminPolicies(project), role.destinations);
      OwnedRuleLists(project, formatted.value, BuiltInReadonlyPolicies(project), role.destinations);
    }
  }

  lemma {:induction false} CompileOwned(project: Project)
    ensures Owned(project.name, Compile(project))
  {
    OwnedRoles(project.name, project.roles);
    forall b, e | b in project.bindings && e in BindingTuple(project.name, b)
      ensures OwnRole(project.name, e.role)
    {
      assert FormatProjectRole(project.name, b.role) == Some(e.role);
    }
  }

  /** Whatever a load adds, even a failing one, is found by removing this project and by removing no other. */
  lemma {:induction false} CompiledBelongsToProject(project: Project, removed: string)
    ensures forall p | p in Compile(project).policies :: IsProjectRole(removed, p.sub) <==> removed == project.name
    ensures forall e | e in Compile(project).groupings :: IsProjectRole(removed, e.role) <==> removed == project.name
  {
    CompileOwned(project);
    forall subject | OwnRole(project.name, subject)
      ensures IsProjectRole(removed, subject) <==> removed == project.name
    {
      var role :| FormatProjectRole(project.name, role) == Some(subject);
      RemovalPrefixIsExact(project.name, role, removed);
    }
  }

  // ---- which rules are accepted ----

  lemma {:induction false} TrimLeftExactly(s: string) returns (blank: string)
    ensures s == blank + TrimLeft(s) && (forall c | c in blank :: IsSpace(c)) && (TrimLeft(s) == "" || !IsSpace(TrimLeft(s)[0]))
  {
    if s != "" && IsSpace(s[0]) {
      var b := TrimLeftExactly(s[1..]);
      blank := [s[0]] + b;
      assert s == [s[0]] + s[1..];
    } else {
      blank := "";
    }
  }

  lemma {:induction false} TrimRightExactly(s: string) returns (blank: string)
    ensures s == TrimRight(s) + blank && (forall c | c in blank :: IsSpace(c)) && (TrimRight(s) == "" || !IsSpace(TrimRight(s)[|TrimRight(s)| - 1]))
  {
    if s != "" && IsSpace(s[|s| - 1]) {
      var b := TrimRightExactly(s[..|s| - 1]);
      blank := b + [s[|s| - 1]];
      assert s == s[..|s| - 1] + [s[|s| - 1]];
    } else {
      blank := "";
    }
  }

  /** Trimming takes off exactly the blank ends. */
  lemma {:induction false} TrimSpaceExactly(s: string) returns (left: string, right: string)
    ensures s == left + TrimSpace(s) + right && (forall c | c in left + right :: IsSpace(c))
    ensures TrimSpace(s) == "" || Trimmed(TrimSpace(s))
  {
    left := TrimLeftExactly(s);
    right := TrimRightExactly(TrimLeft(s));
    assert TrimSpace(s) != "" ==> TrimSpace(s)[0] == TrimLeft(s)[0];
  }

  /** A rule is accepted exactly when it is blank, or at most 500 bytes in three or six parts the last of which is
      allow or deny. */
  lemma {:induction false} AcceptedExactly(text: string)
    ensures var t := TrimSpace(text);
            var parts := TrimmedParts(t);
            && (ParseRule(text) == Ok(None) <==> t == "")
            && (ParseRule(text).Ok? <==> t == "" || (|t| <= 500 && (|parts| == 3 || |parts| == 6)
                                                     && (parts[|parts| - 1] == "allow" || parts[|parts| - 1] == "deny")))
  {
  }
}
