/** What the policies of a project grant: which objects and actions a rule gives, said without the steps by which
    it is compiled, up to the whole project. */
module Grants {
  import opened Text
  import opened Wrappers
  import opened Subjects
  import opened Casbin
  import opened Scoping
  import opened Policies

  /** Some policy of this effect matches the object and the action. */
  ghost predicate Gives(c: Compiled, eft: string, o: string, a: string) {
    exists p | p in c.policies :: p.eft == eft && KeyMatch(o, p.obj) && KeyMatch(a, p.act)
  }

  // ---- actions ----

  /** The actions meant by the action of a rule: `view` reads, `deploy` creates, in any letter case. */
  predicate ActionGiven(act: string, a: string) {
    if Lower(act) == "view" then a == "list" || a == "get"
    else if Lower(act) == "deploy" then a == "create"
    else KeyMatch(a, act)
  }

  lemma {:induction false} MatchesLiteral(key: string, literal: string)
    requires Free(literal, '*')
    ensures KeyMatch(key, literal) <==> key == literal
  {
    KeyMatchMeaning(key, literal, "");
  }

  lemma {:induction false} MatchesUnder(key: string, head: string)
    requires Free(head, '*')
    ensures KeyMatch(key, head + "*") <==> HasPrefix(key, head)
  {
    KeyMatchMeaning(key, head, "");
    assert head + "*" == head + "*" + "";
  }

  lemma {:induction false} ActionsExactly(act: string, a: string)
    ensures (exists x | x in NormalizeAction(act) :: KeyMatch(a, x)) <==> ActionGiven(act, a)
  {
    if Lower(act) == "view" {
      MatchesLiteral(a, "list");
      MatchesLiteral(a, "get");
      assert NormalizeAction(act) == ["list", "get"];
    } else if Lower(act) == "deploy" {
      MatchesLiteral(a, "create");
      assert NormalizeAction(act) == ["create"];
    } else if Lower(act) == "*" {
      assert act == "*" by { assert |act| == 1 && Lower(act)[0] == '*'; }
      assert NormalizeAction(act) == ["*"];
    } else {
      assert NormalizeAction(act) == [act];
    }
  }

  /** For a rule action without a star this is: the reading actions for view, creating for deploy, and otherwise
      just the action itself. */
  lemma {:induction false} PlainActionsExactly(act: string, a: string)
    requires Free(act, '*')
    ensures (exists x | x in NormalizeAction(act) :: KeyMatch(a, x))
            <==> (Lower(act) == "view" && (a == "list" || a == "get")) || (Lower(act) == "deploy" && a == "create")
                 || (Lower(act) != "view" && Lower(act) != "deploy" && a == act)
  {
    ActionsExactly(act, a);
    MatchesLiteral(a, act);
  }

  // ---- objects ----

  /** A resource of the project, narrowed to its destinations if there are any. */
  predicate ResourceGiven(res: string, project: string, destinations: seq<string>, o: string) {
    if destinations == [] then KeyMatch(o, res + "/" + project + "/*")
    else exists d | d in destinations :: KeyMatch(o, res + "/" + project + "/" + d + "/*")
  }

  /** The objects meant by the object of a rule in a project. */
  predicate ObjectGiven(project: string, obj: string, destinations: seq<string>, o: string) {
    if obj == "*" || obj == project + "/*" then
      || KeyMatch(o, "projects/" + project) || KeyMatch(o, "rgds/*")
      || ResourceGiven("instances", project, destinations, o) || ResourceGiven("secrets", project, destinations, o)
      || ResourceGiven("repositories", project, [], o) || ResourceGiven("compliance", project, [], o)
    else if obj == "instances/*" then ResourceGiven("instances", project, destinations, o)
    else if obj == "secrets/*" then ResourceGiven("secrets", project, destinations, o)
    else if obj == "repositories/*" then ResourceGiven("repositories", project, [], o)
    else if obj == "compliance/*" then ResourceGiven("compliance", project, [], o)
    else if obj == "projects/*" then KeyMatch(o, "projects/" + project)
    else KeyMatch(o, obj)
  }

  lemma {:induction false} ResourceExactly(res: string, project: string, destinations: seq<string>, o: string)
    ensures Covers(ScopeResourceToDestinations(res, project, destinations), o) <==> ResourceGiven(res, project, destinations, o)
  {
    var objects := ScopeResourceToDestinations(res, project, destinations);
    if destinations == [] {
      assert objects == [res + "/" + project + "/*"];
    } else {
      forall d | d in destinations ensures res + "/" + project + "/" + d + "/*" in objects {
        var i :| 0 <= i < |destinations| && destinations[i] == d;
        assert objects[i] == PerDestination(res, project, d);
      }
      forall x | x in objects ensures exists d | d in destinations :: x == res + "/" + project + "/" + d + "/*" {
        var i :| 0 <= i < |objects| && objects[i] == x;
        assert destinations[i] in destinations;
      }
    }
  }

  lemma {:induction false} CoversConcat(a: seq<string>, b: seq<string>, o: string)
    ensures Covers(a + b, o) <==> Covers(a, o) || Covers(b, o)
  {
    assert forall x | x in a || x in b :: x in a + b;
  }

  lemma {:induction false} CoversOne(x: string, o: string)
    ensures Covers([x], o) <==> KeyMatch(o, x)
  {
    assert x in [x];
  }

  lemma {:induction false} CoversThree(x: string, y: string, z: string, o: string)
    ensures Covers([x, y, z], o) <==> KeyMatch(o, x) || KeyMatch(o, y) || KeyMatch(o, z)
  {
    assert x in [x, y, z] && y in [x, y, z] && z in [x, y, z];
  }

  lemma {:induction false} WholeProjectExactly(project: string, destinations: seq<string>, o: string)
    ensures Covers(WholeProject(project, destinations), o) <==> ObjectGiven(project, "*", destinations, o)
  {
    var single, instances, secrets := ["projects/" + project], ScopeResourceToDestinations("instances", project, destinations),
                                      ScopeResourceToDestinations("secrets", project, destinations);
    ResourceExactly("instances", project, destinations, o);
    ResourceExactly("secrets", project, destinations, o);
    CoversConcat(single + instances + secrets, [ProjectWide("repositories", project), ProjectWide("compliance", project), "rgds/*"], o);
    CoversConcat(single + instances, secrets, o);
    CoversConcat(single, instances, o);
    CoversThree(ProjectWide("repositories", project), ProjectWide("compliance", project), "rgds/*", o);
    CoversOne("projects/" + project, o);
  }

  /** Scoping gives exactly the objects the rule means. */
  lemma {:induction false} ObjectsExactly(project: string, obj: string, destinations: seq<string>, o: string)
    ensures Covers(ScopeObject(project, obj, destinations), o) <==> ObjectGiven(project, obj, destinations, o)
  {
    if obj == "*" || obj == project + "/*" {
      WholeProjectExactly(project, destinations, o);
    } else if obj == "instances/*" {
      ResourceExactly("instances", project, destinations, o);
    } else if obj == "secrets/*" {
      ResourceExactly("secrets", project, destinations, o);
    } else {
      SingleObjectExactly(project, obj, destinations, o);
    }
  }

  lemma {:induction false} SingleObjectExactly(project: string, obj: string, destinations: seq<string>, o: string)
    requires obj != "*" && obj != project + "/*" && obj != "instances/*" && obj != "secrets/*"
    ensures Covers(ScopeObject(project, obj, destinations), o) <==> ObjectGiven(project, obj, destinations, o)
  {
    var objects := ScopeObject(project, obj, destinations);
    assert |objects| == 1 && (Covers(objects, o) <==> KeyMatch(o, objects[0]));
  }

  // ---- rules ----

  lemma {:induction false} TuplesExactly(role: string, objects: seq<string>, actions: seq<string>, eft: string, o: string, a: string)
    ensures var c := Compiled(Tuples(role, objects, actions, eft), {}, false);
            && (forall p | p in c.policies :: p.sub == role && p.eft == eft)
            && (Gives(c, eft, o, a) <==> Covers(objects, o) && exists x | x in actions :: KeyMatch(a, x))
  {
    var c := Compiled(Tuples(role, objects, actions, eft), {}, false);
    if Covers(objects, o) && exists x | x in actions :: KeyMatch(a, x) {
      var obj :| obj in objects && KeyMatch(o, obj);
      var x :| x in actions && KeyMatch(a, x);
      assert Policy(role, obj, x, eft) in c.policies;
    }
  }

  /** Which objects and actions a custom rule grants or denies: exactly those it means in its project. */
  lemma {:induction false} RuleGivesExactly(project: string, role: string, text: string, destinations: seq<string>, rule: Rule, o: string, a: string)
    requires ParseRule(text) == Ok(Some(rule))
    ensures var c := AddScopedRule(project, role, text, destinations);
            && !c.failed && c.groupings == {}
            && (forall p | p in c.policies :: p.sub == role && p.eft == rule.eft)
            && (Gives(c, rule.eft, o, a) <==> ObjectGiven(project, rule.obj, destinations, o) && ActionGiven(rule.act, a))
  {
    TuplesExactly(role, ScopeObject(project, rule.obj, destinations), NormalizeAction(rule.act), rule.eft, o, a);
    ObjectsExactly(project, rule.obj, destinations, o);
    ActionsExactly(rule.act, a);
  }

  /** The same for a rule that is not scoped. */
  lemma {:induction false} UnscopedRuleGivesExactly(role: string, text: string, rule: Rule, o: string, a: string)
    requires ParseRule(text) == Ok(Some(rule))
    ensures var c := AddRule(role, text);
            && !c.failed && c.groupings == {}
            && (forall p | p in c.policies :: p.sub == role && p.eft == rule.eft)
            && (Gives(c, rule.eft, o, a) <==> KeyMatch(o, rule.obj) && ActionGiven(rule.act, a))
  {
    TuplesExactly(role, [rule.obj], NormalizeAction(rule.act), rule.eft, o, a);
    ActionsExactly(rule.act, a);
    assert Covers([rule.obj], o) <==> KeyMatch(o, rule.obj);
  }

  // ---- the six-part form ----

  function SixPartText(p: string, subject: string, kind: string, act: string, scope: string, eft: string): string {
    p + "," + (" " + subject + "," + (" " + kind + "," + (" " + act + "," + (" " + scope + "," + (" " + eft)))))
  }

  lemma {:induction false} SplitSix(a: string, b: string, c: string, d: string, e: string, f: string)
    requires Free(a, ',') && Free(b, ',') && Free(c, ',') && Free(d, ',') && Free(e, ',') && Free(f, ',')
    ensures Split(a + "," + (b + "," + (c + "," + (d + "," + (e + "," + f)))), ',') == [a, b, c, d, e, f]
  {
    SplitFirst(a, ',', b + "," + (c + "," + (d + "," + (e + "," + f))));
    SplitFirst(b, ',', c + "," + (d + "," + (e + "," + f)));
    SplitFirst(c, ',', d + "," + (e + "," + f));
    SplitFirst(d, ',', e + "," + f);
    SplitFirst(e, ',', f);
    SplitFree(f, ',');
  }

  /** The plural under which a kind of resource is routed. */
  function Plural(kind: string): string {
    if Lower(kind) in SINGULARS then SINGULARS[Lower(kind)] else kind
  }

  const SINGULARS: map<string, string> := map["rgd" := "rgds", "instance" := "instances", "project" := "projects",
                                              "repository" := "repositories", "secret" := "secrets"]

  predicate Part(s: string) {
    Free(s, ',') && Trimmed(s)
  }

  lemma {:induction false} SpacedPart(s: string)
    requires Free(s, ',')
    ensures Free(" " + s, ',') && (Trimmed(s) ==> TrimSpace(" " + s) == s)
  {
    if Trimmed(s) {
      TrimSpaceAround(s);
    }
  }

  lemma {:induction false} SixParts(p: string, subject: string, kind: string, act: string, scope: string, eft: string)
    requires Part(p) && Free(subject, ',') && Part(kind) && Part(act) && Part(scope) && Part(eft)
    ensures var text := SixPartText(p, subject, kind, act, scope, eft);
            && TrimSpace(text) == text && text != "" && |TrimmedParts(text)| == 6
            && TrimmedParts(text)[2] == kind && TrimmedParts(text)[3] == act
            && TrimmedParts(text)[4] == scope && TrimmedParts(text)[5] == eft
  {
    var text := SixPartText(p, subject, kind, act, scope, eft);
    SpacedPart(subject);
    SpacedPart(kind);
    SpacedPart(act);
    SpacedPart(scope);
    SpacedPart(eft);
    SplitSix(p, " " + subject, " " + kind, " " + act, " " + scope, " " + eft);
    LastOfSix(p, subject, kind, act, scope, eft);
    TrimSpaceAround(text);
  }

  lemma {:induction false} LastOfSix(p: string, subject: string, kind: string, act: string, scope: string, eft: string)
    requires p != "" && eft != ""
    ensures var text := SixPartText(p, subject, kind, act, scope, eft);
            text != "" && text[0] == p[0] && text[|text| - 1] == eft[|eft| - 1]
  {
  }

  /** The six-part form names a kind and a scope: the whole kind for scope `*`, the scope itself for kind `*`, and
      otherwise the scope under the kind, the kind in its plural. What it says about a subject is ignored. */
  lemma {:induction false} SixPartRuleParses(p: string, subject: string, kind: string, act: string, scope: string, eft: string)
    requires Part(p) && Free(subject, ',') && Part(kind) && Part(act) && Part(scope)
    requires eft == "allow" || eft == "deny"
    ensures var text := SixPartText(p, subject, kind, act, scope, eft);
            ParseRule(text) == if |text| > MAX_PATTERN_LENGTH then Err(PolicyTooLong)
                               else Ok(Some(Rule(if scope == "*" then Plural(kind) + "/*"
                                                 else if kind == "*" then scope else Plural(kind) + "/" + scope, act, eft)))
  {
    SixParts(p, subject, kind, act, scope, eft);
    PluralIsNormal(kind);
    StarIsNoSingular(kind);
  }

  lemma {:induction false} PluralIsNormal(kind: string)
    ensures Plural(kind) == NormalizeResourceType(kind)
  {
  }

  lemma {:induction false} StarIsNoSingular(kind: string)
    ensures Plural(kind) == "*" <==> kind == "*"
  {
    if kind == "*" {
      assert |Lower(kind)| == 1;
    }
  }
}
