/** Mapping OIDC groups to project roles: per project the highest role of the mappings that match.
    Pattern matching of filepath.Match is a parameter. */
module GroupMapper {
  import opened Text
  import opened Wrappers
  import opened KeyOrder

  const ROLE_SERVER_ADMIN := "role:serveradmin"
  const ROLE_PLATFORM_ADMIN := "platform-admin"
  const ROLE_DEVELOPER := "developer"
  const ROLE_VIEWER := "viewer"

  datatype Mapping = Mapping(group: string, project: string, role: string, globalAdmin: bool)

  datatype Membership = Membership(project: string, role: string)

  datatype MappingResult = MappingResult(memberships: seq<Membership>, globalRoles: seq<string>) {
    predicate IsEmpty() { |memberships| == 0 && |globalRoles| == 0 }
  }

  /** filepath.Match(pattern, name); None is a malformed pattern. */
  type Glob = (string, string) -> Option<bool>

  // ---- what the mappings mean ----

  /** Unknown roles rank lowest. */
  function Rank(role: string): nat {
    if role == ROLE_PLATFORM_ADMIN then 3
    else if role == ROLE_DEVELOPER then 2
    else if role == ROLE_VIEWER then 1
    else 0
  }

  predicate Wild(pattern: string) {
    '*' in pattern || '?' in pattern || '[' in pattern
  }

  /** Some group matches the pattern; an exact pattern never matches the empty group. */
  ghost predicate Matches(glob: Glob, pattern: string, groups: set<string>) {
    if Wild(pattern) then exists g :: g in groups && glob(pattern, g) == Some(true)
    else pattern != "" && pattern in groups
  }

  /** The mapping gives the groups a known role in the project. */
  ghost predicate Grants(glob: Glob, m: Mapping, groups: set<string>, project: string) {
    Matches(glob, m.group, groups) && !m.globalAdmin && m.project == project != "" && Rank(m.role) > 0
  }

  ghost predicate GrantsAdmin(glob: Glob, mappings: seq<Mapping>, groups: set<string>) {
    exists m :: m in mappings && m.globalAdmin && Matches(glob, m.group, groups)
  }

  /** `role` is the highest of the roles that the mappings give the groups in the project. */
  ghost predicate Highest(glob: Glob, mappings: seq<Mapping>, groups: set<string>, project: string, role: string) {
    && (exists m :: m in mappings && Grants(glob, m, groups, project) && m.role == role)
    && (forall m :: m in mappings && Grants(glob, m, groups, project) ==> Rank(m.role) <= Rank(role))
  }

  ghost predicate Member(glob: Glob, mappings: seq<Mapping>, groups: set<string>, project: string) {
    exists m :: m in mappings && Grants(glob, m, groups, project)
  }

  /** `roles` holds exactly the projects some mapping grants, each with the highest role. */
  ghost predicate AreTopRoles(roles: map<string, string>, glob: Glob, mappings: seq<Mapping>, groups: set<string>) {
    && (forall p: string :: Member(glob, mappings, groups, p) ==> p in roles)
    && (forall p: string :: p in roles ==> Highest(glob, mappings, groups, p, roles[p]))
  }

  ghost function Listing(roles: map<string, string>): seq<Membership> {
    var projects := SortedKeys(roles.Keys);
    seq(|projects|, i requires 0 <= i < |projects| =>
      assert projects[i] in Elements(projects); Membership(projects[i], roles[projects[i]]))
  }

  ghost predicate IsEvaluation(r: MappingResult, glob: Glob, mappings: seq<Mapping>, groups: set<string>) {
    && (exists roles: map<string, string> :: AreTopRoles(roles, glob, mappings, groups) && r.memberships == Listing(roles))
    && r.globalRoles == if GrantsAdmin(glob, mappings, groups) then [ROLE_SERVER_ADMIN] else []
  }

  // ---- the result is determined by the sets of mappings and groups ----

  lemma {:induction false} RankInjective(a: string, b: string)
    requires Rank(a) == Rank(b) > 0
    ensures a == b
  {}

  lemma {:induction false} TopRolesUnique(a: map<string, string>, b: map<string, string>, glob: Glob, xs: seq<Mapping>, ys: seq<Mapping>, groups: set<string>)
    requires AreTopRoles(a, glob, xs, groups) && AreTopRoles(b, glob, ys, groups)
    requires forall m :: m in xs <==> m in ys
    ensures a == b
  {
    forall p: string ensures p in a <==> p in b {
      assert p in a ==> Highest(glob, xs, groups, p, a[p]) && Member(glob, ys, groups, p);
      assert p in b ==> Highest(glob, ys, groups, p, b[p]) && Member(glob, xs, groups, p);
    }
    forall p: string | p in a ensures a[p] == b[p] {
      var m :| m in xs && Grants(glob, m, groups, p) && m.role == a[p];
      var n :| n in ys && Grants(glob, n, groups, p) && n.role == b[p];
      assert Highest(glob, ys, groups, p, b[p]) && Highest(glob, xs, groups, p, a[p]);
      RankInjective(a[p], b[p]);
    }
  }

  /** Neither the order of mappings or groups nor repeating them changes the evaluation. */
  lemma {:induction false} EvaluationIsOrderFree(r: MappingResult, s: MappingResult, glob: Glob, xs: seq<Mapping>, ys: seq<Mapping>, groups: set<string>)
    requires IsEvaluation(r, glob, xs, groups) && IsEvaluation(s, glob, ys, groups)
    requires forall m :: m in xs <==> m in ys
    ensures r == s
  {
    var a :| AreTopRoles(a, glob, xs, groups) && r.memberships == Listing(a);
    var b :| AreTopRoles(b, glob, ys, groups) && s.memberships == Listing(b);
    TopRolesUnique(a, b, glob, xs, ys, groups);
    assert GrantsAdmin(glob, xs, groups) ==> GrantsAdmin(glob, ys, groups);
    assert GrantsAdmin(glob, ys, groups) ==> GrantsAdmin(glob, xs, groups);
  }

  /** What a listing says: sorted by project, each project once with its role, and nothing else. */
  lemma {:induction false} ListingMeans(roles: map<string, string>)
    ensures forall i, j | 0 <= i < j < |Listing(roles)| :: Less(Listing(roles)[i].project, Listing(roles)[j].project)
    ensures forall p, role :: Membership(p, role) in Listing(roles) <==> p in roles && roles[p] == role
  {
    var projects := SortedKeys(roles.Keys);
    forall p, role ensures Membership(p, role) in Listing(roles) <==> p in roles && roles[p] == role {
      if p in roles && roles[p] == role {
        assert p in Elements(projects);
        var i :| 0 <= i < |projects| && projects[i] == p;
        assert Listing(roles)[i] == Membership(p, role);
      }
    }
  }

  /** So the memberships of an evaluation are sorted, and are the highest roles, no more and no less. */
  lemma {:induction false} EvaluationMeans(r: MappingResult, glob: Glob, mappings: seq<Mapping>, groups: set<string>)
    requires IsEvaluation(r, glob, mappings, groups)
    ensures forall i, j | 0 <= i < j < |r.memberships| :: Less(r.memberships[i].project, r.memberships[j].project)
    ensures forall p, role :: Membership(p, role) in r.memberships <==> Highest(glob, mappings, groups, p, role)
  {
    var roles :| AreTopRoles(roles, glob, mappings, groups) && r.memberships == Listing(roles);
    ListingMeans(roles);
    forall p, role ensures Membership(p, role) in r.memberships <==> Highest(glob, mappings, groups, p, role) {
      TopRoleIsHighest(roles, glob, mappings, groups, p, role);
    }
  }

  lemma {:induction false} TopRoleIsHighest(roles: map<string, string>, glob: Glob, mappings: seq<Mapping>, groups: set<string>, p: string, role: string)
    requires AreTopRoles(roles, glob, mappings, groups)
    ensures p in roles && roles[p] == role <==> Highest(glob, mappings, groups, p, role)
  {
    if Highest(glob, mappings, groups, p, role) {
      assert Member(glob, mappings, groups, p) && Highest(glob, mappings, groups, p, roles[p]);
      RankInjective(role, roles[p]);
    }
  }

  /** An exact pattern, one without `*`, `?` and `[`, matches just the group of that name. */
  lemma {:induction false} ExactPatternMatches(glob: Glob, pattern: string, groups: set<string>)
    requires Free(pattern, '*') && Free(pattern, '?') && Free(pattern, '[')
    ensures Matches(glob, pattern, groups) <==> pattern != "" && pattern in groups
  {
  }

  /** Some matching mapping gives this role in the project. */
  ghost predicate GivesRole(glob: Glob, mappings: seq<Mapping>, groups: set<string>, project: string, role: string) {
    project != "" && exists m | m in mappings :: !m.globalAdmin && m.project == project && m.role == role && Matches(glob, m.group, groups)
  }

  /** The order of the roles: a platform admin is that whatever else is given, a developer unless also given
      platform admin, a viewer only if given neither. */
  lemma {:induction false} RoleOrder(r: MappingResult, glob: Glob, mappings: seq<Mapping>, groups: set<string>, p: string)
    requires IsEvaluation(r, glob, mappings, groups)
    ensures Membership(p, "platform-admin") in r.memberships <==> GivesRole(glob, mappings, groups, p, "platform-admin")
    ensures Membership(p, "developer") in r.memberships <==>
              GivesRole(glob, mappings, groups, p, "developer") && !GivesRole(glob, mappings, groups, p, "platform-admin")
    ensures Membership(p, "viewer") in r.memberships <==>
              GivesRole(glob, mappings, groups, p, "viewer")
              && !GivesRole(glob, mappings, groups, p, "developer") && !GivesRole(glob, mappings, groups, p, "platform-admin")
  {
    EvaluationMeans(r, glob, mappings, groups);
    HighestOfThree(glob, mappings, groups, p);
  }

  lemma {:induction false} OnlyKnownRoles(r: MappingResult, glob: Glob, mappings: seq<Mapping>, groups: set<string>)
    requires IsEvaluation(r, glob, mappings, groups)
    ensures forall m | m in r.memberships :: m.role in ["platform-admin", "developer", "viewer"]
  {
    EvaluationMeans(r, glob, mappings, groups);
    forall m | m in r.memberships ensures m.role in ["platform-admin", "developer", "viewer"] {
      assert Membership(m.project, m.role) == m && Highest(glob, mappings, groups, m.project, m.role);
      KnownRole(m.role);
    }
  }

  lemma {:induction false} KnownRole(role: string)
    ensures Rank(role) > 0 <==> role in ["platform-admin", "developer", "viewer"]
  {
  }

  lemma {:induction false} GivenIsGranted(glob: Glob, mappings: seq<Mapping>, groups: set<string>, p: string, role: string)
    requires Rank(role) > 0
    ensures GivesRole(glob, mappings, groups, p, role) <==> exists m :: m in mappings && Grants(glob, m, groups, p) && m.role == role
  {
  }

  lemma {:induction false} HighestOfThree(glob: Glob, mappings: seq<Mapping>, groups: set<string>, p: string)
    ensures Highest(glob, mappings, groups, p, "platform-admin") <==> GivesRole(glob, mappings, groups, p, "platform-admin")
    ensures Highest(glob, mappings, groups, p, "developer") <==>
              GivesRole(glob, mappings, groups, p, "developer") && !GivesRole(glob, mappings, groups, p, "platform-admin")
    ensures Highest(glob, mappings, groups, p, "viewer") <==>
              GivesRole(glob, mappings, groups, p, "viewer")
              && !GivesRole(glob, mappings, groups, p, "developer") && !GivesRole(glob, mappings, groups, p, "platform-admin")
  {
    GivenIsGranted(glob, mappings, groups, p, "platform-admin");
    GivenIsGranted(glob, mappings, groups, p, "developer");
    GivenIsGranted(glob, mappings, groups, p, "viewer");
  }

  // ---- evaluating a union ----

  lemma {:induction false} MatchesUnion(glob: Glob, pattern: string, a: set<string>, b: set<string>)
    ensures Matches(glob, pattern, a + b) <==> Matches(glob, pattern, a) || Matches(glob, pattern, b)
  {
    if Wild(pattern) && Matches(glob, pattern, a + b) {
      var g :| g in a + b && glob(pattern, g) == Some(true);
      assert g in a || g in b;
    }
  }

  lemma {:induction false} GrantsUnion(glob: Glob, mappings: seq<Mapping>, x: set<string>, y: set<string>, p: string)
    ensures forall m: Mapping :: Grants(glob, m, x + y, p) <==> Grants(glob, m, x, p) || Grants(glob, m, y, p)
  {
    forall m: Mapping ensures Grants(glob, m, x + y, p) <==> Grants(glob, m, x, p) || Grants(glob, m, y, p) {
      MatchesUnion(glob, m.group, x, y);
    }
  }

  /** Evaluating two sets of groups together joins the two evaluations. */
  lemma {:induction false} EvaluationJoins(r: MappingResult, s: MappingResult, t: MappingResult, glob: Glob, mappings: seq<Mapping>, x: set<string>, y: set<string>)
    requires IsEvaluation(r, glob, mappings, x) && IsEvaluation(s, glob, mappings, y) && IsEvaluation(t, glob, mappings, x + y)
    ensures forall p, role :: Membership(p, role) in t.memberships <==> Joined(r.memberships, s.memberships, p, role)
    ensures t.globalRoles == if r.globalRoles != [] then r.globalRoles else s.globalRoles
  {
    EvaluationMeans(r, glob, mappings, x);
    EvaluationMeans(s, glob, mappings, y);
    EvaluationMeans(t, glob, mappings, x + y);
    AdminUnion(glob, mappings, x, y);
    forall p, role ensures Membership(p, role) in t.memberships <==> Joined(r.memberships, s.memberships, p, role) {
      HighestUnion(glob, mappings, x, y, p, role);
    }
  }

  /** The higher of the roles that two results give in the project. */
  ghost predicate Joined(a: seq<Membership>, b: seq<Membership>, p: string, role: string) {
    && (Membership(p, role) in a || Membership(p, role) in b)
    && (forall other :: Membership(p, other) in a || Membership(p, other) in b ==> Rank(other) <= Rank(role))
  }

  /** A mapped project has a highest role: climb from any role that is granted. */
  lemma {:induction false} HighestExists(glob: Glob, mappings: seq<Mapping>, groups: set<string>, p: string, m: Mapping) returns (role: string)
    requires m in mappings && Grants(glob, m, groups, p)
    ensures Highest(glob, mappings, groups, p, role) && Rank(m.role) <= Rank(role)
    decreases 3 - Rank(m.role)
  {
    if n :| n in mappings && Grants(glob, n, groups, p) && Rank(n.role) > Rank(m.role) {
      role := HighestExists(glob, mappings, groups, p, n);
    } else {
      role := m.role;
    }
  }

  lemma {:induction false} HighestUnion(glob: Glob, mappings: seq<Mapping>, x: set<string>, y: set<string>, p: string, role: string)
    ensures Highest(glob, mappings, x + y, p, role) <==>
      && (Highest(glob, mappings, x, p, role) || Highest(glob, mappings, y, p, role))
      && (forall other :: Highest(glob, mappings, x, p, other) || Highest(glob, mappings, y, p, other) ==> Rank(other) <= Rank(role))
  {
    GrantsUnion(glob, mappings, x, y, p);
    if (Highest(glob, mappings, x, p, role) || Highest(glob, mappings, y, p, role))
      && (forall other :: Highest(glob, mappings, x, p, other) || Highest(glob, mappings, y, p, other) ==> Rank(other) <= Rank(role)) {
      forall m | m in mappings && Grants(glob, m, x + y, p) ensures Rank(m.role) <= Rank(role) {
        if Grants(glob, m, x, p) {
          var other := HighestExists(glob, mappings, x, p, m);
        } else {
          var other := HighestExists(glob, mappings, y, p, m);
        }
      }
    }
  }

  lemma {:induction false} AdminUnion(glob: Glob, mappings: seq<Mapping>, x: set<string>, y: set<string>)
    ensures GrantsAdmin(glob, mappings, x + y) <==> GrantsAdmin(glob, mappings, x) || GrantsAdmin(glob, mappings, y)
  {
    forall m: Mapping ensures Matches(glob, m.group, x + y) <==> Matches(glob, m.group, x) || Matches(glob, m.group, y) {
      MatchesUnion(glob, m.group, x, y);
    }
  }

  /** A group that maps on its own is never lost among others. */
  lemma {:induction false} MappedAloneIsMapped(r: MappingResult, one: MappingResult, glob: Glob, mappings: seq<Mapping>, groups: set<string>, g: string)
    requires IsEvaluation(r, glob, mappings, groups) && IsEvaluation(one, glob, mappings, {g})
    requires g in groups && !one.IsEmpty()
    ensures !r.IsEmpty()
  {
    assert {g} + groups == groups;
    EvaluationJoins(one, r, r, glob, mappings, {g}, groups);
    if |one.memberships| > 0 {
      var m := one.memberships[0];
      EvaluationMeans(one, glob, mappings, {g});
      var grant :| grant in mappings && Grants(glob, grant, {g}, m.project);
      GrantsUnion(glob, mappings, {g}, groups, m.project);
      var role := HighestExists(glob, mappings, groups, m.project, grant);
      EvaluationMeans(r, glob, mappings, groups);
      assert Membership(m.project, role) in r.memberships;
    }
  }

  // ---- the evaluation loop ----

  lemma {:induction false} NothingForNobody(glob: Glob, mappings: seq<Mapping>, groups: set<string>)
    requires groups == {} || mappings == []
    ensures AreTopRoles(map[], glob, mappings, groups) && !GrantsAdmin(glob, mappings, groups)
  {
    assert forall p: string :: !Member(glob, mappings, groups, p);
  }

  /** One more mapping: it raises the role of its project or changes nothing. */
  lemma {:induction false} OneMore(roles: map<string, string>, glob: Glob, mappings: seq<Mapping>, m: Mapping, groups: set<string>)
    requires AreTopRoles(roles, glob, mappings, groups)
    ensures var counts := Grants(glob, m, groups, m.project);
            && (!counts ==> AreTopRoles(roles, glob, mappings + [m], groups))
            && (counts && m.project in roles && Rank(m.role) <= Rank(roles[m.project]) ==> AreTopRoles(roles, glob, mappings + [m], groups))
            && (counts && (m.project !in roles || Rank(m.role) > Rank(roles[m.project])) ==>
                AreTopRoles(roles[m.project := m.role], glob, mappings + [m], groups))
  {
    var after := if !Grants(glob, m, groups, m.project) then roles
                 else if m.project in roles && Rank(m.role) <= Rank(roles[m.project]) then roles
                 else roles[m.project := m.role];
    forall p: string ensures Member(glob, mappings + [m], groups, p) ==> p in after {
      assert Member(glob, mappings + [m], groups, p) ==> Member(glob, mappings, groups, p) || Grants(glob, m, groups, p);
    }
    forall p: string | p in after ensures Highest(glob, mappings + [m], groups, p, after[p]) {
      if p == m.project && after != roles {
        assert m in mappings + [m];
        assert p in roles ==> Highest(glob, mappings, groups, p, roles[p]);
        assert p !in roles ==> !Member(glob, mappings, groups, p);
      } else {
        assert Highest(glob, mappings, groups, p, roles[p]);
        var n :| n in mappings && Grants(glob, n, groups, p) && n.role == roles[p];
        assert n in mappings + [m];
      }
    }
  }

  method MatchGroup(glob: Glob, pattern: string, groups: seq<string>, groupSet: set<string>) returns (matched: bool)
    requires forall g :: g in groupSet <==> g in groups && g != ""
    ensures matched <==> Matches(glob, pattern, Elements(groups))
  {
    if !Wild(pattern) {
      return pattern in groupSet;
    }
    for i := 0 to |groups|
      invariant forall j | 0 <= j < i :: glob(pattern, groups[j]) != Some(true)
    {
      if glob(pattern, groups[i]) == Some(true) {
        assert groups[i] in Elements(groups);
        return true;
      }
    }
    return false;
  }

  method EvaluateMappings(glob: Glob, mappings: seq<Mapping>, groups: seq<string>) returns (r: MappingResult)
    ensures IsEvaluation(r, glob, mappings, Elements(groups))
  {
    ghost var gs := Elements(groups);
    NothingForNobody(glob, [], gs);
    ListingMeans(map[]);
    if |groups| == 0 || |mappings| == 0 {
      NothingForNobody(glob, mappings, gs);
      assert Listing(map[]) == [];
      return MappingResult([], []);
    }
    var groupSet := set g | g in groups && g != "";
    var projectRoles: map<string, string> := map[];
    var globalRoles: seq<string> := [];
    for i := 0 to |mappings|
      invariant AreTopRoles(projectRoles, glob, mappings[..i], gs)
      invariant globalRoles == if GrantsAdmin(glob, mappings[..i], gs) then [ROLE_SERVER_ADMIN] else []
    {
      var m := mappings[i];
      assert mappings[..i + 1] == mappings[..i] + [m];
      OneMore(projectRoles, glob, mappings[..i], m, gs);
      AdminOneMore(glob, mappings[..i], m, gs);
      var matched := MatchGroup(glob, m.group, groups, groupSet);
      if !matched {
        continue;
      }
      if m.globalAdmin {
        if ROLE_SERVER_ADMIN !in globalRoles {
          globalRoles := globalRoles + [ROLE_SERVER_ADMIN];
        }
        continue;
      }
      if m.project != "" {
        if Rank(m.role) == 0 {
          continue;
        }
        if m.project !in projectRoles || Rank(m.role) > Rank(projectRoles[m.project]) {
          projectRoles := projectRoles[m.project := m.role];
        }
      }
    }
    assert mappings[..|mappings|] == mappings;
    var memberships := List(projectRoles);
    return MappingResult(memberships, globalRoles);
  }

  lemma {:induction false} AdminOneMore(glob: Glob, mappings: seq<Mapping>, m: Mapping, groups: set<string>)
    ensures GrantsAdmin(glob, mappings + [m], groups) <==>
      GrantsAdmin(glob, mappings, groups) || (m.globalAdmin && Matches(glob, m.group, groups))
  {
    assert m in mappings + [m];
    forall n | n in mappings ensures n in mappings + [m] {}
  }

  /** The map is listed in the order of its project names. */
  method List(roles: map<string, string>) returns (memberships: seq<Membership>)
    ensures memberships == Listing(roles)
  {
    var projects := SortKeys(roles.Keys);
    memberships := [];
    for i := 0 to |projects|
      invariant memberships == Listing(roles)[..i]
    {
      assert projects[i] in Elements(projects);
      memberships := memberships + [Membership(projects[i], roles[projects[i]])];
    }
  }

  // ---- the mapped groups of a user ----

  /** The roles Casbin holds for a subject; None stands for a failed read. */
  type RoleReader = string -> Option<seq<string>>

  ghost predicate MappedByConfig(glob: Glob, mappings: seq<Mapping>, g: string) {
    exists r :: IsEvaluation(r, glob, mappings, {g}) && !r.IsEmpty()
  }

  ghost predicate MappedInCasbin(roles: RoleReader, g: string) {
    roles("group:" + g).Some? && roles("group:" + g).value != []
  }

  ghost predicate Mapped(glob: Glob, mapper: Option<seq<Mapping>>, roleManager: Option<RoleReader>, g: string) {
    || (mapper.Some? && MappedByConfig(glob, mapper.value, g))
    || (roleManager.Some? && MappedInCasbin(roleManager.value, g))
  }

  /** The groups that satisfy Mapped, in their order. */
  ghost function MappedAmong(glob: Glob, mapper: Option<seq<Mapping>>, roleManager: Option<RoleReader>, groups: seq<string>): seq<string> {
    if |groups| == 0 then []
    else
      var n := |groups| - 1;
      MappedAmong(glob, mapper, roleManager, groups[..n])
      + (if Mapped(glob, mapper, roleManager, groups[n]) then [groups[n]] else [])
  }

  lemma {:induction false} TopRolesExist(glob: Glob, mappings: seq<Mapping>, groups: set<string>) returns (roles: map<string, string>)
    ensures AreTopRoles(roles, glob, mappings, groups)
    decreases |mappings|
  {
    if mappings == [] {
      NothingForNobody(glob, mappings, groups);
      roles := map[];
    } else {
      var front, m := mappings[..|mappings| - 1], mappings[|mappings| - 1];
      roles := TopRolesExist(glob, front, groups);
      OneMore(roles, glob, front, m, groups);
      assert mappings == front + [m];
      if Grants(glob, m, groups, m.project) && !(m.project in roles && Rank(m.role) <= Rank(roles[m.project])) {
        roles := roles[m.project := m.role];
      }
    }
  }

  /** A group maps on its own exactly when some mapping it matches gives the admin role or a known project role. */
  lemma {:induction false} MappedByConfigExactly(glob: Glob, mappings: seq<Mapping>, g: string)
    ensures MappedByConfig(glob, mappings, g) <==>
      exists m | m in mappings :: Matches(glob, m.group, {g})
        && (m.globalAdmin || (m.project != "" && m.role in ["platform-admin", "developer", "viewer"]))
  {
    var roles := TopRolesExist(glob, mappings, {g});
    var r := MappingResult(Listing(roles), if GrantsAdmin(glob, mappings, {g}) then [ROLE_SERVER_ADMIN] else []);
    assert IsEvaluation(r, glob, mappings, {g});
    MappedByConfigIf(glob, mappings, g, r);
    ListingEmpty(roles, glob, mappings, {g});
    SomethingGiven(glob, mappings, {g});
  }

  lemma {:induction false} ListingEmpty(roles: map<string, string>, glob: Glob, mappings: seq<Mapping>, groups: set<string>)
    requires AreTopRoles(roles, glob, mappings, groups)
    ensures |Listing(roles)| > 0 <==> exists m :: m in mappings && Grants(glob, m, groups, m.project)
  {
    ListingMeans(roles);
    if |Listing(roles)| > 0 {
      var m := Listing(roles)[0];
      assert Membership(m.project, m.role) in Listing(roles);
      assert Highest(glob, mappings, groups, m.project, roles[m.project]);
    }
    forall m | m in mappings && Grants(glob, m, groups, m.project) ensures |Listing(roles)| > 0 {
      assert Member(glob, mappings, groups, m.project);
      assert Membership(m.project, roles[m.project]) in Listing(roles);
    }
  }

  lemma {:induction false} SomethingGiven(glob: Glob, mappings: seq<Mapping>, groups: set<string>)
    ensures GrantsAdmin(glob, mappings, groups) || (exists m :: m in mappings && Grants(glob, m, groups, m.project)) <==>
      exists m | m in mappings :: Matches(glob, m.group, groups)
        && (m.globalAdmin || (m.project != "" && m.role in ["platform-admin", "developer", "viewer"]))
  {
    forall m: Mapping ensures Rank(m.role) > 0 <==> m.role in ["platform-admin", "developer", "viewer"] {
      KnownRole(m.role);
    }
  }

  /** The groups returned are exactly the mapped ones, in their order and as often as they are named. */
  lemma {:induction false} MappedAmongExactly(glob: Glob, mapper: Option<seq<Mapping>>, roleManager: Option<RoleReader>, xs: seq<string>, ys: seq<string>, g: string)
    ensures MappedAmong(glob, mapper, roleManager, xs + ys)
            == MappedAmong(glob, mapper, roleManager, xs) + MappedAmong(glob, mapper, roleManager, ys)
    ensures multiset(MappedAmong(glob, mapper, roleManager, xs))[g] == if Mapped(glob, mapper, roleManager, g) then multiset(xs)[g] else 0
    ensures g in MappedAmong(glob, mapper, roleManager, xs) <==> g in xs && Mapped(glob, mapper, roleManager, g)
  {
    var f := (groups: seq<string>) => MappedAmong(glob, mapper, roleManager, groups);
    var keeps := (h: string) => Mapped(glob, mapper, roleManager, h);
    var last := (h: string) => if Mapped(glob, mapper, roleManager, h) then [h] else [];
    forall groups, h ensures f(groups + [h]) == f(groups) + last(h) {
      assert (groups + [h])[..|groups|] == groups;
    }
    AppendsDistributes(f, last, xs, ys);
    AppendsCounts(f, last, keeps, xs, g);
    assert g in xs <==> multiset(xs)[g] > 0;
    assert g in f(xs) <==> multiset(f(xs))[g] > 0;
  }

  lemma {:induction false} MappedByConfigIf(glob: Glob, mappings: seq<Mapping>, g: string, one: MappingResult)
    requires IsEvaluation(one, glob, mappings, {g})
    ensures MappedByConfig(glob, mappings, g) <==> !one.IsEmpty()
  {
    if MappedByConfig(glob, mappings, g) {
      var r :| IsEvaluation(r, glob, mappings, {g}) && !r.IsEmpty();
      EvaluationIsOrderFree(r, one, glob, mappings, mappings, {g});
    }
  }

  lemma {:induction false} GateDropsNothing(glob: Glob, mappings: seq<Mapping>, groups: set<string>, all: MappingResult)
    requires IsEvaluation(all, glob, mappings, groups) && all.IsEmpty()
    ensures forall g :: g in groups ==> !MappedByConfig(glob, mappings, g)
  {
    forall g | g in groups && MappedByConfig(glob, mappings, g) ensures false {
      var r :| IsEvaluation(r, glob, mappings, {g}) && !r.IsEmpty();
      MappedAloneIsMapped(all, r, glob, mappings, groups, g);
    }
  }

  method MapsAlone(glob: Glob, mappings: seq<Mapping>, g: string) returns (alone: bool)
    ensures alone <==> MappedByConfig(glob, mappings, g)
  {
    var one := EvaluateMappings(glob, mappings, [g]);
    assert Elements([g]) == {g};
    MappedByConfigIf(glob, mappings, g, one);
    return !one.IsEmpty();
  }

  /** The groups that map on their own. The evaluation of all of them together comes first, and when it is
      empty none of them is looked at; that drops no group. */
  method ConfigMapped(glob: Glob, mappings: seq<Mapping>, groups: seq<string>) returns (mapped: set<string>)
    ensures forall g :: g in mapped <==> g in groups && MappedByConfig(glob, mappings, g)
  {
    mapped := {};
    var all := EvaluateMappings(glob, mappings, groups);
    if all.IsEmpty() {
      GateDropsNothing(glob, mappings, Elements(groups), all);
      assert forall g :: g in groups ==> g in Elements(groups);
      return;
    }
    for i := 0 to |groups|
      invariant forall g :: g in mapped <==> g in groups[..i] && MappedByConfig(glob, mappings, g)
    {
      var alone := MapsAlone(glob, mappings, groups[i]);
      assert groups[..i + 1] == groups[..i] + [groups[i]];
      if alone {
        mapped := mapped + {groups[i]};
      }
    }
    assert groups[..|groups|] == groups;
  }

  method GetMappedGroups(glob: Glob, mapper: Option<seq<Mapping>>, roleManager: Option<RoleReader>, groups: seq<string>) returns (mapped: seq<string>)
    ensures mapped == MappedAmong(glob, mapper, roleManager, groups)
  {
    if |groups| == 0 {
      return [];
    }
    var configMapped := {};
    if mapper.Some? {
      configMapped := ConfigMapped(glob, mapper.value, groups);
    }
    mapped := [];
    for i := 0 to |groups|
      invariant mapped == MappedAmong(glob, mapper, roleManager, groups[..i])
    {
      assert groups[..i + 1][..i] == groups[..i];
      if groups[i] in configMapped {
        mapped := mapped + [groups[i]];
        continue;
      }
      if roleManager.Some? {
        var roles := roleManager.value("group:" + groups[i]);
        if roles.None? {
          continue;
        }
        if |roles.value| > 0 {
          mapped := mapped + [groups[i]];
        }
      }
    }
    assert groups[..|groups|] == groups;
  }
}
