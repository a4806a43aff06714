/** What CanAccessWithGroups and GetAccessibleProjects decide, stated without caches or loops. */
module Access {
  import opened Text
  import opened Wrappers
  import opened Subjects
  import opened Casbin
  import opened Scoping
  import opened Policies
  import opened RbacState
  import opened ProjectLookup

  /** The project reader: absent, or a namespace-to-project lookup. */
  datatype Reader = Reader(present: bool, owner: string -> Option<string>)

  /** The reader that the project service is: the owner of a namespace is the first listed match. */
  function ReaderOf(projects: seq<Listed>): Reader {
    Reader(true, ns => OwnerName(projects, ns))
  }

  /** With it, a request's namespace is resolved to the first listed project with a destination that matches,
      and is left alone exactly when no project has one. */
  lemma {:induction false} ResolvesToFirstOwner(projects: seq<Listed>, obj: string) returns (ns: string, rest: string, owner: Option<Listed>)
    requires HasPrefix(obj, "instances/")
    ensures obj == "instances/" + ns + rest && Free(ns, '/') && (rest == "" || rest[0] == '/')
    ensures IsOwner(projects, ns, owner)
    ensures ResolveNamespace(obj, ReaderOf(projects).owner)
            == if ns == "" || ns == "*" || owner == None then None
               else Some("instances/" + owner.value.name + "/" + ns + rest)
  {
    ns, rest := InstanceNamespace(obj);
    owner := FirstOwner(projects, ns);
    ResolveAt(obj, ReaderOf(projects).owner, ns, rest);
  }

  /** A request for access. */
  datatype Request = Request(user: string, groups: seq<string>, obj: string, act: string)

  function GroupSubjects(groups: seq<string>): (subjects: set<string>) {
    set g | g in groups && FormatGroupSubject(g).Some? :: FormatGroupSubject(g).value
  }

  /** The user's name in the other of its two spellings, with or without the `user:` prefix. */
  function OtherSpelling(user: string): string {
    if HasPrefix(user, "user:") then user[5..] else "user:" + user
  }

  function ServerRoles(g: set<Grouping>, user: string): (roles: set<string>) {
    var own := ImplicitRoles(g, user);
    if own != {} then own else ImplicitRoles(g, OtherSpelling(user))
  }

  /** Everyone who is asked: the user, the valid groups, the server-side roles. */
  function SubjectsAsked(store: Store, user: string, groups: seq<string>): (subjects: set<string>) {
    {user} + GroupSubjects(groups) + (ServerRoles(store.groupings, user) - {""})
  }

  /** Objects under `res/` named by the policies of one role, other than its full wildcard. */
  function RoleObjects(store: Store, role: string, res: string): (objects: set<string>) {
    set p | p in store.policies && p.sub == role && HasPrefix(p.obj, res + "/") && p.obj != res + "/*" :: p.obj
  }

  function RoleWildcards(store: Store, role: string, res: string): (objects: set<string>) {
    (if HasPrefix(role, "proj:") && |Split(role, ':')| >= 2 then {ProjectWide(res, Split(role, ':')[1])} else {})
    + RoleObjects(store, role, res)
  }

  /** getProjectScopedWildcards. */
  function ScopedWildcards(store: Store, groups: seq<string>, res: string): (objects: set<string>) {
    set s, r, o | s in GroupSubjects(groups) && r in RolesOf(store.groupings, s) && o in RoleWildcards(store, r, res) :: o
  }

  predicate IsListAll(q: Request) {
    q.act == "list" && HasSuffix(q.obj, "/*")
  }

  function ObjectsAsked(store: Store, reader: Reader, q: Request): (objects: set<string>) {
    var resolved := if reader.present then ResolveNamespace(q.obj, reader.owner) else None;
    {q.obj}
    + (if resolved.Some? then {resolved.value} else {})
    + (if IsListAll(q) && reader.present then ScopedWildcards(store, q.groups, q.obj[..|q.obj| - 2]) else {})
  }

  predicate AnyAllowed(store: Store, subjects: set<string>, objects: set<string>, act: string) {
    exists s, o | s in subjects && o in objects :: Enforce(store, s, o, act)
  }

  /** Access is granted when someone asked is allowed some object asked. */
  predicate Granted(store: Store, reader: Reader, q: Request) {
    AnyAllowed(store, SubjectsAsked(store, q.user, q.groups), ObjectsAsked(store, reader, q), q.act)
  }

  lemma {:induction false} KeyMatchReflexive(key: string)
    ensures KeyMatch(key, key)
  {
    var stem, rest := CutAtStar(key);
    KeyMatchMeaning(key, stem, rest);
  }

  lemma {:induction false} DirectRoleIsReached(g: set<Grouping>, user: string, role: string)
    requires role in RolesOf(g, user)
    ensures role in Reach(g, user)
  {
    ClosureIsLeast(g, {user});
    assert Grouping(user, role) in g;
  }

  /** Listing everything of a resource succeeds for the members of a group as soon as one role of the
      group may list anything at all under that resource, however narrow the object. */
  lemma {:induction false} ListSucceedsOnAnyGrant(store: Store, reader: Reader, q: Request, res: string, group: string, role: string, p: Policy)
    requires AllowOnly(store) && reader.present
    requires q.act == "list" && q.obj == res + "/*"
    requires group in q.groups && FormatGroupSubject(group).Some? && role in RolesOf(store.groupings, FormatGroupSubject(group).value)
    requires p in store.policies && p.sub == role && p.eft == "allow" && HasPrefix(p.obj, res + "/") && KeyMatch("list", p.act)
    ensures Granted(store, reader, q)
  {
    var subject := FormatGroupSubject(group).value;
    SuffixOfConcat(res, "/*");
    assert q.obj[..|q.obj| - 2] == res;
    DirectRoleIsReached(store.groupings, subject, role);
    KeyMatchReflexive(p.obj);
    assert Applies(p, Reach(store.groupings, subject), p.obj, "list");
    assert Enforce(store, subject, p.obj, "list");
    assert p.obj in ObjectsAsked(store, reader, q) by {
      if p.obj != res + "/*" {
        assert p.obj in RoleObjects(store, role, res);
        assert p.obj in RoleWildcards(store, role, res);
        assert p.obj in ScopedWildcards(store, q.groups, res);
      }
    }
  }

  /** With allow-only policies, asking the user's own roles again adds nothing: it matters only when the
      user has no roles under this spelling of the name. */
  lemma {:induction false} RolePhaseIsForTheOtherSpelling(store: Store, reader: Reader, q: Request)
    requires AllowOnly(store) && ImplicitRoles(store.groupings, q.user) != {}
    ensures Granted(store, reader, q)
            <==> AnyAllowed(store, {q.user} + GroupSubjects(q.groups), ObjectsAsked(store, reader, q), q.act)
  {
    forall role, o | role in ServerRoles(store.groupings, q.user) && Enforce(store, role, o, q.act)
      ensures Enforce(store, q.user, o, q.act)
    {
      RoleAllowsUser(store, q.user, role, o, q.act);
    }
  }

  lemma {:induction false} RoleAllowsUser(store: Store, user: string, role: string, obj: string, act: string)
    requires AllowOnly(store) && role in Reach(store.groupings, user) && Enforce(store, role, obj, act)
    ensures Enforce(store, user, obj, act)
  {
    ReachTransitive(store.groupings, user, role);
    var p :| p in store.policies && Applies(p, Reach(store.groupings, role), obj, act) && p.eft == "allow";
    assert Applies(p, Reach(store.groupings, user), obj, act);
  }

  // ---- accessible projects ----

  function ProjectRequest(user: string, groups: seq<string>, name: string): Request {
    Request(user, groups, "projects/" + name, "get")
  }

  /** The projects among `names` the per-project loop keeps. */
  function AccessibleByLoop(store: Store, reader: Reader, user: string, groups: seq<string>, names: seq<string>): (kept: seq<string>)
    decreases |names|
  {
    if |names| == 0 then []
    else
      var n := |names| - 1;
      AccessibleByLoop(store, reader, user, groups, names[..n])
      + (if Granted(store, reader, ProjectRequest(user, groups, names[n])) then [names[n]] else [])
  }

  /** GetAccessibleProjects, with its shortcut for holders of a wildcard. */
  function Accessible(store: Store, reader: Reader, user: string, groups: seq<string>, names: seq<string>): (kept: seq<string>) {
    if Granted(store, reader, Request(user, groups, "projects/*", "get")) then names
    else AccessibleByLoop(store, reader, user, groups, names)
  }

  lemma {:induction false} LoopLast(store: Store, reader: Reader, user: string, groups: seq<string>, names: seq<string>, n: string, last: seq<string>)
    requires last == if Granted(store, reader, ProjectRequest(user, groups, n)) then [n] else []
    ensures AccessibleByLoop(store, reader, user, groups, names + [n]) == AccessibleByLoop(store, reader, user, groups, names) + last
  {
    assert (names + [n])[..|names|] == names;
  }

  function LastKept(store: Store, reader: Reader, user: string, groups: seq<string>, n: string): (last: seq<string>)
    ensures last == if Granted(store, reader, ProjectRequest(user, groups, n)) then [n] else []
  {
    if Granted(store, reader, ProjectRequest(user, groups, n)) then [n] else []
  }

  /** The loop decides project by project: on two lists together it returns what it returns on each, */
  lemma {:induction false} LoopDistributes(store: Store, reader: Reader, user: string, groups: seq<string>, xs: seq<string>, ys: seq<string>)
    ensures AccessibleByLoop(store, reader, user, groups, xs + ys)
            == AccessibleByLoop(store, reader, user, groups, xs) + AccessibleByLoop(store, reader, user, groups, ys)
  {
    var f := (names: seq<string>) => AccessibleByLoop(store, reader, user, groups, names);
    var last := (n: string) => LastKept(store, reader, user, groups, n);
    forall names, n ensures f(names + [n]) == f(names) + last(n) {
      LoopLast(store, reader, user, groups, names, n, LastKept(store, reader, user, groups, n));
    }
    AppendsDistributes(f, last, xs, ys);
  }

  /** and a single project is kept exactly when the request for it is granted. */
  lemma {:induction false} LoopOnOne(store: Store, reader: Reader, user: string, groups: seq<string>, name: string)
    ensures AccessibleByLoop(store, reader, user, groups, [name])
            == if Granted(store, reader, Request(user, groups, "projects/" + name, "get")) then [name] else []
  {
    assert [name][..0] == [];
  }

  /** So a project is listed as often as it is named if it is granted, and not at all otherwise. */
  lemma {:induction false} LoopCounts(store: Store, reader: Reader, user: string, groups: seq<string>, names: seq<string>, n: string)
    ensures multiset(AccessibleByLoop(store, reader, user, groups, names))[n]
            == if Granted(store, reader, Request(user, groups, "projects/" + n, "get")) then multiset(names)[n] else 0
  {
    var f := (names: seq<string>) => AccessibleByLoop(store, reader, user, groups, names);
    var last := (m: string) => LastKept(store, reader, user, groups, m);
    var keeps := (m: string) => Granted(store, reader, ProjectRequest(user, groups, m));
    forall names, m ensures f(names + [m]) == f(names) + last(m) {
      LoopLast(store, reader, user, groups, names, m, LastKept(store, reader, user, groups, m));
    }
    AppendsCounts(f, last, keeps, names, n);
  }

  /** What is returned: with the wildcard grant all names; otherwise exactly the granted ones among them. */
  lemma {:induction false} AccessibleExactly(store: Store, reader: Reader, user: string, groups: seq<string>, names: seq<string>)
    ensures var kept := Accessible(store, reader, user, groups, names);
            if Granted(store, reader, Request(user, groups, "projects/*", "get")) then kept == names
            else forall n :: n in kept <==> n in names && Granted(store, reader, Request(user, groups, "projects/" + n, "get"))
  {
    if !Granted(store, reader, Request(user, groups, "projects/*", "get")) {
      var kept := AccessibleByLoop(store, reader, user, groups, names);
      forall n ensures n in kept <==> n in names && Granted(store, reader, Request(user, groups, "projects/" + n, "get")) {
        LoopCounts(store, reader, user, groups, names, n);
        assert n in kept <==> multiset(kept)[n] > 0;
        assert n in names <==> multiset(names)[n] > 0;
      }
    }
  }

  lemma {:induction false} ProjectObjectsAsked(store: Store, reader: Reader, user: string, groups: seq<string>, name: string)
    ensures ObjectsAsked(store, reader, ProjectRequest(user, groups, name)) == {"projects/" + name}
  {
    assert ("projects/" + name)[0] == 'p' && "instances/"[0] == 'i';
  }

  /** A pattern that matches the wildcard path matches every project's path. */
  lemma {:induction false} WildcardCoversNames(pattern: string, name: string)
    requires KeyMatch("projects/*", pattern)
    ensures KeyMatch("projects/" + name, pattern)
  {
    var stem, rest := CutAtStar(pattern);
    KeyMatchMeaning("projects/*", stem, rest);
    KeyMatchMeaning("projects/" + name, stem, rest);
    assert "projects/*"[9] == '*' && '*' in "projects/*";
    assert HasPrefix("projects/*", stem) ==> forall k :: 0 <= k < |stem| ==> stem[k] == "projects/*"[k] && stem[k] in stem;
    assert HasPrefix("projects/*", stem) && |stem| <= 9 ==> HasPrefix("projects/" + name, stem);
  }

  lemma {:induction false} WildcardAllowsName(store: Store, sub: string, name: string)
    requires Enforce(store, sub, "projects/*", "get")
    requires forall p | p in store.policies && p.eft == "deny" && p.sub in Reach(store.groupings, sub) ::
               !(KeyMatch("projects/" + name, p.obj) && KeyMatch("get", p.act))
    ensures Enforce(store, sub, "projects/" + name, "get")
  {
    var reached := Reach(store.groupings, sub);
    var p :| p in store.policies && Applies(p, reached, "projects/*", "get") && p.eft == "allow";
    WildcardCoversNames(p.obj, name);
    assert Applies(p, reached, "projects/" + name, "get");
  }

  lemma {:induction false} LoopKeepsAll(store: Store, reader: Reader, user: string, groups: seq<string>, names: seq<string>)
    requires forall n | n in names :: Granted(store, reader, ProjectRequest(user, groups, n))
    ensures AccessibleByLoop(store, reader, user, groups, names) == names
    decreases |names|
  {
    if |names| > 0 {
      var n := |names| - 1;
      assert names[n] in names && names[..n] + [names[n]] == names;
      LoopKeepsAll(store, reader, user, groups, names[..n]);
    }
  }

  lemma {:induction false} GrantedName(store: Store, reader: Reader, user: string, groups: seq<string>, name: string)
    ensures Granted(store, reader, ProjectRequest(user, groups, name))
            <==> exists s | s in SubjectsAsked(store, user, groups) :: Enforce(store, s, "projects/" + name, "get")
  {
    ProjectObjectsAsked(store, reader, user, groups, name);
    assert "projects/" + name in ObjectsAsked(store, reader, ProjectRequest(user, groups, name));
  }

  /** A wildcard allow and a deny that hits some project but not the wildcard path, on subjects of which
      none is denied the wildcard path: the combination that fools the shortcut. */
  ghost predicate Fools(policies: set<Policy>, a: Policy, d: Policy, name: string) {
    && a in policies && a.eft == "allow" && KeyMatch("projects/*", a.obj) && KeyMatch("get", a.act)
    && d in policies && d.eft == "deny" && KeyMatch("projects/" + name, d.obj) && KeyMatch("get", d.act)
    && forall p | p in policies && p.eft == "deny" && p.sub in {a.sub, d.sub} ::
         !(KeyMatch("projects/*", p.obj) && KeyMatch("get", p.act))
  }

  ghost predicate ShortcutRight(policies: set<Policy>, groupings: set<Grouping>, reader: Reader, user: string, groups: seq<string>, names: seq<string>) {
    var store := Store(policies, groupings);
    Accessible(store, reader, user, groups, names) == AccessibleByLoop(store, reader, user, groups, names)
  }

  lemma {:induction false} UnfooledShortcut(policies: set<Policy>, groupings: set<Grouping>, reader: Reader, user: string, groups: seq<string>, names: seq<string>)
    requires forall a, d, name :: !Fools(policies, a, d, name)
    ensures ShortcutRight(policies, groupings, reader, user, groups, names)
  {
    var store := Store(policies, groupings);
    if Granted(store, reader, Request(user, groups, "projects/*", "get")) {
      assert "projects/" + "*" == "projects/*";
      GrantedName(store, reader, user, groups, "*");
      var s :| s in SubjectsAsked(store, user, groups) && Enforce(store, s, "projects/*", "get");
      var a :| a in policies && Applies(a, Reach(groupings, s), "projects/*", "get") && a.eft == "allow";
      forall n | n in names
        ensures Granted(store, reader, ProjectRequest(user, groups, n))
      {
        forall d | d in policies && d.eft == "deny" && d.sub in Reach(groupings, s)
          ensures !(KeyMatch("projects/" + n, d.obj) && KeyMatch("get", d.act))
        {
          assert !Fools(policies, a, d, n);
          assert forall p | p in policies && p.eft == "deny" && p.sub in {a.sub, d.sub} ::
              !Applies(p, Reach(groupings, s), "projects/*", "get");
        }
        WildcardAllowsName(store, s, n);
        GrantedName(store, reader, user, groups, n);
      }
      LoopKeepsAll(store, reader, user, groups, names);
    }
  }

  /** In particular, with allow-only policies the shortcut returns what the loop would. */
  lemma {:induction false} AllowOnlyShortcutEqualsLoop(store: Store, reader: Reader, user: string, groups: seq<string>, names: seq<string>)
    requires AllowOnly(store)
    ensures Accessible(store, reader, user, groups, names) == AccessibleByLoop(store, reader, user, groups, names)
  {
    UnfooledShortcut(store.policies, store.groupings, reader, user, groups, names);
  }

  /** A group with both roles, of a user without any, gets a project from the shortcut that the loop refuses. */
  lemma {:induction false} FooledShortcut(policies: set<Policy>, a: Policy, d: Policy, name: string, reader: Reader, user: string, group: string)
    returns (groupings: set<Grouping>)
    requires Fools(policies, a, d, name)
    requires FormatGroupSubject(group).Some?
    requires forall p | p in policies :: p.sub !in {user, OtherSpelling(user), FormatGroupSubject(group).value}
    requires FormatGroupSubject(group).value !in {user, OtherSpelling(user)}
    ensures !ShortcutRight(policies, groupings, reader, user, [group], [name])
  {
    var subject := FormatGroupSubject(group).value;
    groupings := {Grouping(subject, a.sub), Grouping(subject, d.sub)};
    var store := Store(policies, groupings);
    TwoRoles(groupings, subject, a.sub, d.sub, user);
    OnlyUserAndGroup(store, user, group, subject);
    FooledWildcard(store, a, d, name, reader, user, group, subject);
    FooledName(store, a, d, name, reader, user, group, subject);
    ShortcutWrong(policies, groupings, reader, user, group, name);
  }

  lemma {:induction false} OnlyUserAndGroup(store: Store, user: string, group: string, subject: string)
    requires FormatGroupSubject(group) == Some(subject) && ServerRoles(store.groupings, user) == {}
    ensures SubjectsAsked(store, user, [group]) == {user, subject}
  {
    assert GroupSubjects([group]) == {subject};
  }

  lemma {:induction false} ShortcutWrong(policies: set<Policy>, groupings: set<Grouping>, reader: Reader, user: string, group: string, name: string)
    requires Granted(Store(policies, groupings), reader, Request(user, [group], "projects/*", "get"))
    requires AccessibleByLoop(Store(policies, groupings), reader, user, [group], [name]) == []
    ensures !ShortcutRight(policies, groupings, reader, user, [group], [name])
  {
  }

  lemma {:induction false} AllowedAs(store: Store, subject: string, request: string, act: string, a: Policy)
    requires a in store.policies && a.eft == "allow" && Applies(a, Reach(store.groupings, subject), request, act)
    requires forall p | p in store.policies && p.eft == "deny" && p.sub in Reach(store.groupings, subject) ::
               !(KeyMatch(request, p.obj) && KeyMatch(act, p.act))
    ensures Enforce(store, subject, request, act)
  {
  }

  lemma {:induction false} FooledWildcard(store: Store, a: Policy, d: Policy, name: string, reader: Reader, user: string, group: string, subject: string)
    requires Fools(store.policies, a, d, name) && SubjectsAsked(store, user, [group]) == {user, subject}
    requires Reach(store.groupings, subject) == {subject, a.sub, d.sub} && forall p | p in store.policies :: p.sub != subject
    ensures Granted(store, reader, Request(user, [group], "projects/*", "get"))
  {
    AllowedAs(store, subject, "projects/*", "get", a);
    GrantedName(store, reader, user, [group], "*");
    assert "projects/" + "*" == "projects/*";
  }

  lemma {:induction false} FooledName(store: Store, a: Policy, d: Policy, name: string, reader: Reader, user: string, group: string, subject: string)
    requires Fools(store.policies, a, d, name) && SubjectsAsked(store, user, [group]) == {user, subject}
    requires d.sub in Reach(store.groupings, subject) && Reach(store.groupings, user) == {user}
    requires forall p | p in store.policies :: p.sub != user
    ensures AccessibleByLoop(store, reader, user, [group], [name]) == []
  {
    assert Applies(d, Reach(store.groupings, subject), "projects/" + name, "get");
    assert !Enforce(store, subject, "projects/" + name, "get");
    assert !Enforce(store, user, "projects/" + name, "get");
    GrantedName(store, reader, user, [group], name);
    assert [name][..0] == [];
  }

  lemma {:induction false} TwoRoles(g: set<Grouping>, subject: string, r1: string, r2: string, user: string)
    requires g == {Grouping(subject, r1), Grouping(subject, r2)}
    requires subject !in {user, OtherSpelling(user), r1, r2} && user !in {r1, r2} && OtherSpelling(user) !in {r1, r2}
    ensures Reach(g, subject) == {subject, r1, r2} && ServerRoles(g, user) == {} && Reach(g, user) == {user}
  {
    ClosureIsLeast(g, {subject});
    ClosureIsLeast(g, {user});
    ClosureIsLeast(g, {OtherSpelling(user)});
    assert Closed(g, {subject, r1, r2}) && Closed(g, {user}) && Closed(g, {OtherSpelling(user)});
    assert Grouping(subject, r1) in g && Grouping(subject, r2) in g;
  }

  /** The shortcut is right for every role assignment, group list and project list exactly when no
      project-specific deny stands beside a wildcard allow in the way described by Fools. (The named
      user and group are any that no policy is written for, to build the failing assignment from.) */
  lemma {:induction false} ShortcutRightExactly(policies: set<Policy>, reader: Reader, user: string, group: string)
    requires FormatGroupSubject(group).Some?
    requires forall p | p in policies :: p.sub !in {user, OtherSpelling(user), FormatGroupSubject(group).value}
    requires FormatGroupSubject(group).value !in {user, OtherSpelling(user)}
    ensures (forall groupings, u, groups, names :: ShortcutRight(policies, groupings, reader, u, groups, names))
            <==> (forall a, d, name :: !Fools(policies, a, d, name))
  {
    if (forall a, d, name :: !Fools(policies, a, d, name)) {
      forall groupings, u, groups, names { UnfooledShortcut(policies, groupings, reader, u, groups, names); }
    } else {
      var a, d, name :| Fools(policies, a, d, name);
      var groupings := FooledShortcut(policies, a, d, name, reader, user, group);
    }
  }
}
