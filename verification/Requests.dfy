/** What decides an access request: exactly who is asked, exactly which objects are asked about, and, end to end,
    what a member of a loaded project gets. */
module Requests {
  import opened Text
  import opened Wrappers
  import opened Subjects
  import opened Casbin
  import opened Scoping
  import opened Policies
  import opened Grants
  import opened ProjectGrants
  import opened LoadedProjects
  import opened RbacState
  import opened Rebuild
  import opened Access

  // ---- who is asked ----

  /** The user, the valid groups, and the roles of the user, or those of the other spelling of its name when the
      user has none. */
  lemma {:induction false} AskedExactly(store: Store, q: Request, s: string)
    ensures s in SubjectsAsked(store, q.user, q.groups) <==>
      || s == q.user
      || (exists g | g in q.groups :: ValidIdentifier(g) && s == "group:" + g)
      || (s != "" && s != q.user && s in Reach(store.groupings, q.user))
      || (s != "" && Reach(store.groupings, q.user) == {q.user}
          && (if HasPrefix(q.user, "user:")
              then s != q.user[5..] && s in Reach(store.groupings, q.user[5..])
              else s != "user:" + q.user && s in Reach(store.groupings, "user:" + q.user)))
  {
    forall g | g in q.groups ensures FormatGroupSubject(g) == (if ValidIdentifier(g) then Some("group:" + g) else None) {}
    ClosureIsLeast(store.groupings, {q.user});
    assert ImplicitRoles(store.groupings, q.user) == {} <==> Reach(store.groupings, q.user) == {q.user};
  }

  // ---- which objects are asked about ----

  /** A project role lists its project's resources as a whole, and whatever it names under the resource. */
  ghost predicate ListedFor(store: Store, role: string, res: string, o: string) {
    || (HasPrefix(role, "proj:") && |Split(role, ':')| >= 2 && o == res + "/" + Split(role, ':')[1] + "/*")
    || (HasPrefix(o, res + "/") && o != res + "/*" && exists p | p in store.policies :: p.sub == role && p.obj == o)
  }

  lemma {:induction false} ProjectRoleParts(role: string)
    requires HasPrefix(role, "proj:")
    ensures |Split(role, ':')| >= 2
  {
    SplitFirst("proj", ':', role[5..]);
    assert role == "proj" + [':'] + role[5..];
  }

  lemma {:induction false} RoleWildcardsExactly(store: Store, role: string, res: string, o: string)
    ensures o in RoleWildcards(store, role, res) <==> ListedFor(store, role, res, o)
  {
    if HasPrefix(role, "proj:") {
      ProjectRoleParts(role);
    }
  }

  /** Listing everything of a resource asks about what the direct roles of the valid groups list. */
  lemma {:induction false} ListingExactly(store: Store, groups: seq<string>, res: string, o: string)
    ensures o in ScopedWildcards(store, groups, res) <==>
      exists g, r | g in groups && Grouping("group:" + g, r) in store.groupings :: ValidIdentifier(g) && ListedFor(store, r, res, o)
  {
    forall g | g in groups ensures FormatGroupSubject(g) == (if ValidIdentifier(g) then Some("group:" + g) else None) {}
    if o in ScopedWildcards(store, groups, res) {
      var s, r :| s in GroupSubjects(groups) && r in RolesOf(store.groupings, s) && o in RoleWildcards(store, r, res);
      var g :| g in groups && FormatGroupSubject(g) == Some(s);
      RoleWildcardsExactly(store, r, res, o);
      assert Grouping("group:" + g, r) in store.groupings;
    }
    if g, r :| g in groups && Grouping("group:" + g, r) in store.groupings && ValidIdentifier(g) && ListedFor(store, r, res, o) {
      RoleWildcardsExactly(store, r, res, o);
      assert r in RolesOf(store.groupings, "group:" + g) && "group:" + g in GroupSubjects(groups);
    }
  }

  /** An instance request asks about the object itself, and about the object with the owning project put before
      its namespace when there is an owner. */
  lemma {:induction false} InstanceObjectsExactly(store: Store, reader: Reader, q: Request, ns: string, rest: string, o: string)
    requires q.obj == "instances/" + ns + rest && Free(ns, '/') && (rest == "" || rest[0] == '/')
    ensures o in ObjectsAsked(store, reader, q) <==>
      || o == q.obj
      || (reader.present && ns != "" && ns != "*" && reader.owner(ns).Some?
          && o == "instances/" + reader.owner(ns).value + "/" + ns + rest)
      || (reader.present && q.act == "list" && HasSuffix(q.obj, "/*") && o in ScopedWildcards(store, q.groups, q.obj[..|q.obj| - 2]))
  {
    ResolvedAs(q.obj, reader.owner, ns, rest);
  }

  lemma {:induction false} ResolvedAs(obj: string, owner: string -> Option<string>, ns: string, rest: string)
    requires obj == "instances/" + ns + rest && Free(ns, '/') && (rest == "" || rest[0] == '/')
    ensures ResolveNamespace(obj, owner)
            == if ns == "" || ns == "*" || owner(ns) == None then None
               else Some("instances/" + owner(ns).value + "/" + ns + rest)
  {
    assert HasPrefix(obj, "instances/");
    var n, r := InstanceNamespace(obj);
    SameNamespace(ns, rest, n, r);
    ResolveAt(obj, owner, n, r);
  }

  lemma {:induction false} SameNamespace(ns: string, rest: string, n: string, r: string)
    requires Free(ns, '/') && (rest == "" || rest[0] == '/') && Free(n, '/') && (r == "" || r[0] == '/')
    requires "instances/" + ns + rest == "instances/" + n + r
    ensures ns == n && rest == r
  {
    assert "instances/" + ns + rest == "instances/" + (ns + rest) && "instances/" + n + r == "instances/" + (n + r);
    StripPrefix("instances/", ns + rest, n + r);
    StripPrefix("instances/", n + r, ns + rest);
    assert ns + rest == n + r;
    NamespaceEnds(ns, rest);
    NamespaceEnds(n, r);
    SplitFirstSlash(ns, rest);
    SplitFirstSlash(n, r);
    assert (ns + rest)[|ns|..] == rest && (n + r)[|n|..] == r;
  }

  lemma {:induction false} NamespaceEnds(ns: string, rest: string)
    requires Free(ns, '/') && (rest == "" || rest[0] == '/')
    ensures rest != "" ==> ns + rest == ns + ['/'] + rest[1..]
  {
  }

  lemma {:induction false} SplitFirstSlash(ns: string, rest: string)
    requires Free(ns, '/') && (rest == "" || rest[0] == '/')
    ensures Split(ns + rest, '/')[0] == ns
  {
    if rest == "" {
      SplitFree(ns, '/');
      assert ns + rest == ns;
    } else {
      SplitFirst(ns, '/', rest[1..]);
      NamespaceEnds(ns, rest);
    }
  }

  /** Any other request asks about the object itself, and a listing also about what the groups' roles list. */
  lemma {:induction false} OtherObjectsExactly(store: Store, reader: Reader, q: Request, o: string)
    requires !HasPrefix(q.obj, "instances/")
    ensures o in ObjectsAsked(store, reader, q) <==>
      || o == q.obj
      || (reader.present && q.act == "list" && HasSuffix(q.obj, "/*") && o in ScopedWildcards(store, q.groups, q.obj[..|q.obj| - 2]))
  {
  }

  /** A listing of everything of a resource, instances included, asks about the same. */
  lemma {:induction false} ListObjectsExactly(store: Store, reader: Reader, q: Request, res: string, o: string)
    requires q.act == "list" && q.obj == res + "/*" && Free(res, '/')
    ensures o in ObjectsAsked(store, reader, q) <==> o == q.obj || (reader.present && o in ScopedWildcards(store, q.groups, res))
  {
    SuffixOfConcat(res, "/*");
    assert q.obj[..|q.obj| - 2] == res;
    if HasPrefix(q.obj, "instances/") {
      WildcardIsUnresolved(res, reader.owner);
    }
  }

  lemma {:induction false} WildcardIsUnresolved(res: string, owner: string -> Option<string>)
    requires Free(res, '/') && HasPrefix(res + "/*", "instances/")
    ensures ResolveNamespace(res + "/*", owner) == None
  {
    var obj := res + "/*";
    assert obj == res + ['/'] + "*";
    SplitFirst(res, '/', "*");
    SplitFree("*", '/');
    assert Split(obj, '/') == [res, "*"];
  }

  // ---- the decision ----

  /** A request is granted exactly when someone asked is allowed an object asked about. */
  lemma {:induction false} GrantedExactly(store: Store, reader: Reader, q: Request)
    ensures Granted(store, reader, q) <==>
      exists s, o | s in SubjectsAsked(store, q.user, q.groups) && o in ObjectsAsked(store, reader, q) :: Enforce(store, s, o, q.act)
  {
  }

  /** Each kind of subject is enough, on the object as asked or on the resolved one: the user, a valid group, or a
      role of the other spelling. */
  lemma {:induction false} AllowedAsked(store: Store, reader: Reader, q: Request, ns: string, rest: string, s: string, o: string)
    requires q.obj == "instances/" + ns + rest && Free(ns, '/') && (rest == "" || rest[0] == '/')
    requires o == q.obj || (reader.present && ns != "" && ns != "*" && reader.owner(ns).Some?
                            && o == "instances/" + reader.owner(ns).value + "/" + ns + rest)
    requires Enforce(store, s, o, q.act)
    requires || s == q.user
             || (exists g | g in q.groups :: ValidIdentifier(g) && s == "group:" + g)
             || (s != "" && !HasPrefix(q.user, "user:") && Reach(store.groupings, q.user) == {q.user}
                 && s != "user:" + q.user && s in Reach(store.groupings, "user:" + q.user))
    ensures Granted(store, reader, q)
  {
    AskedExactly(store, q, s);
    InstanceObjectsExactly(store, reader, q, ns, rest, o);
  }

  // ---- a member of one role ----

  /** A role that the member reaches decides no more than the member itself. */
  lemma {:induction false} RoleDecidesNoMore(store: Store, member: string, subject: string, s: string, o: string, a: string)
    requires Reach(store.groupings, member) == {member, subject} && forall p | p in store.policies :: p.sub != member
    requires s in {member, subject}
    ensures Enforce(store, s, o, a) <==> Enforce(store, member, o, a)
  {
    ReachTransitive(store.groupings, member, subject);
    ClosureIsLeast(store.groupings, {subject});
    forall p | p in store.policies
      ensures Applies(p, Reach(store.groupings, subject), o, a) <==> Applies(p, Reach(store.groupings, member), o, a)
    {
    }
  }

  /** A request of a member whose only role is one of a loaded project's: granted exactly when the role grants, and
      does not deny, some object asked about. */
  lemma {:induction false} MemberGetsExactly(store: Store, project: Project, name: string, subject: string, reader: Reader, q: Request)
    requires !Compile(project).failed && RolesFit(project.name, project.roles) && q.groups == []
    requires name != "" && FormatProjectRole(project.name, name) == Some(subject)
    requires Reach(LoadStore(store, project).groupings, q.user) == {q.user, subject}
    requires subject != q.user && forall p | p in LoadStore(store, project).policies :: p.sub != q.user
    ensures Granted(LoadStore(store, project), reader, q) <==>
      exists o | o in ObjectsAsked(LoadStore(store, project), reader, q) :: RoleGrants(project, name, o, q.act)
  {
    var loaded := LoadStore(store, project);
    forall o ensures AnyAllowed(loaded, SubjectsAsked(loaded, q.user, q.groups), {o}, q.act) <==> RoleGrants(project, name, o, q.act) {
      SoleRoleDecides(store, project, name, subject, q.user, o, q.act);
      MemberOnObject(loaded, q, subject, o);
    }
    ObjectByObject(loaded, SubjectsAsked(loaded, q.user, q.groups), ObjectsAsked(loaded, reader, q), q.act);
  }

  /** The roles of this name grant it and do not deny it. */
  predicate RoleGrants(project: Project, name: string, o: string, a: string) {
    NamedRoleMeans(project, name, "allow", o, a) && !NamedRoleMeans(project, name, "deny", o, a)
  }

  lemma {:induction false} MemberOnObject(store: Store, q: Request, subject: string, o: string)
    requires Reach(store.groupings, q.user) == {q.user, subject} && subject != q.user && q.groups == []
    requires forall p | p in store.policies :: p.sub != q.user
    ensures AnyAllowed(store, SubjectsAsked(store, q.user, q.groups), {o}, q.act) <==> Enforce(store, q.user, o, q.act)
  {
    MemberAsked(store, q, subject);
    RoleDecidesNoMore(store, q.user, subject, subject, o, q.act);
  }

  lemma {:induction false} ObjectByObject(store: Store, subjects: set<string>, objects: set<string>, act: string)
    ensures AnyAllowed(store, subjects, objects, act) <==> exists o | o in objects :: AnyAllowed(store, subjects, {o}, act)
  {
    if AnyAllowed(store, subjects, objects, act) {
      var s, o :| s in subjects && o in objects && Enforce(store, s, o, act);
      assert AnyAllowed(store, subjects, {o}, act);
    }
  }

  lemma {:induction false} MemberAsked(store: Store, q: Request, subject: string)
    requires Reach(store.groupings, q.user) == {q.user, subject} && subject != q.user && q.groups == []
    ensures q.user in SubjectsAsked(store, q.user, q.groups)
    ensures forall s | s in SubjectsAsked(store, q.user, q.groups) :: s == q.user || s == subject
  {
    assert subject in ImplicitRoles(store.groupings, q.user);
    assert GroupSubjects([]) == {};
  }

  // ---- the instance rule of a role with destinations ----

  /** A project whose only role of this name has the one rule that allows the action on all instances, narrowed to
      exact destinations, and no built-in rights. */
  predicate InstanceRole(project: Project, name: string, act: string, destinations: seq<string>) {
    && Lower(name) != "admin" && Lower(name) != "readonly"
    && (exists r | r in project.roles :: r.name == name)
    && forall r | r in project.roles && r.name == name ::
         r.policies == [RuleText("instances/*", act, "allow")] && r.destinations == destinations
  }

  lemma {:induction false} InstanceRoleGrants(project: Project, name: string, act: string, destinations: seq<string>, o: string, a: string)
    requires InstanceRole(project, name, act, destinations) && RuleAction(act) && project.name != "instances"
    ensures RoleGrants(project, name, o, a) <==> ResourceGiven("instances", project.name, destinations, o) && ActionGiven(act, a)
  {
    var text := RuleText("instances/*", act, "allow");
    FormattedRuleParses("instances/*", act, "allow");
    assert "instances/*"[..9] == "instances" && (project.name + "/*")[..|project.name|] == project.name;
    assert forall t | t in [text] :: t == text;
    assert text in [text];
    OneText(project.name, text, act, destinations, o, a);
    forall r, eft | r in project.roles && r.name == name
      ensures RoleMeans(project.name, r, eft, o, a) <==> TextGives(project.name, text, destinations, eft, o, a)
    {
    }
  }

  lemma {:induction false} OneText(project: string, text: string, act: string, destinations: seq<string>, o: string, a: string)
    requires ParseRule(text) == Ok(Some(Rule("instances/*", act, "allow"))) && project != "instances"
    ensures forall eft :: TextGives(project, text, destinations, eft, o, a)
                          <==> eft == "allow" && ResourceGiven("instances", project, destinations, o) && ActionGiven(act, a)
  {
    assert (project + "/*")[..|project|] == project && "instances/*"[..9] == "instances";
  }

  /** End to end: a member whose only role is such a role asks for something in a namespace of the project. The
      request is granted exactly when the action is the rule's and the namespace is one of the destinations, the
      request naming something inside it; or when the namespace is named like the project itself and the request
      goes on with a destination. */
  lemma {:induction false} DestinationsDecideRequests(store: Store, project: Project, name: string, subject: string, act: string,
                                                      destinations: seq<string>, reader: Reader, q: Request, ns: string, rest: string)
    requires !Compile(project).failed && RolesFit(project.name, project.roles) && q.groups == []
    requires name != "" && FormatProjectRole(project.name, name) == Some(subject)
    requires Reach(LoadStore(store, project).groupings, q.user) == {q.user, subject}
    requires subject != q.user && forall p | p in LoadStore(store, project).policies :: p.sub != q.user
    requires InstanceRole(project, name, act, destinations) && RuleAction(act) && project.name != "instances"
    requires Free(project.name, '*') && Free(project.name, '/')
    requires destinations != [] && forall d | d in destinations :: Free(d, '*') && Free(d, '/')
    requires q.obj == "instances/" + ns + rest && ns != "" && ns != "*" && Free(ns, '/') && (rest == "" || rest[0] == '/')
    requires reader.present && reader.owner(ns) == Some(project.name)
    ensures Granted(LoadStore(store, project), reader, q) <==>
      ActionGiven(act, q.act) && ((ns in destinations && rest != "") || DirectlyUnder(project.name, destinations, ns, rest))
  {
    var loaded, resolved := LoadStore(store, project), "instances/" + project.name + "/" + ns + rest;
    MemberGetsExactly(store, project, name, subject, reader, q);
    forall o ensures o in ObjectsAsked(loaded, reader, q) <==> o == q.obj || o == resolved {
      TwoObjectsAsked(loaded, reader, q, project.name, ns, rest, o);
    }
    InstanceObjectsGranted(ObjectsAsked(loaded, reader, q), project, name, act, destinations, ns, rest, q.act);
  }

  lemma {:induction false} InstanceObjectsGranted(objects: set<string>, project: Project, name: string, act: string, destinations: seq<string>,
                                                  ns: string, rest: string, a: string)
    requires InstanceRole(project, name, act, destinations) && RuleAction(act) && project.name != "instances"
    requires Free(project.name, '*') && Free(project.name, '/') && Free(ns, '/') && (rest == "" || rest[0] == '/')
    requires destinations != [] && forall d | d in destinations :: Free(d, '*') && Free(d, '/')
    requires forall o :: o in objects <==> o == "instances/" + ns + rest || o == "instances/" + project.name + "/" + ns + rest
    ensures (exists o | o in objects :: RoleGrants(project, name, o, a)) <==>
      ActionGiven(act, a) && ((ns in destinations && rest != "") || DirectlyUnder(project.name, destinations, ns, rest))
  {
    var x, y := "instances/" + ns + rest, "instances/" + project.name + "/" + ns + rest;
    InstanceRoleGrants(project, name, act, destinations, x, a);
    InstanceRoleGrants(project, name, act, destinations, y, a);
    ResolvedGiven(project.name, destinations, ns, rest);
    DirectGiven(project.name, destinations, ns, rest);
    EitherGiven(objects, project, name, x, y, a);
  }

  lemma {:induction false} EitherGiven(objects: set<string>, project: Project, name: string, x: string, y: string, a: string)
    requires forall o :: o in objects <==> o == x || o == y
    ensures (exists o | o in objects :: RoleGrants(project, name, o, a)) <==> RoleGrants(project, name, x, a) || RoleGrants(project, name, y, a)
  {
  }

  lemma {:induction false} TwoObjectsAsked(store: Store, reader: Reader, q: Request, project: string, ns: string, rest: string, o: string)
    requires q.obj == "instances/" + ns + rest && ns != "" && ns != "*" && Free(ns, '/') && (rest == "" || rest[0] == '/')
    requires q.groups == [] && reader.present && reader.owner(ns) == Some(project)
    ensures o in ObjectsAsked(store, reader, q) <==> o == q.obj || o == "instances/" + project + "/" + ns + rest
  {
    InstanceObjectsExactly(store, reader, q, ns, rest, o);
    assert forall res :: ScopedWildcards(store, [], res) == {};
  }

  predicate DirectlyUnder(project: string, destinations: seq<string>, ns: string, rest: string) {
    ns == project && exists d | d in destinations :: HasPrefix(rest, "/" + d + "/")
  }

  lemma {:induction false} ResolvedGiven(project: string, destinations: seq<string>, ns: string, rest: string)
    requires Free(project, '*') && Free(ns, '/') && (rest == "" || rest[0] == '/')
    requires destinations != [] && forall d | d in destinations :: Free(d, '*') && Free(d, '/')
    ensures ResourceGiven("instances", project, destinations, "instances/" + project + "/" + ns + rest) <==> ns in destinations && rest != ""
  {
    forall d | d in destinations
      ensures KeyMatch("instances/" + project + "/" + ns + rest, "instances" + "/" + project + "/" + d + "/*") <==> d == ns && rest != ""
    {
      OneDestination(project, d, ns, rest);
    }
  }

  lemma {:induction false} DirectGiven(project: string, destinations: seq<string>, ns: string, rest: string)
    requires Free(project, '*') && Free(project, '/') && Free(ns, '/') && (rest == "" || rest[0] == '/')
    requires destinations != [] && forall d | d in destinations :: Free(d, '*') && Free(d, '/')
    ensures ResourceGiven("instances", project, destinations, "instances/" + ns + rest) <==> DirectlyUnder(project, destinations, ns, rest)
  {
    forall d | d in destinations
      ensures KeyMatch("instances/" + ns + rest, "instances" + "/" + project + "/" + d + "/*") <==> ns == project && HasPrefix(rest, "/" + d + "/")
    {
      DirectDestination(project, d, ns, rest);
      assert "instances" + "/" == "instances/";
    }
  }

  lemma {:induction false} DirectDestination(project: string, d: string, ns: string, rest: string)
    requires Free(project, '*') && Free(project, '/') && Free(d, '*') && Free(ns, '/') && (rest == "" || rest[0] == '/')
    ensures KeyMatch("instances/" + ns + rest, "instances/" + project + "/" + d + "/*") <==> ns == project && HasPrefix(rest, "/" + d + "/")
  {
    var stem := "instances/" + project + "/" + d + "/";
    assert stem + "*" == "instances/" + project + "/" + d + "/*";
    MatchesUnder("instances/" + ns + rest, stem);
    assert "instances/" + ns + rest == "instances/" + (ns + rest) && stem == "instances/" + (project + ("/" + d + "/"));
    if HasPrefix("instances/" + (ns + rest), "instances/" + (project + ("/" + d + "/"))) {
      StripPrefix("instances/", ns + rest, project + ("/" + d + "/"));
      SplitFirstSlash(ns, rest);
      var more := (ns + rest)[|project + ("/" + d + "/")|..];
      assert ns + rest == project + ("/" + d + "/" + more);
      SplitFirstSlash(project, "/" + d + "/" + more);
      assert (ns + rest)[|ns|..] == rest;
    }
    if ns == project && HasPrefix(rest, "/" + d + "/") {
      assert "instances/" + (ns + rest) == stem + rest[|"/" + d + "/"|..];
    }
  }
}
