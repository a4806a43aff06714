/** Tenant scoping: how a wildcard object in a project's policy is narrowed to the project
    (and to its destinations), and how a request's namespace is resolved to its project. */
module Scoping {
  import opened Text
  import opened Wrappers
  import opened Casbin

  function ProjectWide(res: string, project: string): string {
    res + "/" + project + "/*"
  }

  function PerDestination(res: string, project: string, dest: string): string {
    res + "/" + project + "/" + dest + "/*"
  }

  function ScopeResourceToDestinations(res: string, project: string, destinations: seq<string>): (objects: seq<string>)
    ensures |objects| >= 1
  {
    if |destinations| == 0 then [ProjectWide(res, project)]
    else seq(|destinations|, i requires 0 <= i < |destinations| => PerDestination(res, project, destinations[i]))
  }

  predicate IsWholeProject(project: string, obj: string) {
    obj == "*" || obj == project + "/*"
  }

  function WholeProject(project: string, destinations: seq<string>): (objects: seq<string>)
    ensures |objects| >= 1
  {
    ["projects/" + project]
    + ScopeResourceToDestinations("instances", project, destinations)
    + ScopeResourceToDestinations("secrets", project, destinations)
    + [ProjectWide("repositories", project), ProjectWide("compliance", project), "rgds/*"]
  }

  lemma {:induction false} InFour(o: string, a: seq<string>, b: seq<string>, c: seq<string>, d: seq<string>)
    ensures o in a + b + c + d <==> o in a || o in b || o in c || o in d
  {
  }

  lemma {:induction false} WholeProjectMembers(project: string, destinations: seq<string>, o: string)
    ensures o in WholeProject(project, destinations) <==>
      || o == "projects/" + project
      || o in ScopeResourceToDestinations("instances", project, destinations)
      || o in ScopeResourceToDestinations("secrets", project, destinations)
      || o == ProjectWide("repositories", project) || o == ProjectWide("compliance", project) || o == "rgds/*"
  {
    InFour(o, ["projects/" + project], ScopeResourceToDestinations("instances", project, destinations),
           ScopeResourceToDestinations("secrets", project, destinations),
           [ProjectWide("repositories", project), ProjectWide("compliance", project), "rgds/*"]);
  }

  function ScopeObject(project: string, obj: string, destinations: seq<string>): (objects: seq<string>)
    ensures |objects| >= 1
  {
    if IsWholeProject(project, obj) then WholeProject(project, destinations)
    else if obj == "instances/*" then ScopeResourceToDestinations("instances", project, destinations)
    else if obj == "secrets/*" then ScopeResourceToDestinations("secrets", project, destinations)
    else if obj == "repositories/*" then [ProjectWide("repositories", project)]
    else if obj == "compliance/*" then [ProjectWide("compliance", project)]
    else if obj == "projects/*" then ["projects/" + project]
    else [obj]
  }

  /** The wildcard forms that are narrowed. */
  predicate IsWildcardForm(project: string, obj: string) {
    obj in {"*", project + "/*", "projects/*", "instances/*", "secrets/*", "repositories/*", "compliance/*"}
  }

  const SCOPED_RESOURCES := {"instances", "secrets", "repositories", "compliance", "applications"}

  /** A request object that belongs to the project, or to the shared catalog. */
  predicate InProject(project: string, request: string) {
    || request == "projects/" + project
    || (exists res | res in SCOPED_RESOURCES :: HasPrefix(request, res + "/" + project + "/"))
    || HasPrefix(request, "rgds/")
  }

  predicate Covers(objects: seq<string>, request: string) {
    exists o | o in objects :: KeyMatch(request, o)
  }

  /** What a pattern matches, its head followed by a star matches too. */
  lemma {:induction false} KeyMatchWidens(request: string, head: string, tail: string)
    requires KeyMatch(request, head + tail)
    ensures KeyMatch(request, head + "*")
    ensures Free(head, '*') ==> HasPrefix(request, head)
  {
    if Free(head, '*') {
      StarFreeHead(request, head, tail);
    } else {
      StarredHead(request, head, tail, "*");
    }
  }

  lemma {:induction false} StarFreeHead(request: string, head: string, tail: string)
    requires Free(head, '*') && KeyMatch(request, head + tail)
    ensures KeyMatch(request, head + "*") && HasPrefix(request, head)
  {
    var tailStem, tailRest := CutAtStar(tail);
    KeyMatchMeaning(request, head + tailStem, tailRest);
    assert tail != tailStem ==> head + tail == head + tailStem + "*" + tailRest;
    assert HasPrefix(request, head);
    KeyMatchMeaning(request, head, "");
    assert head + "*" == head + "*" + "";
  }

  /** After a star in the head, the tail is never looked at. */
  lemma {:induction false} StarredHead(request: string, head: string, tail: string, other: string)
    requires !Free(head, '*') && KeyMatch(request, head + tail)
    ensures KeyMatch(request, head + other)
  {
    var stem, rest := CutAtStar(head);
    KeyMatchMeaning(request, stem, rest + tail);
    KeyMatchMeaning(request, stem, rest + other);
    assert head + tail == stem + "*" + (rest + tail);
    assert head + other == stem + "*" + (rest + other);
  }

  /** The objects of one scoped resource all lie under `res/project/`. */
  lemma {:induction false} ScopedResourceShape(res: string, project: string, destinations: seq<string>, o: string) returns (tail: string)
    requires o in ScopeResourceToDestinations(res, project, destinations)
    ensures o == (res + "/" + project + "/") + tail
  {
    if |destinations| == 0 {
      tail := "*";
    } else {
      var i :| 0 <= i < |destinations| && o == PerDestination(res, project, destinations[i]);
      tail := destinations[i] + "/*";
    }
  }

  lemma {:induction false} ResourceStaysInProject(res: string, project: string, destinations: seq<string>, request: string)
    requires res in SCOPED_RESOURCES && Free(project, '*')
    requires Covers(ScopeResourceToDestinations(res, project, destinations), request)
    ensures InProject(project, request)
  {
    var o :| o in ScopeResourceToDestinations(res, project, destinations) && KeyMatch(request, o);
    var tail := ScopedResourceShape(res, project, destinations, o);
    assert Free(res + "/" + project + "/", '*');
    KeyMatchWidens(request, res + "/" + project + "/", tail);
  }

  lemma {:induction false} SingleObjectsStayInProject(project: string, request: string)
    requires Free(project, '*')
    ensures KeyMatch(request, "projects/" + project) ==> InProject(project, request)
    ensures KeyMatch(request, "rgds/*") ==> InProject(project, request)
  {
    KeyMatchMeaning(request, "projects/" + project, "");
    KeyMatchMeaning(request, "rgds/", "");
    assert "rgds/*" == "rgds/" + "*" + "";
  }

  lemma {:induction false} ScopedFormStaysInProject(project: string, obj: string, destinations: seq<string>, request: string)
    requires IsWildcardForm(project, obj) && Free(project, '*')
    requires Covers(ScopeObject(project, obj, destinations), request)
    ensures InProject(project, request)
  {
    var o :| o in ScopeObject(project, obj, destinations) && KeyMatch(request, o);
    var res, scoped := ScopedOrigin(project, obj, destinations, o);
    if res in SCOPED_RESOURCES {
      ResourceStaysInProject(res, project, scoped, request);
    } else {
      SingleObjectsStayInProject(project, request);
    }
  }

  lemma {:induction false} ScopedOrigin(project: string, obj: string, destinations: seq<string>, o: string)
    returns (res: string, scoped: seq<string>)
    requires IsWildcardForm(project, obj) && o in ScopeObject(project, obj, destinations)
    ensures if res in SCOPED_RESOURCES then o in ScopeResourceToDestinations(res, project, scoped)
            else o == "projects/" + project || o == "rgds/*"
  {
    if o == "projects/" + project || o == "rgds/*" {
      res, scoped := "", [];
    } else if o == ProjectWide("repositories", project) {
      res, scoped := "repositories", [];
    } else if o == ProjectWide("compliance", project) {
      res, scoped := "compliance", [];
    } else if o in ScopeResourceToDestinations("instances", project, destinations) {
      res, scoped := "instances", destinations;
    } else {
      res, scoped := "secrets", destinations;
    }
  }

  /** A star inside the project's name would let every wildcard form leak. */
  lemma {:induction false} StarredNameLeaks(project: string, obj: string, destinations: seq<string>) returns (request: string)
    requires IsWildcardForm(project, obj) && !Free(project, '*')
    ensures Covers(ScopeObject(project, obj, destinations), request) && !InProject(project, request)
  {
    var stem, rest := CutAtStar(project);
    var o := ScopeObject(project, obj, destinations)[0];
    var res, tail := FirstObjectShape(project, obj, destinations);
    request := res + "/" + stem;
    assert o == request + "*" + (rest + tail) by { StarInside(res + "/", stem, rest, tail); }
    KeyMatchMeaning(request, request, rest + tail);
    TooShortToBeInside(project, res, stem);
  }

  lemma {:induction false} StarInside(head: string, stem: string, rest: string, tail: string)
    ensures head + (stem + "*" + rest) + tail == (head + stem) + "*" + (rest + tail)
  {
  }

  lemma {:induction false} ConcatAssoc(head: string, a: string, b: string, c: string)
    ensures head + a + b + c == head + (a + b + c)
  {
  }

  lemma {:induction false} FirstOfResource(res: string, project: string, destinations: seq<string>) returns (tail: string)
    ensures ScopeResourceToDestinations(res, project, destinations)[0] == res + "/" + project + tail
  {
    if |destinations| == 0 {
      tail := "/*";
    } else {
      tail := "/" + destinations[0] + "/*";
      ConcatAssoc(res + "/" + project, "/", destinations[0], "/*");
    }
  }

  lemma {:induction false} FirstObjectShape(project: string, obj: string, destinations: seq<string>) returns (res: string, tail: string)
    requires IsWildcardForm(project, obj)
    ensures res in SCOPED_RESOURCES + {"projects"}
    ensures ScopeObject(project, obj, destinations)[0] == res + "/" + project + tail
  {
    if IsWholeProject(project, obj) {
      res, tail := "projects", "";
      FirstOfProject(project, destinations);
    } else {
      res, tail := FirstOfForm(project, obj, destinations);
    }
  }

  lemma {:induction false} FirstOfProject(project: string, destinations: seq<string>)
    ensures WholeProject(project, destinations)[0] == "projects" + "/" + project + ""
  {
  }

  lemma {:induction false} FirstOfForm(project: string, obj: string, destinations: seq<string>) returns (res: string, tail: string)
    requires IsWildcardForm(project, obj) && !IsWholeProject(project, obj)
    ensures res in SCOPED_RESOURCES + {"projects"}
    ensures ScopeObject(project, obj, destinations)[0] == res + "/" + project + tail
  {
    if obj == "instances/*" || obj == "secrets/*" {
      res := if obj == "instances/*" then "instances" else "secrets";
      tail := FirstOfResource(res, project, destinations);
    } else if obj == "projects/*" {
      res, tail := "projects", "";
    } else {
      res, tail := if obj == "repositories/*" then "repositories" else "compliance", "/*";
    }
  }

  lemma {:induction false} TooShortToBeInside(project: string, res: string, stem: string)
    requires res in SCOPED_RESOURCES + {"projects"} && |stem| < |project|
    ensures !InProject(project, res + "/" + stem)
  {
    var request := res + "/" + stem;
    assert request[0] == res[0];
    DifferentHeads(request, "rgds/", if res == "repositories" then 1 else 0);
    if res != "projects" {
      DifferentHeads(request, "projects/" + project, 0);
    }
    forall other | other in SCOPED_RESOURCES
      ensures !HasPrefix(request, other + "/" + project + "/")
    {
      if other != res {
        DifferentHeads(request, other + "/" + project + "/", 0);
      }
    }
  }

  lemma {:induction false} DifferentHeads(s: string, prefix: string, k: nat)
    requires k < |s| && k < |prefix| && s[k] != prefix[k]
    ensures !HasPrefix(s, prefix)
  {
  }

  /** Scoping isolates a project exactly when the project's name has no star: then, and only then,
      every request a narrowed wildcard form matches lies in the project or in the shared catalog. */
  lemma {:induction false} ScopingIsolatesExactly(project: string, obj: string, destinations: seq<string>)
    requires IsWildcardForm(project, obj)
    ensures Free(project, '*')
            <==> forall request :: Covers(ScopeObject(project, obj, destinations), request) ==> InProject(project, request)
  {
    if Free(project, '*') {
      forall request | Covers(ScopeObject(project, obj, destinations), request)
        ensures InProject(project, request)
      {
        ScopedFormStaysInProject(project, obj, destinations, request);
      }
    } else {
      var request := StarredNameLeaks(project, obj, destinations);
    }
  }

  lemma {:induction false} DestinationsShrinkResource(res: string, project: string, destinations: seq<string>, request: string)
    requires Covers(ScopeResourceToDestinations(res, project, destinations), request)
    ensures Covers(ScopeResourceToDestinations(res, project, []), request)
  {
    var o :| o in ScopeResourceToDestinations(res, project, destinations) && KeyMatch(request, o);
    var tail := ScopedResourceShape(res, project, destinations, o);
    KeyMatchWidens(request, res + "/" + project + "/", tail);
    assert res + "/" + project + "/" + "*" == ProjectWide(res, project);
    assert ProjectWide(res, project) in ScopeResourceToDestinations(res, project, []);
  }

  /** Giving a role destinations never lets it match more than it matched without them,
      and dropping some (but not all) of several destinations never does either. */
  lemma {:induction false} DestinationsOnlyShrink(project: string, obj: string, fewer: seq<string>, more: seq<string>, request: string)
    requires more == [] || (fewer != [] && forall d | d in fewer :: d in more)
    requires Covers(ScopeObject(project, obj, fewer), request)
    ensures Covers(ScopeObject(project, obj, more), request)
  {
    var o :| o in ScopeObject(project, obj, fewer) && KeyMatch(request, o);
    var res := ScopedPart(project, obj, fewer, more, o);
    if res != "" {
      ResourceOnlyShrinks(res, project, fewer, more, request);
      var p :| p in ScopeResourceToDestinations(res, project, more) && KeyMatch(request, p);
    }
  }

  /** A scoped object either does not depend on the destinations, or comes from one of the two
      namespaced resources. */
  lemma {:induction false} ScopedPart(project: string, obj: string, fewer: seq<string>, more: seq<string>, o: string)
    returns (res: string)
    requires o in ScopeObject(project, obj, fewer)
    ensures if res == "" then o in ScopeObject(project, obj, more)
            else && o in ScopeResourceToDestinations(res, project, fewer)
                 && forall p | p in ScopeResourceToDestinations(res, project, more) :: p in ScopeObject(project, obj, more)
  {
    if (obj == "*" || obj == project + "/*" || obj == "instances/*") && o in ScopeResourceToDestinations("instances", project, fewer) {
      res := "instances";
    } else if (obj == "*" || obj == project + "/*" || obj == "secrets/*") && o in ScopeResourceToDestinations("secrets", project, fewer) {
      res := "secrets";
    } else {
      res := "";
    }
  }

  lemma {:induction false} ResourceOnlyShrinks(res: string, project: string, fewer: seq<string>, more: seq<string>, request: string)
    requires more == [] || (fewer != [] && forall d | d in fewer :: d in more)
    requires Covers(ScopeResourceToDestinations(res, project, fewer), request)
    ensures Covers(ScopeResourceToDestinations(res, project, more), request)
  {
    if more == [] {
      DestinationsShrinkResource(res, project, fewer, request);
    } else {
      var o :| o in ScopeResourceToDestinations(res, project, fewer) && KeyMatch(request, o);
      var i :| 0 <= i < |fewer| && o == PerDestination(res, project, fewer[i]);
      assert fewer[i] in fewer;
      var j :| 0 <= j < |more| && more[j] == fewer[i];
      assert ScopeResourceToDestinations(res, project, more)[j] == o;
    }
  }

  /** resolveNamespaceToProjectObject: `owner` is the reader's namespace-to-project lookup. */
  function ResolveNamespace(obj: string, owner: string -> Option<string>): (resolved: Option<string>) {
    if !HasPrefix(obj, "instances/") then None
    else
      var parts := Split(obj, '/');
      if |parts| < 2 then None
      else if parts[1] == "" || parts[1] == "*" then None
      else match owner(parts[1])
        case None => None
        case Some(project) => Some(parts[0] + "/" + project + "/" + Join(parts[1..], '/'))
  }

  /** The path after "instances/" starts with the namespace. */
  lemma {:induction false} InstanceNamespace(obj: string) returns (ns: string, rest: string)
    requires HasPrefix(obj, "instances/")
    ensures obj == "instances/" + ns + rest && Free(ns, '/') && (rest == "" || rest[0] == '/')
    ensures var parts := Split(obj, '/');
            |parts| >= 2 && parts[0] == "instances" && parts[1] == ns && Join(parts[1..], '/') == ns + rest
  {
    var parts := Split(obj, '/');
    var tail := obj[10..];
    assert obj == "instances" + ['/'] + tail;
    SplitFirst("instances", '/', tail);
    assert parts == ["instances"] + Split(tail, '/');
    assert parts[1..] == Split(tail, '/');
    JoinSplit(tail, '/');
    ns := parts[1];
    rest := tail[|ns|..];
    assert tail == ns + rest && (rest == "" || rest[0] == '/') by {
      if |parts| == 2 {
        assert tail == Join([ns], '/');
      } else {
        assert tail == ns + ['/'] + Join(Split(tail, '/')[1..], '/');
      }
    }
  }

  /** The resolved object is the request with the project put in front of its namespace. */
  lemma {:induction false} ResolveAt(obj: string, owner: string -> Option<string>, ns: string, rest: string)
    requires HasPrefix(obj, "instances/")
    requires var parts := Split(obj, '/');
             |parts| >= 2 && parts[0] == "instances" && parts[1] == ns && Join(parts[1..], '/') == ns + rest
    ensures ResolveNamespace(obj, owner)
            == if ns == "" || ns == "*" || owner(ns) == None then None
               else Some("instances/" + owner(ns).value + "/" + ns + rest)
  {
    if owner(ns).Some? {
      AssembleResolved(owner(ns).value, ns, rest);
    }
  }

  lemma {:induction false} AssembleResolved(project: string, ns: string, rest: string)
    ensures "instances" + "/" + project + "/" + (ns + rest) == "instances/" + project + "/" + ns + rest
  {
  }

  lemma {:induction false} ResolvedShape(obj: string, owner: string -> Option<string>) returns (ns: string, rest: string)
    requires ResolveNamespace(obj, owner).Some?
    ensures owner(ns).Some? && ns != "" && ns != "*" && Free(ns, '/') && (rest == "" || rest[0] == '/')
    ensures obj == "instances/" + ns + rest
    ensures ResolveNamespace(obj, owner) == Some("instances/" + owner(ns).value + "/" + ns + rest)
  {
    ns, rest := InstanceNamespace(obj);
    ResolveAt(obj, owner, ns, rest);
  }

  /** With exact destinations, a resolved instance request is matched by what the project's wildcard
      grants exactly when its namespace is one of them (and it names something inside the namespace). */
  lemma {:induction false} ExactDestinationsDecide(obj: string, owner: string -> Option<string>, grant: string, destinations: seq<string>)
    returns (ns: string, rest: string)
    requires ResolveNamespace(obj, owner).Some?
    requires forall n | owner(n).Some? :: Free(owner(n).value, '*') && Free(owner(n).value, '/')
    requires destinations != [] && forall d | d in destinations :: Free(d, '*') && Free(d, '/')
    requires grant == "*" || grant == "instances/*"
    ensures obj == "instances/" + ns + rest && Free(ns, '/') && owner(ns).Some?
    ensures Covers(ScopeObject(owner(ns).value, grant, destinations), ResolveNamespace(obj, owner).value)
            <==> ns in destinations && rest != ""
  {
    ns, rest := ResolvedShape(obj, owner);
    GrantDecides(owner(ns).value, grant, destinations, ns, rest);
  }

  lemma {:induction false} GrantDecides(project: string, grant: string, destinations: seq<string>, ns: string, rest: string)
    requires Free(project, '*') && Free(ns, '/') && (rest == "" || rest[0] == '/')
    requires destinations != [] && forall d | d in destinations :: Free(d, '*') && Free(d, '/')
    requires grant == "*" || grant == "instances/*"
    ensures Covers(ScopeObject(project, grant, destinations), "instances/" + project + "/" + ns + rest)
            <==> ns in destinations && rest != ""
  {
    var request := "instances/" + project + "/" + ns + rest;
    var instances := ScopeResourceToDestinations("instances", project, destinations);
    forall i | 0 <= i < |destinations|
      ensures KeyMatch(request, instances[i]) <==> destinations[i] == ns && rest != ""
    {
      OneDestination(project, destinations[i], ns, rest);
    }
    var objects := ScopeObject(project, grant, destinations);
    forall o | o in objects && o !in instances
      ensures !KeyMatch(request, o)
    {
      OthersDoNotMatch(project, grant, destinations, o, request);
    }
    if ns in destinations && rest != "" {
      var i :| 0 <= i < |destinations| && destinations[i] == ns;
      InstancesAmongScoped(project, grant, destinations, instances[i]);
    }
  }

  lemma {:induction false} InstancesAmongScoped(project: string, grant: string, destinations: seq<string>, o: string)
    requires grant == "*" || grant == "instances/*"
    requires o in ScopeResourceToDestinations("instances", project, destinations)
    ensures o in ScopeObject(project, grant, destinations)
  {
  }

  lemma {:induction false} OthersDoNotMatch(project: string, grant: string, destinations: seq<string>, o: string, request: string)
    requires grant == "*" || grant == "instances/*"
    requires o in ScopeObject(project, grant, destinations) && o !in ScopeResourceToDestinations("instances", project, destinations)
    requires request != "" && request[0] == 'i'
    ensures !KeyMatch(request, o)
  {
    if grant == "*" {
      OtherObjectHead(project, destinations, o);
    }
    FirstByteMatters(request, o);
  }

  lemma {:induction false} ResourceHead(res: string, project: string, destinations: seq<string>, o: string)
    requires res != "" && o in ScopeResourceToDestinations(res, project, destinations)
    ensures o != "" && o[0] == res[0]
  {
    var tail := ScopedResourceShape(res, project, destinations, o);
  }

  /** What a whole-project grant adds besides instances starts with another byte. */
  lemma {:induction false} OtherObjectHead(project: string, destinations: seq<string>, o: string)
    requires o in WholeProject(project, destinations)
    requires o !in ScopeResourceToDestinations("instances", project, destinations)
    ensures o != "" && o[0] != 'i' && o[0] != '*'
  {
    WholeProjectMembers(project, destinations, o);
    if o in ScopeResourceToDestinations("secrets", project, destinations) {
      ResourceHead("secrets", project, destinations, o);
    }
  }

  /** A literal first byte has to match. */
  lemma {:induction false} FirstByteMatters(request: string, o: string)
    requires request != "" && o != "" && o[0] != '*' && o[0] != request[0]
    ensures !KeyMatch(request, o)
  {
    var stem, rest := CutAtStar(o);
    assert stem != "" && stem[0] == o[0];
    KeyMatchMeaning(request, stem, rest);
  }

  lemma {:induction false} OneDestination(project: string, dest: string, ns: string, rest: string)
    requires Free(project, '*') && Free(dest, '*') && Free(dest, '/') && Free(ns, '/') && (rest == "" || rest[0] == '/')
    ensures KeyMatch("instances/" + project + "/" + ns + rest, PerDestination("instances", project, dest))
            <==> dest == ns && rest != ""
  {
    var head := "instances/" + project + "/";
    var request, stem := head + (ns + rest), head + (dest + "/");
    assert "instances/" + project + "/" + ns + rest == request;
    assert PerDestination("instances", project, dest) == stem + "*" + "";
    KeyMatchMeaning(request, stem, "");
    if HasPrefix(request, stem) {
      StripPrefix(head, ns + rest, dest + "/");
      if rest == "" {
        NoSlashNoPrefix(ns, dest);
      } else {
        assert rest == ['/'] + rest[1..];
        FirstCutUnique(ns, rest[1..], '/', dest, (ns + rest)[|dest| + 1..]);
      }
    }
    if dest == ns && rest != "" {
      assert request == stem + rest[1..];
    }
  }

  lemma {:induction false} NoSlashNoPrefix(s: string, a: string)
    requires Free(s, '/')
    ensures !HasPrefix(s, a + "/")
  {
    assert forall k :: 0 <= k < |s| ==> s[k] in s;
    assert (a + "/")[|a|] == '/';
  }
}
