/** Which project owns a namespace: the first, in listing order, with a destination that matches it. */
module ProjectLookup {
  import opened Text
  import opened Wrappers
  import opened Glob

  datatype Listed = Listed(name: string, destinations: seq<string>)

  predicate IsWildcard(s: string) {
    s != "" && (s == "*" || s[0] == '*' || s[|s| - 1] == '*')
  }

  /** The three tests of the loop are one matcher. */
  lemma {:induction false} DestinationTestsAreOne(dest: string, namespace: string)
    ensures dest == namespace || dest == "*" || (IsWildcard(dest) && MatchesWildcard(dest, namespace))
            <==> MatchesWildcard(dest, namespace)
  {
  }

  predicate Owns(p: Listed, namespace: string) {
    exists d | d in p.destinations :: MatchesWildcard(d, namespace)
  }

  predicate FirstOwnerAt(projects: seq<Listed>, namespace: string, i: nat) {
    i < |projects| && Owns(projects[i], namespace) && forall j | 0 <= j < i :: !Owns(projects[j], namespace)
  }

  /** None stands for the not-found error. */
  ghost predicate IsOwner(projects: seq<Listed>, namespace: string, owner: Option<Listed>) {
    match owner
    case None => forall p | p in projects :: !Owns(p, namespace)
    case Some(p) => exists i: nat :: FirstOwnerAt(projects, namespace, i) && projects[i] == p
  }

  function FirstOwner(projects: seq<Listed>, namespace: string): (owner: Option<Listed>)
    ensures IsOwner(projects, namespace, owner)
  {
    if projects == [] then None
    else if Owns(projects[0], namespace) then
      assert FirstOwnerAt(projects, namespace, 0);
      Some(projects[0])
    else
      var owner := FirstOwner(projects[1..], namespace);
      assert owner.Some? ==> exists i: nat :: FirstOwnerAt(projects, namespace, i) && projects[i] == owner.value by {
        if owner.Some? {
          var i: nat :| FirstOwnerAt(projects[1..], namespace, i) && projects[1..][i] == owner.value;
          assert FirstOwnerAt(projects, namespace, i + 1);
        }
      }
      owner
  }

  function OwnerName(projects: seq<Listed>, namespace: string): Option<string> {
    var owner := FirstOwner(projects, namespace);
    if owner.Some? then Some(owner.value.name) else None
  }

  lemma {:induction false} OwnerUnique(projects: seq<Listed>, namespace: string, a: Option<Listed>, b: Option<Listed>)
    requires IsOwner(projects, namespace, a) && IsOwner(projects, namespace, b)
    ensures a == b
  {
  }

  method GetProjectByDestinationNamespace(projects: seq<Listed>, namespace: string) returns (owner: Option<Listed>)
    ensures IsOwner(projects, namespace, owner) && owner == FirstOwner(projects, namespace)
  {
    owner := FindOwner(projects, namespace);
    OwnerUnique(projects, namespace, owner, FirstOwner(projects, namespace));
  }

  method FindOwner(projects: seq<Listed>, namespace: string) returns (owner: Option<Listed>)
    ensures IsOwner(projects, namespace, owner)
  {
    for i := 0 to |projects|
      invariant forall j | 0 <= j < i :: !Owns(projects[j], namespace)
    {
      var project := projects[i];
      for k := 0 to |project.destinations|
        invariant forall j | 0 <= j < k :: !MatchesWildcard(project.destinations[j], namespace)
      {
        var dest := project.destinations[k];
        DestinationTestsAreOne(dest, namespace);
        if dest == namespace || dest == "*" {
          assert FirstOwnerAt(projects, namespace, i);
          return Some(project);
        }
        if IsWildcard(dest) && MatchesWildcard(dest, namespace) {
          assert FirstOwnerAt(projects, namespace, i);
          return Some(project);
        }
      }
    }
    return None;
  }

  // ---- does the listing order matter? ----

  ghost predicate OneOwner(projects: seq<Listed>, namespace: string) {
    forall p, q | p in projects && q in projects && Owns(p, namespace) && Owns(q, namespace) :: p == q
  }

  ghost predicate SameOwner(xs: seq<Listed>, ys: seq<Listed>, namespace: string) {
    forall a, b :: IsOwner(xs, namespace, a) && IsOwner(ys, namespace, b) ==> a == b
  }

  lemma {:induction false} OwnerIsListed(projects: seq<Listed>, namespace: string, owner: Option<Listed>)
    requires IsOwner(projects, namespace, owner)
    ensures if owner.Some? then owner.value in projects && Owns(owner.value, namespace)
            else forall p | p in projects :: !Owns(p, namespace)
  {
  }

  lemma {:induction false} OneOwnerSameOwner(xs: seq<Listed>, ys: seq<Listed>, namespace: string)
    requires OneOwner(xs, namespace) && multiset(xs) == multiset(ys)
    ensures SameOwner(xs, ys, namespace)
  {
    assert forall p :: p in xs <==> p in multiset(xs);
    assert forall p :: p in ys <==> p in multiset(ys);
    forall a, b | IsOwner(xs, namespace, a) && IsOwner(ys, namespace, b) ensures a == b {
      OwnerIsListed(xs, namespace, a);
      OwnerIsListed(ys, namespace, b);
    }
  }

  /** Moving a second owner to the front changes the answer. */
  lemma {:induction false} SecondOwnerFirst(xs: seq<Listed>, namespace: string, p: Listed, q: Listed) returns (ys: seq<Listed>, zs: seq<Listed>)
    requires p in xs && q in xs && p != q && Owns(p, namespace) && Owns(q, namespace)
    ensures multiset(ys) == multiset(xs) == multiset(zs) && !SameOwner(ys, zs, namespace)
  {
    ys := ToFront(xs, p);
    zs := ToFront(xs, q);
    assert FirstOwnerAt(ys, namespace, 0) && FirstOwnerAt(zs, namespace, 0);
    assert IsOwner(ys, namespace, Some(p)) && IsOwner(zs, namespace, Some(q));
  }

  lemma {:induction false} ToFront(xs: seq<Listed>, p: Listed) returns (ys: seq<Listed>)
    requires p in xs
    ensures multiset(ys) == multiset(xs) && |ys| > 0 && ys[0] == p
  {
    var i :| 0 <= i < |xs| && xs[i] == p;
    ys := [p] + xs[..i] + xs[i + 1..];
    assert xs == xs[..i] + [p] + xs[i + 1..];
  }

  /** The owner of a namespace is the same in every listing order if and only if one project at most has a
      destination that matches it. */
  lemma {:induction false} OwnerOrderFreeExactly(xs: seq<Listed>, namespace: string)
    ensures (forall ys, zs :: multiset(ys) == multiset(xs) == multiset(zs) ==> SameOwner(ys, zs, namespace))
            <==> OneOwner(xs, namespace)
  {
    if OneOwner(xs, namespace) {
      forall ys, zs | multiset(ys) == multiset(xs) == multiset(zs) ensures SameOwner(ys, zs, namespace) {
        assert forall p :: p in xs <==> p in multiset(xs);
        assert forall p :: p in ys <==> p in multiset(ys);
        OneOwnerSameOwner(ys, zs, namespace);
      }
    } else {
      var p, q :| p in xs && q in xs && Owns(p, namespace) && Owns(q, namespace) && p != q;
      var ys, zs := SecondOwnerFirst(xs, namespace, p, q);
    }
  }
}
