/** Incremental policy loading against a rebuild from scratch. */
module Rebuild {
  import opened Text
  import opened Wrappers
  import opened Subjects
  import opened Casbin
  import opened Scoping
  import opened Policies
  import opened RbacState

  /** The projects a list leaves loaded: of two with one name, the later one. */
  function ListMap(projects: seq<Project>): (m: map<string, Project>)
    ensures m.Keys == Names(projects)
    decreases |projects|
  {
    if |projects| == 0 then map[]
    else
      var n := |projects| - 1;
      assert projects == projects[..n] + [projects[n]];
      ListMap(projects[..n])[projects[n].name := projects[n]]
  }

  /** The projects whose tuples the store holds, and those of them that are marked as loaded. The two differ
      when a load fails part way: its first tuples stay, its name is not marked (and not unmarked either). */
  datatype Held = Held(present: map<string, Project>, loaded: set<string>)

  const NOTHING_HELD := Held(map[], {})

  function LoadHeld(h: Held, project: Project): Held {
    if project.name == "" then h
    else Held(h.present[project.name := project], if Compile(project).failed then h.loaded else h.loaded + {project.name})
  }

  function LoadsHeld(h: Held, projects: seq<Project>): Held
    decreases |projects|
  {
    if |projects| == 0 then h else LoadHeld(LoadsHeld(h, projects[..|projects| - 1]), projects[|projects| - 1])
  }

  function DropHeld(h: Held, names: set<string>): Held {
    Held(h.present - names, h.loaded - names)
  }

  /** A sync removes the marked projects that are no longer listed. */
  function NextHeld(h: Held, e: Event): Held {
    match e
    case Load(project) => LoadHeld(h, project)
    case Remove(name) => if name == "" then h else DropHeld(h, {name})
    case Sync(projects) => var s := LoadsHeld(h, projects); DropHeld(s, s.loaded - Names(projects))
    case _ => h
  }

  function HeldAfter(h: Held, events: seq<Event>): Held
    decreases |events|
  {
    if |events| == 0 then h else NextHeld(HeldAfter(h, events[..|events| - 1]), events[|events| - 1])
  }

  predicate LoadSucceeds(project: Project) {
    project.name != "" && !Compile(project).failed
  }

  predicate ProjectsSucceed(e: Event) {
    match e
    case Load(project) => LoadSucceeds(project)
    case Remove(name) => name != ""
    case Sync(projects) => forall p | p in projects :: LoadSucceeds(p)
    case _ => true
  }

  /** The event assigns no role to a group subject and removes none from one. */
  predicate OnUsers(e: Event) {
    match e
    case Assign(user, _) => !IsGroup(user)
    case DropAll(user) => !IsGroup(user)
    case Drop(user, _) => !IsGroup(user)
    case _ => true
  }

  predicate NoGroupKeys(persisted: map<string, set<string>>) {
    forall u | u in persisted :: !IsGroup(u)
  }

  function GroupPart(g: set<Grouping>): set<Grouping> {
    set e | e in g && IsGroup(e.user)
  }

  function UserPart(g: set<Grouping>): set<Grouping> {
    set e | e in g && !IsGroup(e.user)
  }

  // ---- what is loaded, project by project ----

  /** Compiled tuples by project name. */
  type Parts = map<string, Compiled>

  function PartPolicies(parts: Parts): (policies: set<Policy>) {
    set n, p | n in parts && p in parts[n].policies :: p
  }

  function PartGroupings(parts: Parts): (g: set<Grouping>) {
    set n, e | n in parts && e in parts[n].groupings && IsGroup(e.user) :: e
  }

  /** Removing a project finds these tuples exactly when it is project `name`. */
  ghost predicate FoundBy(name: string, c: Compiled) {
    && (forall p, removed | p in c.policies :: IsProjectRole(removed, p.sub) <==> removed == name)
    && (forall e, removed | e in c.groupings :: IsProjectRole(removed, e.role) <==> removed == name)
  }

  ghost predicate AllFound(parts: Parts) {
    forall n | n in parts :: FoundBy(n, parts[n])
  }

  /** The policies are exactly the built-in ones plus the parts'. */
  ghost predicate PoliciesBuilt(policies: set<Policy>, parts: Parts) {
    AllFound(parts) && policies == BuiltIn() + PartPolicies(parts)
  }

  /** The group mappings are exactly the parts'. */
  ghost predicate GroupsBuilt(groupings: set<Grouping>, parts: Parts) {
    AllFound(parts) && GroupPart(groupings) == PartGroupings(parts)
  }

  lemma {:induction false} BuiltInIsNotProject(name: string)
    ensures forall p | p in BuiltIn() :: !IsProjectRole(name, p.sub)
  {
    forall sub | sub in {"role:serveradmin", "role:operator", "role:developer"}
      ensures !IsProjectRole(name, sub)
    {
      assert sub[0] == 'r' && RolePrefix(name)[0] == 'p';
    }
  }

  lemma {:induction false} RemovedPolicies(parts: Parts, names: set<string>, p: Policy)
    requires AllFound(parts)
    ensures p in PartPolicies(parts - names) <==> p in PartPolicies(parts) && !OfAny(names, p.sub)
  {
    if p in PartPolicies(parts - names) {
      var n :| n in parts - names && p in (parts - names)[n].policies;
      assert p in parts[n].policies && FoundBy(n, parts[n]);
    }
    if p in PartPolicies(parts) && !OfAny(names, p.sub) {
      var n :| n in parts && p in parts[n].policies;
      assert FoundBy(n, parts[n]) && IsProjectRole(n, p.sub);
      assert p in (parts - names)[n].policies;
    }
  }

  lemma {:induction false} RemovedGroupings(parts: Parts, names: set<string>, e: Grouping)
    requires AllFound(parts)
    ensures e in PartGroupings(parts - names) <==> e in PartGroupings(parts) && !OfAny(names, e.role)
  {
    if e in PartGroupings(parts - names) {
      var n :| n in parts - names && e in (parts - names)[n].groupings && IsGroup(e.user);
      assert e in parts[n].groupings && FoundBy(n, parts[n]);
    }
    if e in PartGroupings(parts) && !OfAny(names, e.role) {
      var n :| n in parts && e in parts[n].groupings && IsGroup(e.user);
      assert FoundBy(n, parts[n]) && IsProjectRole(n, e.role);
      assert e in (parts - names)[n].groupings;
    }
  }

  /** Removing some projects leaves exactly the parts of the others. */
  lemma {:induction false} RemoveKeepsPolicies(store: Store, parts: Parts, names: set<string>)
    requires PoliciesBuilt(store.policies, parts)
    ensures PoliciesBuilt(RemoveProjects(store, names).policies, parts - names)
  {
    forall name | name in names { BuiltInIsNotProject(name); }
    forall p { RemovedPolicies(parts, names, p); }
  }

  lemma {:induction false} RemoveKeepsGroups(store: Store, parts: Parts, names: set<string>)
    requires GroupsBuilt(store.groupings, parts)
    ensures GroupsBuilt(RemoveProjects(store, names).groupings, parts - names)
  {
    forall e { RemovedGroupings(parts, names, e); }
    assert forall e :: e in GroupPart(RemoveProjects(store, names).groupings)
                       <==> e in GroupPart(store.groupings) && !OfAny(names, e.role);
  }

  lemma {:induction false} AddedPolicies(parts: Parts, name: string, c: Compiled)
    requires name !in parts
    ensures PartPolicies(parts[name := c]) == PartPolicies(parts) + c.policies
  {
    var next := parts[name := c];
    forall p | p in c.policies ensures p in PartPolicies(next) {
      assert p in next[name].policies;
    }
    forall p | p in PartPolicies(parts) ensures p in PartPolicies(next) {
      var n :| n in parts && p in parts[n].policies;
      assert p in next[n].policies;
    }
  }

  lemma {:induction false} AddedGroupings(parts: Parts, name: string, c: Compiled)
    requires name !in parts
    ensures PartGroupings(parts[name := c]) == PartGroupings(parts) + GroupPart(c.groupings)
  {
    var next := parts[name := c];
    forall e | e in GroupPart(c.groupings) ensures e in PartGroupings(next) {
      assert e in next[name].groupings;
    }
    forall e | e in PartGroupings(parts) ensures e in PartGroupings(next) {
      var n :| n in parts && e in parts[n].groupings && IsGroup(e.user);
      assert e in next[n].groupings;
    }
  }

  /** A load replaces the project's part and nothing else, even when it fails. */
  lemma {:induction false} LoadKeepsPolicies(store: Store, parts: Parts, project: Project)
    requires PoliciesBuilt(store.policies, parts)
    ensures PoliciesBuilt(LoadStore(store, project).policies, parts[project.name := Compile(project)])
  {
    CompiledIsFound(project);
    RemoveKeepsPolicies(store, parts, {project.name});
    AddedPolicies(parts - {project.name}, project.name, Compile(project));
    ReplacePart(parts, project.name, Compile(project));
  }

  lemma {:induction false} LoadKeepsGroups(store: Store, parts: Parts, project: Project)
    requires GroupsBuilt(store.groupings, parts)
    ensures GroupsBuilt(LoadStore(store, project).groupings, parts[project.name := Compile(project)])
  {
    CompiledIsFound(project);
    RemoveKeepsGroups(store, parts, {project.name});
    AddedGroupings(parts - {project.name}, project.name, Compile(project));
    ReplacePart(parts, project.name, Compile(project));
    var removed := RemoveProjects(store, {project.name}).groupings;
    assert GroupPart(removed + Compile(project).groupings) == GroupPart(removed) + GroupPart(Compile(project).groupings);
  }

  lemma {:induction false} ReplacePart(parts: Parts, name: string, c: Compiled)
    ensures (parts - {name})[name := c] == parts[name := c]
  {
  }

  function CompileAll(present: map<string, Project>): (parts: Parts) {
    map n | n in present :: Compile(present[n])
  }

  lemma {:induction false} CompiledIsFound(project: Project)
    ensures FoundBy(project.name, Compile(project))
  {
    forall removed { CompiledBelongsToProject(project, removed); }
  }

  lemma {:induction false} CompileAllUpdate(present: map<string, Project>, project: Project)
    ensures CompileAll(present[project.name := project]) == CompileAll(present)[project.name := Compile(project)]
  {
  }

  lemma {:induction false} CompileAllRemove(present: map<string, Project>, names: set<string>)
    ensures CompileAll(present - names) == CompileAll(present) - names
  {
  }

  ghost predicate WellNamed(present: map<string, Project>) {
    forall n | n in present :: n != "" && present[n].name == n
  }

  /** Policies and marks are those of the held projects. */
  ghost predicate InStep(store: Store, loaded: set<string>, h: Held) {
    WellNamed(h.present) && PoliciesBuilt(store.policies, CompileAll(h.present)) && loaded == h.loaded
  }

  function PoliciesOf(present: map<string, Project>): set<Policy> {
    BuiltIn() + PartPolicies(CompileAll(present))
  }

  ghost predicate GroupsInStep(store: Store, h: Held) {
    GroupsBuilt(store.groupings, CompileAll(h.present))
  }

  lemma {:induction false} LoadStaysInStep(store: Store, loaded: set<string>, h: Held, project: Project)
    requires project.name != ""
    ensures InStep(store, loaded, h) ==>
      InStep(LoadStore(store, project), if Compile(project).failed then loaded else loaded + {project.name}, LoadHeld(h, project))
    ensures GroupsInStep(store, h) ==> GroupsInStep(LoadStore(store, project), LoadHeld(h, project))
  {
    CompileAllUpdate(h.present, project);
    if InStep(store, loaded, h) {
      LoadKeepsPolicies(store, CompileAll(h.present), project);
    }
    if GroupsInStep(store, h) {
      LoadKeepsGroups(store, CompileAll(h.present), project);
    }
  }

  lemma {:induction false} RemoveStaysInStep(store: Store, loaded: set<string>, h: Held, names: set<string>)
    ensures InStep(store, loaded, h) ==> InStep(RemoveProjects(store, names), loaded - names, DropHeld(h, names))
    ensures GroupsInStep(store, h) ==> GroupsInStep(RemoveProjects(store, names), DropHeld(h, names))
  {
    CompileAllRemove(h.present, names);
    if InStep(store, loaded, h) {
      RemoveKeepsPolicies(store, CompileAll(h.present), names);
    }
    if GroupsInStep(store, h) {
      RemoveKeepsGroups(store, CompileAll(h.present), names);
    }
  }

  lemma {:induction false} SyncLoadsStayInStep(st: State, h: Held, projects: seq<Project>)
    ensures var s := SyncLoads(st, projects);
            && (InStep(st.store, st.loaded, h) ==> InStep(s.store, s.loaded, LoadsHeld(h, projects)))
            && (GroupsInStep(st.store, h) ==> GroupsInStep(s.store, LoadsHeld(h, projects)))
    decreases |projects|
  {
    if |projects| > 0 {
      var n := |projects| - 1;
      SyncLoadsStayInStep(st, h, projects[..n]);
      if projects[n].name != "" {
        var s := SyncLoads(st, projects[..n]);
        LoadStaysInStep(s.store, s.loaded, LoadsHeld(h, projects[..n]), projects[n]);
      }
    }
  }

  /** A sync from any state that is in step, whether its loads succeed or not. */
  lemma {:induction false} SyncStaysInStep(cfg: Config, st: State, h: Held, projects: seq<Project>)
    requires InStep(st.store, st.loaded, h)
    ensures var next := SyncProjects(cfg, st, projects).state;
            && InStep(next.store, next.loaded, NextHeld(h, Sync(projects)))
            && (GroupsInStep(st.store, h) ==> GroupsInStep(next.store, NextHeld(h, Sync(projects))))
  {
    SyncLoadsStayInStep(st, h, projects);
    var s := SyncLoads(st, projects);
    RemoveStaysInStep(s.store, s.loaded, LoadsHeld(h, projects), s.loaded - Names(projects));
  }

  /** Rebinding one user who is no group leaves the group mappings alone. */
  lemma {:induction false} UserEdgesOnly(g: set<Grouping>, h: set<Grouping>, user: string)
    requires !IsGroup(user) && forall e: Grouping | e.user != user :: e in g <==> e in h
    ensures GroupPart(g) == GroupPart(h)
  {
  }

  /** Role events touch no policies; on users they touch no group mappings either. */
  lemma {:induction false} RoleEventKeepsProjects(cfg: Config, st: State, e: Event)
    requires !e.Load? && !e.Remove? && !e.Sync?
    ensures var next := Step(cfg, st, e).state;
            && next.store.policies == st.store.policies && next.loaded == st.loaded
            && (OnUsers(e) && NoGroupKeys(st.persisted) ==>
                  GroupPart(next.store.groupings) == GroupPart(st.store.groupings) && NoGroupKeys(next.persisted))
  {
    if OnUsers(e) && NoGroupKeys(st.persisted) {
      RoleEventKeepsGroups(cfg, st, e);
    }
  }

  lemma {:induction false} RoleEventKeepsGroups(cfg: Config, st: State, e: Event)
    requires !e.Load? && !e.Remove? && !e.Sync? && OnUsers(e) && NoGroupKeys(st.persisted)
    ensures var next := Step(cfg, st, e).state;
            GroupPart(next.store.groupings) == GroupPart(st.store.groupings) && NoGroupKeys(next.persisted)
  {
    if e.Assign? || e.DropAll? || e.Drop? {
      UserEdgesOnly(st.store.groupings, Step(cfg, st, e).state.store.groupings, e.user);
    }
  }

  /** One event of any kind, on users or groups, successful or not, keeps policies and marks in step. */
  lemma {:induction false} StepStaysInStep(cfg: Config, st: State, h: Held, e: Event)
    requires InStep(st.store, st.loaded, h)
    ensures var next := Step(cfg, st, e).state; InStep(next.store, next.loaded, NextHeld(h, e))
  {
    match e
    case Load(project) =>
      if project.name != "" { LoadStaysInStep(st.store, st.loaded, h, project); }
    case Remove(name) => RemoveStaysInStep(st.store, st.loaded, h, {name});
    case Sync(projects) => SyncStaysInStep(cfg, st, h, projects);
    case _ => RoleEventKeepsProjects(cfg, st, e);
  }

  /** Group mappings are in step as well, and Redis holds no group subjects. */
  ghost predicate UsersOnly(st: State, h: Held) {
    InStep(st.store, st.loaded, h) && GroupsInStep(st.store, h) && NoGroupKeys(st.persisted)
  }

  /** And on users it keeps the group mappings in step. */
  lemma {:induction false} StepKeepsGroups(cfg: Config, st: State, h: Held, e: Event)
    requires UsersOnly(st, h) && OnUsers(e)
    ensures UsersOnly(Step(cfg, st, e).state, NextHeld(h, e))
  {
    StepStaysInStep(cfg, st, h, e);
    match e
    case Load(project) =>
      if project.name != "" { LoadStaysInStep(st.store, st.loaded, h, project); }
    case Remove(name) => RemoveStaysInStep(st.store, st.loaded, h, {name});
    case Sync(projects) => SyncStaysInStep(cfg, st, h, projects);
    case _ => RoleEventKeepsProjects(cfg, st, e);
  }

  lemma {:induction false} FreshInStep(persisted: map<string, set<string>>)
    ensures InStep(Fresh(persisted).store, Fresh(persisted).loaded, NOTHING_HELD)
    ensures GroupsInStep(Fresh(persisted).store, NOTHING_HELD)
  {
    assert PartPolicies(CompileAll(map[])) == {} && PartGroupings(CompileAll(map[])) == {} == GroupPart({});
  }

  /** After every run whatsoever, policies and marks are those of the held projects. */
  lemma {:induction false} RunStaysInStep(cfg: Config, st: State, h: Held, events: seq<Event>)
    requires InStep(st.store, st.loaded, h)
    ensures var end := Run(cfg, st, events); InStep(end.store, end.loaded, HeldAfter(h, events))
    decreases |events|
  {
    if |events| > 0 {
      var n := |events| - 1;
      RunStaysInStep(cfg, st, h, events[..n]);
      StepStaysInStep(cfg, Run(cfg, st, events[..n]), HeldAfter(h, events[..n]), events[n]);
    }
  }

  /** After every run of events on users, so are the group mappings. */
  lemma {:induction false} RunKeepsGroups(cfg: Config, st: State, h: Held, events: seq<Event>)
    requires UsersOnly(st, h) && forall e | e in events :: OnUsers(e)
    ensures UsersOnly(Run(cfg, st, events), HeldAfter(h, events))
    decreases |events|
  {
    if |events| > 0 {
      var n := |events| - 1;
      RunKeepsGroups(cfg, st, h, events[..n]);
      StepKeepsGroups(cfg, Run(cfg, st, events[..n]), HeldAfter(h, events[..n]), events[n]);
    }
  }

  /** A listing of the projects, in any order. */
  ghost predicate Lists(listing: seq<Project>, present: map<string, Project>) {
    && (forall p | p in listing :: p.name in present && present[p.name] == p)
    && (forall n | n in present :: present[n] in listing)
  }

  predicate AllMarked(h: Held) {
    forall n | n in h.present :: n in h.loaded <==> !Compile(h.present[n]).failed
  }

  /** Incremental equals rebuild: after any run at all, with role events on users or groups and with calls that
      fail, the policies are those of a fresh enforcer synced once with the held projects, listed in any
      order. The marks are the same if and only if no marked project's latest load failed. The group
      mappings are the same when no role event touched a group subject. */
  lemma {:induction false} IncrementalEqualsRebuild(cfg: Config, persisted: map<string, set<string>>, events: seq<Event>, listing: seq<Project>)
    requires Lists(listing, HeldAfter(NOTHING_HELD, events).present)
    ensures var st, h := Run(cfg, Fresh(persisted), events), HeldAfter(NOTHING_HELD, events);
            var rebuild := SyncProjects(cfg, Fresh(map[]), listing).state;
            && st.store.policies == rebuild.store.policies
            && (st.loaded == rebuild.loaded <==> AllMarked(h))
            && (NoGroupKeys(persisted) && (forall e | e in events :: OnUsers(e)) ==>
                  GroupPart(st.store.groupings) == GroupPart(rebuild.store.groupings))
  {
    var h := HeldAfter(NOTHING_HELD, events);
    FreshInStep(persisted);
    FreshInStep(map[]);
    RunStaysInStep(cfg, Fresh(persisted), NOTHING_HELD, events);
    RunKeepsMarks(NOTHING_HELD, events);
    SyncStaysInStep(cfg, Fresh(map[]), NOTHING_HELD, listing);
    ListedIsHeld(h.present, listing);
    if NoGroupKeys(persisted) && forall e | e in events :: OnUsers(e) {
      RunKeepsGroups(cfg, Fresh(persisted), NOTHING_HELD, events);
    }
  }

  ghost predicate MarksPresent(h: Held) {
    h.loaded <= h.present.Keys
  }

  lemma {:induction false} LoadsKeepMarks(h: Held, projects: seq<Project>)
    requires MarksPresent(h)
    ensures MarksPresent(LoadsHeld(h, projects))
    decreases |projects|
  {
    if |projects| > 0 {
      LoadsKeepMarks(h, projects[..|projects| - 1]);
    }
  }

  lemma {:induction false} StepKeepsMarks(h: Held, e: Event)
    requires MarksPresent(h)
    ensures MarksPresent(NextHeld(h, e))
  {
    if e.Sync? {
      LoadsKeepMarks(h, e.projects);
    }
  }

  lemma {:induction false} RunKeepsMarks(h: Held, events: seq<Event>)
    requires MarksPresent(h)
    ensures MarksPresent(HeldAfter(h, events))
    decreases |events|
  {
    if |events| > 0 {
      var n := |events| - 1;
      RunKeepsMarks(h, events[..n]);
      StepKeepsMarks(HeldAfter(h, events[..n]), events[n]);
    }
  }

  /** What one sync of a fresh enforcer holds. */
  lemma {:induction false} ListedIsHeld(present: map<string, Project>, listing: seq<Project>)
    requires WellNamed(present) && Lists(listing, present)
    ensures var h := NextHeld(NOTHING_HELD, Sync(listing));
            h.present == present && h.loaded == set n | n in present && !Compile(present[n]).failed
  {
    ListedLoads(present, listing);
    var s := LoadsHeld(NOTHING_HELD, listing);
    forall n | n in present ensures n in s.present && n in Names(listing) {
      assert present[n] in listing && present[n].name == n;
    }
    assert s.present == present;
    assert forall n :: LoadsWhole(present, n) <==> n in present && !Compile(present[n]).failed;
    assert s.loaded - Names(listing) == {};
    assert s.present - {} == s.present;
  }

  ghost predicate IsListed(h: Held, present: map<string, Project>, names: set<string>) {
    && names <= present.Keys && h.present.Keys == names && (forall n | n in names :: h.present[n] == present[n])
    && forall n :: n in h.loaded <==> n in names && LoadsWhole(present, n)
  }

  /** The project's load succeeds. */
  predicate LoadsWhole(present: map<string, Project>, n: string) {
    n in present && !Compile(present[n]).failed
  }

  lemma {:induction false} ListedLoad(h: Held, present: map<string, Project>, names: set<string>, project: Project)
    requires IsListed(h, present, names) && project.name in present && present[project.name] == project && project.name != ""
    ensures IsListed(LoadHeld(h, project), present, names + {project.name})
  {
  }

  lemma {:induction false} ListedLoads(present: map<string, Project>, listing: seq<Project>)
    requires WellNamed(present) && forall p | p in listing :: p.name in present && present[p.name] == p
    ensures IsListed(LoadsHeld(NOTHING_HELD, listing), present, Names(listing))
    decreases |listing|
  {
    if |listing| > 0 {
      var n := |listing| - 1;
      assert listing[n] in listing && forall p | p in listing[..n] :: p in listing;
      ListedLoads(present, listing[..n]);
      ListedLoad(LoadsHeld(NOTHING_HELD, listing[..n]), present, Names(listing[..n]), listing[n]);
      NamesStep(listing);
    }
  }

  // ---- runs without failing loads ----

  ghost predicate AllLoaded(h: Held) {
    h.loaded == h.present.Keys && forall n | n in h.present :: LoadSucceeds(h.present[n])
  }

  lemma {:induction false} LoadsKeepAllLoaded(h: Held, projects: seq<Project>)
    requires AllLoaded(h) && forall p | p in projects :: LoadSucceeds(p)
    ensures AllLoaded(LoadsHeld(h, projects)) && LoadsHeld(h, projects).present == h.present + ListMap(projects)
    decreases |projects|
  {
    if |projects| > 0 {
      var n := |projects| - 1;
      assert projects[n] in projects && forall p | p in projects[..n] :: p in projects;
      LoadsKeepAllLoaded(h, projects[..n]);
      ListMapStep(h.present, projects);
    } else {
      assert h.present + map[] == h.present;
    }
  }

  lemma {:induction false} ListMapStep(cur: map<string, Project>, projects: seq<Project>)
    requires projects != []
    ensures var last := projects[|projects| - 1];
            (cur + ListMap(projects[..|projects| - 1]))[last.name := last] == cur + ListMap(projects)
  {
  }

  /** While project events succeed, a sync leaves exactly the listed projects, all of them marked. */
  lemma {:induction false} SyncHoldsListed(h: Held, projects: seq<Project>)
    requires AllLoaded(h) && forall p | p in projects :: LoadSucceeds(p)
    ensures NextHeld(h, Sync(projects)) == Held(ListMap(projects), Names(projects)) && AllLoaded(NextHeld(h, Sync(projects)))
  {
    LoadsKeepAllLoaded(h, projects);
    var s := LoadsHeld(h, projects);
    assert s.present - (s.loaded - Names(projects)) == ListMap(projects);
    assert s.loaded - (s.loaded - Names(projects)) == Names(projects);
  }

  lemma {:induction false} StepKeepsAllLoaded(h: Held, e: Event)
    requires AllLoaded(h) && ProjectsSucceed(e)
    ensures AllLoaded(NextHeld(h, e))
  {
    if e.Sync? {
      SyncHoldsListed(h, e.projects);
    }
  }

  lemma {:induction false} RunKeepsAllLoaded(h: Held, events: seq<Event>)
    requires AllLoaded(h) && forall e | e in events :: ProjectsSucceed(e)
    ensures AllLoaded(HeldAfter(h, events))
    decreases |events|
  {
    if |events| > 0 {
      var n := |events| - 1;
      RunKeepsAllLoaded(h, events[..n]);
      StepKeepsAllLoaded(HeldAfter(h, events[..n]), events[n]);
    }
  }

  // ---- does a sync forget what is no longer listed? ----

  /** The project is held from a load that failed, was never marked, and is not listed. */
  predicate Leftover(h: Held, listing: seq<Project>, name: string) {
    name in h.present && name !in h.loaded && name !in Names(listing)
  }

  predicate NoLeftoverPolicies(h: Held, listing: seq<Project>) {
    forall n | n in h.present && Leftover(h, listing, n) :: Compile(h.present[n]).policies == {}
  }

  /** A sync brings back the policies of a fresh sync with the same list, whatever came before, if and only if
      no half-loaded project that is no longer listed had added a policy before its load failed. */
  lemma {:induction false} SyncRebuildsExactly(cfg: Config, persisted: map<string, set<string>>, events: seq<Event>, listing: seq<Project>)
    ensures var h := HeldAfter(NOTHING_HELD, events);
            var synced := SyncProjects(cfg, Run(cfg, Fresh(persisted), events), listing).state;
            var rebuild := SyncProjects(cfg, Fresh(map[]), listing).state;
            synced.store.policies == rebuild.store.policies
            <==> NoLeftoverPolicies(h, listing)
  {
    var st, h, empty := Run(cfg, Fresh(persisted), events), HeldAfter(NOTHING_HELD, events), Fresh(map[]);
    assert InStep(st.store, st.loaded, h) by {
      FreshInStep(persisted);
      RunStaysInStep(cfg, Fresh(persisted), NOTHING_HELD, events);
    }
    assert InStep(empty.store, empty.loaded, NOTHING_HELD) by { FreshInStep(map[]); }
    SyncsCompare(cfg, st, h, empty, listing);
  }

  lemma {:induction false} SyncsCompare(cfg: Config, st: State, h: Held, empty: State, listing: seq<Project>)
    requires InStep(st.store, st.loaded, h) && InStep(empty.store, empty.loaded, NOTHING_HELD)
    ensures SyncProjects(cfg, st, listing).state.store.policies == SyncProjects(cfg, empty, listing).state.store.policies
            <==> NoLeftoverPolicies(h, listing)
  {
    PoliciesAfterSync(cfg, st, h, listing);
    PoliciesAfterSync(cfg, empty, NOTHING_HELD, listing);
    LeftoversDecide(h, listing);
  }

  lemma {:induction false} PoliciesAfterSync(cfg: Config, st: State, h: Held, listing: seq<Project>)
    requires InStep(st.store, st.loaded, h)
    ensures SyncProjects(cfg, st, listing).state.store.policies == PoliciesOf(NextHeld(h, Sync(listing)).present)
    ensures WellNamed(h.present) && WellNamed(NextHeld(h, Sync(listing)).present)
  {
    SyncStaysInStep(cfg, st, h, listing);
  }

  lemma {:induction false} LeftoversDecide(h: Held, listing: seq<Project>)
    requires WellNamed(h.present) && WellNamed(NextHeld(h, Sync(listing)).present)
    ensures PoliciesOf(NextHeld(h, Sync(listing)).present) == PoliciesOf(NextHeld(NOTHING_HELD, Sync(listing)).present)
            <==> NoLeftoverPolicies(h, listing)
  {
    var now, once := NextHeld(h, Sync(listing)).present, NextHeld(NOTHING_HELD, Sync(listing)).present;
    SyncHeldPresent(h, listing);
    ExtraParts(once, now);
    forall n ensures Leftover(h, listing, n) <==> n in now && n !in once {}
  }

  /** A sync holds the listed projects and the leftovers. */
  lemma {:induction false} SyncHeldPresent(h: Held, listing: seq<Project>)
    requires "" !in h.present
    ensures var now, once := NextHeld(h, Sync(listing)).present, NextHeld(NOTHING_HELD, Sync(listing)).present;
            && (forall n :: n in now <==> n in once || Leftover(h, listing, n))
            && (forall n | n in once :: n in now && now[n] == once[n] && n in Names(listing))
            && (forall n | n in now && n !in once :: n in h.present && now[n] == h.present[n])
  {
    LoadsHeldParts(h, listing);
    LoadsHeldParts(NOTHING_HELD, listing);
  }

  lemma {:induction false} LoadsHeldParts(h: Held, projects: seq<Project>)
    ensures var s, f := LoadsHeld(h, projects), LoadsHeld(NOTHING_HELD, projects);
            && s.present == h.present + f.present && s.loaded == h.loaded + f.loaded
            && f.present.Keys == Names(projects) - {""} && f.loaded <= Names(projects)
    decreases |projects|
  {
    if |projects| > 0 {
      var n := |projects| - 1;
      LoadsHeldParts(h, projects[..n]);
      LoadHeldParts(h, LoadsHeld(NOTHING_HELD, projects[..n]), projects[n]);
      NamesStep(projects);
    }
  }

  lemma {:induction false} LoadHeldParts(h: Held, f: Held, project: Project)
    ensures LoadHeld(Held(h.present + f.present, h.loaded + f.loaded), project)
            == Held(h.present + LoadHeld(f, project).present, h.loaded + LoadHeld(f, project).loaded)
  {
    assert (h.present + f.present)[project.name := project] == h.present + f.present[project.name := project];
    assert h.loaded + f.loaded + {project.name} == h.loaded + (f.loaded + {project.name});
  }

  lemma {:induction false} NamesStep(projects: seq<Project>)
    requires projects != []
    ensures Names(projects) == Names(projects[..|projects| - 1]) + {projects[|projects| - 1].name}
  {
    assert projects == projects[..|projects| - 1] + [projects[|projects| - 1]];
  }

  /** Two project maps, one a part of the other, have the same policies if the rest has none. */
  lemma {:induction false} ExtraParts(a: map<string, Project>, b: map<string, Project>)
    requires WellNamed(b) && forall n | n in a :: n in b && b[n] == a[n]
    ensures PoliciesOf(a) == PoliciesOf(b)
            <==> forall n | n in b && n !in a :: Compile(b[n]).policies == {}
  {
    if forall n | n in b && n !in a :: Compile(b[n]).policies == {} {
      NoExtraPolicies(a, b);
    } else {
      var n :| n in b && n !in a && Compile(b[n]).policies != {};
      var p :| p in Compile(b[n]).policies;
      assert p in CompileAll(b)[n].policies;
      ForeignPolicy(a, n, b[n], p);
    }
  }

  lemma {:induction false} NoExtraPolicies(a: map<string, Project>, b: map<string, Project>)
    requires forall n | n in a :: n in b && b[n] == a[n]
    requires forall n | n in b && n !in a :: Compile(b[n]).policies == {}
    ensures PartPolicies(CompileAll(a)) == PartPolicies(CompileAll(b))
  {
    forall p | p in PartPolicies(CompileAll(a)) ensures p in PartPolicies(CompileAll(b)) {
      var n :| n in CompileAll(a) && p in CompileAll(a)[n].policies;
      assert p in CompileAll(b)[n].policies;
    }
    forall p | p in PartPolicies(CompileAll(b)) ensures p in PartPolicies(CompileAll(a)) {
      var n :| n in CompileAll(b) && p in CompileAll(b)[n].policies;
      assert p in CompileAll(a)[n].policies;
    }
  }

  lemma {:induction false} ForeignPolicy(present: map<string, Project>, name: string, project: Project, p: Policy)
    requires name !in present && project.name == name && p in Compile(project).policies
    requires forall n | n in present :: present[n].name == n
    ensures p !in PoliciesOf(present)
  {
    CompiledIsFound(project);
    BuiltInIsNotProject(name);
    assert IsProjectRole(name, p.sub);
    forall n | n in present ensures p !in Compile(present[n]).policies {
      CompiledIsFound(present[n]);
    }
  }

  /** With successful project events the marks are always those of a rebuild, too. */
  lemma {:induction false} SuccessfulRunEqualsRebuild(cfg: Config, persisted: map<string, set<string>>, events: seq<Event>, listing: seq<Project>)
    requires forall e | e in events :: ProjectsSucceed(e)
    requires Lists(listing, HeldAfter(NOTHING_HELD, events).present)
    ensures var st, rebuild := Run(cfg, Fresh(persisted), events), SyncProjects(cfg, Fresh(map[]), listing).state;
            st.store.policies == rebuild.store.policies && st.loaded == rebuild.loaded == HeldAfter(NOTHING_HELD, events).present.Keys
  {
    RunKeepsAllLoaded(NOTHING_HELD, events);
    IncrementalEqualsRebuild(cfg, persisted, events, listing);
    FreshInStep(persisted);
    RunStaysInStep(cfg, Fresh(persisted), NOTHING_HELD, events);
  }

  /** With successful project events there are no leftovers: every sync is a rebuild. */
  lemma {:induction false} SuccessfulSyncRebuilds(cfg: Config, persisted: map<string, set<string>>, events: seq<Event>, listing: seq<Project>)
    requires forall e | e in events :: ProjectsSucceed(e)
    ensures SyncProjects(cfg, Run(cfg, Fresh(persisted), events), listing).state.store.policies
            == SyncProjects(cfg, Fresh(map[]), listing).state.store.policies
  {
    RunKeepsAllLoaded(NOTHING_HELD, events);
    SyncRebuildsExactly(cfg, persisted, events, listing);
  }

  const GOOD_RULE := RuleText("rgds/x", "get", "allow")
  const BAD_RULE := RuleText("rgds/x", "get", "none")

  lemma {:induction false} RuleAdds(project: string, role: string, obj: string, act: string)
    requires Free(obj, ',') && Free(act, ',') && Trimmed(obj) && Trimmed(act) && |RuleText(obj, act, "allow")| <= MAX_PATTERN_LENGTH
    ensures var c := AddScopedRule(project, role, RuleText(obj, act, "allow"), []); !c.failed && c.policies != {}
  {
    FormattedRuleParses(obj, act, "allow");
    var o, a := ScopeObject(project, obj, [])[0], NormalizeAction(act)[0];
    assert Policy(role, o, a, "allow") in Tuples(role, ScopeObject(project, obj, []), NormalizeAction(act), "allow");
  }

  lemma {:induction false} BadEffectFails(project: string, role: string, obj: string, act: string, eft: string)
    requires Free(obj, ',') && Free(act, ',') && Free(eft, ',') && Trimmed(obj) && Trimmed(act) && Trimmed(eft)
    requires eft != "allow" && eft != "deny"
    ensures AddScopedRule(project, role, RuleText(obj, act, eft), []).failed
  {
    RuleTextParts(obj, act, eft);
  }

  lemma {:induction false} HalfRules(project: string, role: string)
    ensures var c := AddScopedRules(project, role, [GOOD_RULE, BAD_RULE], []); c.failed && c.policies != {}
  {
    RuleAdds(project, role, "rgds/x", "get");
    BadEffectFails(project, role, "rgds/x", "get", "none");
    TwoRules(project, role, GOOD_RULE, BAD_RULE);
  }

  lemma {:induction false} TwoRules(project: string, role: string, a: string, b: string)
    ensures AddScopedRules(project, role, [a, b], [])
            == Then(Then(NOTHING, AddScopedRule(project, role, a, [])), AddScopedRule(project, role, b, []))
  {
    assert [a, b][..1] == [a] && [a][..0] == [];
    assert AddScopedRules(project, role, [], []) == NOTHING;
  }

  lemma {:induction false} FailedRoleFailsProject(project: Project, rules: Compiled)
    requires |project.roles| == 1 && project.roles[0].name != ""
    requires FormatProjectRole(project.name, project.roles[0].name).Some?
    requires var role := project.roles[0];
             rules == AddScopedRules(project.name, FormatProjectRole(project.name, role.name).value, role.policies, role.destinations)
    requires rules.failed
    ensures Compile(project).failed && Compile(project).policies == rules.policies
  {
    assert CompileRole(project.name, project.roles[0]) == rules;
    assert project.roles[..0] == [] && CompileRoles(project.name, []) == NOTHING;
  }

  /** A load of this project fails after its first rule, which stays. */
  lemma {:induction false} HalfLoaded(name: string) returns (project: Project)
    requires FormatProjectRole(name, "r").Some?
    ensures project.name == name && Compile(project).failed && Compile(project).policies != {}
  {
    project := Project(name, [Role("r", [GOOD_RULE, BAD_RULE], [], [])], []);
    HalfRules(name, FormatProjectRole(name, "r").value);
    FailedRoleFailsProject(project, AddScopedRules(name, FormatProjectRole(name, "r").value, [GOOD_RULE, BAD_RULE], []));
  }

  /** So a project whose only load failed part way, and whose removal was missed, keeps policies through syncs
      that no longer list it. */
  lemma {:induction false} SyncKeepsHalfLoaded(cfg: Config, name: string) returns (project: Project)
    requires FormatProjectRole(name, "r").Some?
    ensures project.name == name
    ensures SyncProjects(cfg, Run(cfg, Fresh(map[]), [Load(project)]), []).state.store.policies
            != SyncProjects(cfg, Fresh(map[]), []).state.store.policies
  {
    project := HalfLoaded(name);
    var h := HeldAfter(NOTHING_HELD, [Load(project)]);
    assert HeldAfter(NOTHING_HELD, []) == NOTHING_HELD && [Load(project)][..0] == [];
    assert h == LoadHeld(NOTHING_HELD, project);
    assert Leftover(h, [], name) && h.present[name] == project;
    SyncRebuildsExactly(cfg, map[], [Load(project)], []);
  }

  // ---- what a sync repairs ----

  /** For every role the project can have, the store's policies and group mappings are what it compiles to. */
  ghost predicate ProjectIsCompiled(store: Store, project: Project) {
    && (forall p: Policy | OwnRole(project.name, p.sub) :: p in store.policies <==> p in Compile(project).policies)
    && (forall e: Grouping | OwnRole(project.name, e.role) && IsGroup(e.user) :: e in store.groupings <==> e in Compile(project).groupings)
  }

  lemma {:induction false} OwnRoleIsFound(name: string, removed: string, subject: string)
    requires OwnRole(name, subject)
    ensures IsProjectRole(removed, subject) <==> removed == name
  {
    var role :| FormatProjectRole(name, role) == Some(subject);
    RemovalPrefixIsExact(name, role, removed);
  }

  lemma {:induction false} LoadCompiles(store: Store, project: Project)
    ensures ProjectIsCompiled(LoadStore(store, project), project)
  {
    forall subject | OwnRole(project.name, subject) ensures IsProjectRole(project.name, subject) {
      OwnRoleIsFound(project.name, project.name, subject);
    }
  }

  lemma {:induction false} LoadLeavesOthers(store: Store, project: Project, other: Project)
    requires other.name != project.name && ProjectIsCompiled(store, other)
    ensures ProjectIsCompiled(LoadStore(store, project), other)
  {
    CompiledIsFound(project);
    forall subject | OwnRole(other.name, subject)
      ensures !IsProjectRole(project.name, subject) && IsProjectRole(other.name, subject)
    {
      OwnRoleIsFound(other.name, project.name, subject);
      OwnRoleIsFound(other.name, other.name, subject);
    }
  }

  lemma {:induction false} RemovalLeavesOthers(store: Store, names: set<string>, other: Project)
    requires other.name !in names && ProjectIsCompiled(store, other)
    ensures ProjectIsCompiled(RemoveProjects(store, names), other)
  {
    forall subject | OwnRole(other.name, subject) ensures !OfAny(names, subject) {
      forall n | n in names ensures !IsProjectRole(n, subject) {
        OwnRoleIsFound(other.name, n, subject);
      }
    }
  }

  lemma {:induction false} SyncLoadsCompile(st: State, projects: seq<Project>, name: string)
    requires name != "" && name in Names(projects)
    ensures ListMap(projects)[name].name == name && ProjectIsCompiled(SyncLoads(st, projects).store, ListMap(projects)[name])
    decreases |projects|
  {
    var n := |projects| - 1;
    NamesStep(projects);
    var s := SyncLoads(st, projects[..n]);
    if projects[n].name == name {
      LoadCompiles(s.store, projects[n]);
    } else {
      SyncLoadsCompile(st, projects[..n], name);
      LoadLeavesOthers(s.store, projects[n], ListMap(projects[..n])[name]);
    }
  }

  /** A sync repairs what it lists: from any state at all (whatever policies, group mappings, marks and failed
      loads it has), each listed project ends with exactly the policies and group mappings it compiles to. */
  lemma {:induction false} SyncRepairs(cfg: Config, st: State, projects: seq<Project>, name: string)
    requires name != "" && name in Names(projects)
    ensures ProjectIsCompiled(SyncProjects(cfg, st, projects).state.store, ListMap(projects)[name])
  {
    SyncLoadsCompile(st, projects, name);
    var s := SyncLoads(st, projects);
    RemovalLeavesOthers(s.store, s.loaded - Names(projects), ListMap(projects)[name]);
  }

  /** Project events never drop a user's roles; they add exactly the users their annotations bind. */
  lemma {:induction false} UsersSurviveLoad(store: Store, project: Project)
    ensures UserPart(LoadStore(store, project).groupings) == UserPart(store.groupings) + UserPart(Compile(project).groupings)
  {
  }

  lemma {:induction false} UsersSurviveRemove(store: Store, names: set<string>)
    ensures UserPart(RemoveProjects(store, names).groupings) == UserPart(store.groupings)
  {
  }

  /** Loading a project again changes nothing, even if the load fails part way. */
  lemma {:induction false} ReloadIsIdempotent(store: Store, project: Project)
    ensures LoadStore(LoadStore(store, project), project) == LoadStore(store, project)
  {
    var once := LoadStore(store, project);
    var twice := LoadStore(once, project);
    CompiledBelongsToProject(project, project.name);
    assert twice.policies == once.policies;
    assert twice.groupings == once.groupings;
  }

  /** Why group subjects are excluded where group mappings are compared: an assignment to a subject keeps the
      projects' group mappings exactly when the subject is not a group, or gets back the roles it has. */
  lemma {:induction false} AssignKeepsGroupMappingsExactly(store: Store, user: string, roles: seq<string>)
    ensures GroupPart(AssignStore(store, user, roles).groupings) == GroupPart(store.groupings)
            <==> !IsGroup(user) || Accepted(roles) == RolesOf(store.groupings, user)
  {
    var next := AssignStore(store, user, roles).groupings;
    assert RolesOf(next, user) == Accepted(roles);
    if IsGroup(user) {
      assert RolesOf(GroupPart(next), user) == RolesOf(next, user);
      assert RolesOf(GroupPart(store.groupings), user) == RolesOf(store.groupings, user);
      if Accepted(roles) == RolesOf(store.groupings, user) {
        assert next == store.groupings;
      }
    } else {
      assert GroupPart(next) == GroupPart(store.groupings);
    }
  }
}
