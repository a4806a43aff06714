# A verified model of Knodex authorization

Knodex is a multi-tenant platform server. Project resources describe roles, policies and group bindings; the
server compiles them into a Casbin store, keeps users' roles there and in Redis, and answers access requests
through a decision cache. This project models that engine and several cores beside it in Dafny and proves what
they are meant to guarantee:

* the enforcer's policies after any run of project and role events equal a rebuild from scratch, and what a restart
  gives back is known exactly;
* a cached decision is the decision the enforcer would take now, in sequential runs; in any interleaving it is at
  most one time-to-live old;
* a member of one project whose rules are confined can reach nothing outside it and the shared catalog, and which
  rules are confined is decided exactly;
* the greedy glob loop, the sliding-window login limiter, the canonical JSON printer, the drift protocol, the
  group mapping loop, the group sanitizer and the degraded-mode machine each meet a specification stated without
  reference to the code's own loop.

Code that changes state step by step is modelled by classes and loops (`PolicyEnforcer`, `CasbinEnforcer`,
`InMemoryCache`, `RedisRoleStore`, `AccountStore`, drift's `Service`, `RedisAuthorizationCache`, and the loops of
`MatchGlob`, `CanonicalJson`, `EvaluateMappings` and `SanitizeOidcGroups`), each proved against functions on
values. The runs and interleavings are proved about those functions. The enforcer class shows how the two meet:
the contracts of its operations say that the state after the call is the one `RbacState.Step` gives, so
what is proved about runs of `Step` holds of runs of the class.

`dafny verify dfyconfig.toml` checks everything.

## Files

| file | content |
|---|---|
| `Text`, `Wrappers`, `KeyOrder` | strings, results, sorted keys |
| `Glob` | the glob loop and two more matchers |
| `Subjects`, `Casbin`, `Scoping`, `Policies` | subject grammar, Casbin's semantics, scoping, compilation of projects |
| `Grants`, `ProjectGrants`, `LoadedProjects` | what a rule, a role and a loaded project grant, exactly |
| `AuthzCache`, `RbacState` | the cache, and every operation of the enforcer as a state change |
| `RoleOperations` | what each role operation leaves, for the user and for everyone else |
| `Rebuild`, `Restart`, `Coherence`, `Staleness`, `ClearRace` | properties of runs and interleavings |
| `Access`, `Requests`, `Tenancy` | group requests, the projects list, requests decided and isolated end to end |
| `ProjectNames`, `ProjectLookup` | generated and validated names, the owner of a namespace |
| `RoleStore`, `PolicyEnforcer` | the objects themselves |
| `Canonical`, `Drift` | canonical JSON, drift detection |
| `RateLimiter`, `GroupMapper`, `OidcGroups` | login limiter, group mapping, group sanitizing |
| `DegradedMode`, `RedisCache`, `RedisPattern` | the Redis fallback as a machine and as an object, key patterns |

## Assumptions

* Strings are sequences of bytes; lower-casing and trimming are those of ASCII. In `Canonical` a string is a
  sequence of Unicode code points.
* Casbin follows `casbin_model.conf`: subject by reachability over `g`, object and action by `keyMatch`, allow
  unless some matching policy denies. `g2` is never written, so it is left out. Reachability is the unbounded
  closure of `g`, where Casbin stops at a depth limit. Reads return snapshots, in any order; adds have set
  semantics; Casbin calls do not fail.
* SHA-256 is injective. Clock readings do not go back. Redis holds what was written until it expires; an expiry
  is an event of its own in `Drift` and does not happen in `Restart`.
* Whether Casbin returns nil or an empty list for a user without roles decides what `RemoveUserRole` writes to
  Redis; it is the parameter `emptyReadIsNil`, and every property holds for both values.
* Whether there is a cache or a role store, and the time-to-live, are given by `Config`. One request reads the
  clock once.

## Model

| member | source | states |
|---|---|---|
| Rebuild.IncrementalEqualsRebuild | server/internal/rbac/policy_enforcer.go:1028-1186 | after any run at all (role events on users or groups, failing calls), the policies are those of one sync of a fresh enforcer with the held projects, listed in any order; the loaded marks are the same if and only if no marked project's latest load failed; the group mappings are the same when no role event touched a group |
| Rebuild.SuccessfulRunEqualsRebuild | server/internal/rbac/policy_enforcer.go:1028-1186 | when the project events succeed, policies and loaded marks are those of the rebuild |
| Rebuild.SyncRebuildsExactly | server/internal/rbac/policy_enforcer.go:1610-1618 | after any run, a sync restores the policies of a fresh sync if and only if no half-loaded project that is no longer listed had added a policy |
| Rebuild.SyncKeepsHalfLoaded | server/internal/rbac/policy_enforcer.go:1610-1618 | a project whose load fails part way and that is then gone from the list keeps its policies through the sync |
| Rebuild.SuccessfulSyncRebuilds | server/internal/rbac/policy_enforcer.go:1565-1643 | when the project events succeed, every sync restores them |
| Rebuild.SyncRepairs | server/internal/rbac/policy_enforcer.go:1565-1643 | from any state at all, a sync leaves every listed project with exactly the policies and group mappings it compiles to |
| Rebuild.RunStaysInStep | server/internal/rbac/policy_enforcer.go:1565-1643 | every run whatsoever keeps policies and loaded marks in step with the held projects |
| Rebuild.RunKeepsGroups | server/internal/rbac/policy_enforcer.go:1092-1125 | every run of events on users keeps the group mappings in step as well |
| Rebuild.StepStaysInStep | server/internal/rbac/policy_enforcer.go:869-902 | one event of any kind, successful or not, keeps policies and marks in step |
| Rebuild.SyncStaysInStep | server/internal/rbac/policy_enforcer.go:1571-1643 | so does a sync, whether its loads succeed or not |
| Rebuild.SyncHoldsListed | server/internal/rbac/policy_enforcer.go:1571-1643 | while project events succeed, a sync leaves exactly the listed projects, all marked |
| Rebuild.ReloadIsIdempotent | server/internal/rbac/policy_enforcer.go:1028-1040 | loading a project again changes nothing, even when the load fails part way |
| Rebuild.UsersSurviveLoad | server/internal/rbac/policy_enforcer.go:1028-1186 | a load drops no user binding and adds exactly those of the annotations |
| Rebuild.UsersSurviveRemove | server/internal/rbac/policy_enforcer.go:1647-1706 | a removal touches no user binding |
| Rebuild.AssignKeepsGroupMappingsExactly | server/internal/rbac/policy_enforcer.go:1743-1794 | role assignment keeps the group mappings if and only if the subject is no group or gets back the roles it has |
| Restart.RestartEquivalence | server/internal/rbac/policy_enforcer.go:1800-1865 | without annotation user bindings, a restart after successful events on users gives back the same Casbin store and Redis content |
| Restart.BootGives | server/internal/rbac/policy_enforcer.go:1800-1865 | a restart binds exactly what the projects declare and what Redis holds, for users and groups alike |
| Restart.RestartExactly | server/internal/rbac/policy_enforcer.go:1800-1865 | after any run at all a restart gives back policies and Redis content; the whole store if and only if the bindings before are those declared or held in Redis |
| Restart.RestartOnUsersExactly | server/internal/rbac/policy_enforcer.go:1196-1216 | with annotation user bindings, after successful events on users, the store is the same if and only if the declared user bindings were in place and none is left over from a changed annotation |
| Restart.RunStaysBacked | server/internal/rbac/policy_enforcer.go:1709-1739 | on such runs Casbin holds every role that Redis holds, annotations or not |
| Restart.RunStaysLinked | server/internal/rbac/policy_enforcer.go:1709-1739 | without annotation user bindings, every such run keeps Redis and the users' Casbin roles equal |
| Restart.RemoveRoleLinkedExactly | server/internal/rbac/policy_enforcer.go:2007-2072 | removing a role keeps them equal if and only if it is not the last one while the rest reads as nil |
| Restart.RejectedAssignLinkedExactly | server/internal/rbac/policy_enforcer.go:1743-1794 | a rejected assignment keeps them equal if and only if the user had just the roles accepted before the invalid one |
| Restart.BootIsLinked | server/internal/rbac/policy_enforcer.go:1800-1865 | after sync and restore they are equal |
| Restart.SavedIsRestored | server/internal/rbac/redis_role_store.go:59-111 | what is saved for a user is what a restore binds |
| RoleOperations.RemoveUserRolesErases | server/internal/rbac/policy_enforcer.go:1949-2003 | removing a user's roles leaves none in Casbin and none in Redis, the user reaches only itself, and everyone else keeps roles and saved roles |
| RoleOperations.ErasedStaysErased | server/internal/rbac/policy_enforcer.go:1949-2003 | a restore that follows gives the user nothing back |
| RoleOperations.RemoveUserRoleErasesOne | server/internal/rbac/policy_enforcer.go:2007-2072 | removing one role takes that binding and no other away; Redis then holds the rest, or what it held when the rest reads as nil |
| RoleOperations.AssignUserRolesReplaces | server/internal/rbac/policy_enforcer.go:1709-1739 | an assignment leaves the user with exactly the non-empty roles before the first invalid one; it succeeds, saves and drops the user's cache entries if and only if there is no invalid one; everyone else keeps what they have |
| RoleOperations.RestoreBindsExactly | server/internal/rbac/policy_enforcer.go:1800-1865 | a restore adds exactly the well-formed roles Redis holds for named users, and removes nothing |
| RoleOperations.AssignedIsRestored | server/internal/rbac/policy_enforcer.go:1743-1794 | what was assigned with success is what the user has after a restart |
| RoleOperations.LoadOutcome | server/internal/rbac/policy_enforcer.go:869-902 | a load succeeds if and only if the project has a name and all its rules compile; only then is it marked and the cache cleared |
| RoleOperations.RemoveOutcome | server/internal/rbac/policy_enforcer.go:2076-2096 | a removal takes away exactly the policies of the project's roles and the group mappings to them |
| RoleOperations.SyncOutcome | server/internal/rbac/policy_enforcer.go:1565-1643 | a sync reports success if and only if every listed project loads, and clears the cache either way |
| RoleOperations.DecisionIsRemembered | server/internal/rbac/policy_enforcer.go:406-446 | an evaluated decision is answered from the cache for one TTL, whatever happens to the store meanwhile |
| Coherence.RunStaysCoherent | server/internal/rbac/policy_enforcer.go:390-447 | over every successful run, each live cache entry is the decision of the current store |
| Coherence.StepStaysCoherent | server/internal/rbac/policy_enforcer.go:2110-2128 | one event of any kind keeps that |
| Coherence.DecideIsEnforce | server/internal/rbac/policy_enforcer.go:406-446 | with such a cache, the answer of a request is that of the store |
| Coherence.AssignStaysCoherent | server/internal/rbac/policy_enforcer.go:1709-1739 | dropping only the user's entries is enough when nobody has the user as a role |
| Coherence.TargetedInvalidationExactly | server/internal/rbac/policy_enforcer.go:2110-2128 | for all policies, caches and role lists it is enough if and only if nobody has the user as a role |
| Coherence.SharedRoleGoesStale | server/internal/rbac/policy_enforcer.go:2110-2128 | otherwise a concrete policy, cache and role list leave a stale entry |
| Coherence.StepStaysKinded | server/internal/rbac/policy_enforcer.go:1196-1216 | on plain users no event makes a user id a role of anybody |
| Staleness.BoundedStaleness | server/internal/rbac/policy_enforcer.go:406-446 | in every interleaving an answer was the enforcer's answer in the store current when it was evaluated, stored at most one TTL before it was served |
| Staleness.AnswersConverge | server/internal/rbac/policy_enforcer.go:406-446 | without any invalidation, answers later than one TTL plus the store delay after the last write are current |
| Staleness.RunStaysSound | server/internal/rbac/cache.go:95-128 | every interleaving keeps every entry, pending evaluation and past answer accounted for |
| Staleness.StaleAfterClear | server/internal/rbac/policy_enforcer.go:878-896 | a run that serves an old answer after the clear |
| ClearRace.ClearSufficesExactly | server/internal/rbac/policy_enforcer.go:878-896 | clearing after a change to a given store leaves the cache coherent, in every continuation without further changes, if and only if every answer pending at the change is what that store answers |
| ClearRace.ClearAlwaysSufficesExactly | server/internal/rbac/policy_enforcer.go:406-446 | for every change if and only if no thread holds a pending answer to a NUL-free request at the change |
| Tenancy.TenantIsolation | server/internal/rbac/policy_enforcer.go:1382-1455 | after any run at all, with group assignments and failing calls, whatever is allowed to someone whose roles all belong to one project lies in that project or the shared catalog |
| Tenancy.ScopedRuleInsideExactly | server/internal/rbac/policy_enforcer.go:1382-1455 | a custom rule compiles to policies confined to its project if and only if its object is a wildcard form or lies inside by its text before the first star |
| Tenancy.CoversOnlyExactly | server/internal/rbac/policy_enforcer.go:1484-1546 | everything a pattern matches lies in the project if and only if its text before the first star says so |
| Tenancy.ExplicitObjectLeaks | server/internal/rbac/policy_enforcer.go:1543-1545 | a rule that names another project's instances is passed through and grants them |
| Policies.FormattedRuleParses | server/internal/rbac/policy_enforcer.go:1307-1358 | a rule put together from parts parses back into those parts |
| Grants.SixPartRuleParses | server/internal/rbac/policy_enforcer.go:1246-1280 | a six-part rule gives the whole kind for scope `*`, the scope itself for kind `*`, and otherwise the scope under the plural of the kind |
| Policies.AcceptedExactly | server/internal/rbac/policy_enforcer.go:1225-1301 | a rule is accepted if and only if it is blank, or at most 500 bytes in three or six parts that end in allow or deny |
| Policies.TrimSpaceExactly | server/internal/rbac/policy_enforcer.go:1225-1230 | trimming takes off exactly the blank ends |
| Grants.ActionsExactly | server/internal/rbac/policy_enforcer.go:85-100 | which actions a rule's action stands for: list and get for view in any letter case, create for deploy, otherwise what it matches |
| Grants.PlainActionsExactly | server/internal/rbac/policy_enforcer.go:85-100 | for an action without a star, otherwise just the action itself |
| Grants.ObjectsExactly | server/internal/rbac/policy_enforcer.go:1484-1560 | scoping gives exactly the objects a rule means in its project and destinations |
| Grants.RuleGivesExactly | server/internal/rbac/policy_enforcer.go:1382-1455 | a custom rule adds policies of its role and effect only, and they match an object and action if and only if the rule means both |
| Grants.UnscopedRuleGivesExactly | server/internal/rbac/policy_enforcer.go:1225-1301 | the same for a rule that is not scoped |
| ProjectGrants.RuleListGives | server/internal/rbac/policy_enforcer.go:1028-1090 | a list of rules fails if and only if one does not parse, and otherwise gives what its rules give |
| ProjectGrants.ReadonlyExactly | server/internal/rbac/policy_enforcer.go:999-1024 | what the built-in policies of a readonly role allow, request by request; they deny nothing |
| ProjectGrants.AdminExactly | server/internal/rbac/policy_enforcer.go:919-943 | the same for those of an admin role |
| LoadedProjects.LoadFailsExactly | server/internal/rbac/policy_enforcer.go:1028-1186 | a load fails if and only if a named role has an invalid name or a rule that does not parse |
| LoadedProjects.LoadedRoleGives | server/internal/rbac/policy_enforcer.go:1028-1186 | after a load, whatever the store held, a project role grants and denies exactly what the rules and built-in rights of that name mean |
| LoadedProjects.SoleRoleDecides | server/internal/rbac/policy_enforcer.go:1028-1186 | a member of one such role alone is allowed exactly what the role grants and does not deny |
| LoadedProjects.BoundExactly | server/internal/rbac/policy_enforcer.go:1092-1216 | a load binds to a role exactly the valid groups its definition lists, and the valid groups and users of the annotations |
| LoadedProjects.ListedGroupIsMember | server/internal/rbac/policy_enforcer.go:1092-1125 | a listed group reaches the role after the load |
| LoadedProjects.AnnotatedUserIsMember | server/internal/rbac/policy_enforcer.go:1196-1216 | so does an annotated user |
| LoadedProjects.FreshServerGrants | server/internal/rbac/casbin.go:104-164 | which requests the built-in server roles allow, exactly |
| Tenancy.PolicyOfMember | server/internal/rbac/policy_enforcer.go:1028-1186 | a policy that reaches such a member comes from the compiled project |
| Scoping.ScopingIsolatesExactly | server/internal/rbac/policy_enforcer.go:1484-1546 | what a narrowed wildcard form matches stays in the project or the catalog, for all requests, if and only if the project name has no star |
| Scoping.DestinationsOnlyShrink | server/internal/rbac/policy_enforcer.go:1551-1560 | adding destinations never widens what is matched |
| Scoping.ResolvedShape | server/internal/rbac/policy_enforcer.go:713-760 | a resolved request is the request with the owning project put before its namespace |
| Scoping.ExactDestinationsDecide | server/internal/rbac/policy_enforcer.go:713-760 | with exact destinations a resolved instance request is matched if and only if its namespace is one of them |
| Policies.CompiledBelongsToProject | server/internal/rbac/policy_enforcer.go:1647-1706 | what a project compiles to is found again by the removal prefix of that project and of no other |
| Policies.CompileOwned | server/internal/rbac/policy_enforcer.go:1028-1186 | every policy and group mapping of a compiled project has one of its own roles as subject or role |
| Subjects.ProjectRoleRoundTrip | server/internal/rbac/casbin.go:480-496 | formatting a project role and splitting the subject undo each other, in both directions; at most 198 bytes |
| Subjects.FormattedSplits | server/internal/rbac/policy_parser.go:320-367 | a formatted role splits into "proj", project and role and is a valid role |
| Subjects.ProjectRoleInjective | server/internal/rbac/casbin.go:480-496 | two formatted roles are equal only if project and role are |
| Subjects.RemovalPrefixIsExact | server/internal/rbac/policy_enforcer.go:1655-1664 | the removal prefix matches a formatted role if and only if it is of that project |
| Subjects.ReservedPrefixCheckIsRedundant | server/internal/rbac/casbin.go:340-365 | an identifier is valid if and only if it passes the checks other than the reserved prefixes |
| Subjects.RoleFormatExactly | server/internal/rbac/policy_enforcer.go:1868-1881 | well-formed roles are `role:` with something behind it and `proj:` with two non-empty parts, and nothing else |
| Subjects.ShortSubjectsExactly | server/internal/rbac/policy_parser.go:320-367 | a subject with fewer than two colons splits if and only if its kind is known and its name a valid identifier |
| Casbin.KeyMatchMeaning | server/internal/rbac/casbin_model.conf:28-45 | keyMatch compares up to the first star |
| Casbin.ClosureIsLeast | server/internal/rbac/casbin_model.conf:15-18 | reachability is the least set closed under g |
| Casbin.ReachTransitive | server/internal/rbac/casbin_model.conf:15-18 | reachability is transitive |
| Casbin.ReachIgnores | server/internal/rbac/casbin_model.conf:15-18 | edges of a subject that is not reached do not matter |
| Casbin.Snapshot | server/internal/rbac/casbin.go:223-234 | a read lists each element once, in any order |
| Casbin.CasbinEnforcer.AddPolicy | server/internal/rbac/casbin.go:174-178 | adds one policy, with set semantics, and reports whether it is new |
| Casbin.CasbinEnforcer.RemovePolicy | server/internal/rbac/casbin.go:181-185 | removes one policy and reports whether it was there |
| Casbin.CasbinEnforcer.AddUserRole | server/internal/rbac/casbin.go:188-192 | adds one grouping |
| Casbin.CasbinEnforcer.RemoveUserRole | server/internal/rbac/casbin.go:195-199 | removes one grouping |
| Casbin.CasbinEnforcer.GetRolesForUser | server/internal/rbac/casbin.go:202-206 | the direct roles |
| Casbin.CasbinEnforcer.GetImplicitRolesForUser | server/internal/rbac/casbin.go:277-281 | the reachable roles |
| Casbin.CasbinEnforcer.GetPoliciesForRole | server/internal/rbac/casbin.go:216-220 | the policies of one subject |
| AuthzCache.CleanKeyIsUnique | server/internal/rbac/cache.go:230-232 | a NUL-free request shares its key with no other request |
| AuthzCache.PrefixSelectsUser | server/internal/rbac/cache.go:149-160 | the prefix user NUL selects exactly that user |
| AuthzCache.CleanupIsInvisible | server/internal/rbac/cache.go:217-225 | dropping expired entries changes no later answer |
| AuthzCache.SweepsExactly | server/internal/rbac/cache.go:149-160 | a prefix invalidation leaves exactly the keys without the prefix, a cleanup exactly the entries that have not expired |
| AuthzCache.InMemoryCache.Get | server/internal/rbac/cache.go:95-113 | the live entry or a miss; drops an expired one; counts |
| AuthzCache.InMemoryCache.Set | server/internal/rbac/cache.go:116-128 | stores until now plus TTL; nothing for a TTL that is not positive |
| AuthzCache.InMemoryCache.InvalidateByPrefix | server/internal/rbac/cache.go:149-160 | removes exactly the entries with the prefix and counts them |
| AuthzCache.InMemoryCache.Cleanup | server/internal/rbac/cache.go:217-225 | removes exactly the expired entries |
| RoleStore.RedisRoleStore.SaveUserRoles | server/internal/rbac/redis_role_store.go:59-111 | replaces the role set; an empty one deletes the key |
| RoleStore.RedisRoleStore.LoadAllUserRoles | server/internal/rbac/redis_role_store.go:147-201 | returns every user with a non-empty role set |
| RoleStore.RedisRoleStore.ScanUserRoles | server/internal/rbac/redis_role_store.go:157-191 | returns exactly the listed users that can be read, however often a key is listed; nothing when the scan fails |
| RoleStore.WholeScan | server/internal/rbac/redis_role_store.go:157-191 | a scan that lists every key loads every user |
| RoleStore.RedisRoleStore.DeleteUserRoles | server/internal/rbac/redis_role_store.go:205-232 | deletes the key |
| PolicyEnforcer.PolicyEnforcer.AddProjectScopedPolicy | server/internal/rbac/policy_enforcer.go:1382-1455 | adds exactly the tuples the scoped rule compiles to, and fails exactly when it does not parse |
| PolicyEnforcer.PolicyEnforcer.AddPolicyFromStringWithDests | server/internal/rbac/policy_enforcer.go:1307-1358 | the same for a built-in rule, once per destination where destinations apply |
| PolicyEnforcer.PolicyEnforcer.AddPolicyFromString | server/internal/rbac/policy_enforcer.go:1225-1301 | the same for an unscoped rule |
| PolicyEnforcer.PolicyEnforcer.LoadRole | server/internal/rbac/policy_enforcer.go:1035-1125 | adds exactly what one role compiles to |
| PolicyEnforcer.PolicyEnforcer.BindAnnotations | server/internal/rbac/policy_enforcer.go:1127-1180 | adds exactly the bindings of the annotations |
| PolicyEnforcer.PolicyEnforcer.LoadProjectPoliciesLocked | server/internal/rbac/policy_enforcer.go:1028-1186 | replaces what the project had by what it compiles to |
| PolicyEnforcer.PolicyEnforcer.RemoveProjectPoliciesLocked | server/internal/rbac/policy_enforcer.go:1647-1706 | removes exactly the project's policies and groupings |
| PolicyEnforcer.PolicyEnforcer.UnbindGroups | server/internal/rbac/policy_enforcer.go:1676-1703 | removes exactly the group mappings of one role |
| PolicyEnforcer.PolicyEnforcer.LoadProjectPolicies | server/internal/rbac/policy_enforcer.go:869-902 | the whole state change of a load, cache included, on success and on failure |
| PolicyEnforcer.PolicyEnforcer.RemoveProjectPolicies | server/internal/rbac/policy_enforcer.go:2076-2096 | the whole state change of a removal |
| PolicyEnforcer.PolicyEnforcer.SyncPolicies | server/internal/rbac/policy_enforcer.go:1565-1643 | the whole state change of a sync; nothing when the listing fails |
| PolicyEnforcer.PolicyEnforcer.RemoveStale | server/internal/rbac/policy_enforcer.go:1610-1618 | removes exactly the loaded projects that are no longer listed |
| PolicyEnforcer.PolicyEnforcer.AssignUserRolesInCasbin | server/internal/rbac/policy_enforcer.go:1743-1794 | replaces the user's roles up to the first invalid one |
| PolicyEnforcer.PolicyEnforcer.AssignRoles | server/internal/rbac/policy_enforcer.go:1709-1739 | the whole state change of an assignment in Casbin, Redis and cache, rejected ones included |
| PolicyEnforcer.PolicyEnforcer.RemoveRoles | server/internal/rbac/policy_enforcer.go:1949-2003 | the whole state change of removing all roles |
| PolicyEnforcer.PolicyEnforcer.RemoveRole | server/internal/rbac/policy_enforcer.go:2007-2072 | the whole state change of removing one role, the nil case included |
| PolicyEnforcer.PolicyEnforcer.RestoreRoles | server/internal/rbac/policy_enforcer.go:1800-1865 | binds exactly the valid persisted roles |
| PolicyEnforcer.PolicyEnforcer.CanAccessUser | server/internal/rbac/policy_enforcer.go:390-447 | the whole state change of a request; an error for empty arguments |
| PolicyEnforcer.PolicyEnforcer.DecideCached | server/internal/rbac/policy_enforcer.go:406-446 | the cached answer, or the store's answer, which is then cached |
| PolicyEnforcer.PolicyEnforcer.CanAccessWithGroups | server/internal/rbac/policy_enforcer.go:464-700 | with a coherent cache, grants exactly when some subject asked is allowed some object checked |
| PolicyEnforcer.PolicyEnforcer.GetProjectScopedWildcards | server/internal/rbac/policy_enforcer.go:766-841 | lists exactly the project-scoped objects the groups' roles are allowed to list |
| PolicyEnforcer.PolicyEnforcer.GetAccessibleProjects | server/internal/rbac/policy_enforcer.go:2199-2262 | with the wildcard grant all listed projects; otherwise a project is returned if and only if it is listed and the request for it is granted; in listing order |
| PolicyEnforcer.PolicyEnforcer.KeepGranted | server/internal/rbac/policy_enforcer.go:2232-2252 | one request per project; the granted ones are kept and a refusal does not end the loop |
| Access.LoopDistributes | server/internal/rbac/policy_enforcer.go:2232-2252 | on two lists one after the other the loop keeps what it keeps on each |
| Access.LoopCounts | server/internal/rbac/policy_enforcer.go:2232-2252 | a project is kept as often as it is listed if the request for it is granted, and not at all otherwise |
| Access.AccessibleExactly | server/internal/rbac/policy_enforcer.go:2199-2262 | with the wildcard grant all projects, otherwise exactly the granted ones |
| Requests.AskedExactly | server/internal/rbac/policy_enforcer.go:496-700 | a request asks the user, the valid groups, and the roles of the user or, when it has none, of the other spelling of its name |
| Requests.InstanceObjectsExactly | server/internal/rbac/policy_enforcer.go:464-494 | an instance request asks about the object itself and about the one with the owning project put before the namespace |
| Requests.ListingExactly | server/internal/rbac/policy_enforcer.go:766-841 | a listing asks about what the direct roles of the valid groups name under the resource, and about their projects as a whole |
| Requests.ListObjectsExactly | server/internal/rbac/policy_enforcer.go:464-494 | and, besides, only about the object itself |
| Requests.AllowedAsked | server/internal/rbac/policy_enforcer.go:464-700 | each kind of subject is enough to be granted, on the object as asked or on the resolved one |
| Requests.MemberGetsExactly | server/internal/rbac/policy_enforcer.go:464-700 | a member of one project role alone is granted a request if and only if the role grants some object asked about |
| Requests.DestinationsDecideRequests | server/internal/rbac/policy_enforcer.go:713-760 | end to end: with one instance rule and exact destinations, a request inside an owned namespace is granted if and only if the action is the rule's and the namespace is a destination, or the namespace is named like the project and a destination follows |
| PolicyEnforcer.PolicyEnforcer.BindGroups | server/internal/rbac/policy_enforcer.go:1092-1125 | adds exactly the mappings of the valid group names |
| PolicyEnforcer.PolicyEnforcer.AddBuiltIns | server/internal/rbac/policy_enforcer.go:1060-1090 | adds the built-in rules exactly for roles named admin and readonly, in any letter case |
| PolicyEnforcer.PolicyEnforcer.LoadListed | server/internal/rbac/policy_enforcer.go:1589-1608 | loads the listed projects in turn, goes on after a failure and reports it |
| PolicyEnforcer.PolicyEnforcer.CheckGroups | server/internal/rbac/policy_enforcer.go:523-593 | grants exactly when some valid group subject is allowed some object |
| PolicyEnforcer.PolicyEnforcer.CheckRoles | server/internal/rbac/policy_enforcer.go:595-690 | grants exactly when some non-empty role is allowed some object |
| PolicyEnforcer.PolicyEnforcer.ServerSideRoles | server/internal/rbac/policy_enforcer.go:605-619 | the implicit roles of the user, or of the other spelling if there are none |
| PolicyEnforcer.PolicyEnforcer.ObjectsToCheck | server/internal/rbac/policy_enforcer.go:464-494 | the object asked first, and exactly the objects that stand for it |
| Access.ListSucceedsOnAnyGrant | server/internal/rbac/policy_enforcer.go:766-841 | listing a resource succeeds as soon as a group's role may list any object under it |
| Access.RolePhaseIsForTheOtherSpelling | server/internal/rbac/policy_enforcer.go:595-690 | asking the implicit roles again matters only for a user without roles under this spelling |
| Access.AllowOnlyShortcutEqualsLoop | server/internal/rbac/policy_enforcer.go:2199-2262 | for allow-only policies the shortcut returns what the loop would |
| Access.ShortcutRightExactly | server/internal/rbac/policy_enforcer.go:2199-2262 | it does so for all assignments and lists if and only if no single-project deny stands beside a wildcard allow |
| Access.WildcardCoversNames | server/internal/rbac/policy_enforcer.go:2216-2229 | what matches projects/* matches every project object |
| Access.ResolvesToFirstOwner | server/internal/rbac/policy_enforcer.go:713-760 | a request's namespace is resolved to the first listed project with a matching destination, and left alone when there is none |
| Glob.MatchGlob | server/internal/rbac/validation.go:397-455 | true exactly when the text is the pattern with each star filled in, for at most 100 segments |
| Glob.ScanSegments | server/internal/rbac/validation.go:415-455 | the leftmost-greedy loop loses no match |
| Glob.GreedyStep | server/internal/rbac/validation.go:426-444 | if any placement of the segments fits, one with the leftmost next segment does |
| Glob.WidenGap | server/internal/rbac/validation.go:426-444 | a placement that fits later also fits with a wider gap |
| Glob.LastSegment | server/internal/rbac/validation.go:446-454 | the suffix test decides the last segment |
| Glob.MatchesBySegments | server/internal/rbac/validation.go:413-415 | filling the stars and placing the segments are the same |
| Glob.MatchersAgreeExactly | server/internal/rbac/validation.go:128-147 | MatchNamespace and matchesWildcard agree with it on all texts if and only if the pattern is simple (and non-empty for the former) |
| Glob.SimpleMatches | server/internal/rbac/project_service.go:172-185 | what a pattern with at most one star, at an end, matches |
| ProjectLookup.GetProjectByDestinationNamespace | server/internal/rbac/project_service.go:149-169 | the first listed project with a destination that matches the namespace, or none |
| ProjectLookup.DestinationTestsAreOne | server/internal/rbac/project_service.go:157-163 | the tests of the loop together are one wildcard match |
| ProjectLookup.OwnerOrderFreeExactly | server/internal/rbac/project_service.go:149-169 | the owner is the same in every listing order if and only if at most one project matches |
| ProjectNames.GenerateProjectId | server/internal/rbac/validation.go:346-384 | a valid project name of at most 59 characters that ends in the hash, for every display name |
| ProjectNames.SlugKeepsLetters | server/internal/rbac/validation.go:346-384 | the slug keeps the letters and digits of the name in order, all of them unless it had to be cut |
| ProjectNames.TidySlug | server/internal/rbac/validation.go:346-384 | a valid name without double hyphens and of at most 50 characters is its own slug |
| ProjectNames.CollapseHyphens | server/internal/rbac/validation.go:364-367 | the loop collapses every run of hyphens to one |
| ProjectNames.ValidNamesAreTame | server/internal/rbac/validation.go:163-176 | validated names meet the conditions of scoping and isolation |
| Canonical.CanonicalTextIsUnambiguous | server/internal/drift/drift.go:82-123 | two values print alike if and only if they are equal, and the text parses back |
| Canonical.ArrayForms | server/internal/drift/drift.go:82-123 | items in brackets with commas between them and no blanks |
| Canonical.FieldForm | server/internal/drift/drift.go:82-123 | a field is its quoted name, a colon and the value, in braces |
| Canonical.ValueRoundTrip | server/internal/drift/drift.go:82-123 | the parser inverts the printer, whatever follows the value |
| Canonical.CharsRoundTrip | server/internal/drift/drift.go:92-97 | the same for escaped strings |
| Canonical.CanonicalJson | server/internal/drift/drift.go:82-123 | the buffer recursion prints the canonical text, and fails exactly on an unprintable leaf |
| KeyOrder.SortKeys | server/internal/drift/drift.go:85-88 | the sorted keys, whatever the map order |
| KeyOrder.SortedIsUnique | server/internal/drift/drift.go:85-88 | a set of keys has one sorted listing |
| Drift.HashDecidesSpec | server/internal/drift/drift.go:71-77 | hashes are equal if and only if the specs are |
| Drift.DriftKeyInjective | server/internal/drift/drift.go:65-67 | instances share a key only if they are the same |
| Drift.CheckComparesSpecs | server/internal/drift/drift.go:161-201 | a check reports drift if and only if the stored desired spec is not the live spec |
| Drift.DeletedOnlyIfReconciled | server/internal/drift/drift.go:297-338 | a finishing check deletes if and only if its live spec is the desired spec stored at that moment |
| Drift.NewestDesiredSurvives | server/internal/drift/drift.go:297-338 | in every interleaving the spec pushed last survives unless a check began with exactly that spec |
| Drift.Service.StoreDrift | server/internal/drift/drift.go:127-156 | stores spec and hash under the key; nothing when it cannot |
| Drift.Service.CheckDrift | server/internal/drift/drift.go:161-201 | the verdict of the stored entry |
| Drift.Service.BatchCheckDrift | server/internal/drift/drift.go:221-276 | index by index what CheckDrift says |
| Drift.Service.CheckAndClearIfReconciled | server/internal/drift/drift.go:312-338 | deletes the entry exactly when it reports it reconciled |
| RateLimiter.AccountStore.CheckRateLimit | server/internal/auth/account_store.go:611-648 | the verdict of the full history, from the pruned and cleaned map; with one attempt at a time the wait is exact |
| RateLimiter.AccountStore.ValidatePassword | server/internal/auth/account_store.go:320-352 | an attempt that is not limited gets in if and only if the password is right, and then its failures are forgotten; any other is refused and adds one failure; limited attempts change nothing; with one attempt at a time the wait is exact |
| RateLimiter.AccountStore.CleanupStale | server/internal/auth/account_store.go:652-686 | when due, forgets exactly the sources without a failure in the window |
| RateLimiter.AccountStore.RecordFailedAttempt | server/internal/auth/account_store.go:732-737 | appends the failure; the window bound still holds |
| RateLimiter.AccountStore.ClearFailedAttempts | server/internal/auth/account_store.go:766-771 | forgets one source |
| RateLimiter.PrunedGetsSameVerdict | server/internal/auth/account_store.go:627-647 | a history without old failures gets the same verdict at any later time |
| RateLimiter.FineFailed | server/internal/auth/account_store.go:320-352 | with N attempts in flight, failures N + max - 1 apart are a window apart, after every failure |
| RateLimiter.WindowBound | server/internal/auth/account_store.go:611-648 | so a window of any position holds at most max + N - 1 failures |
| RateLimiter.SpacedAppend | server/internal/auth/account_store.go:320-352 | a failure that finds fewer than k others in the window keeps the spacing |
| RateLimiter.RetryAfterExactly | server/internal/auth/account_store.go:636-647 | no check passes before the wait is over, and it is exact if and only if the failure that has to leave is as old as the oldest |
| RateLimiter.RetryAfterExactAtLimit | server/internal/auth/account_store.go:636-647 | exact whenever the window holds just the limit |
| RateLimiter.SequentialWaitIsExact | server/internal/auth/account_store.go:636-647 | with one attempt at a time the announced wait is exact |
| RateLimiter.JudgeMeans | server/internal/auth/account_store.go:627-647 | a check passes if and only if the failure `max` places from the end has left the window or does not exist; the wait is that of the oldest one inside |
| RateLimiter.FailuresLimit | server/internal/auth/account_store.go:320-352 | over a run of attempts of one source: after `max` failures inside a window the next attempt is limited, whatever its password |
| RateLimiter.CleanupForgetsExactly | server/internal/auth/account_store.go:652-686 | the cleanup forgets a source if and only if none of its failures is in the window, and alters no other |
| GroupMapper.EvaluateMappings | server/internal/auth/group_mapper.go:90-156 | the highest role per project, sorted by project, and the admin role once |
| GroupMapper.MatchGroup | server/internal/auth/group_mapper.go:167-186 | some group matches; an exact pattern never matches the empty group |
| GroupMapper.EvaluationMeans | server/internal/auth/group_mapper.go:104-155 | a membership is listed if and only if its role is the highest granted in its project; strictly sorted |
| GroupMapper.RoleOrder | server/internal/auth/group_mapper.go:196-209 | platform admin beats developer, developer beats viewer, whatever the order of the mappings |
| GroupMapper.ExactPatternMatches | server/internal/auth/group_mapper.go:167-186 | a pattern without `*`, `?` and `[` matches just the group of that name |
| GroupMapper.EvaluationIsOrderFree | server/internal/auth/group_mapper.go:104-136 | order and repetition of mappings and groups do not matter |
| GroupMapper.EvaluationJoins | server/internal/auth/group_mapper.go:104-136 | evaluating two sets of groups together is the join of the two evaluations |
| GroupMapper.MappedAloneIsMapped | server/internal/auth/service.go:962-977 | a group that maps alone makes the whole evaluation non-empty |
| GroupMapper.GateDropsNothing | server/internal/auth/service.go:962-977 | when the whole evaluation is empty no group maps alone |
| GroupMapper.GetMappedGroups | server/internal/auth/service.go:954-1007 | exactly the groups that map alone or have Casbin roles, in order |
| GroupMapper.MappedAmongExactly | server/internal/auth/service.go:954-1007 | in their order, as often as they are named, a group if and only if it is mapped |
| GroupMapper.MappedByConfigExactly | server/internal/auth/service.go:962-977 | a group maps alone if and only if some mapping it matches gives the admin role or a known project role |
| OidcGroups.SanitizeOidcGroups | server/internal/auth/oidc.go:783-833 | the acceptable names among the first 500, in order, each cut to its longest valid prefix |
| OidcGroups.SanitizedIsClean | server/internal/auth/oidc.go:783-833 | at most as many, each non-empty, valid, at most 256 bytes, without control characters |
| OidcGroups.SanitizeIsIdempotent | server/internal/auth/oidc.go:783-833 | sanitizing twice is sanitizing once |
| OidcGroups.SanitizedOne | server/internal/auth/oidc.go:783-833 | one group is kept if and only if it is a non-empty valid text without control characters |
| OidcGroups.SanitizedConcat | server/internal/auth/oidc.go:783-833 | groups are sanitized one by one, in order |
| OidcGroups.SanitizedUnique | server/internal/auth/oidc.go:783-833 | and the outcome is determined |
| OidcGroups.TruncateUtf8 | server/internal/auth/oidc.go:837-850 | the longest valid prefix within the limit; a valid text loses at most 3 bytes below it |
| OidcGroups.BoundaryBefore | server/internal/auth/oidc.go:843-848 | there is a character boundary at most 3 bytes before any position |
| OidcGroups.RunesOfEncoding | server/internal/auth/oidc.go:803-807 | every sequence of scalar values encodes to valid UTF-8 that decodes to it |
| OidcGroups.EncodeRunes | server/internal/auth/oidc.go:803-807 | valid UTF-8 is the encoding of its scalar values |
| DegradedMode.DegradedMeansRecovering | server/internal/rbac/redis_cache.go:502-546 | in every interleaving, before Stop, degraded if and only if exactly one recovery is under way; never two |
| DegradedMode.StepStaysRecoverable | server/internal/rbac/redis_cache.go:502-546 | one step of any thread keeps that |
| DegradedMode.FallbackHitsAreRecent | server/internal/rbac/redis_cache.go:105-165 | whatever the fallback served was put there at most 30 seconds earlier |
| DegradedMode.NoClientStaysDegraded | server/internal/rbac/redis_cache.go:70-101 | without a client the cache stays on its fallback |
| DegradedMode.StopCanStrand | server/internal/rbac/redis_cache.go:520-546 | a stop during recovery leaves the cache degraded with no recovery |
| DegradedMode.StrandedForever | server/internal/rbac/redis_cache.go:502-517 | and nothing ever starts another one |
| DegradedMode.StrandsExactly | server/internal/rbac/redis_cache.go:520-546 | a step strands the cache if and only if a recovery loop takes the stop branch while the flag is raised |
| DegradedMode.DegradedMeansRecoveringExactly | server/internal/rbac/redis_cache.go:502-546 | over whole runs, stopped or not, degraded means one recovery if and only if no loop has left at the stop |
| RedisCache.RedisAuthorizationCache.Get | server/internal/rbac/redis_cache.go:105-132 | fallback answer when degraded; a Redis error is a miss that degrades and starts one recovery; one hit or miss is counted; the call is a run of the machine |
| RedisCache.RedisAuthorizationCache.Set | server/internal/rbac/redis_cache.go:136-165 | the decision goes to exactly one store; nothing for a TTL that is not positive; the call is a run of the machine |
| RedisCache.RedisAuthorizationCache.TryRecovery | server/internal/rbac/redis_cache.go:520-546 | recovers and clears the fallback exactly when the first wake-up that is not a failed ping is a successful one; the wake-ups are a run of the machine |
| RedisPattern.RedisPrefixSelectsExactly | server/internal/rbac/redis_cache.go:256-274 | the deletion pattern of a user selects exactly that user's keys if and only if the id has none of * ? [ and backslash |
| RedisPattern.InvalidateByPrefix | server/internal/rbac/redis_cache.go:259-281 | deletes exactly what the scan lists, page by page, until a page fails |

## Findings

Places where a property one would expect does not hold of the code. The code is modelled as it is; each entry
names the exact condition under which the property holds.

* Scoping confines a project only if its name has no `*` (`ScopingIsolatesExactly`). Names that pass validation
  have none (`ValidNamesAreTame`).
* Scoping passes explicit objects through unchanged, and a comment beside it expects those of other projects to
  fail authorization later. They do not: a rule may name another project's instances and grants them
  (`ExplicitObjectLeaks`). A rule is confined exactly when its text before the first star says so
  (`ScopedRuleInsideExactly`).
* A project whose load failed part way is not marked as loaded, so a sync that no longer lists it leaves its
  policies in place (`SyncKeepsHalfLoaded`, `SyncRebuildsExactly`).
* Dropping only a user's own cache entries after a role change is enough exactly when nobody has that user as a
  role (`TargetedInvalidationExactly`).
* A rejected role assignment has already replaced the user's Casbin roles, but not those in Redis
  (`RejectedAssignLinkedExactly`); removing the last role may leave it in Redis (`RemoveRoleLinkedExactly`).
* Assigning roles to a `group:` subject overwrites the projects' group mappings
  (`AssignKeepsGroupMappingsExactly`).
* The shortcut of `GetAccessibleProjects` overlooks denies on single projects (`ShortcutRightExactly`).
* Which project owns a namespace depends on the listing order when several have a matching destination
  (`OwnerOrderFreeExactly`).
* A namespace that is named like its project lets an instance request match a destination without being resolved,
  in the segment after the namespace (`DestinationsDecideRequests`).
* The three glob matchers disagree on some patterns (`MatchersAgreeExactly`).
* `RetryAfter` is the wait until the oldest failure leaves the window. After concurrent attempts more than the
  limit may lie in it, and then the next check can still be limited (`RetryAfterExactly`).
* A decision evaluated before a policy change can enter the cache after the clear that follows it
  (`StaleAfterClear`); it lives at most one time-to-live. The clear suffices exactly when no evaluated decision
  is waiting to be stored at the change (`ClearAlwaysSufficesExactly`).
* A cache that is stopped while degraded stays on its fallback for good (`StopCanStrand`, `StrandedForever`). That
  happens exactly when a recovery loop leaves at the stop (`StrandsExactly`, `DegradedMeansRecoveringExactly`).
* A restart drops user bindings of annotations that have changed and brings back declared ones that an assignment
  had replaced (`RestartOnUsersExactly`).
* In Redis, targeted invalidation uses the user id as part of a glob pattern, so ids with `*`, `?`, `[` or a
  backslash select other keys (`RedisPrefixSelectsExactly`).
* The reserved-prefix check on subject identifiers rejects nothing that the colon check does not
  (`ReservedPrefixCheckIsRedundant`).

## Left out

- PolicyEnforcer.PolicyEnforcer.CanAccessWithGroups: exact only when the cache is coherent and the request and all subjects asked are free of NUL bytes, which the cache key needs as separators; otherwise only what stays unchanged is stated.
- PolicyEnforcer.PolicyEnforcer.GetAccessibleProjects: exact under the same condition as CanAccessWithGroups.
- Coherence.RunStaysCoherent: only over runs whose calls all succeed and whose user ids are plain, because a failed call can return before it clears the cache; `Staleness.BoundedStaleness` covers the rest.
- Restart.RestartEquivalence: not for projects whose annotations bind users, group subjects, or runs that remove a user's last role while Casbin reports nil; `RestartExactly` and `RestartOnUsersExactly` say what happens then.
- Rebuild.IncrementalEqualsRebuild: the group mappings are compared only for runs without role events on group subjects, which overwrite them (`AssignKeepsGroupMappingsExactly`); `SyncRepairs` says what the next sync restores.
- Tenancy.TenantIsolation: for projects whose custom rules are confined in the sense of `ScopedRuleInsideExactly` and whose name and destinations hold no comma.
- LoadedProjects.LoadedRoleGives: for project names and destinations without a comma, of the lengths validation allows and without a blank at the end; the built-in rules are texts that other names would break. The laws on built-in rights and on load failures have the same condition.
- Requests.DestinationsDecideRequests: a role with one instance rule, exact destinations, and a project not called `instances`, where `instances/*` already means the whole project.
- Access.ListSucceedsOnAnyGrant: allow policies only; a deny can still take the listing away.
- RedisCache.RedisAuthorizationCache.Get: the Redis side is a reply given as a parameter; statistics, pub/sub and its reconnect loop are not modelled.
- RateLimiter.AccountStore.CheckRateLimit: only the in-memory limiter; the Redis sorted sets and runs that mix the two are not modelled, since the two do not share counts.
- RoleStore.RedisRoleStore.LoadAllUserRoles: the call as the enforcer makes it, on a healthy Redis; `ScanUserRoles` is the loop with repeated keys and failing reads.
- GroupMapper.EvaluateMappings: `filepath.Match` is a parameter.
- ProjectNames.GenerateProjectId: takes the lower-cased, trimmed name and the hash digits as given.
- Canonical.CanonicalJson: numbers are the tokens `encoding/json` writes; how a float is turned into a token is not modelled.
- RedisPattern.InvalidateByPrefix: the pages a scan lists are a parameter; that they hold the keys matching the pattern is Redis's part.
- Roles that the auth package writes to Casbin directly: they bypass the enforcer whose state is modelled.
- Kubernetes clients, informers, HTTP routing, OIDC, JWT and bcrypt, configuration, logging and metrics: input and output, or libraries.
- The web front end, deployment, health and history services: no algorithm of their own.
