# envoy-authz user relation cache, in Dafny

This project models the core of the relation cache of the envoy-authz
authorization server in Dafny. The model covers two components.

- `UserRelationCacheBuilder` keeps a cached record for each end user: the set
  of relations the user holds, stamped with the newest ACL update time seen
  (`maxAclUpdated`). The builder works as a small state machine over two Java
  lists of user names, `inProgressUsers` and `scheduledUsers`. These are
  ordered and may hold duplicates, and `remove` drops the first occurrence.
  - `build` rebuilds one user, or reschedules the user when a build for them is
    already running.
  - `scheduleUpdate` queues a user.
  - `scheduledBuild` is the periodic tick that drains the queue.
  - `buildScheduled` rebuilds every queued user.
  - Rebuilding a user first checks the stored watermark. It then walks the
    user's tuples: every tuple the user holds directly, plus every tuple
    reached through the nested relations of a userset
    (`getLowCardinalityRelations`). Finally it asks the Zanzibar evaluator for
    the relations on each (namespace, object) pair and saves the record.
- `CacheService` holds the process-wide table of namespace relation
  configurations, which can be replaced, upserted or deleted. It also fills a
  caller's per-request memo with each user's high-cardinality tags, never for
  the wildcard user `"*"`.

The model is split into five modules:

- `Domain` (domain.dfy) holds the entities and the collaborators. The
  collaborators are the ACL repository, the relation configuration service,
  the Zanzibar evaluator and the builder's one-argument high-cardinality cache.
  They are total functions held in an `Env` value. Java's
  `StringUtils.isBlank` is modelled over `Character.isWhitespace`.
- `Lists` (lists.dfy) holds `List.remove(Object)` on sequences.
- `Closure` (closure.dfy) holds the closure walk and its specification.
- `Caching` (cache_service.dfy) holds `CacheService` as a class with the
  config table as a `map` field that the methods reassign.
- `Builder` (builder.dfy) holds `UserRelationCacheBuilder` as a class. Its
  fields are:
  - `records`, standing for userRelationRepository;
  - the two user lists;
  - `tasks`, the work handed to the background scheduler.

The closure walk has no visited set. It recurses into every tuple that a nested
relation yields, so on a cyclic tuple graph it recurses without bound until
the JVM throws a StackOverflowError. `LowCardinalityRelations` carries a ghost `fuel` as its termination measure and
is specified only for calls where the fuel suffices (`Enough`).
`NoFuelSufficesOnCycle` proves that on a cycle no amount of fuel is enough,
that is, no finite recursion depth covers the walk.
`MoreFuelSameReach` proves that, once the fuel suffices, the result does not
depend on how much fuel was chosen. A builder is created with a fuel bound
under which every user's walk returns (`Terminates`). ACL writes made
elsewhere replace the collaborators between calls (`AclsChanged`), and the
replacement must again come with such a bound.

## Model

All UserRelationCacheBuilder paths are
`auth/src/main/java/org/example/authserver/service/UserRelationCacheBuilder.java`,
and all CacheService paths are
`auth/src/main/java/org/example/authserver/service/CacheService.java`.

| member | source | states |
|---|---|---|
| Domain.IsWhitespace | auth/src/main/java/org/example/authserver/service/UserRelationCacheBuilder.java:167 | `Character.isWhitespace`, as `StringUtils.isBlank` uses it: space, tab, newline and carriage return are whitespace; the non-breaking spaces U+00A0, U+2007 and U+202F and the wildcard `*` are not |
| Domain.IsBlank | auth/src/main/java/org/example/authserver/service/UserRelationCacheBuilder.java:167 | the empty string is blank; a string is not blank exactly when some character is not whitespace; a blank string stays blank without its first character |
| Domain.Get | auth/src/main/java/org/example/authserver/service/UserRelationCacheBuilder.java:109-112 | `findById` is empty exactly when no record is stored for the key, and otherwise holds the stored record |
| Lists.RemoveFirst | auth/src/main/java/org/example/authserver/service/UserRelationCacheBuilder.java:103 | removing an absent user leaves the list as it was; otherwise the list is one shorter |
| Lists.RemoveFirstMultiset | auth/src/main/java/org/example/authserver/service/UserRelationCacheBuilder.java:204 | `remove(Object)` takes away exactly one occurrence of the user when there is one, and nothing else |
| Lists.RemoveFirstIsFirstOccurrence | auth/src/main/java/org/example/authserver/service/UserRelationCacheBuilder.java:81 | the occurrence removed is the first one; the elements before and after it keep their order |
| Lists.RemoveFirstOfAppended | auth/src/main/java/org/example/authserver/service/UserRelationCacheBuilder.java:101-103 | adding a user who was absent and then removing them gives the original list back |
| Closure.LowCardinalityRelations | auth/src/main/java/org/example/authserver/service/UserRelationCacheBuilder.java:135-153 | when the fuel suffices, the result is the incoming set plus exactly the pairs the walk reaches (`Reach`); it returns the incoming set unchanged when namespace, object or relation is null |
| Closure.AddNested | auth/src/main/java/org/example/authserver/service/UserRelationCacheBuilder.java:145-149 | the inner loop adds to the set the pair of every tuple and everything the walk from that tuple reaches |
| Closure.ReachYieldsNestedTargets | auth/src/main/java/org/example/authserver/service/UserRelationCacheBuilder.java:139-147 | every pair the walk adds is the (namespace, object) of a tuple that `findAllForCache` returned for a nested relation |
| Closure.DirectPairsInClosure | auth/src/main/java/org/example/authserver/service/UserRelationCacheBuilder.java:123-127 | the closure of a user contains the pair of every tuple the user holds directly |
| Closure.MoreFuelSameReach | auth/src/main/java/org/example/authserver/service/UserRelationCacheBuilder.java:135-153 | once the fuel suffices, more fuel still suffices and the walk's result is the same |
| Closure.NoFuelSufficesOnCycle | auth/src/main/java/org/example/authserver/service/UserRelationCacheBuilder.java:145-147 | on a cycle of the tuple graph, no fuel is enough for any triple of the cycle: no finite recursion depth covers the walk, which recurses without bound (a StackOverflowError in Java) |
| Closure.ExpandAllAdd | auth/src/main/java/org/example/authserver/service/UserRelationCacheBuilder.java:126-130 | one more seed tuple adds its pair and what the walk from it reaches |
| Closure.ExpandAllUnion | auth/src/main/java/org/example/authserver/service/UserRelationCacheBuilder.java:141-150 | expanding a union of tuple sets is the union of their expansions |
| Closure.ChildrenViaAdd | auth/src/main/java/org/example/authserver/service/UserRelationCacheBuilder.java:141-142 | one more nested relation contributes exactly the tuples `findAllForCache` returns for it |
| Closure.ExpandChildrenViaAdd | auth/src/main/java/org/example/authserver/service/UserRelationCacheBuilder.java:141-150 | one more nested relation adds the expansion of its tuples, and nothing when it has none (the `continue` at line 143) |
| Closure.AccumulateRelation | auth/src/main/java/org/example/authserver/service/UserRelationCacheBuilder.java:141-150 | the outer loop's set, after one more relation, is the incoming set plus the expansion of the relations handled so far |
| Closure.ChildrenEnough | auth/src/main/java/org/example/authserver/service/UserRelationCacheBuilder.java:141-147 | a triple with enough fuel is complete with positive fuel, and each tuple its nested relations yield has one unit less |
| Caching.Replaced | auth/src/main/java/org/example/authserver/service/CacheService.java:18-21 | `removeIf` followed by `putAll` leaves exactly the incoming map: absent keys removed, every incoming entry present with its value |
| Caching.ReplacedIdempotent | auth/src/main/java/org/example/authserver/service/CacheService.java:18-21 | replacing the table twice with the same map is the same as replacing it once |
| Caching.Upserted | auth/src/main/java/org/example/authserver/service/CacheService.java:23-25 | the config's namespace now maps to the config, and every other namespace is unchanged |
| Caching.Deleted | auth/src/main/java/org/example/authserver/service/CacheService.java:27-29 | only the given namespace is removed; deleting an absent namespace is a no-op |
| Caching.Memoized | auth/src/main/java/org/example/authserver/service/CacheService.java:35-43 | the wildcard user and a user already memoized leave the map's keys and entries unchanged; otherwise exactly one key is added, mapped to the user's tags |
| Caching.MemoizedIdempotent | auth/src/main/java/org/example/authserver/service/CacheService.java:35-38 | a second call for the same user is a no-op |
| Caching.MemoizedCommutes | auth/src/main/java/org/example/authserver/service/CacheService.java:35-43 | memoizing two different users gives the same map in either order |
| Caching.CacheService.constructor | auth/src/main/java/org/example/authserver/service/CacheService.java:16 | the config table starts empty |
| Caching.CacheService.AclsChanged | auth/src/main/java/org/example/authserver/service/CacheService.java:40 | ACL writes made elsewhere replace the repository that later lookups read; the config table is untouched |
| Caching.CacheService.UpdateConfigs | auth/src/main/java/org/example/authserver/service/CacheService.java:18-21 | the table after the call is `Replaced` of the old one, that is, exactly the incoming map |
| Caching.CacheService.UpdateConfig | auth/src/main/java/org/example/authserver/service/CacheService.java:23-25 | the table after the call is `Upserted` of the old one |
| Caching.CacheService.DeleteConfig | auth/src/main/java/org/example/authserver/service/CacheService.java:27-29 | the table after the call is `Deleted` of the old one |
| Caching.CacheService.GetConfigs | auth/src/main/java/org/example/authserver/service/CacheService.java:31-33 | returns the current table and changes nothing |
| Caching.CacheService.PrepareHighCardinalityCache | auth/src/main/java/org/example/authserver/service/CacheService.java:35-43 | the request cache becomes `Memoized` of its old map with the user's tags; the repository is consulted only when the user is neither memoized nor the wildcard |
| Builder.RelationsOfUnion | auth/src/main/java/org/example/authserver/service/UserRelationCacheBuilder.java:177-180 | the relations over a union of pairs are the union of the relations over each part |
| Builder.Refreshed | auth/src/main/java/org/example/authserver/service/UserRelationCacheBuilder.java:116-133 | a rebuild changes at most the rebuilt user's record: an up-to-date user or a skipped (blank or wildcard) user keeps theirs, and any other user gets a fresh record over their closure, stamped with the current watermark |
| Builder.StaleRecordRebuilt | auth/src/main/java/org/example/authserver/service/UserRelationCacheBuilder.java:116-133 | a stored record older than the user's current watermark is replaced by a fresh record over the user's closure, stamped with that watermark, unless the user is blank or the wildcard |
| Builder.RefreshedCoversWatermark | auth/src/main/java/org/example/authserver/service/UserRelationCacheBuilder.java:116-133 | after a rebuild the user's record covers the current watermark, unless the user is skipped, in which case nothing changed |
| Builder.RefreshedIdempotent | auth/src/main/java/org/example/authserver/service/UserRelationCacheBuilder.java:116-121 | a second rebuild against an unchanged repository is a no-op, because of the freshness check |
| Builder.RefreshedExtends | auth/src/main/java/org/example/authserver/service/UserRelationCacheBuilder.java:79-82 | rebuilding one more user extends a description of which users' records have been rebuilt by that user |
| Builder.RebuildingStep | auth/src/main/java/org/example/authserver/service/UserRelationCacheBuilder.java:79-82 | one iteration of `buildScheduled`'s loop moves the user from "in progress" to "rebuilt" |
| Builder.DrainedOneMore | auth/src/main/java/org/example/authserver/service/UserRelationCacheBuilder.java:203-204 | after one more drained user, the scheduled list is, as a multiset, the original less the drained users |
| Builder.UserRelationCacheBuilder.constructor | auth/src/main/java/org/example/authserver/service/UserRelationCacheBuilder.java:42-51 | both user lists and the task queue start empty |
| Builder.UserRelationCacheBuilder.AclsChanged | auth/src/main/java/org/example/authserver/service/UserRelationCacheBuilder.java:117-123 | ACL writes made elsewhere replace the repository each later call reads its watermark and tuples from; the lists and records are untouched |
| Builder.UserRelationCacheBuilder.IsInProgress | auth/src/main/java/org/example/authserver/service/UserRelationCacheBuilder.java:53-55 | true exactly when some user is in progress: it names one when true, and no user is in progress when false |
| Builder.UserRelationCacheBuilder.CanUseCache | auth/src/main/java/org/example/authserver/service/UserRelationCacheBuilder.java:237-239 | true exactly when the cache is enabled and the user is neither scheduled nor in progress |
| Builder.UserRelationCacheBuilder.HasScheduled | auth/src/main/java/org/example/authserver/service/UserRelationCacheBuilder.java:229-231 | true exactly when some position of the schedule holds the user |
| Builder.UserRelationCacheBuilder.HasInProgress | auth/src/main/java/org/example/authserver/service/UserRelationCacheBuilder.java:233-235 | true exactly when some position of the in-progress list holds the user; then some user is in progress |
| Builder.UserRelationCacheBuilder.IsUpToDate | auth/src/main/java/org/example/authserver/service/UserRelationCacheBuilder.java:108-114 | a user with no stored record is never up to date; otherwise the user is up to date exactly when the stored watermark is at least the current one |
| Builder.UserRelationCacheBuilder.CreateUserRelations | auth/src/main/java/org/example/authserver/service/UserRelationCacheBuilder.java:166-193 | yields nothing exactly for a blank or wildcard user; otherwise yields a record with the given user and watermark whose relations are the union of `getRelations` over the given pairs |
| Builder.UserRelationCacheBuilder.SaveUserRelations | auth/src/main/java/org/example/authserver/service/UserRelationCacheBuilder.java:156-164 | saves exactly the record `createUserRelations` yields, or nothing when it yields none |
| Builder.UserRelationCacheBuilder.BuildUserRelations | auth/src/main/java/org/example/authserver/service/UserRelationCacheBuilder.java:116-133 | the repository becomes `Refreshed`: an up-to-date user saves nothing, and any other user's record is built over the full closure of their tuples |
| Builder.UserRelationCacheBuilder.Build | auth/src/main/java/org/example/authserver/service/UserRelationCacheBuilder.java:88-106 | three outcomes. (1) A null user, or a disabled config or update-on-change switch, changes nothing. (2) A user already in progress is appended to the scheduled list even when already there, and the cache may not be used for them. (3) Otherwise the user is rebuilt, the call returns true, and the in-progress list ends as it began |
| Builder.UserRelationCacheBuilder.ScheduleUpdate | auth/src/main/java/org/example/authserver/service/UserRelationCacheBuilder.java:241-247 | a null user is refused. Any other user is afterwards scheduled and may not use the cache; they are appended only when absent, so a user is never scheduled twice by this call |
| Builder.UserRelationCacheBuilder.ScheduledBuild | auth/src/main/java/org/example/authserver/service/UserRelationCacheBuilder.java:195-206 | every distinct scheduled user not in progress is built and loses one occurrence from the schedule; users in progress stay scheduled; the in-progress list is unchanged |
| Builder.UserRelationCacheBuilder.DrainOne | auth/src/main/java/org/example/authserver/service/UserRelationCacheBuilder.java:201-204 | one iteration of the tick: the user is built and one of their occurrences leaves the schedule |
| Builder.UserRelationCacheBuilder.AddAllInProgress | auth/src/main/java/org/example/authserver/service/UserRelationCacheBuilder.java:77 | `addAll` appends each user of the set once and keeps the existing list as a prefix |
| Builder.UserRelationCacheBuilder.BuildScheduled | auth/src/main/java/org/example/authserver/service/UserRelationCacheBuilder.java:57-86 | returns false with no change when disabled, when any user is in progress, or when nothing is scheduled. Otherwise it rebuilds every scheduled user, leaves the schedule unchanged, and ends with nobody in progress |
| Builder.UserRelationCacheBuilder.RebuildSnapshot | auth/src/main/java/org/example/authserver/service/UserRelationCacheBuilder.java:79-82 | the loop rebuilds exactly the users of the snapshot and empties the in-progress list it filled |
| Builder.UserRelationCacheBuilder.UpdateScheduledAsync | auth/src/main/java/org/example/authserver/service/UserRelationCacheBuilder.java:208-218 | a full rebuild is handed to the scheduler exactly when nobody is in progress |
| Builder.UserRelationCacheBuilder.BuildAsync | auth/src/main/java/org/example/authserver/service/UserRelationCacheBuilder.java:220-227 | any non-null user is accepted; a build is handed to the scheduler only when the user is not in progress |

## Left out

- The thread pool and the timer are left out: `scheduleAtFixedRate` in the constructor and `scheduler.execute`. They are modelled only as the `tasks` queue that `BuildAsync` and `UpdateScheduledAsync` append to. Running a queued task is a separate call of `Build`, `BuildScheduled` or `ScheduledBuild`.
- Concurrency is left out. Every operation runs to completion alone. Nothing is claimed about interleavings, such as "at most one build per user in flight": the `contains` check and the `add` are not atomic.
- Exceptions are left out, because collaborators are total. With no try/finally around `buildUserRelations`, a failure would leave the user in progress; this is not modelled. One exception arises from ordinary input every time: for a user who holds no tuples (for example right after their last ACL is deleted), `findMaxAclUpdatedByPrincipal` meets a SQL `max` of no rows, which is NULL and cannot be returned as a primitive `long`, so the call at line 117 throws. `Builder.Refreshed` and `BuildUserRelations` instead take the repository's value for that user and save a record with no relations. The consequences listed on the next line for a StackOverflowError apply to this exception too.
- The StackOverflowError on a cyclic tuple graph is left out: such graphs are outside the builder's `Valid` state. In Java the error escapes `build` (lines 101-103) and `buildScheduled` (lines 79-82) and leaves the user in `inProgressUsers` for good. An error inside `buildScheduled`'s loop leaves every user of the snapshot not yet processed there as well. From then on `canUseCache` is false for those users, `scheduledBuild` skips them, and `buildScheduled` and `updateScheduledAsync` refuse every call. When the error comes from the periodic tick (`scheduledBuild` calling `build` at line 203), `scheduleAtFixedRate` (line 50) suppresses every later run of the task, so `scheduledBuild` never runs again.
- Logging, the Stopwatch timings and the `@Timed` metric do not affect state, so they are left out.
- The Zanzibar evaluator (`getRelations`) is an uninterpreted function in `Env`, because its logic is not part of this model.
- The relation configuration service (`nestedRelations`) is an uninterpreted function in `Env`, because its logic is not part of this model.
- The builder's one-argument `prepareHighCardinalityCache` is an uninterpreted function in `Env`, because its logic is not part of this model. The two-argument version in CacheService.java is modelled.
- The repositories are functions in `Env`: `findMaxAclUpdatedByPrincipal`, `findAllByPrincipal` and `findAllForCache`. userRelationRepository is the `records` map.
- CacheService.java does not declare the `aclRepository` field or the imports it uses. `PrepareHighCardinalityCache` takes the repository from its `env`. `Acl.getTag` is the `tag` field of `Acl`, and its format is not modelled.
- RequestCache is not part of this model beyond its one map field.
- `Closure.LowCardinalityRelations`: the walk is specified only when the ghost fuel suffices (`Enough`). On a cyclic tuple graph the code recurses without bound, and no fuel suffices (`NoFuelSufficesOnCycle`). Such graphs are outside the builder's `Valid` state.
- `Closure.LowCardinalityRelations`: the Java method mutates the set passed in and returns that same object. The model passes and returns set values, so aliasing between `cache` and `res` is not represented. The resulting contents are the same.
- An Acl's namespace and object are plain strings. The pair `Tuples.of(namespace, object)` built at lines 127 and 146 rejects null members, so a null namespace or object would throw before the walk; that path is not modelled. Only the relation is an `Option`, and a missing relation is the one way the null guard at line 136 is reached. A null user passed to `build`, `scheduleUpdate` or `buildAsync` is `None`.
- The repository is not frozen: `UserRelationCacheBuilder.AclsChanged` and `CacheService.AclsChanged` replace it between calls. Changes made during a call are not modelled, because each operation runs alone.
- `Builder.UserRelationCacheBuilder.CreateUserRelations`: every `getRelations` call receives the same request-cache value, the one the one-argument `prepareHighCardinalityCache` returns for the user. In Java the one mutable `RequestCache` object from line 172 is handed to each call at line 179, and the evaluator may memoize further users' tags into it, so later calls, made in `HashSet` order, may see a larger memo. The model assumes that `getRelations` does not change the cache it receives, or that nothing it memoizes changes a later result. `RelationsOf`, `SaveUserRelations` and `BuildUserRelations` inherit this assumption.
- Java `long` watermarks are modelled as unbounded `int`. Only `>=` comparisons are made, so no overflow arises.
- `Builder.UserRelationCacheBuilder.AddAllInProgress`: `addAll` appends in the set's iteration order, which is not specified. The contract states the appended elements as a multiset, not their order.
- Iteration over a `HashSet` picks users in an unspecified order. The loops pick an arbitrary remaining element. Each contract holds for every order.
- `Caching.CacheService.GetConfigs`: `getConfigs` returns the live static map, and `configs` is static, so it is shared by every CacheService instance. The model keeps the table in one instance field and returns its value.
