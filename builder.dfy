/** UserRelationCacheBuilder: the per-user orchestration of cache rebuilds.
    `inProgressUsers` and `scheduledUsers` are ordered lists that may hold
    duplicates; `records` stands for userRelationRepository; `tasks` is the
    queue of work handed to the background scheduler. */
module Builder {
  import opened Domain
  import opened Lists
  import opened Closure

  /** Work handed to the scheduler: `build(user)` or `buildScheduled()`. */
  datatype Task = BuildUser(user: string) | BuildAllScheduled

  /** createUserRelations builds nothing for a blank user or the wildcard. */
  predicate Skipped(user: string) {
    IsBlank(user) || user == "*"
  }

  /** A stored entry already reflects the watermark `maxAclUpdated`. */
  predicate Covers(entry: Option<UserRelationEntity>, maxAclUpdated: int) {
    entry.Some? && entry.value.maxAclUpdated >= maxAclUpdated
  }

  /** The union of getRelations over the given pairs, each asked with the
      user's request cache. */
  ghost function RelationsOf(env: Env, user: string, nsObjects: set<NsObject>): (relations: set<string>) {
    set p, rel | p in nsObjects
                 && rel in env.getRelations(p.namespace, p.obj, user, env.prepareHighCardinalityCache(user)) :: rel
  }

  /** The relations of a union of pair sets are the union of their relations. */
  lemma RelationsOfUnion(env: Env, user: string, xs: set<NsObject>, ys: set<NsObject>)
    ensures RelationsOf(env, user, xs + ys) == RelationsOf(env, user, xs) + RelationsOf(env, user, ys)
  {
  }

  /** The record a rebuild of `user` leaves behind, given the stored `entry`:
      the entry itself when it covers the current watermark or the user is
      skipped, otherwise a fresh record over the user's closure. */
  ghost function RefreshedEntry(env: Env, user: string, entry: Option<UserRelationEntity>, fuel: nat)
    : (r: Option<UserRelationEntity>)
  {
    var maxAclUpdated := env.findMaxAclUpdatedByPrincipal(user);
    if Covers(entry, maxAclUpdated) || Skipped(user) then entry
    else Some(UserRelationEntity(user, RelationsOf(env, user, UserClosure(env, user, fuel)), maxAclUpdated))
  }

  /** The stored records after a rebuild of `user`: only that user's entry can change. */
  ghost function Refreshed(env: Env, records: map<string, UserRelationEntity>, user: string, fuel: nat)
    : (r: map<string, UserRelationEntity>)
    ensures forall u :: Get(r, u) == if u == user then RefreshedEntry(env, user, Get(records, user), fuel) else Get(records, u)
  {
    match RefreshedEntry(env, user, Get(records, user), fuel)
    case None => records
    case Some(e) => records[user := e]
  }

  /** A record older than the user's current watermark is replaced by a fresh
      one over the user's closure, stamped with that watermark. */
  lemma StaleRecordRebuilt(env: Env, user: string, entry: Option<UserRelationEntity>, fuel: nat)
    requires entry.Some? && entry.value.maxAclUpdated < env.findMaxAclUpdatedByPrincipal(user)
    requires !Skipped(user)
    ensures RefreshedEntry(env, user, entry, fuel)
         == Some(UserRelationEntity(user, RelationsOf(env, user, UserClosure(env, user, fuel)),
                                    env.findMaxAclUpdatedByPrincipal(user)))
  {
  }

  /** After a rebuild the user's entry covers the watermark, unless the user is
      skipped, in which case nothing changed. */
  lemma RefreshedCoversWatermark(env: Env, user: string, entry: Option<UserRelationEntity>, fuel: nat)
    ensures Covers(RefreshedEntry(env, user, entry, fuel), env.findMaxAclUpdatedByPrincipal(user))
         || (Skipped(user) && RefreshedEntry(env, user, entry, fuel) == entry)
  {
  }

  /** A second rebuild against an unchanged repository is a no-op. */
  lemma RefreshedIdempotent(env: Env, records: map<string, UserRelationEntity>, user: string, fuel: nat)
    ensures Refreshed(env, Refreshed(env, records, user, fuel), user, fuel) == Refreshed(env, records, user, fuel)
  {
    RefreshedCoversWatermark(env, user, Get(records, user), fuel);
  }

  /** Rebuilding one more user, not yet rebuilt, extends a pointwise description
      of the records by that user. */
  lemma RefreshedExtends(env: Env, original: map<string, UserRelationEntity>, current: map<string, UserRelationEntity>,
                         done: set<string>, user: string, fuel: nat)
    requires user !in done
    requires forall u :: Get(current, u) ==
               if u in done then RefreshedEntry(env, u, Get(original, u), fuel) else Get(original, u)
    ensures forall u :: Get(Refreshed(env, current, user, fuel), u) ==
              if u in done + {user} then RefreshedEntry(env, u, Get(original, u), fuel) else Get(original, u)
  {
  }

  /** Removing one more drained user from the scheduled list keeps it equal, as a
      multiset, to the original list less the drained users. */
  lemma DrainedOneMore(original: seq<string>, current: seq<string>, done: set<string>, user: string)
    requires user !in done
    requires multiset(current) == multiset(original) - multiset(done)
    ensures multiset(RemoveFirst(current, user)) == multiset(original) - multiset(done + {user})
  {
    assert multiset(done + {user}) == multiset(done) + multiset{user};
    RemoveFirstMultiset(current, user);
    MinusMinus(multiset(original), multiset(done), multiset{user});
  }

  lemma SetLessOne<T>(s: set<T>, x: T)
    requires x in s
    ensures multiset(s - {x}) == multiset(s) - multiset{x}
  {
    assert multiset(s) == multiset(s - {x}) + multiset{x};
  }

  lemma MinusMinus<T>(a: multiset<T>, d: multiset<T>, e: multiset<T>)
    ensures (a - d) - e == a - (d + e)
  {
  }

  /** `records` is `original` with exactly the users of `done` rebuilt. */
  ghost predicate RebuiltFrom(env: Env, records: map<string, UserRelationEntity>,
                              original: map<string, UserRelationEntity>, done: set<string>, fuel: nat)
  {
    forall u :: Get(records, u) == if u in done then RefreshedEntry(env, u, Get(original, u), fuel) else Get(original, u)
  }

  /** Midway through buildScheduled's loop over `users`: those of `done` are
      rebuilt and out of progress, those of `todo` still in progress. */
  ghost predicate Rebuilding(env: Env, fuel: nat, users: set<string>, todo: set<string>, done: set<string>,
                             original: map<string, UserRelationEntity>,
                             inProgress: seq<string>, records: map<string, UserRelationEntity>)
  {
    todo + done == users && todo !! done
    && multiset(inProgress) == multiset(todo)
    && RebuiltFrom(env, records, original, done, fuel)
  }

  /** One iteration of buildScheduled's loop keeps `Rebuilding`. */
  lemma RebuildingStep(env: Env, fuel: nat, users: set<string>, todo: set<string>, done: set<string>,
                       original: map<string, UserRelationEntity>,
                       inProgress: seq<string>, records: map<string, UserRelationEntity>, user: string)
    requires user in todo
    requires Rebuilding(env, fuel, users, todo, done, original, inProgress, records)
    ensures Rebuilding(env, fuel, users, todo - {user}, done + {user}, original,
                       RemoveFirst(inProgress, user), Refreshed(env, records, user, fuel))
  {
    RefreshedExtends(env, original, records, done, user, fuel);
    SetLessOne(todo, user);
    RemoveFirstMultiset(inProgress, user);
  }

  /** The users scheduledBuild drains: those scheduled and not in progress. */
  ghost function Drained(scheduled: seq<string>, inProgress: seq<string>): (users: set<string>) {
    set u | u in scheduled && u !in inProgress
  }

  class UserRelationCacheBuilder {
    const config: UserRelationsConfig
    /** The collaborators as they stand now; ACL writes elsewhere replace them
        between calls (`AclsChanged`). */
    var env: Env
    /** A depth bound under which every user's closure walk returns. */
    ghost var fuel: nat

    var records: map<string, UserRelationEntity>
    var inProgressUsers: seq<string>
    var scheduledUsers: seq<string>
    var tasks: seq<Task>

    ghost predicate Valid()
      reads this
    {
      Terminates(env, fuel)
    }

    constructor (config: UserRelationsConfig, env: Env, records: map<string, UserRelationEntity>, ghost fuel: nat)
      requires Terminates(env, fuel)
      ensures Valid()
      ensures this.config == config && this.env == env && this.fuel == fuel && this.records == records
      ensures inProgressUsers == [] && scheduledUsers == [] && tasks == []
    {
      this.config := config;
      this.env := env;
      this.fuel := fuel;
      this.records := records;
      inProgressUsers := [];
      scheduledUsers := [];
      tasks := [];
    }

    /** ACL writes made through other services: the repository, and with it the
        watermarks and tuples every later call sees, is replaced. The builder's
        own state is untouched, so a stored record now older than its user's
        watermark is rebuilt by the next build of that user. */
    method AclsChanged(newEnv: Env, ghost newFuel: nat)
      requires Terminates(newEnv, newFuel)
      modifies this`env, this`fuel
      ensures Valid() && env == newEnv && fuel == newFuel
    {
      env := newEnv;
      fuel := newFuel;
    }

    /** isInProgress: some user is being built. */
    function IsInProgress(): (r: bool)
      reads this
      ensures r ==> inProgressUsers != [] && HasInProgress(inProgressUsers[0])
      ensures !r ==> forall u :: !HasInProgress(u)
    {
      |inProgressUsers| != 0
    }

    /** hasScheduled: some position of the schedule holds the user. */
    function HasScheduled(user: string): (r: bool)
      reads this
      ensures r <==> exists i | 0 <= i < |scheduledUsers| :: scheduledUsers[i] == user
    {
      user in scheduledUsers
    }

    /** hasInProgress: some position of the in-progress list holds the user,
        which makes the list non-empty. */
    function HasInProgress(user: string): (r: bool)
      reads this
      ensures r ==> inProgressUsers != []
      ensures r <==> exists i | 0 <= i < |inProgressUsers| :: inProgressUsers[i] == user
    {
      user in inProgressUsers
    }

    /** The cache may serve `user` only when enabled and no rebuild of that
        user is pending or running. */
    function CanUseCache(user: string): (r: bool)
      reads this
      ensures r <==> config.enabled && user !in scheduledUsers && user !in inProgressUsers
    {
      config.enabled && !HasScheduled(user) && !HasInProgress(user)
    }

    /** isUpToDate: a stored record whose watermark is at least `maxAclUpdated`. */
    function IsUpToDate(user: string, maxAclUpdated: int): (r: bool)
      reads this
      ensures user !in records ==> !r
      ensures r <==> user in records && records[user].maxAclUpdated >= maxAclUpdated
    {
      match Get(records, user)
      case None => false
      case Some(entity) => entity.maxAclUpdated >= maxAclUpdated
    }

    /** createUserRelations: nothing for a blank or wildcard user; otherwise a
        record of the user, the union of getRelations over the pairs, and the
        given watermark. */
    method CreateUserRelations(user: string, nsObjects: set<NsObject>, maxAclUpdated: int)
      returns (r: Option<UserRelationEntity>)
      ensures r.None? <==> Skipped(user)
      ensures r.Some? ==> r.value == UserRelationEntity(user, RelationsOf(env, user, nsObjects), maxAclUpdated)
    {
      if IsBlank(user) || user == "*" {
        return None;
      }
      var requestCache := env.prepareHighCardinalityCache(user);
      var relations: set<string> := {};
      var todo := nsObjects;
      ghost var done: set<NsObject> := {};
      while todo != {}
        invariant todo + done == nsObjects && todo !! done
        invariant relations == RelationsOf(env, user, done)
        decreases todo
      {
        var nsObject :| nsObject in todo;
        relations := relations + env.getRelations(nsObject.namespace, nsObject.obj, user, requestCache);
        RelationsOfUnion(env, user, done, {nsObject});
        todo := todo - {nsObject};
        done := done + {nsObject};
      }
      return Some(UserRelationEntity(user, relations, maxAclUpdated));
    }

    /** buildUserRelations(user, nsObjects, maxAclUpdated): saves the record
        createUserRelations yields, or nothing. */
    method SaveUserRelations(user: string, nsObjects: set<NsObject>, maxAclUpdated: int)
      modifies this`records
      ensures records == if Skipped(user) then old(records)
                         else old(records)[user := UserRelationEntity(user, RelationsOf(env, user, nsObjects), maxAclUpdated)]
    {
      var entity := CreateUserRelations(user, nsObjects, maxAclUpdated);
      if entity.None? {
        return;
      }
      records := records[user := entity.value];
    }

    /** buildUserRelations(user): skips an up-to-date user, otherwise collects
        the pair of each directly held tuple and what the walk from it adds,
        and saves the record over that closure. */
    method BuildUserRelations(user: string)
      requires Valid()
      ensures Valid()
      modifies this`records
      ensures records == Refreshed(env, old(records), user, fuel)
      ensures old(IsUpToDate(user, env.findMaxAclUpdatedByPrincipal(user))) ==> records == old(records)
    {
      var maxAclUpdated := env.findMaxAclUpdatedByPrincipal(user);
      if IsUpToDate(user, maxAclUpdated) {
        assert records[user := records[user]] == records;
        return;
      }
      var highCardinalityAcls := env.findAllByPrincipal(user);
      var result: set<NsObject> := {};
      var todo := highCardinalityAcls;
      ghost var done: set<Acl> := {};
      while todo != {}
        invariant todo + done == highCardinalityAcls && todo !! done
        invariant result == ExpandAll(env, done, fuel)
        invariant records == old(records)
        decreases todo
      {
        var acl :| acl in todo;
        assert acl in env.findAllByPrincipal(user);
        assert Enough(env, UsersetOf(acl), fuel);
        result := result + {PairOf(acl)};
        var lowCardinalityTuples := LowCardinalityRelations(env, Some(acl.namespace), Some(acl.obj), acl.relation, {}, fuel);
        result := result + lowCardinalityTuples;
        ExpandAllAdd(env, done, acl, fuel);
        todo := todo - {acl};
        done := done + {acl};
      }
      assert result == UserClosure(env, user, fuel);
      SaveUserRelations(user, result, maxAclUpdated);
      ghost var entry := Get(old(records), user);
      assert !Covers(entry, maxAclUpdated);
      if Skipped(user) {
        assert user in old(records) ==> old(records)[user := old(records)[user]] == old(records);
      } else {
        assert RefreshedEntry(env, user, entry, fuel)
            == Some(UserRelationEntity(user, RelationsOf(env, user, result), maxAclUpdated));
      }
    }

    /** build: the three outcomes. A null user or a disabled cache changes
        nothing; a user already in progress is scheduled again (duplicates
        allowed); any other user is rebuilt and the in-progress list ends as it
        began. */
    method Build(user: Option<string>) returns (started: bool)
      requires Valid()
      ensures Valid()
      modifies this`records, this`inProgressUsers, this`scheduledUsers
      ensures started <==> user.Some? && config.enabled && config.updateOnAclChange && user.value !in old(inProgressUsers)
      ensures inProgressUsers == old(inProgressUsers)
      ensures scheduledUsers ==
                if user.Some? && config.enabled && config.updateOnAclChange && user.value in old(inProgressUsers)
                then old(scheduledUsers) + [user.value]
                else old(scheduledUsers)
      ensures records == if started then Refreshed(env, old(records), user.value, fuel) else old(records)
      ensures !started && user.Some? && config.enabled && config.updateOnAclChange ==> !CanUseCache(user.value)
    {
      if user.None? {
        return false;
      }
      var u := user.value;
      if !config.enabled || !config.updateOnAclChange {
        return false;
      }
      if u in inProgressUsers {
        scheduledUsers := scheduledUsers + [u];
        return false;
      }
      inProgressUsers := inProgressUsers + [u];
      BuildUserRelations(u);
      RemoveFirstOfAppended(old(inProgressUsers), u);
      inProgressUsers := RemoveFirst(inProgressUsers, u);
      return true;
    }

    /** scheduleUpdate: a non-null user ends up scheduled; it is appended only
        when absent, so this call never adds a second occurrence. */
    method ScheduleUpdate(user: Option<string>) returns (accepted: bool)
      modifies this`scheduledUsers
      ensures accepted <==> user.Some?
      ensures scheduledUsers == if user.Some? && user.value !in old(scheduledUsers)
                                then old(scheduledUsers) + [user.value]
                                else old(scheduledUsers)
      ensures user.Some? ==> HasScheduled(user.value) && !CanUseCache(user.value)
      ensures user.Some? ==> multiset(scheduledUsers)[user.value] == if user.value in old(scheduledUsers)
                                                                     then multiset(old(scheduledUsers))[user.value] else 1
    {
      if user.None? {
        return false;
      }
      if !HasScheduled(user.value) {
        scheduledUsers := scheduledUsers + [user.value];
      }
      return true;
    }

    /** The periodic tick: over the distinct scheduled users, a user in
        progress stays scheduled; every other one is built and loses one
        occurrence from the schedule. */
    method ScheduledBuild()
      requires Valid()
      ensures Valid()
      modifies this`records, this`inProgressUsers, this`scheduledUsers
      ensures inProgressUsers == old(inProgressUsers)
      ensures multiset(scheduledUsers)
           == multiset(old(scheduledUsers)) - multiset(Drained(old(scheduledUsers), old(inProgressUsers)))
      ensures forall u :: Get(records, u) ==
                if u in Drained(old(scheduledUsers), old(inProgressUsers)) && config.enabled && config.updateOnAclChange
                then RefreshedEntry(env, u, Get(old(records), u), fuel)
                else Get(old(records), u)
    {
      if |scheduledUsers| == 0 {
        return;
      }
      var users := set u | u in scheduledUsers;
      var todo := users;
      ghost var drained: set<string> := {};
      while todo != {}
        invariant todo <= users
        invariant inProgressUsers == old(inProgressUsers)
        invariant forall u :: u in drained <==> u in users && u !in todo && u !in inProgressUsers
        invariant multiset(scheduledUsers) == multiset(old(scheduledUsers)) - multiset(drained)
        invariant forall u :: Get(records, u) ==
                    if u in drained && config.enabled && config.updateOnAclChange
                    then RefreshedEntry(env, u, Get(old(records), u), fuel)
                    else Get(old(records), u)
        decreases todo
      {
        var user :| user in todo;
        todo := todo - {user};
        if user in inProgressUsers {
          continue;
        }
        DrainOne(user, drained, old(records), old(scheduledUsers));
        drained := drained + {user};
      }
      assert drained == Drained(old(scheduledUsers), old(inProgressUsers));
    }

    /** One iteration of scheduledBuild for a user not in progress: build it,
        then drop one occurrence of it from the schedule. */
    method DrainOne(user: string, ghost drained: set<string>,
                    ghost original: map<string, UserRelationEntity>, ghost originalScheduled: seq<string>)
      requires Valid()
      ensures Valid()
      requires user !in drained && user !in inProgressUsers
      requires multiset(scheduledUsers) == multiset(originalScheduled) - multiset(drained)
      requires forall u :: Get(records, u) ==
                 if u in drained && config.enabled && config.updateOnAclChange
                 then RefreshedEntry(env, u, Get(original, u), fuel)
                 else Get(original, u)
      modifies this`records, this`inProgressUsers, this`scheduledUsers
      ensures inProgressUsers == old(inProgressUsers)
      ensures multiset(scheduledUsers) == multiset(originalScheduled) - multiset(drained + {user})
      ensures forall u :: Get(records, u) ==
                if u in drained + {user} && config.enabled && config.updateOnAclChange
                then RefreshedEntry(env, u, Get(original, u), fuel)
                else Get(original, u)
    {
      ghost var before := records;
      var started := Build(Some(user));
      if started {
        RefreshedExtends(env, original, before, drained, user, fuel);
      }
      DrainedOneMore(originalScheduled, scheduledUsers, drained, user);
      scheduledUsers := RemoveFirst(scheduledUsers, user);
    }

    /** inProgressUsers.addAll(users): appends every user of the set, in the
        set's iteration order. */
    method AddAllInProgress(users: set<string>)
      modifies this`inProgressUsers
      ensures multiset(inProgressUsers) == multiset(old(inProgressUsers)) + multiset(users)
      ensures |old(inProgressUsers)| <= |inProgressUsers| && inProgressUsers[..|old(inProgressUsers)|] == old(inProgressUsers)
    {
      var todo := users;
      while todo != {}
        invariant todo <= users
        invariant multiset(inProgressUsers) + multiset(todo) == multiset(old(inProgressUsers)) + multiset(users)
        invariant |old(inProgressUsers)| <= |inProgressUsers|
        invariant inProgressUsers[..|old(inProgressUsers)|] == old(inProgressUsers)
        decreases todo
      {
        var user :| user in todo;
        inProgressUsers := inProgressUsers + [user];
        assert multiset(todo) == multiset(todo - {user}) + multiset{user};
        todo := todo - {user};
      }
    }

    /** buildScheduled: refuses when disabled, when any user is in progress, or
        when nothing is scheduled; otherwise rebuilds every distinct scheduled
        user, leaves the schedule alone and ends with nobody in progress. */
    method BuildScheduled() returns (started: bool)
      requires Valid()
      ensures Valid()
      modifies this`records, this`inProgressUsers
      ensures started <==> config.enabled && old(inProgressUsers) == [] && old(scheduledUsers) != []
      ensures !started ==> records == old(records) && inProgressUsers == old(inProgressUsers)
      ensures started ==> inProgressUsers == []
      ensures scheduledUsers == old(scheduledUsers)
      ensures started ==> forall u :: Get(records, u) ==
                            if u in old(scheduledUsers) then RefreshedEntry(env, u, Get(old(records), u), fuel)
                            else Get(old(records), u)
    {
      if !config.enabled {
        return false;
      }
      if IsInProgress() {
        return false;
      }
      var users := set u | u in scheduledUsers;
      assert scheduledUsers != [] ==> scheduledUsers[0] in users;
      if users == {} {
        return false;
      }
      AddAllInProgress(users);
      RebuildSnapshot(users);
      return true;
    }

    /** The loop of buildScheduled: every user of `users`, all of them in
        progress, is rebuilt and taken off the in-progress list. */
    method RebuildSnapshot(users: set<string>)
      requires Valid()
      ensures Valid()
      requires multiset(inProgressUsers) == multiset(users)
      modifies this`records, this`inProgressUsers
      ensures inProgressUsers == []
      ensures RebuiltFrom(env, records, old(records), users, fuel)
    {
      var todo := users;
      ghost var done: set<string> := {};
      while todo != {}
        invariant Rebuilding(env, fuel, users, todo, done, old(records), inProgressUsers, records)
        decreases todo
      {
        var user :| user in todo;
        ghost var before := records;
        BuildUserRelations(user);
        RebuildingStep(env, fuel, users, todo, done, old(records), inProgressUsers, before, user);
        inProgressUsers := RemoveFirst(inProgressUsers, user);
        todo := todo - {user};
        done := done + {user};
      }
      assert |inProgressUsers| == |multiset(inProgressUsers)|;
    }

    /** updateScheduledAsync: hands buildScheduled to the scheduler unless some
        user is in progress. */
    method UpdateScheduledAsync() returns (queued: bool)
      modifies this`tasks
      ensures queued <==> inProgressUsers == []
      ensures tasks == if queued then old(tasks) + [BuildAllScheduled] else old(tasks)
    {
      if IsInProgress() {
        return false;
      }
      tasks := tasks + [BuildAllScheduled];
      return true;
    }

    /** buildAsync: any non-null user is accepted; a build is handed to the
        scheduler only when the user is not already in progress. */
    method BuildAsync(user: Option<string>) returns (accepted: bool)
      modifies this`tasks
      ensures accepted <==> user.Some?
      ensures tasks == if user.Some? && user.value !in inProgressUsers
                       then old(tasks) + [BuildUser(user.value)] else old(tasks)
    {
      if user.None? {
        return false;
      }
      if !HasInProgress(user.value) {
        tasks := tasks + [BuildUser(user.value)];
      }
      return true;
    }
  }
}
