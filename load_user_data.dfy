/**
 * The user fixture loader: one User per role, suffixed with the role's short
 * code and put in that role's UserGroup, then one default user with no suffix
 * and no group; each is persisted and registered as "User-<username>", and the
 * loader flushes once at the end.
 */
module LoadUserData {
  import opened Wrappers
  import opened Seeding
  import LoadRoleData

  /** Position of this loader among the fixtures. */
  function GetOrder(): (order: int)
    ensures order == 3
  {
    3
  }

  /** The name the default user is registered under. */
  const DefaultUserKey: string := "User-john"

  function Suffix(role: Option<string>, short: string -> string): string {
    match role
    case None => ""
    case Some(r) => "-" + short(r)
  }

  /** The User that createUser builds before persisting it. */
  function NewUser(role: Option<string>, short: string -> string, groups: seq<UserGroup>): User {
    var suffix := Suffix(role, short);
    User("john" + suffix, "John", "Doe", "john.doe" + suffix + "@test.com", "password" + suffix, groups)
  }

  /** The name under which the group loader registered a role's UserGroup. */
  function GroupKey(role: string, short: string -> string): string {
    "UserGroup-" + short(role)
  }

  function UserKey(user: User): string {
    "User-" + user.username
  }

  /** createUser as a step of a seeding run. */
  function CreateUserStep(run: Run, role: Option<string>, short: string -> string): Run {
    if run.outcome.Fail? then run
    else match role
      case None =>
        var u := NewUser(None, short, []);
        PersistAndRefer(run, Ref(UserKey(u), UserEntity(u)))
      case Some(r) =>
        var key := GroupKey(r, short);
        match Lookup(run.refs, key)
        case Err(e) => run.(outcome := Fail(e))
        case Ok(g) =>
          if !g.GroupEntity? then run.(outcome := Fail(NotAUserGroup(key)))
          else
            var u := NewUser(role, short, [g.group]);
            PersistAndRefer(run, Ref(UserKey(u), UserEntity(u)))
  }

  /** createUser for each role in order, stopping at the first failure. */
  function CreateUsers(run: Run, roles: seq<string>, short: string -> string): Run
    decreases |roles|
  {
    if roles == [] then run
    else CreateUserStep(CreateUsers(run, roles[..|roles| - 1], short), Some(roles[|roles| - 1]), short)
  }

  /** What load does to a seeding run: a user per role, the default user, then flush. */
  function LoadRun(run: Run, roles: seq<string>, short: string -> string): Run {
    FlushStep(CreateUserStep(CreateUsers(run, roles, short), None, short))
  }

  /** Every role's UserGroup has been registered. */
  predicate GroupsPresent(roles: seq<string>, short: string -> string, refs: map<string, Entity>) {
    forall i :: 0 <= i < |roles| ==> GroupKey(roles[i], short) in refs && refs[GroupKey(roles[i], short)].GroupEntity?
  }

  /** The names of the per-role users, in list order. */
  function UserKeys(roles: seq<string>, short: string -> string): seq<string> {
    seq(|roles|, i requires 0 <= i < |roles| => "User-john-" + short(roles[i]))
  }

  /** The group createUser attaches for a role, read from the table as it was before the loader ran. */
  function GroupOf(role: string, short: string -> string, refs: map<string, Entity>): seq<UserGroup> {
    var key := GroupKey(role, short);
    if key in refs && refs[key].GroupEntity? then [refs[key].group] else []
  }

  function UserRef(role: string, short: string -> string, refs: map<string, Entity>): Ref {
    var u := NewUser(Some(role), short, GroupOf(role, short, refs));
    Ref(UserKey(u), UserEntity(u))
  }

  function UserRefs(roles: seq<string>, short: string -> string, refs: map<string, Entity>): seq<Ref> {
    seq(|roles|, i requires 0 <= i < |roles| => UserRef(roles[i], short, refs))
  }

  function DefaultUserRef(short: string -> string): Ref {
    var u := NewUser(None, short, []);
    Ref(UserKey(u), UserEntity(u))
  }

  /** createUser */
  method CreateUser(ctx: FixtureContext, role: Option<string>, short: string -> string) returns (r: Outcome<FixtureError>)
    modifies ctx
    ensures Run(ctx.log, ctx.refs, r) == CreateUserStep(old(ctx.Start()), role, short)
  {
    var groups: seq<UserGroup> := [];
    if role.Some? {
      var key := GroupKey(role.value, short);
      var found := ctx.GetReference(key);
      if found.Err? {
        return Fail(found.error);
      }
      if !found.value.GroupEntity? {
        return Fail(NotAUserGroup(key));
      }
      groups := [found.value.group];
    }
    var user := NewUser(role, short, groups);
    ctx.Persist(UserEntity(user));
    r := ctx.AddReference(UserKey(user), UserEntity(user));
  }

  /** load: the roles come from the roles service, and a thrown exception ends the run before the flush. */
  method Load(ctx: FixtureContext, roles: seq<string>, short: string -> string) returns (r: Outcome<FixtureError>)
    modifies ctx
    ensures Run(ctx.log, ctx.refs, r) == LoadRun(old(ctx.Start()), roles, short)
  {
    ghost var start := ctx.Start();
    r := Pass;
    var i := 0;
    while i < |roles| && r.Pass?
      invariant 0 <= i <= |roles|
      invariant Run(ctx.log, ctx.refs, r) == CreateUsers(start, roles[..i], short)
    {
      assert roles[..i + 1][..i] == roles[..i];
      r := CreateUser(ctx, Some(roles[i]), short);
      i := i + 1;
    }
    if r.Fail? {
      CreateUsersStopsAtFailure(start, roles, short, i);
      return;
    }
    assert roles[..i] == roles;
    r := CreateUser(ctx, None, short);
    if r.Pass? {
      ctx.Flush();
    }
  }

  // ---------------------------------------------------------------------------
  // Lemmas

  /** The user loader (order 3) runs after the role loader (order 1). */
  lemma RolesSeededBeforeUsers()
    ensures LoadRoleData.GetOrder() == 1 && GetOrder() == 3
    ensures LoadRoleData.GetOrder() < GetOrder()
  {
  }

  /** A failure part-way stops the per-role loop: the roles after it change nothing. */
  lemma {:induction false} CreateUsersStopsAtFailure(run: Run, roles: seq<string>, short: string -> string, i: nat)
    requires i <= |roles|
    requires CreateUsers(run, roles[..i], short).outcome.Fail?
    ensures CreateUsers(run, roles, short) == CreateUsers(run, roles[..i], short)
    decreases |roles|
  {
    if i == |roles| {
      assert roles[..i] == roles;
    } else {
      var init := roles[..|roles| - 1];
      assert init[..i] == roles[..i];
      CreateUsersStopsAtFailure(run, init, short, i);
    }
  }

  /** A user's name never collides with a group's name. */
  lemma GroupKeyIsNoUserKey(a: string, b: string)
    ensures "UserGroup-" + a != "User-" + b
  {
    assert ("UserGroup-" + a)[4] == 'G';
    assert ("User-" + b)[4] == '-';
  }

  lemma UserRefsNames(roles: seq<string>, short: string -> string, refs: map<string, Entity>)
    ensures Names(UserRefs(roles, short, refs)) == UserKeys(roles, short)
  {
    var items := UserRefs(roles, short, refs);
    forall i | 0 <= i < |roles|
      ensures Names(items)[i] == UserKeys(roles, short)[i]
    {
      assert Names(items)[i] == items[i].name;
      UserRefName(roles[i], short, refs);
    }
  }

  lemma UserRefName(role: string, short: string -> string, refs: map<string, Entity>)
    ensures UserRef(role, short, refs).name == "User-john-" + short(role)
  {
    var sc := short(role);
    assert "User-" + ("john" + ("-" + sc)) == "User-john-" + sc;
  }

  /** With every group present, the per-role loop is ReferAll over the expected users. */
  lemma {:induction false} CreateUsersWithGroups(run: Run, roles: seq<string>, short: string -> string)
    requires run.outcome.Pass?
    requires GroupsPresent(roles, short, run.refs)
    ensures CreateUsers(run, roles, short) == ReferAll(run, UserRefs(roles, short, run.refs))
    decreases |roles|
  {
    if roles != [] {
      var n := |roles|;
      var init := roles[..n - 1];
      var items := UserRefs(roles, short, run.refs);
      assert items[..n - 1] == UserRefs(init, short, run.refs);
      assert GroupsPresent(init, short, run.refs) by {
        forall i | 0 <= i < n - 1 ensures init[i] == roles[i] { }
      }
      CreateUsersWithGroups(run, init, short);
      var mid := ReferAll(run, items[..n - 1]);
      if mid.outcome.Pass? {
        ReferAllSpec(run, items[..n - 1]);
        GroupKeyUnchanged(run.refs, init, roles[n - 1], short);
      }
    }
  }

  /** Registering per-role users leaves every group entry as it was. */
  lemma GroupKeyUnchanged(refs: map<string, Entity>, roles: seq<string>, role: string, short: string -> string)
    ensures var k := GroupKey(role, short);
      var b := Bind(refs, UserRefs(roles, short, refs));
      (k in b <==> k in refs) && (k in refs ==> b[k] == refs[k])
  {
    var items := UserRefs(roles, short, refs);
    var k := GroupKey(role, short);
    UserRefsNames(roles, short, refs);
    assert k !in Names(items) by {
      forall i | 0 <= i < |roles| ensures Names(items)[i] != k {
        GroupKeyIsNoUserKey(short(role), "john-" + short(roles[i]));
        assert "User-" + ("john-" + short(roles[i])) == "User-john-" + short(roles[i]);
      }
    }
    BindKeys(refs, items, k);
  }

  /** Without every group present, the per-role loop throws. */
  lemma {:induction false} CreateUsersMissingGroup(run: Run, roles: seq<string>, short: string -> string)
    requires run.outcome.Pass?
    requires !GroupsPresent(roles, short, run.refs)
    ensures CreateUsers(run, roles, short).outcome.Fail?
    decreases |roles|
  {
    var n := |roles|;
    var init := roles[..n - 1];
    if !GroupsPresent(init, short, run.refs) {
      CreateUsersMissingGroup(run, init, short);
    } else {
      var last := roles[n - 1];
      var key := GroupKey(last, short);
      assert !(key in run.refs && run.refs[key].GroupEntity?) by {
        var i :| 0 <= i < n && !(GroupKey(roles[i], short) in run.refs && run.refs[GroupKey(roles[i], short)].GroupEntity?);
        if i < n - 1 {
          assert false;
        }
      }
      CreateUsersWithGroups(run, init, short);
      var items := UserRefs(init, short, run.refs);
      ReferAllSpec(run, items);
      var mid := CreateUsers(run, init, short);
      assert CreateUsers(run, roles, short) == CreateUserStep(mid, Some(last), short);
      if mid.outcome.Pass? {
        GroupKeyUnchanged(run.refs, init, last, short);
        assert !(key in mid.refs && mid.refs[key].GroupEntity?);
      }
    }
  }

  /** The default user's name is never one of the per-role users' names. */
  lemma DefaultKeyIsNoRoleKey(roles: seq<string>, short: string -> string)
    ensures DefaultUserKey !in UserKeys(roles, short)
  {
    forall i | 0 <= i < |roles| ensures UserKeys(roles, short)[i] != DefaultUserKey {
      assert |UserKeys(roles, short)[i]| > |DefaultUserKey|;
    }
  }

  /** The users a completed load creates, in order: one per role, then the default user. */
  function AllUserRefs(roles: seq<string>, short: string -> string, refs: map<string, Entity>): seq<Ref> {
    UserRefs(roles, short, refs) + [DefaultUserRef(short)]
  }

  /** With every group present, load is ReferAll over all expected users, then flush. */
  lemma LoadRunWithGroups(run: Run, roles: seq<string>, short: string -> string)
    requires run.outcome.Pass?
    requires GroupsPresent(roles, short, run.refs)
    ensures LoadRun(run, roles, short) == FlushStep(ReferAll(run, AllUserRefs(roles, short, run.refs)))
  {
    var users := UserRefs(roles, short, run.refs);
    var items := AllUserRefs(roles, short, run.refs);
    CreateUsersWithGroups(run, roles, short);
    assert items[..|items| - 1] == users;
    var mid := ReferAll(run, users);
    assert CreateUserStep(mid, None, short) == PersistAndRefer(mid, DefaultUserRef(short));
  }

  /** The names of all expected users are fresh exactly when the per-role names and "User-john" are. */
  lemma AllUserNamesFresh(roles: seq<string>, short: string -> string, refs: map<string, Entity>)
    ensures KeysFresh(Names(AllUserRefs(roles, short, refs)), refs) <==>
            KeysFresh(UserKeys(roles, short), refs) && DefaultUserKey !in refs
  {
    var users := UserRefs(roles, short, refs);
    var items := AllUserRefs(roles, short, refs);
    assert items[..|items| - 1] == users;
    assert DefaultUserRef(short).name == DefaultUserKey;
    NamesSnoc(items);
    UserRefsNames(roles, short, refs);
    assert Names(items) == UserKeys(roles, short) + [DefaultUserKey];
    DefaultKeyIsNoRoleKey(roles, short);
    KeysFreshSnoc(UserKeys(roles, short), DefaultUserKey, refs);
  }

  /**
   * load completes exactly when every role's UserGroup is registered and the
   * names "User-john-<short code>" and "User-john" are all new and distinct.
   */
  lemma LoadSucceedsIff(log: seq<Action>, refs: map<string, Entity>, roles: seq<string>, short: string -> string)
    ensures LoadRun(Run(log, refs, Pass), roles, short).outcome.Pass? <==>
            GroupsPresent(roles, short, refs) && KeysFresh(UserKeys(roles, short), refs) && DefaultUserKey !in refs
  {
    var run := Run(log, refs, Pass);
    if !GroupsPresent(roles, short, refs) {
      CreateUsersMissingGroup(run, roles, short);
    } else {
      LoadRunWithGroups(run, roles, short);
      ReferAllSpec(run, AllUserRefs(roles, short, refs));
      AllUserNamesFresh(roles, short, refs);
    }
  }

  /** A completed load made the calls for each per-role user, then for the default user, then one flush. */
  lemma LoadCompleted(log: seq<Action>, refs: map<string, Entity>, roles: seq<string>, short: string -> string)
    requires GroupsPresent(roles, short, refs) && KeysFresh(UserKeys(roles, short), refs) && DefaultUserKey !in refs
    ensures var items := AllUserRefs(roles, short, refs);
      LoadRun(Run(log, refs, Pass), roles, short) == Run(log + ReferActions(items) + [FlushCall], Bind(refs, items), Pass)
  {
    var run := Run(log, refs, Pass);
    LoadRunWithGroups(run, roles, short);
    ReferAllSpec(run, AllUserRefs(roles, short, refs));
    AllUserNamesFresh(roles, short, refs);
  }

  /** The user createUser builds for a role whose UserGroup is registered. */
  lemma UserRefFields(role: string, short: string -> string, refs: map<string, Entity>)
    requires GroupKey(role, short) in refs && refs[GroupKey(role, short)].GroupEntity?
    ensures UserRef(role, short, refs) == Ref(
              "User-john-" + short(role),
              UserEntity(User(
                "john-" + short(role), "John", "Doe",
                "john.doe-" + short(role) + "@test.com", "password-" + short(role),
                [refs["UserGroup-" + short(role)].group])))
  {
    var sc := short(role);
    assert "john" + ("-" + sc) == "john-" + sc;
    assert "password" + ("-" + sc) == "password-" + sc;
    assert "john.doe" + ("-" + sc) + "@test.com" == "john.doe-" + sc + "@test.com";
    assert "User-" + ("john" + ("-" + sc)) == "User-john-" + sc;
  }

  /** A completed load persisted exactly the expected users, in order, and flushed once. */
  lemma LoadPersistedAll(log: seq<Action>, refs: map<string, Entity>, roles: seq<string>, short: string -> string)
    requires GroupsPresent(roles, short, refs) && KeysFresh(UserKeys(roles, short), refs) && DefaultUserKey !in refs
    ensures var run := LoadRun(Run(log, refs, Pass), roles, short);
      && Persisted(run.log) == Persisted(log) + Entities(AllUserRefs(roles, short, refs))
      && FlushCount(run.log) == FlushCount(log) + 1
  {
    LoadCompleted(log, refs, roles, short);
    CompletedLogPersisted(log, AllUserRefs(roles, short, refs));
  }

  /**
   * A completed load persisted |roles| + 1 users and flushed exactly once:
   * at position i < |roles| the user "john-<short code>" of roles[i], with
   * matching e-mail and password, surname Doe, first name John and exactly
   * that role's UserGroup; at position |roles| the default user "john" with
   * no group.
   */
  lemma LoadPersistsUsers(log: seq<Action>, refs: map<string, Entity>, roles: seq<string>, short: string -> string, i: nat)
    requires GroupsPresent(roles, short, refs) && KeysFresh(UserKeys(roles, short), refs) && DefaultUserKey !in refs
    requires i <= |roles|
    ensures var run := LoadRun(Run(log, refs, Pass), roles, short);
      var p := Persisted(run.log);
      var k := |Persisted(log)|;
      && |p| == k + |roles| + 1
      && p[..k] == Persisted(log)
      && (i < |roles| ==>
            p[k + i] == UserEntity(User(
              "john-" + short(roles[i]), "John", "Doe",
              "john.doe-" + short(roles[i]) + "@test.com", "password-" + short(roles[i]),
              [refs["UserGroup-" + short(roles[i])].group])))
      && (i == |roles| ==> p[k + i] == UserEntity(User("john", "John", "Doe", "john.doe@test.com", "password", [])))
      && FlushCount(run.log) == FlushCount(log) + 1
  {
    LoadPersistedAll(log, refs, roles, short);
    ExpectedUser(roles, short, refs, i);
    var p := Persisted(log) + Entities(AllUserRefs(roles, short, refs));
    assert p[|Persisted(log)| + i] == Entities(AllUserRefs(roles, short, refs))[i];
  }

  /** The i-th user a completed load is expected to persist. */
  lemma ExpectedUser(roles: seq<string>, short: string -> string, refs: map<string, Entity>, i: nat)
    requires GroupsPresent(roles, short, refs) && i <= |roles|
    ensures var e := Entities(AllUserRefs(roles, short, refs));
      && |e| == |roles| + 1
      && (i < |roles| ==>
            e[i] == UserEntity(User(
              "john-" + short(roles[i]), "John", "Doe",
              "john.doe-" + short(roles[i]) + "@test.com", "password-" + short(roles[i]),
              [refs["UserGroup-" + short(roles[i])].group])))
      && (i == |roles| ==> e[i] == UserEntity(User("john", "John", "Doe", "john.doe@test.com", "password", [])))
  {
    var items := AllUserRefs(roles, short, refs);
    if i < |roles| {
      assert items[i] == UserRef(roles[i], short, refs);
      UserRefFields(roles[i], short, refs);
    } else {
      assert items[i] == DefaultUserRef(short);
    }
  }

  /**
   * Call order of a completed load: each user is persisted and at once
   * registered as "User-" + its username; the flush is the last call.
   */
  lemma LoadCallOrder(log: seq<Action>, refs: map<string, Entity>, roles: seq<string>, short: string -> string, i: nat)
    requires GroupsPresent(roles, short, refs) && KeysFresh(UserKeys(roles, short), refs) && DefaultUserKey !in refs
    requires i <= |roles|
    ensures var run := LoadRun(Run(log, refs, Pass), roles, short);
      && |run.log| == |log| + 2 * (|roles| + 1) + 1
      && run.log[..|log|] == log
      && run.log[|log| + 2 * i].PersistCall?
      && run.log[|log| + 2 * i].entity.UserEntity?
      && run.log[|log| + 2 * i + 1] ==
           AddReferenceCall("User-" + run.log[|log| + 2 * i].entity.user.username, run.log[|log| + 2 * i].entity)
      && run.log[|run.log| - 1] == FlushCall
  {
    var items := AllUserRefs(roles, short, refs);
    LoadCompleted(log, refs, roles, short);
    CompletedLogShape(log, items);
    AllUserRefsNamedByUsername(roles, short, refs);
    assert items[i].entity.UserEntity? && items[i].name == "User-" + items[i].entity.user.username;
  }

  /** Every expected user is a User registered as "User-" + its username. */
  lemma AllUserRefsNamedByUsername(roles: seq<string>, short: string -> string, refs: map<string, Entity>)
    ensures var items := AllUserRefs(roles, short, refs);
      forall i :: 0 <= i < |items| ==>
        items[i].entity.UserEntity? && items[i].name == "User-" + items[i].entity.user.username
  {
    var items := AllUserRefs(roles, short, refs);
    forall i | 0 <= i < |items|
      ensures items[i].entity.UserEntity? && items[i].name == "User-" + items[i].entity.user.username
    {
      if i < |roles| {
        assert items[i] == UserRef(roles[i], short, refs);
      } else {
        assert items[i] == DefaultUserRef(short);
      }
    }
  }

  /** After a completed load each per-role user is registered as "User-john-<short code>" and the default one as "User-john". */
  lemma LoadRegistersUsers(log: seq<Action>, refs: map<string, Entity>, roles: seq<string>, short: string -> string, i: nat)
    requires GroupsPresent(roles, short, refs) && KeysFresh(UserKeys(roles, short), refs) && DefaultUserKey !in refs
    requires i < |roles|
    ensures var run := LoadRun(Run(log, refs, Pass), roles, short);
      && "User-john-" + short(roles[i]) in run.refs
      && run.refs["User-john-" + short(roles[i])] == UserEntity(NewUser(Some(roles[i]), short, [refs["UserGroup-" + short(roles[i])].group]))
      && DefaultUserKey in run.refs
      && run.refs[DefaultUserKey] == UserEntity(User("john", "John", "Doe", "john.doe@test.com", "password", []))
  {
    LoadCompleted(log, refs, roles, short);
    ExpectedRegistrations(refs, roles, short, i);
  }

  /** The table a completed load is expected to leave behind. */
  lemma ExpectedRegistrations(refs: map<string, Entity>, roles: seq<string>, short: string -> string, i: nat)
    requires GroupsPresent(roles, short, refs) && KeysFresh(UserKeys(roles, short), refs) && DefaultUserKey !in refs
    requires i < |roles|
    ensures var b := Bind(refs, AllUserRefs(roles, short, refs));
      && "User-john-" + short(roles[i]) in b
      && b["User-john-" + short(roles[i])] == UserEntity(NewUser(Some(roles[i]), short, [refs["UserGroup-" + short(roles[i])].group]))
      && DefaultUserKey in b
      && b[DefaultUserKey] == UserEntity(User("john", "John", "Doe", "john.doe@test.com", "password", []))
  {
    var items := AllUserRefs(roles, short, refs);
    AllUserNamesFresh(roles, short, refs);
    BindValues(refs, items, i);
    BindValues(refs, items, |roles|);
    assert items[i] == UserRef(roles[i], short, refs);
    UserRefFields(roles[i], short, refs);
    assert items[|roles|] == DefaultUserRef(short);
    assert DefaultUserRef(short).name == DefaultUserKey;
  }

  /** A load that throws has not flushed. */
  lemma LoadFailureDoesNotFlush(log: seq<Action>, refs: map<string, Entity>, roles: seq<string>, short: string -> string)
    requires !(GroupsPresent(roles, short, refs) && KeysFresh(UserKeys(roles, short), refs) && DefaultUserKey !in refs)
    ensures var run := LoadRun(Run(log, refs, Pass), roles, short);
      run.outcome.Fail? && FlushCount(run.log) == FlushCount(log)
  {
    var run := Run(log, refs, Pass);
    LoadSucceedsIff(log, refs, roles, short);
    CreateUsersNoFlush(run, roles, short);
    var mid := CreateUsers(run, roles, short);
    if mid.outcome.Pass? {
      PersistAndReferNoFlush(mid, DefaultUserRef(short));
    }
  }

  /** The per-role loop never flushes. */
  lemma {:induction false} CreateUsersNoFlush(run: Run, roles: seq<string>, short: string -> string)
    ensures FlushCount(CreateUsers(run, roles, short).log) == FlushCount(run.log)
    decreases |roles|
  {
    if roles != [] {
      var mid := CreateUsers(run, roles[..|roles| - 1], short);
      CreateUsersNoFlush(run, roles[..|roles| - 1], short);
      var last := roles[|roles| - 1];
      var key := GroupKey(last, short);
      if mid.outcome.Pass? && key in mid.refs && mid.refs[key].GroupEntity? {
        var u := NewUser(Some(last), short, [mid.refs[key].group]);
        PersistAndReferNoFlush(mid, Ref(UserKey(u), UserEntity(u)));
      }
    }
  }
}
