/**
 * The role fixture loader: one Role per role name, each persisted and then
 * registered as "Role-<short code>", followed by a single flush.
 */
module LoadRoleData {
  import opened Wrappers
  import opened Seeding

  /** Position of this loader among the fixtures. */
  function GetOrder(): (order: int)
    ensures order == 1
  {
    1
  }

  /** `new Role($role)` with its description set. */
  function NewRole(role: string): Role {
    Role(role, "Description - " + role)
  }

  function RoleKey(role: string, short: string -> string): string {
    "Role-" + short(role)
  }

  /** The symbolic names the loader registers, in list order. */
  function RoleKeys(roles: seq<string>, short: string -> string): seq<string> {
    seq(|roles|, i requires 0 <= i < |roles| => RoleKey(roles[i], short))
  }

  /** What createRole registers for each role, in list order. */
  function RoleRefs(roles: seq<string>, short: string -> string): seq<Ref> {
    seq(|roles|, i requires 0 <= i < |roles| => Ref(RoleKey(roles[i], short), RoleEntity(NewRole(roles[i]))))
  }

  /** What load does to a seeding run: create every role, then flush. */
  function LoadRun(run: Run, roles: seq<string>, short: string -> string): Run {
    FlushStep(ReferAll(run, RoleRefs(roles, short)))
  }

  /** createRole */
  method CreateRole(ctx: FixtureContext, role: string, short: string -> string) returns (r: Outcome<FixtureError>)
    modifies ctx
    ensures Run(ctx.log, ctx.refs, r) ==
            PersistAndRefer(old(ctx.Start()), Ref(RoleKey(role, short), RoleEntity(NewRole(role))))
  {
    var entity := RoleEntity(NewRole(role));
    ctx.Persist(entity);
    r := ctx.AddReference(RoleKey(role, short), entity);
  }

  /** load: the roles come from the roles service, and a thrown exception ends the run before the flush. */
  method Load(ctx: FixtureContext, roles: seq<string>, short: string -> string) returns (r: Outcome<FixtureError>)
    modifies ctx
    ensures Run(ctx.log, ctx.refs, r) == LoadRun(old(ctx.Start()), roles, short)
  {
    ghost var start := ctx.Start();
    ghost var items := RoleRefs(roles, short);
    r := Pass;
    var i := 0;
    while i < |roles| && r.Pass?
      invariant 0 <= i <= |roles|
      invariant Run(ctx.log, ctx.refs, r) == ReferAll(start, items[..i])
    {
      assert items[..i + 1][..i] == items[..i];
      r := CreateRole(ctx, roles[i], short);
      i := i + 1;
    }
    if r.Fail? {
      ReferAllStopsAtFailure(start, items, i);
    } else {
      assert items[..i] == items;
      ctx.Flush();
    }
  }

  // ---------------------------------------------------------------------------
  // Lemmas

  lemma RoleRefsNames(roles: seq<string>, short: string -> string)
    ensures Names(RoleRefs(roles, short)) == RoleKeys(roles, short)
  {
  }

  /** load completes exactly when every "Role-<short code>" name is new and they are pairwise distinct. */
  lemma LoadSucceedsIff(log: seq<Action>, refs: map<string, Entity>, roles: seq<string>, short: string -> string)
    ensures LoadRun(Run(log, refs, Pass), roles, short).outcome.Pass? <==> KeysFresh(RoleKeys(roles, short), refs)
  {
    ReferAllSpec(Run(log, refs, Pass), RoleRefs(roles, short));
    RoleRefsNames(roles, short);
  }

  /** A completed load made exactly the persist/addReference calls of its roles, then one flush. */
  lemma LoadCompleted(log: seq<Action>, refs: map<string, Entity>, roles: seq<string>, short: string -> string)
    requires KeysFresh(RoleKeys(roles, short), refs)
    ensures LoadRun(Run(log, refs, Pass), roles, short) ==
            Run(log + ReferActions(RoleRefs(roles, short)) + [FlushCall], Bind(refs, RoleRefs(roles, short)), Pass)
  {
    RoleRefsNames(roles, short);
    ReferAllSpec(Run(log, refs, Pass), RoleRefs(roles, short));
  }

  /**
   * Call order of a completed load: for each role in list order, its Role is
   * persisted and then at once registered as "Role-" + its short code; the
   * flush is the last call.
   */
  lemma LoadCallOrder(log: seq<Action>, refs: map<string, Entity>, roles: seq<string>, short: string -> string, i: nat)
    requires KeysFresh(RoleKeys(roles, short), refs) && i < |roles|
    ensures var run := LoadRun(Run(log, refs, Pass), roles, short);
      && run.outcome == Pass
      && |run.log| == |log| + 2 * |roles| + 1
      && run.log[..|log|] == log
      && run.log[|log| + 2 * i] == PersistCall(RoleEntity(Role(roles[i], "Description - " + roles[i])))
      && run.log[|log| + 2 * i + 1] == AddReferenceCall("Role-" + short(roles[i]), RoleEntity(Role(roles[i], "Description - " + roles[i])))
      && run.log[|run.log| - 1] == FlushCall
  {
    var items := RoleRefs(roles, short);
    LoadCompleted(log, refs, roles, short);
    CompletedLogShape(log, items);
    assert items[i] == Ref("Role-" + short(roles[i]), RoleEntity(Role(roles[i], "Description - " + roles[i])));
  }

  /** A completed load persisted exactly one Role per name, in list order, and flushed exactly once. */
  lemma LoadPersistsEachRole(log: seq<Action>, refs: map<string, Entity>, roles: seq<string>, short: string -> string)
    requires KeysFresh(RoleKeys(roles, short), refs)
    ensures var run := LoadRun(Run(log, refs, Pass), roles, short);
      && Persisted(run.log) == Persisted(log) + seq(|roles|, i requires 0 <= i < |roles| => RoleEntity(Role(roles[i], "Description - " + roles[i])))
      && FlushCount(run.log) == FlushCount(log) + 1
  {
    LoadCompleted(log, refs, roles, short);
    CompletedLogPersisted(log, RoleRefs(roles, short));
  }

  /** After a completed load every role is registered under "Role-" + its short code. */
  lemma LoadRegistersEachRole(log: seq<Action>, refs: map<string, Entity>, roles: seq<string>, short: string -> string, i: nat)
    requires KeysFresh(RoleKeys(roles, short), refs)
    requires i < |roles|
    ensures var run := LoadRun(Run(log, refs, Pass), roles, short);
      "Role-" + short(roles[i]) in run.refs &&
      run.refs["Role-" + short(roles[i])] == RoleEntity(Role(roles[i], "Description - " + roles[i]))
  {
    LoadCompleted(log, refs, roles, short);
    RoleRefsNames(roles, short);
    BindValues(refs, RoleRefs(roles, short), i);
  }

  /** A load that throws has not flushed. */
  lemma LoadFailureDoesNotFlush(log: seq<Action>, refs: map<string, Entity>, roles: seq<string>, short: string -> string)
    requires !KeysFresh(RoleKeys(roles, short), refs)
    ensures var run := LoadRun(Run(log, refs, Pass), roles, short);
      run.outcome.Fail? && FlushCount(run.log) == FlushCount(log)
  {
    LoadSucceedsIff(log, refs, roles, short);
    ReferAllNoFlush(Run(log, refs, Pass), RoleRefs(roles, short));
  }
}
