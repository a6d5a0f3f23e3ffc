/**
 * What the fixture loaders share: the entities they create, the object manager
 * they persist to and flush, and the reference repository in which each loader
 * registers what it created under a symbolic name for the loaders that run later.
 */
module Seeding {
  import opened Wrappers

  /** A Role row; its identifier is the role name. */
  datatype Role = Role(id: string, description: string)

  /** A UserGroup row, made by a group loader that is not part of this model; only its identity matters here. */
  datatype UserGroup = UserGroup(id: string)

  datatype User = User(
    username: string,
    firstname: string,
    surname: string,
    email: string,
    plainPassword: string,
    userGroups: seq<UserGroup>)

  datatype Entity = RoleEntity(role: Role) | GroupEntity(group: UserGroup) | UserEntity(user: User)

  /** One call a loader makes on the object manager or on the reference repository. */
  datatype Action = PersistCall(entity: Entity) | AddReferenceCall(name: string, entity: Entity) | FlushCall

  /** The exceptions the reference repository and the entity setters throw. */
  datatype FixtureError =
    | ReferenceExists(name: string)   // addReference on a name already registered
    | ReferenceMissing(name: string)  // getReference on a name never registered
    | NotAUserGroup(name: string)     // the referenced entity is not a UserGroup (addUserGroup's parameter type)

  /**
   * A seeding run seen as a value: the calls made so far, the reference table,
   * and whether the last call threw. Once a call has thrown, nothing further happens.
   */
  datatype Run = Run(log: seq<Action>, refs: map<string, Entity>, outcome: Outcome<FixtureError>)

  /** An entity together with the name it is to be registered under. */
  datatype Ref = Ref(name: string, entity: Entity)

  function PersistStep(run: Run, e: Entity): Run {
    if run.outcome.Fail? then run else run.(log := run.log + [PersistCall(e)])
  }

  /** ReferenceRepository::addReference: refuses a name that is already taken. */
  function AddReferenceStep(run: Run, name: string, e: Entity): Run {
    if run.outcome.Fail? then run
    else if name in run.refs then run.(outcome := Fail(ReferenceExists(name)))
    else run.(log := run.log + [AddReferenceCall(name, e)], refs := run.refs[name := e])
  }

  function FlushStep(run: Run): Run {
    if run.outcome.Fail? then run else run.(log := run.log + [FlushCall])
  }

  /** ReferenceRepository::getReference */
  function Lookup(refs: map<string, Entity>, name: string): (r: Result<Entity, FixtureError>)
    ensures r.Ok? <==> name in refs
    ensures r.Ok? ==> r.value == refs[name]
    ensures r.Err? ==> r.error == ReferenceMissing(name)
  {
    if name in refs then Ok(refs[name]) else Err(ReferenceMissing(name))
  }

  /** Persist an entity, then register it under its name. */
  function PersistAndRefer(run: Run, ref: Ref): Run {
    AddReferenceStep(PersistStep(run, ref.entity), ref.name, ref.entity)
  }

  /** PersistAndRefer for each item in order, stopping at the first failure. */
  function ReferAll(run: Run, items: seq<Ref>): Run
    decreases |items|
  {
    if items == [] then run
    else PersistAndRefer(ReferAll(run, items[..|items| - 1]), items[|items| - 1])
  }

  /** The calls ReferAll makes when nothing fails. */
  function ReferActions(items: seq<Ref>): seq<Action>
    decreases |items|
  {
    if items == [] then []
    else
      var last := items[|items| - 1];
      ReferActions(items[..|items| - 1]) + [PersistCall(last.entity), AddReferenceCall(last.name, last.entity)]
  }

  /** The reference table after registering every item in order. */
  function Bind(refs: map<string, Entity>, items: seq<Ref>): map<string, Entity>
    decreases |items|
  {
    if items == [] then refs
    else Bind(refs, items[..|items| - 1])[items[|items| - 1].name := items[|items| - 1].entity]
  }

  function Names(items: seq<Ref>): seq<string> {
    seq(|items|, i requires 0 <= i < |items| => items[i].name)
  }

  function Entities(items: seq<Ref>): seq<Entity> {
    seq(|items|, i requires 0 <= i < |items| => items[i].entity)
  }

  /** Every name is new: not in the table and not earlier in the list. */
  predicate KeysFresh(names: seq<string>, refs: map<string, Entity>) {
    forall i :: 0 <= i < |names| ==> names[i] !in refs && names[i] !in names[..i]
  }

  /** The entities handed to persist, in call order. */
  function Persisted(log: seq<Action>): seq<Entity>
    decreases |log|
  {
    if log == [] then []
    else (if log[0].PersistCall? then [log[0].entity] else []) + Persisted(log[1..])
  }

  /** How many times flush was called. */
  function FlushCount(log: seq<Action>): nat
    decreases |log|
  {
    if log == [] then 0
    else (if log[0].FlushCall? then 1 else 0) + FlushCount(log[1..])
  }

  // ---------------------------------------------------------------------------
  // Lemmas

  lemma {:induction false} PersistedAppend(a: seq<Action>, b: seq<Action>)
    ensures Persisted(a + b) == Persisted(a) + Persisted(b)
    ensures FlushCount(a + b) == FlushCount(a) + FlushCount(b)
    decreases |a|
  {
    if a == [] {
      assert a + b == b;
    } else {
      assert (a + b)[1..] == a[1..] + b;
      PersistedAppend(a[1..], b);
    }
  }

  lemma KeysFreshSnoc(names: seq<string>, k: string, refs: map<string, Entity>)
    ensures KeysFresh(names + [k], refs) <==> KeysFresh(names, refs) && k !in refs && k !in names
  {
    var s := names + [k];
    assert s[..|names|] == names;
    forall i | 0 <= i < |names|
      ensures s[i] == names[i] && s[..i] == names[..i]
    {
    }
  }

  lemma NamesSnoc(items: seq<Ref>)
    requires items != []
    ensures Names(items) == Names(items[..|items| - 1]) + [items[|items| - 1].name]
    ensures Entities(items) == Entities(items[..|items| - 1]) + [items[|items| - 1].entity]
  {
  }

  /** The shape of a successful ReferAll: each entity is persisted, then immediately registered. */
  lemma {:induction false} ReferActionsShape(items: seq<Ref>)
    ensures |ReferActions(items)| == 2 * |items|
    ensures forall i :: 0 <= i < |items| ==>
              ReferActions(items)[2 * i] == PersistCall(items[i].entity) &&
              ReferActions(items)[2 * i + 1] == AddReferenceCall(items[i].name, items[i].entity)
    decreases |items|
  {
    if items != [] {
      var init := items[..|items| - 1];
      ReferActionsShape(init);
      forall i | 0 <= i < |items| - 1 ensures init[i] == items[i] { }
    }
  }

  /** A successful ReferAll persists exactly the items' entities, in order, and never flushes. */
  lemma {:induction false} ReferActionsPersisted(items: seq<Ref>)
    ensures Persisted(ReferActions(items)) == Entities(items)
    ensures FlushCount(ReferActions(items)) == 0
    decreases |items|
  {
    if items != [] {
      var init := items[..|items| - 1];
      var last := items[|items| - 1];
      var tail := [PersistCall(last.entity), AddReferenceCall(last.name, last.entity)];
      ReferActionsPersisted(init);
      PersistedAppend(ReferActions(init), tail);
      assert tail[1..] == [AddReferenceCall(last.name, last.entity)];
      assert Persisted(tail[1..]) == [] && FlushCount(tail[1..]) == 0 by {
        assert tail[1..][1..] == [];
      }
      assert Persisted(tail) == [last.entity];
      NamesSnoc(items);
    }
  }

  /** What Bind does to the table: it gains the items' names, and an entry whose name is not among them keeps its value. */
  lemma {:induction false} BindKeys(refs: map<string, Entity>, items: seq<Ref>, k: string)
    ensures k in Bind(refs, items) <==> k in refs || k in Names(items)
    ensures k in refs && k !in Names(items) ==> Bind(refs, items)[k] == refs[k]
    decreases |items|
  {
    if items != [] {
      NamesSnoc(items);
      BindKeys(refs, items[..|items| - 1], k);
    }
  }

  /** With fresh names, each item's name leads to its own entity. */
  lemma {:induction false} BindValues(refs: map<string, Entity>, items: seq<Ref>, i: nat)
    requires KeysFresh(Names(items), refs)
    requires i < |items|
    ensures items[i].name in Bind(refs, items) && Bind(refs, items)[items[i].name] == items[i].entity
    decreases |items|
  {
    var n := |items|;
    var init := items[..n - 1];
    NamesSnoc(items);
    KeysFreshSnoc(Names(init), items[n - 1].name, refs);
    if i < n - 1 {
      BindValues(refs, init, i);
      assert init[i] == items[i];
      assert Names(init)[i] == items[i].name;
      assert items[i].name != items[n - 1].name;
    }
  }

  /**
   * ReferAll succeeds exactly when every name is fresh, and then it has made
   * exactly the calls ReferActions lists and bound every name.
   */
  lemma {:induction false} ReferAllSpec(run: Run, items: seq<Ref>)
    requires run.outcome.Pass?
    ensures ReferAll(run, items).outcome.Pass? <==> KeysFresh(Names(items), run.refs)
    ensures ReferAll(run, items).outcome.Pass? ==>
              ReferAll(run, items) == Run(run.log + ReferActions(items), Bind(run.refs, items), Pass)
    decreases |items|
  {
    if items == [] {
      assert run.log + [] == run.log;
    } else {
      var n := |items|;
      var init := items[..n - 1];
      var last := items[n - 1];
      ReferAllSpec(run, init);
      NamesSnoc(items);
      KeysFreshSnoc(Names(init), last.name, run.refs);
      var mid := ReferAll(run, init);
      if mid.outcome.Pass? {
        BindKeys(run.refs, init, last.name);
        assert run.log + ReferActions(init) + [PersistCall(last.entity)] + [AddReferenceCall(last.name, last.entity)]
            == run.log + ReferActions(items);
      }
    }
  }

  /** A failure part-way stops ReferAll: the items after it change nothing. */
  lemma {:induction false} ReferAllStopsAtFailure(run: Run, items: seq<Ref>, i: nat)
    requires i <= |items|
    requires ReferAll(run, items[..i]).outcome.Fail?
    ensures ReferAll(run, items) == ReferAll(run, items[..i])
    decreases |items|
  {
    if i == |items| {
      assert items[..i] == items;
    } else {
      var init := items[..|items| - 1];
      assert init[..i] == items[..i];
      ReferAllStopsAtFailure(run, init, i);
    }
  }

  /** ReferAll never flushes, whether it succeeds or not. */
  lemma {:induction false} ReferAllNoFlush(run: Run, items: seq<Ref>)
    ensures FlushCount(ReferAll(run, items).log) == FlushCount(run.log)
    decreases |items|
  {
    if items != [] {
      var mid := ReferAll(run, items[..|items| - 1]);
      ReferAllNoFlush(run, items[..|items| - 1]);
      PersistAndReferNoFlush(mid, items[|items| - 1]);
    }
  }

  lemma PersistAndReferNoFlush(run: Run, ref: Ref)
    ensures FlushCount(PersistAndRefer(run, ref).log) == FlushCount(run.log)
  {
    var p := PersistStep(run, ref.entity);
    PersistedAppend(run.log, [PersistCall(ref.entity)]);
    PersistedAppend(p.log, [AddReferenceCall(ref.name, ref.entity)]);
  }

  /**
   * The log of a completed loader, call by call: what came before, then for
   * each item its persist followed at once by its registration, then the flush.
   */
  lemma CompletedLogShape(log: seq<Action>, items: seq<Ref>)
    ensures var all := log + ReferActions(items) + [FlushCall];
      && |all| == |log| + 2 * |items| + 1
      && all[..|log|] == log
      && (forall i :: 0 <= i < |items| ==>
            all[|log| + 2 * i] == PersistCall(items[i].entity) &&
            all[|log| + 2 * i + 1] == AddReferenceCall(items[i].name, items[i].entity))
      && all[|all| - 1] == FlushCall
  {
    var acts := ReferActions(items);
    var all := log + acts + [FlushCall];
    ReferActionsShape(items);
    forall i | 0 <= i < |items|
      ensures all[|log| + 2 * i] == acts[2 * i] && all[|log| + 2 * i + 1] == acts[2 * i + 1]
    {
    }
  }

  /** A completed loader persisted exactly the items' entities, in order, after what came before, and flushed once. */
  lemma CompletedLogPersisted(log: seq<Action>, items: seq<Ref>)
    ensures Persisted(log + ReferActions(items) + [FlushCall]) == Persisted(log) + Entities(items)
    ensures FlushCount(log + ReferActions(items) + [FlushCall]) == FlushCount(log) + 1
  {
    var acts := ReferActions(items);
    ReferActionsPersisted(items);
    PersistedAppend(log, acts);
    PersistedAppend(log + acts, [FlushCall]);
    assert Persisted([FlushCall]) == [] && FlushCount([FlushCall]) == 1;
  }

  /**
   * The object manager and the reference repository of one seeding run,
   * updated in place by the loaders.
   */
  class FixtureContext {
    var log: seq<Action>
    var refs: map<string, Entity>

    constructor (refs0: map<string, Entity>)
      ensures log == [] && refs == refs0
    {
      log := [];
      refs := refs0;
    }

    /** The current state, as the starting point of a call that has not thrown. */
    function Start(): Run
      reads this
    {
      Run(log, refs, Pass)
    }

    /** ObjectManager::persist */
    method Persist(e: Entity)
      modifies this`log
      ensures log == old(log) + [PersistCall(e)]
    {
      log := log + [PersistCall(e)];
    }

    /** ObjectManager::flush */
    method Flush()
      modifies this`log
      ensures log == old(log) + [FlushCall]
    {
      log := log + [FlushCall];
    }

    /** ReferenceRepository::addReference */
    method AddReference(name: string, e: Entity) returns (r: Outcome<FixtureError>)
      modifies this
      ensures Run(log, refs, r) == AddReferenceStep(old(Start()), name, e)
    {
      if name in refs {
        r := Fail(ReferenceExists(name));
      } else {
        log := log + [AddReferenceCall(name, e)];
        refs := refs[name := e];
        r := Pass;
      }
    }

    /** ReferenceRepository::getReference */
    method GetReference(name: string) returns (r: Result<Entity, FixtureError>)
      ensures r == Lookup(refs, name)
    {
      if name in refs {
        r := Ok(refs[name]);
      } else {
        r := Err(ReferenceMissing(name));
      }
    }
  }
}
