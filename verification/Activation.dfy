/** Activation of twins: services/activation/services.py, services/activation/activation.py and
    services/twin/registry.py. */
module Activation {
  import opened Common

  type TenantId = int
  type EntityId = int
  type Key = (TenantId, EntityId)

  // ---------------------------------------------------------------- the transition table

  datatype LogState = Created | Bound | Active | Inactive | Error

  const VALID_TRANSITIONS: map<LogState, set<LogState>> := map[
    Created := {Bound, Active, Error},
    Bound := {Active, Error},
    Active := {Inactive, Error},
    Inactive := {Active},
    Error := {Created, Bound}
  ]

  predicate ValidateTransition(current: LogState, target: LogState) {
    current in VALID_TRANSITIONS && target in VALID_TRANSITIONS[current]
  }

  // ---------------------------------------------------------------- the runtime registry

  datatype TwinEntity = TwinEntity(id: EntityId, tenant: TenantId, name: string, entityType: string)

  datatype ActivationError =
    | EntityNotFound
    | AlreadyActive
    | AlreadyInactive
    | LogNotFound
    | WrongState(from: LogState, to: LogState)
    | AlreadyRegistered

  type Storage = map<TenantId, map<EntityId, TwinEntity>>

  /** The entity stored for a tenant under an id; an inner dictionary may be empty. */
  function Lookup(storage: Storage, key: Key): Option<TwinEntity> {
    if key.0 in storage && key.1 in storage[key.0] then Some(storage[key.0][key.1]) else None
  }

  class TwinEntityRegistry {
    var storage: Storage

    /** Every entity is stored under its own tenant and id. */
    ghost predicate Valid()
      reads this
    {
      forall key :: Lookup(storage, key).Some? ==>
        Lookup(storage, key).value.tenant == key.0 && Lookup(storage, key).value.id == key.1
    }

    constructor ()
      ensures Valid() && storage == map[]
    {
      storage := map[];
    }

    method Register(entity: TwinEntity) returns (r: Result<TwinEntity, ActivationError>)
      requires Valid()
      modifies this
      ensures Valid()
      ensures r == if Lookup(old(storage), (entity.tenant, entity.id)).Some? then Err(AlreadyRegistered) else Ok(entity)
      ensures forall key :: Lookup(storage, key) ==
                if r.Ok? && key == (entity.tenant, entity.id) then Some(entity) else Lookup(old(storage), key)
    {
      var t := entity.tenant;
      if t !in storage {
        storage := storage[t := map[]];
      }
      if entity.id in storage[t] {
        return Err(AlreadyRegistered);
      }
      storage := storage[t := storage[t][entity.id := entity]];
      return Ok(entity);
    }

    /** `get`, with its second check of the tenant. */
    method Get(id: EntityId, tenant: TenantId) returns (r: Option<TwinEntity>)
      requires Valid()
      ensures r == Lookup(storage, (tenant, id))
    {
      assert Lookup(storage, (tenant, id)).Some? ==> Lookup(storage, (tenant, id)).value.tenant == tenant;
      if tenant !in storage || id !in storage[tenant] {
        return None;
      }
      var entity := storage[tenant][id];
      if entity.tenant != tenant {
        return None;
      }
      return Some(entity);
    }

    method Contains(id: EntityId, tenant: TenantId) returns (b: bool)
      requires Valid()
      ensures b == Lookup(storage, (tenant, id)).Some?
    {
      var found := Get(id, tenant);
      return found.Some?;
    }

    method Remove(id: EntityId, tenant: TenantId) returns (removed: bool)
      requires Valid()
      modifies this
      ensures Valid()
      ensures removed == Lookup(old(storage), (tenant, id)).Some?
      ensures forall key :: Lookup(storage, key) == if key == (tenant, id) then None else Lookup(old(storage), key)
    {
      if tenant in storage && id in storage[tenant] {
        storage := storage[tenant := storage[tenant] - {id}];
        return true;
      }
      return false;
    }

    method Clear(tenant: TenantId) returns (count: nat)
      requires Valid()
      modifies this
      ensures Valid()
      ensures count == if tenant in old(storage) then |old(storage)[tenant]| else 0
      ensures forall key :: Lookup(storage, key) == if key.0 == tenant then None else Lookup(old(storage), key)
    {
      count := if tenant in storage then |storage[tenant]| else 0;
      storage := storage - {tenant};
    }
  }

  // ---------------------------------------------------------------- the service

  datatype Log = Log(state: LogState, binding: Option<int>)

  datatype PersistentEntity = PersistentEntity(name: string, definitionCode: Option<string>)

  /** What the rest of the system can see: the logs and which entities are registered. */
  datatype World = World(entities: set<Key>, logs: map<Key, Log>, registered: set<Key>) {
    /** Without a log an entity counts as created. */
    function StateOf(key: Key): LogState {
      if key in logs then logs[key].state else Created
    }

    function EnsureLog(key: Key): World {
      if key in logs then this else this.(logs := logs[key := Log(Created, None)])
    }

    function SetState(key: Key, state: LogState): World
      requires key in logs
    {
      this.(logs := logs[key := logs[key].(state := state)])
    }

    /** An entity is registered exactly when its log is active. */
    ghost predicate InSync() {
      forall key {:trigger key in registered} {:trigger StateOf(key)} :: key in registered <==> StateOf(key) == Active
    }
  }

  datatype Op =
    | Activate(key: Key)
    | Deactivate(key: Key)
    | BindDevice(key: Key, binding: int)
    | GetStatus(key: Key)
    | Provision(key: Key)

  function Outcome(w: World, op: Op): (World, Option<ActivationError>) {
    match op
    case Activate(key) =>
      if key !in w.entities then (w, Some(EntityNotFound))
      else
        var w' := w.EnsureLog(key);
        var state := w'.logs[key].state;
        if state == Active then (w', Some(AlreadyActive))
        else if state != Created && state != Bound then (w', Some(WrongState(state, Active)))
        else if key in w.registered then (w', Some(AlreadyRegistered))
        else (w'.SetState(key, Active).(registered := w.registered + {key}), None)
    case Deactivate(key) =>
      if key !in w.entities then (w, Some(EntityNotFound))
      else if key !in w.logs then (w, Some(LogNotFound))
      else if w.logs[key].state == Inactive then (w, Some(AlreadyInactive))
      else if w.logs[key].state != Active then (w, Some(WrongState(w.logs[key].state, Inactive)))
      else (w.SetState(key, Inactive).(registered := w.registered - {key}), None)
    case BindDevice(key, binding) =>
      var w' := w.EnsureLog(key);
      var state := w'.logs[key].state;
      if state != Created && state != Bound then (w', Some(WrongState(state, Bound)))
      else (w'.(logs := w'.logs[key := Log(Bound, Some(binding))]), None)
    case GetStatus(key) =>
      (w.EnsureLog(key), None)
    case Provision(key) =>
      (w.(entities := w.entities + {key}), None)
  }

  /** The runtime object of an entity; without a definition its type is "generic". */
  function RuntimeEntity(key: Key, entity: PersistentEntity): TwinEntity {
    var entityType := if entity.definitionCode.Some? then entity.definitionCode.value else "generic";
    TwinEntity(key.1, key.0, entity.name, entityType)
  }

  /** The registered object carries the ids and the name of the entity, and the code of its definition as its type. */
  ghost predicate IsRuntimeOf(found: Option<TwinEntity>, key: Key, entity: PersistentEntity) {
    && found.Some? && found.value.tenant == key.0 && found.value.id == key.1 && found.value.name == entity.name
    && (match entity.definitionCode
        case Some(code) => found.value.entityType == code
        case None => found.value.entityType == "generic")
  }

  class TwinActivationService {
    const registry: TwinEntityRegistry
    var entities: map<Key, PersistentEntity>
    var logs: map<Key, Log>

    ghost predicate Reflects(w: World)
      reads this, registry
    {
      && w.entities == entities.Keys && w.logs == logs
      && forall key :: key in w.registered <==> Lookup(registry.storage, key).Some?
    }

    constructor (registry: TwinEntityRegistry, entities: map<Key, PersistentEntity>)
      ensures this.registry == registry && this.entities == entities && logs == map[]
    {
      this.registry := registry;
      this.entities := entities;
      logs := map[];
    }

    method EnsureLog(key: Key) returns (log: Log)
      modifies this`logs
      ensures key in logs && log == logs[key]
      ensures logs == if key in old(logs) then old(logs) else old(logs)[key := Log(Created, None)]
    {
      if key !in logs {
        logs := logs[key := Log(Created, None)];
      }
      return logs[key];
    }

    method Activate(key: Key, ghost w: World) returns (r: Result<Log, ActivationError>)
      requires registry.Valid() && Reflects(w)
      modifies this`logs, registry
      ensures registry.Valid() && Reflects(Outcome(w, Op.Activate(key)).0)
      ensures r == match Outcome(w, Op.Activate(key)).1 case Some(e) => Err(e) case None => Ok(logs[key])
      ensures r.Ok? <==> key in entities && Lookup(old(registry.storage), key).None?
                         && (key in old(logs) ==> old(logs)[key].state == Created || old(logs)[key].state == Bound)
      ensures r.Ok? ==>
                && logs == old(logs)[key := Log(Active, if key in old(logs) then old(logs)[key].binding else None)]
                && IsRuntimeOf(Lookup(registry.storage, key), key, entities[key])
      ensures r.Err? ==> logs == old(logs) || (key !in old(logs) && logs == old(logs)[key := Log(Created, None)])
      ensures forall k :: k != key || r.Err? ==> Lookup(registry.storage, k) == Lookup(old(registry.storage), k)
    {
      if key !in entities {
        return Err(EntityNotFound);
      }
      var entity := entities[key];
      var log := EnsureLog(key);
      if log.state == Active {
        return Err(AlreadyActive);
      }
      if log.state != Created && log.state != Bound {
        return Err(WrongState(log.state, Active));
      }
      var registered := registry.Register(RuntimeEntity(key, entity));
      if registered.Err? {
        return Err(registered.error);
      }
      log := log.(state := Active);
      logs := logs[key := log];
      return Ok(log);
    }

    method Deactivate(key: Key, ghost w: World) returns (r: Result<Log, ActivationError>)
      requires registry.Valid() && Reflects(w)
      modifies this`logs, registry
      ensures registry.Valid() && Reflects(Outcome(w, Op.Deactivate(key)).0)
      ensures r == match Outcome(w, Op.Deactivate(key)).1 case Some(e) => Err(e) case None => Ok(logs[key])
      ensures r.Ok? <==> key in entities && key in old(logs) && old(logs)[key].state == Active
      ensures logs == if r.Ok? then old(logs)[key := Log(Inactive, old(logs)[key].binding)] else old(logs)
      ensures forall k :: Lookup(registry.storage, k) ==
                if k == key && r.Ok? then None else Lookup(old(registry.storage), k)
    {
      if key !in entities {
        return Err(EntityNotFound);
      }
      if key !in logs {
        return Err(LogNotFound);
      }
      var log := logs[key];
      if log.state == Inactive {
        return Err(AlreadyInactive);
      }
      if log.state != Active {
        return Err(WrongState(log.state, Inactive));
      }
      var _ := registry.Remove(key.1, key.0);
      log := log.(state := Inactive);
      logs := logs[key := log];
      return Ok(log);
    }

    /** `bind_device` does not look the entity up. */
    method BindDevice(key: Key, binding: int, ghost w: World) returns (r: Result<Log, ActivationError>)
      requires Reflects(w)
      modifies this`logs
      ensures Reflects(Outcome(w, Op.BindDevice(key, binding)).0)
      ensures r == match Outcome(w, Op.BindDevice(key, binding)).1 case Some(e) => Err(e) case None => Ok(logs[key])
      ensures r.Ok? <==> (key in old(logs) ==> old(logs)[key].state == Created || old(logs)[key].state == Bound)
      ensures logs == if r.Ok? then old(logs)[key := Log(Bound, Some(binding))] else old(logs)
    {
      var log := EnsureLog(key);
      if log.state != Created && log.state != Bound {
        return Err(WrongState(log.state, Bound));
      }
      log := Log(Bound, Some(binding));
      logs := logs[key := log];
      return Ok(log);
    }

    method GetStatus(key: Key, ghost w: World) returns (log: Log)
      requires Reflects(w)
      modifies this`logs
      ensures Reflects(Outcome(w, Op.GetStatus(key)).0) && key in logs && log == logs[key]
      ensures logs == if key in old(logs) then old(logs) else old(logs)[key := Log(Created, None)]
    {
      log := EnsureLog(key);
    }
  }

  // ---------------------------------------------------------------- what one call does

  /** Nothing but the log and the registration of this key differs. */
  ghost predicate ElsewhereSame(w: World, w': World, key: Key) {
    && w'.entities == w.entities
    && forall k {:trigger k in w.logs} {:trigger k in w'.logs} {:trigger k in w.registered} :: k != key ==>
         && (k in w'.logs <==> k in w.logs) && (k in w.logs ==> w'.logs[k] == w.logs[k])
         && (k in w'.registered <==> k in w.registered)
  }

  /** Nobody can tell the difference: at most a log in state created has been added. */
  ghost predicate SameStates(w: World, w': World) {
    && w'.entities == w.entities && w'.registered == w.registered
    && (forall k :: k in w.logs ==> k in w'.logs && w'.logs[k] == w.logs[k])
    && forall k :: k in w'.logs && k !in w.logs ==> w'.logs[k] == Log(Created, None)
  }

  ghost predicate HasLog(w: World, key: Key, state: LogState, binding: Option<int>) {
    key in w.logs && w.logs[key].state == state && w.logs[key].binding == binding
  }

  function BindingOf(w: World, key: Key): Option<int> {
    if key in w.logs then w.logs[key].binding else None
  }

  /** Activation succeeds exactly for a known, unregistered entity that is created or bound; then its log is active
      with its binding kept, and it is registered. */
  lemma ActivationDoes(w: World, key: Key)
    ensures var (w', error) := Outcome(w, Activate(key));
            && (error.None? <==> key in w.entities && key !in w.registered && w.StateOf(key) in {Created, Bound})
            && (error.None? ==>
                  HasLog(w', key, Active, BindingOf(w, key)) && key in w'.registered && ElsewhereSame(w, w', key))
            && (error.Some? ==> SameStates(w, w'))
  {
  }

  /** Deactivation succeeds exactly for a known entity that is active; then its log is inactive with its binding kept,
      and it is not registered. A refused one changes nothing. */
  lemma DeactivationDoes(w: World, key: Key)
    ensures var (w', error) := Outcome(w, Deactivate(key));
            && (error.None? <==> key in w.entities && w.StateOf(key) == Active)
            && (error.None? ==>
                  HasLog(w', key, Inactive, BindingOf(w, key)) && key !in w'.registered && ElsewhereSame(w, w', key))
            && (error.Some? ==> w' == w)
            && (error == Some(EntityNotFound) <==> key !in w.entities)
            && (error == Some(LogNotFound) <==> key in w.entities && key !in w.logs)
            && (error == Some(AlreadyInactive) <==> key in w.entities && w.StateOf(key) == Inactive)
  {
  }

  /** Binding succeeds exactly from created or bound, of known and unknown entities; then the log is bound with this
      binding. A refused one changes nothing. */
  lemma BindingDoes(w: World, key: Key, binding: int)
    ensures var (w', error) := Outcome(w, BindDevice(key, binding));
            && (error.None? <==> w.StateOf(key) in {Created, Bound})
            && (error.None? ==>
                  && HasLog(w', key, Bound, Some(binding)) && ElsewhereSame(w, w', key)
                  && w'.registered == w.registered)
            && (error.Some? ==> w' == w && error == Some(WrongState(w.StateOf(key), Bound)))
  {
  }

  lemma StatusAndProvisioningDo(w: World, key: Key)
    ensures var (w', error) := Outcome(w, GetStatus(key));
            error.None? && key in w'.logs && SameStates(w, w')
    ensures var (w', error) := Outcome(w, Provision(key));
            error.None? && w'.entities == w.entities + {key} && w'.logs == w.logs && w'.registered == w.registered
  {
  }

  /** In every run deactivation succeeds exactly for a known entity that is in the registry, and takes it out. */
  lemma DeactivationSucceedsExactly(run: seq<Op>, key: Key)
    ensures var w := WorldAfter(EMPTY, run);
            var (w', error) := Outcome(w, Deactivate(key));
            && (error.None? <==> key in w.entities && key in w.registered)
            && (error.None? ==> w'.StateOf(key) == Inactive && w'.registered == w.registered - {key})
  {
    RunsStayInSync(run);
    var w := WorldAfter(EMPTY, run);
    assert key in w.registered <==> w.StateOf(key) == Active;
    DeactivationDoes(w, key);
  }

  /** The moves that some call makes. */
  ghost predicate IsMade(s: LogState, t: LogState) {
    exists w: World, op, key :: w.StateOf(key) == s && Outcome(w, op).0.StateOf(key) == t && s != t
  }

  function Sample(s: LogState): World {
    World({(0, 0)}, map[(0, 0) := Log(s, None)], if s == Active then {(0, 0)} else {})
  }

  predicate IsMove(s: LogState, t: LogState) {
    (s == Created && t == Bound) || (s == Created && t == Active) || (s == Bound && t == Active) || (s == Active
      && t == Inactive)
  }

  lemma CallsMakeMoves(w: World, op: Op, key: Key)
    ensures var s, t := w.StateOf(key), Outcome(w, op).0.StateOf(key);
            s == t || IsMove(s, t)
  {
  }

  lemma MoveIsMade(s: LogState, t: LogState)
    requires IsMove(s, t)
    ensures IsMade(s, t)
  {
    var w, key: Key := Sample(s), (0, 0);
    var op := if t == Active then Activate(key) else if t == Bound then BindDevice(key, 1) else Deactivate(key);
    assert w.StateOf(key) == s && Outcome(w, op).0.StateOf(key) == t;
  }

  /** The service makes exactly four of the ten moves of the table. */
  lemma MovesAreExactly(s: LogState, t: LogState)
    ensures IsMade(s, t) <==> IsMove(s, t)
    ensures ValidateTransition(s, t) <==>
              || IsMove(s, t) || (s == Inactive && t == Active)
              || (t == Error && s != Inactive && s != Error) || (s == Error && (t == Created || t == Bound))
  {
    if IsMove(s, t) {
      MoveIsMade(s, t);
    }
    if IsMade(s, t) {
      var w: World, op, key :| w.StateOf(key) == s && Outcome(w, op).0.StateOf(key) == t && s != t;
      CallsMakeMoves(w, op, key);
    }
  }

  // ---------------------------------------------------------------- runs

  function WorldAfter(start: World, run: seq<Op>): World {
    if run == [] then start else Outcome(WorldAfter(start, run[..|run| - 1]), run[|run| - 1]).0
  }

  const EMPTY := World({}, map[], {})

  lemma StepKeepsSync(w: World, op: Op)
    requires w.InSync()
    ensures Outcome(w, op).0.InSync()
  {
    var w' := Outcome(w, op).0;
    forall key
      ensures key in w'.registered <==> w'.StateOf(key) == Active
    {
      assert key in w.registered <==> w.StateOf(key) == Active;
    }
  }

  /** How far along its life an entity is. */
  function Age(state: LogState): nat {
    match state
    case Created => 0
    case Bound => 1
    case Active => 2
    case Inactive => 3
    case Error => 4
  }

  /** One call moves a log only along the transition table, and only forward: the table's way back from inactive and
      its error transitions are never taken. */
  lemma StepMovesForward(w: World, op: Op, key: Key)
    ensures var s, s' := w.StateOf(key), Outcome(w, op).0.StateOf(key);
            s == s' || (ValidateTransition(s, s') && Age(s) < Age(s') && s' != Error)
  {
  }

  lemma {:induction false} AgeNeverFalls(start: World, run: seq<Op>, m: nat, n: nat, key: Key)
    requires m <= n <= |run|
    ensures Age(WorldAfter(start, run[..m]).StateOf(key)) <= Age(WorldAfter(start, run[..n]).StateOf(key))
    decreases n - m
  {
    if m < n {
      AgeNeverFalls(start, run, m, n - 1, key);
      assert run[..n][..n - 1] == run[..n - 1];
      StepMovesForward(WorldAfter(start, run[..n - 1]), run[n - 1], key);
    }
  }

  lemma {:induction false} NoErrorState(run: seq<Op>, key: Key)
    ensures WorldAfter(EMPTY, run).StateOf(key) != Error
  {
    if run != [] {
      NoErrorState(run[..|run| - 1], key);
      StepMovesForward(WorldAfter(EMPTY, run[..|run| - 1]), run[|run| - 1], key);
    }
  }

  /** In every run an entity is in the registry exactly when its log is active, no log is ever in error, and an
      inactive log stays inactive for the rest of the run. */
  lemma {:induction false} RunsStayInSync(run: seq<Op>)
    ensures WorldAfter(EMPTY, run).InSync()
    ensures forall key :: WorldAfter(EMPTY, run).StateOf(key) != Error
    ensures forall n, key {:trigger WorldAfter(EMPTY, run[..n]).StateOf(key)} ::
              0 <= n <= |run| && WorldAfter(EMPTY, run[..n]).StateOf(key) == Inactive ==>
                WorldAfter(EMPTY, run).StateOf(key) == Inactive
  {
    if run != [] {
      RunsStayInSync(run[..|run| - 1]);
      StepKeepsSync(WorldAfter(EMPTY, run[..|run| - 1]), run[|run| - 1]);
    }
    forall key
      ensures WorldAfter(EMPTY, run).StateOf(key) != Error
    {
      NoErrorState(run, key);
    }
    forall n, key | 0 <= n <= |run| && WorldAfter(EMPTY, run[..n]).StateOf(key) == Inactive
      ensures WorldAfter(EMPTY, run).StateOf(key) == Inactive
    {
      AgeNeverFalls(EMPTY, run, n, |run|, key);
      assert run[..|run|] == run;
    }
  }

  ghost predicate ActivatesAt(run: seq<Op>, i: nat, key: Key)
    requires i < |run|
  {
    run[i] == Activate(key) && Outcome(WorldAfter(EMPTY, run[..i]), run[i]).1.None?
  }

  /** In every run an entity is activated at most once. */
  lemma ActivatedAtMostOnce(run: seq<Op>, i: nat, j: nat, key: Key)
    requires i < j < |run|
    ensures !(ActivatesAt(run, i, key) && ActivatesAt(run, j, key))
  {
    if ActivatesAt(run, i, key) {
      assert run[..i + 1][..i] == run[..i];
      assert WorldAfter(EMPTY, run[..i + 1]).StateOf(key) == Active;
      AgeNeverFalls(EMPTY, run, i + 1, j, key);
    }
  }

  /** In a reachable world activation succeeds exactly for a known entity that has never been activated; in
      particular the registry never reports it as already registered. */
  lemma ActivationSucceedsExactly(run: seq<Op>, key: Key)
    ensures var w := WorldAfter(EMPTY, run);
            && (Outcome(w, Activate(key)).1.None? <==> key in w.entities && Age(w.StateOf(key)) < Age(Active))
            && Outcome(w, Activate(key)).1 != Some(AlreadyRegistered)
  {
    RunsStayInSync(run);
    var w := WorldAfter(EMPTY, run);
    assert key in w.registered <==> w.StateOf(key) == Active;
  }
}
