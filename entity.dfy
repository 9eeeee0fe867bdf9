/**
 * The record every entity (player, enemy, door) carries: its cell, kind,
 * behavioural state, facing, death flag and a fixed id. The setters of `state`
 * and `direction` also drive an animation state machine; that side effect is
 * outside this model, so a setter here only stores its argument.
 */
module Entities {
  import opened Wrappers
  import opened Enums
  import opened Roster

  /** The parameters an entity is initialised from (IEntity). */
  datatype EntityParams = EntityParams(x: int, y: int, kind: EntityType, state: EntityState, direction: Direction)

  /** The payload of the ENTITY_DEATH event. */
  datatype DeathReport = DeathReport(x: int, y: int, kind: Option<EntityType>, id: Id)

  class EntityManager {
    var x: int
    var y: int
    /** Fixed when the entity is created (a random digit string in the game). */
    const id: Id
    var state: EntityState
    var direction: Direction
    /** `None` until `Init` gives the entity its kind. */
    var kind: Option<EntityType>
    var isDead: bool

    /** A fresh entity: at (0,0), idle, facing TOP, alive, kind not yet set. */
    constructor (id: Id)
      ensures this.id == id
      ensures x == 0 && y == 0 && state == Idle && direction == Top && kind == None && !isDead
    {
      this.id := id;
      x, y := 0, 0;
      state, direction := Idle, Top;
      kind := None;
      isDead := false;
    }

    /** The `state` setter: stores the new state, nothing else. */
    method SetState(newState: EntityState)
      modifies this
      ensures state == newState
      ensures x == old(x) && y == old(y) && direction == old(direction) && kind == old(kind) && isDead == old(isDead)
    {
      state := newState;
    }

    /** The `direction` setter: stores the new facing, nothing else. */
    method SetDirection(newDirection: Direction)
      modifies this
      ensures direction == newDirection
      ensures x == old(x) && y == old(y) && state == old(state) && kind == old(kind) && isDead == old(isDead)
    {
      direction := newDirection;
    }

    /** Marks the entity dead and reports its own cell, kind and id, all unchanged. */
    method Death() returns (report: DeathReport)
      modifies this
      ensures isDead && state == EntityState.Death
      ensures x == old(x) && y == old(y) && kind == old(kind) && direction == old(direction)
      ensures report == DeathReport(old(x), old(y), old(kind), id)
    {
      isDead := true;
      SetState(EntityState.Death);
      report := DeathReport(x, y, kind, id);
    }

    /** Copies position, kind, state and facing from `params`; the death flag is left as it was. */
    method Init(params: EntityParams)
      modifies this
      ensures x == params.x && y == params.y && kind == Some(params.kind)
      ensures state == params.state && direction == params.direction
      ensures isDead == old(isDead)
    {
      x := params.x;
      y := params.y;
      kind := Some(params.kind);
      SetState(params.state);
      SetDirection(params.direction);
    }
  }

  /** A fresh entity initialised from `params` keeps its id and reports exactly the cell and kind it was given when it dies. */
  method SpawnAndKill(id: Id, params: EntityParams) returns (report: DeathReport)
    ensures report == DeathReport(params.x, params.y, Some(params.kind), id)
  {
    var e := new EntityManager(id);
    e.Init(params);
    report := e.Death();
  }
}
