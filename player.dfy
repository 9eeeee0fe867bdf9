/**
 * The player entity: an entity record plus the logical target cell and the
 * moving flag. Commands arrive one at a time through `InputHandle`; each method
 * is proved against the decision functions of `PlayerRules`.
 */
module Players {
  import opened Wrappers
  import opened Enums
  import opened Tiles
  import opened Roster
  import opened Entities
  import opened PlayerRules

  class PlayerManager {
    /** The entity record the player extends: drawn cell, facing, state, death flag, id. */
    const entity: EntityManager
    var targetX: int
    var targetY: int
    /** True while the drawn position is travelling towards the target. */
    var isMoving: bool

    /** The fields the rules read and write. */
    function View(): PlayerView
      reads this, entity
    {
      PlayerView(entity.x, entity.y, targetX, targetY, entity.direction, entity.state, entity.isDead, isMoving)
    }

    constructor (id: Id)
      ensures fresh(entity) && entity.id == id && entity.kind == None
      ensures View() == PlayerView(0, 0, 0, 0, Top, Idle, false, false)
    {
      entity := new EntityManager(id);
      targetX, targetY := 0, 0;
      isMoving := false;
    }

    /** Initialises the entity record from `params` and puts the target on the same cell. */
    method Init(params: EntityParams)
      modifies this, entity
      ensures entity.kind == Some(params.kind)
      ensures View() == old(View()).(x := params.x, y := params.y, targetX := params.x, targetY := params.y,
                                     direction := params.direction, state := params.state)
    {
      entity.Init(params);
      targetX := entity.x;
      targetY := entity.y;
    }

    /** One controller command: dropped when busy, else an attack, a rejection, or a committed step or turn. */
    method InputHandle(c: ControllerEvent, tileInfo: Grid, bursts: seq<Pos>, enemies: seq<Occupant>)
      returns (out: Outcome)
      modifies this, entity
      ensures Response(View(), out) == Handle(old(View()), c, tileInfo, bursts, enemies)
      ensures entity.kind == old(entity.kind)
    {
      if entity.state != Idle || isMoving {
        return Ignored;
      }
      var target := CanAttack(c, enemies);
      if target.Some? {
        out := OnAttack(target.value);
        return;
      }
      var verdict := CanMove(c, tileInfo, bursts);
      if verdict == Fault {
        return Crashed;
      }
      if verdict == Illegal {
        entity.SetState(BlockState(c));
        return Blocked;
      }
      out := Move(c);
    }

    /** An enemy's attack landed: the player is dead and takes the state the attack names. */
    method OnBeHit(newState: EntityState)
      modifies entity
      ensures View() == old(View()).(isDead := true, state := newState)
      ensures entity.kind == old(entity.kind)
    {
      entity.isDead := true;
      entity.SetState(newState);
    }

    /**
     * The enemy a command attacks: none for a turn, else the first ENEMY entry
     * standing one step beyond the weapon cell. The source's `canAttack` also
     * calls `onAttack` on a hit; here `InputHandle` makes that call.
     */
    method CanAttack(c: ControllerEvent, enemies: seq<Occupant>) returns (target: Option<Id>)
      ensures target == AttackTarget(View(), c, enemies)
    {
      if c == CtrlTurnLeft || c == CtrlTurnRight {
        return None;
      }
      var weapon := Step(Pos(entity.x, entity.y), entity.direction);
      var attackPoint := Step(weapon, CommandDirection(c));
      var foes := Enemies(enemies);
      var i := 0;
      while i < |foes|
        invariant 0 <= i <= |foes|
        invariant forall j :: 0 <= j < i ==> !foes[j].At(attackPoint)
      {
        if foes[i].x == attackPoint.x && foes[i].y == attackPoint.y {
          return Some(foes[i].id);
        }
        i := i + 1;
      }
      return None;
    }

    /** Sets the ATTACK state and emits PLAYER_ATTACK with the enemy's id. */
    method OnAttack(enemyId: Id) returns (out: Outcome)
      modifies entity
      ensures out == Attacked(enemyId)
      ensures View() == old(View()).(state := Attack)
      ensures entity.kind == old(entity.kind)
    {
      entity.SetState(Attack);
      out := Attacked(enemyId);
    }

    /** Whether a command is legal on the grid and bursts, or throws while deciding. */
    method CanMove(c: ControllerEvent, tileInfo: Grid, bursts: seq<Pos>) returns (verdict: Verdict)
      ensures verdict == MoveVerdict(View(), c, tileInfo, bursts)
    {
      var x, y, direction := targetX, targetY, entity.direction;
      var weapon := Step(Pos(entity.x, entity.y), entity.direction);
      if c == CtrlTurnLeft || c == CtrlTurnRight {
        var body := TurnShift(Pos(x, y), direction, c);
        var reach := TurnShift(weapon, direction, c);
        if Absent(tileInfo, body) && Absent(tileInfo, reach) {
          return Legal;
        }
        if Absent(tileInfo, body) {
          return Fault;
        }
        if !CellAt(tileInfo, body).value.turnable {
          return Illegal;
        }
        if Absent(tileInfo, reach) {
          return Fault;
        }
        return if CellAt(tileInfo, reach).value.turnable then Legal else Illegal;
      }
      var d := CommandDirection(c);
      var checkMovePos := Step(Pos(x, y), d);
      var checkTurnPos := Step(weapon, d);
      if Absent(tileInfo, checkMovePos) {
        var i := 0;
        while i < |bursts|
          invariant 0 <= i <= |bursts|
          invariant checkMovePos !in bursts[..i]
        {
          if bursts[i].x == checkMovePos.x && bursts[i].y == checkMovePos.y {
            return Legal;
          }
          i := i + 1;
        }
        assert bursts[..i] == bursts;
        return Illegal;
      }
      if !CellAt(tileInfo, checkMovePos).value.moveable {
        return Illegal;
      }
      if Absent(tileInfo, checkTurnPos) {
        return Legal;
      }
      return if CellAt(tileInfo, checkTurnPos).value.turnable then Legal else Illegal;
    }

    /** Commits a legal command: a step moves the target, a turn rotates the facing. */
    method Move(c: ControllerEvent) returns (out: Outcome)
      modifies this, entity
      ensures Response(View(), out) == Commit(old(View()), c)
      ensures entity.kind == old(entity.kind)
    {
      match c
      case CtrlTop =>
        out := Moved(targetX, targetY, Top);
        targetY := targetY - 1;
      case CtrlBottom =>
        out := Moved(targetX, targetY, Bottom);
        targetY := targetY + 1;
      case CtrlLeft =>
        out := Moved(targetX, targetY, Left);
        targetX := targetX - 1;
      case CtrlRight =>
        out := Moved(targetX, targetY, Right);
        targetX := targetX + 1;
      case CtrlTurnLeft =>
        match entity.direction {
          case Top => entity.SetDirection(Left);
          case Left => entity.SetDirection(Bottom);
          case Bottom => entity.SetDirection(Right);
          case Right => entity.SetDirection(Top);
        }
        entity.SetState(TurnLeft);
        out := Turned;
      case CtrlTurnRight =>
        match entity.direction {
          case Top => entity.SetDirection(Right);
          case Right => entity.SetDirection(Bottom);
          case Bottom => entity.SetDirection(Left);
          case Left => entity.SetDirection(Top);
        }
        entity.SetState(TurnRight);
        out := Turned;
    }

    /** The first frame after a step: the drawn position starts travelling. */
    method StartMoving()
      modifies this
      ensures isMoving == (old(isMoving) || entity.x != targetX || entity.y != targetY)
      ensures targetX == old(targetX) && targetY == old(targetY)
    {
      if !isMoving && (entity.x != targetX || entity.y != targetY) {
        isMoving := true;
      }
    }

    /** The frame on which the drawn position reaches the target: it snaps there and the player is no longer moving. */
    method Settle()
      modifies this, entity
      ensures View() == old(View()).(x := old(targetX), y := old(targetY), isMoving := false)
      ensures entity.kind == old(entity.kind)
    {
      entity.x, entity.y := targetX, targetY;
      isMoving := false;
    }
  }

  /**
   * Two steps in a row before the first animation frame: the second command
   * still finds the player idle and not moving, and its weapon cell is taken
   * from the drawn cell, which has not moved yet. On an open 3x3 map a player
   * at (1,2) facing TOP steps TOP twice, and both steps are taken.
   */
  method TwoStepsBeforeFirstFrame(id: Id) returns (first: Outcome, second: Outcome, target: Pos)
    ensures first == Moved(1, 2, Top) && second == Moved(1, 1, Top) && target == Pos(1, 0)
  {
    var open := Some(Tile(true, true));
    var g: Grid := [[open, open, open], [open, open, open], [open, open, open]];
    var p := new PlayerManager(id);
    p.Init(EntityParams(1, 2, Player, Idle, Top));
    first := p.InputHandle(CtrlTop, g, [], []);
    second := p.InputHandle(CtrlTop, g, [], []);
    target := Pos(p.targetX, p.targetY);
  }
}
