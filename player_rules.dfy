/**
 * The decision part of the player's command handling, as pure functions over a
 * snapshot of the player's fields, the tile grid, the bursts and the enemy
 * roster: where the weapon points, whether a command attacks, whether a step
 * or a turn is legal, and what one command does to the player.
 * `Players.PlayerManager` runs these decisions on its fields.
 */
module PlayerRules {
  import opened Wrappers
  import opened Enums
  import opened Tiles
  import opened Roster

  /**
   * The player's fields the rules read and write. `x`/`y` is the drawn cell,
   * `targetX`/`targetY` the logical cell the player is moving to; they differ
   * between a step and the end of its animation.
   */
  datatype PlayerView = PlayerView(
    x: int, y: int, targetX: int, targetY: int,
    direction: Direction, state: EntityState, isDead: bool, isMoving: bool)

  /** What `canMove` decides; `Fault` is a TypeError thrown while deciding. */
  datatype Verdict = Legal | Illegal | Fault

  /** What one command did, with the payload of the event it emitted, if any. */
  datatype Outcome =
    | Ignored                                              // busy: the command is dropped
    | Attacked(target: Id)                                 // PLAYER_ATTACK with the enemy's id
    | Blocked                                              // state set to a BLOCK* variant
    | Moved(fromX: int, fromY: int, heading: Direction)    // PLAYER_MOVE, emitted before the step
    | Turned                                               // facing rotated
    | Crashed                                              // canMove threw; nothing changed

  datatype Response = Response(view: PlayerView, outcome: Outcome)

  /** XYMove on a facing: one cell up (y - 1), down (y + 1), left (x - 1) or right (x + 1). */
  function Step(p: Pos, d: Direction): Pos
  {
    match d
    case Top => Pos(p.x, p.y - 1)
    case Bottom => Pos(p.x, p.y + 1)
    case Left => Pos(p.x - 1, p.y)
    case Right => Pos(p.x + 1, p.y)
  }

  function Opposite(d: Direction): Direction
  {
    match d
    case Top => Bottom
    case Bottom => Top
    case Left => Right
    case Right => Left
  }

  /** A step moves exactly one coordinate by exactly one, and stepping back the opposite way undoes it. */
  lemma StepIsUnit(p: Pos, d: Direction)
    ensures Step(Step(p, d), Opposite(d)) == p
    ensures var q := Step(p, d);
      (q.x == p.x && (q.y == p.y + 1 || q.y == p.y - 1)) || (q.y == p.y && (q.x == p.x + 1 || q.x == p.x - 1))
    ensures forall e :: e != d ==> Step(p, e) != Step(p, d)
  {
  }

  /**
   * The facing a step command moves towards. XYMove switches on
   * `case DIRECTION_ENUM.TOP || CONTROLLER_EVENT.TOP:`, which selects
   * DIRECTION_ENUM.TOP alone, so a controller event moves the cell only because
   * its string value equals the same-named direction's; this function is that
   * assumption.
   */
  function CommandDirection(c: ControllerEvent): Direction
    requires !c.IsTurn()
  {
    match c
    case CtrlTop => Top
    case CtrlBottom => Bottom
    case CtrlLeft => Left
    case CtrlRight => Right
  }

  /** The facing after a TURNLEFT: TOP to LEFT to BOTTOM to RIGHT to TOP. */
  function TurnLeftOf(d: Direction): Direction
  {
    match d
    case Top => Left
    case Left => Bottom
    case Bottom => Right
    case Right => Top
  }

  /** The facing after a TURNRIGHT: TOP to RIGHT to BOTTOM to LEFT to TOP. */
  function TurnRightOf(d: Direction): Direction
  {
    match d
    case Top => Right
    case Right => Bottom
    case Bottom => Left
    case Left => Top
  }

  function NewFacing(d: Direction, c: ControllerEvent): Direction
    requires c.IsTurn()
  {
    if c == CtrlTurnLeft then TurnLeftOf(d) else TurnRightOf(d)
  }

  /** The two turns undo each other, four equal turns restore the facing, and a turn always changes it. */
  lemma TurnsAreInverse(d: Direction)
    ensures TurnRightOf(TurnLeftOf(d)) == d && TurnLeftOf(TurnRightOf(d)) == d
    ensures TurnLeftOf(TurnLeftOf(TurnLeftOf(TurnLeftOf(d)))) == d
    ensures TurnRightOf(TurnRightOf(TurnRightOf(TurnRightOf(d)))) == d
    ensures TurnLeftOf(d) != d && TurnRightOf(d) != d && TurnLeftOf(TurnLeftOf(d)) == Opposite(d)
  {
  }

  /** The cell increments `canMove` applies to both checked cells of a turn, per turn and current facing. */
  function TurnShift(p: Pos, d: Direction, c: ControllerEvent): Pos
    requires c.IsTurn()
  {
    if c == CtrlTurnLeft then
      match d
      case Top => Pos(p.x - 1, p.y)
      case Bottom => Pos(p.x + 1, p.y)
      case Left => Pos(p.x, p.y + 1)
      case Right => Pos(p.x, p.y - 1)
    else
      match d
      case Top => Pos(p.x + 1, p.y)
      case Bottom => Pos(p.x - 1, p.y)
      case Left => Pos(p.x, p.y - 1)
      case Right => Pos(p.x, p.y + 1)
  }

  /** The increment table of a turn is one step towards the facing the turn produces. */
  lemma TurnShiftFollowsNewFacing(p: Pos, d: Direction, c: ControllerEvent)
    requires c.IsTurn()
    ensures TurnShift(p, d, c) == Step(p, NewFacing(d, c))
  {
  }

  /** The body cell: the logical target, never the drawn position. */
  function Body(v: PlayerView): Pos
  {
    Pos(v.targetX, v.targetY)
  }

  /** getWeaponPos: one step from the drawn position towards the facing. */
  function Weapon(v: PlayerView): Pos
  {
    Step(Pos(v.x, v.y), v.direction)
  }

  /** Once the drawn position has caught up with the target, the weapon is the cell ahead of the body. */
  lemma WeaponAheadWhenSettled(v: PlayerView)
    requires v.x == v.targetX && v.y == v.targetY
    ensures Weapon(v) == Step(Body(v), v.direction)
    ensures Weapon(v) != Body(v)
  {
  }

  /** The cell an attack reaches: the weapon cell shifted one more step towards the command. */
  function AttackPoint(v: PlayerView, c: ControllerEvent): Pos
    requires !c.IsTurn()
  {
    Step(Weapon(v), CommandDirection(c))
  }

  /**
   * canAttack: turns never attack; a step attacks the first ENEMY entry of the
   * roster, in list order, that stands on the attack point.
   */
  function AttackTarget(v: PlayerView, c: ControllerEvent, roster: seq<Occupant>): (r: Option<Id>)
    ensures c.IsTurn() ==> r == None
    ensures r.Some? ==>
              !c.IsTurn() && exists e :: e in roster && e.kind == Enemy && e.At(AttackPoint(v, c)) && e.id == r.value
    ensures !c.IsTurn() && (exists e :: e in roster && e.kind == Enemy && e.At(AttackPoint(v, c))) ==> r.Some?
  {
    if c.IsTurn() then None
    else
      var p := AttackPoint(v, c);
      EnemyTargets(roster, p);
      FirstAt(Enemies(roster), p)
  }

  /**
   * canMove. A turn checks the body and weapon cells shifted towards the new
   * facing: both absent is legal, otherwise the source reads `.turnable` of
   * both and throws on the first absent one it reaches. A step checks the body
   * and weapon cells one step on: an absent body cell is legal only on a burst,
   * a present one must be moveable, and then the weapon cell must be absent or
   * turnable.
   */
  function MoveVerdict(v: PlayerView, c: ControllerEvent, g: Grid, bursts: seq<Pos>): Verdict
  {
    if c.IsTurn() then
      var body := TurnShift(Body(v), v.direction, c);
      var weapon := TurnShift(Weapon(v), v.direction, c);
      if Absent(g, body) && Absent(g, weapon) then Legal
      else if Absent(g, body) then Fault
      else if !CellAt(g, body).value.turnable then Illegal
      else if Absent(g, weapon) then Fault
      else if CellAt(g, weapon).value.turnable then Legal
      else Illegal
    else
      var body := Step(Body(v), CommandDirection(c));
      var weapon := Step(Weapon(v), CommandDirection(c));
      if Absent(g, body) then (if body in bursts then Legal else Illegal)
      else if !CellAt(g, body).value.moveable then Illegal
      else if Absent(g, weapon) then Legal
      else if CellAt(g, weapon).value.turnable then Legal
      else Illegal
  }

  /** The rejection state for each command. */
  function BlockState(c: ControllerEvent): EntityState
  {
    match c
    case CtrlTop => BlockFront
    case CtrlBottom => BlockBack
    case CtrlLeft => BlockLeft
    case CtrlRight => BlockRight
    case CtrlTurnLeft => BlockTurnLeft
    case CtrlTurnRight => BlockTurnRight
  }

  /** move: a step moves the target one cell and emits PLAYER_MOVE; a turn rotates the facing and sets TURNLEFT/TURNRIGHT. */
  function Commit(v: PlayerView, c: ControllerEvent): Response
  {
    if c.IsTurn() then
      Response(v.(direction := NewFacing(v.direction, c),
                  state := if c == CtrlTurnLeft then TurnLeft else TurnRight), Turned)
    else
      var d := CommandDirection(c);
      var to := Step(Body(v), d);
      Response(v.(targetX := to.x, targetY := to.y), Moved(v.targetX, v.targetY, d))
  }

  /** inputHandle: drop when busy, else attack, else reject, else commit. */
  function Handle(v: PlayerView, c: ControllerEvent, g: Grid, bursts: seq<Pos>, roster: seq<Occupant>): Response
  {
    if v.state != Idle || v.isMoving then Response(v, Ignored)
    else match AttackTarget(v, c, roster)
      case Some(id) => Response(v.(state := Attack), Attacked(id))
      case None =>
        match MoveVerdict(v, c, g, bursts)
        case Fault => Response(v, Crashed)
        case Illegal => Response(v.(state := BlockState(c)), Blocked)
        case Legal => Commit(v, c)
  }

  // ---- Properties of one command ----

  /** A command that arrives while the player is not IDLE or is still moving changes nothing. */
  lemma BusyInputIsDropped(v: PlayerView, c: ControllerEvent, g: Grid, bursts: seq<Pos>, roster: seq<Occupant>)
    requires v.state != Idle || v.isMoving
    ensures Handle(v, c, g, bursts, roster) == Response(v, Ignored)
  {
  }

  /** Only the position, facing and state can change; the death flag and the moving flag never do. */
  lemma HandleFrame(v: PlayerView, c: ControllerEvent, g: Grid, bursts: seq<Pos>, roster: seq<Occupant>)
    ensures var w := Handle(v, c, g, bursts, roster).view;
      w.x == v.x && w.y == v.y && w.isDead == v.isDead && w.isMoving == v.isMoving
  {
  }

  /**
   * When an enemy stands on the attack point, the command is an attack on it:
   * the state becomes ATTACK, nothing else changes, and the grid and bursts are
   * never consulted, so the outcome is the same whatever they are.
   */
  lemma AttackPreemptsMovement(v: PlayerView, c: ControllerEvent, g1: Grid, b1: seq<Pos>, g2: Grid, b2: seq<Pos>,
                               roster: seq<Occupant>, e: Occupant)
    requires v.state == Idle && !v.isMoving && !c.IsTurn()
    requires e in roster && e.kind == Enemy && e.At(AttackPoint(v, c))
    ensures Handle(v, c, g1, b1, roster).outcome.Attacked?
    ensures Handle(v, c, g1, b1, roster) == Handle(v, c, g2, b2, roster)
    ensures Handle(v, c, g1, b1, roster).view == v.(state := Attack)
  {
  }

  /** A rejected command sets the BLOCK state of that command and keeps position and facing; it is rejected exactly when nothing is attacked and canMove says no. */
  lemma BlockedCommand(v: PlayerView, c: ControllerEvent, g: Grid, bursts: seq<Pos>, roster: seq<Occupant>)
    requires v.state == Idle && !v.isMoving
    ensures Handle(v, c, g, bursts, roster).outcome == Blocked <==>
      AttackTarget(v, c, roster) == None && MoveVerdict(v, c, g, bursts) == Illegal
    ensures Handle(v, c, g, bursts, roster).outcome == Blocked ==>
      Handle(v, c, g, bursts, roster).view == v.(state := BlockState(c))
  {
  }

  /**
   * A committed step moves exactly one of targetX/targetY by one (TOP y - 1,
   * BOTTOM y + 1, LEFT x - 1, RIGHT x + 1), reports where it started, and keeps
   * the facing and the state.
   */
  lemma LegalStep(v: PlayerView, c: ControllerEvent, g: Grid, bursts: seq<Pos>, roster: seq<Occupant>)
    requires Handle(v, c, g, bursts, roster).outcome.Moved?
    ensures !c.IsTurn() && v.state == Idle && !v.isMoving
    ensures var r := Handle(v, c, g, bursts, roster);
      r.outcome == Moved(v.targetX, v.targetY, CommandDirection(c)) &&
      r.view.direction == v.direction && r.view.state == v.state &&
      (c == CtrlTop ==> r.view.targetX == v.targetX && r.view.targetY == v.targetY - 1) &&
      (c == CtrlBottom ==> r.view.targetX == v.targetX && r.view.targetY == v.targetY + 1) &&
      (c == CtrlLeft ==> r.view.targetX == v.targetX - 1 && r.view.targetY == v.targetY) &&
      (c == CtrlRight ==> r.view.targetX == v.targetX + 1 && r.view.targetY == v.targetY)
  {
  }

  /** A committed turn rotates the facing, sets TURNLEFT/TURNRIGHT and leaves targetX/targetY alone. */
  lemma LegalTurn(v: PlayerView, c: ControllerEvent, g: Grid, bursts: seq<Pos>, roster: seq<Occupant>)
    requires Handle(v, c, g, bursts, roster).outcome == Turned
    ensures c.IsTurn()
    ensures var w := Handle(v, c, g, bursts, roster).view;
      w == v.(direction := NewFacing(v.direction, c), state := if c == CtrlTurnLeft then TurnLeft else TurnRight) &&
      w.targetX == v.targetX && w.targetY == v.targetY
  {
  }

  /** canMove throws only on a turn, and then the player is left as it was. */
  lemma CrashOnlyOnTurns(v: PlayerView, c: ControllerEvent, g: Grid, bursts: seq<Pos>, roster: seq<Occupant>)
    requires Handle(v, c, g, bursts, roster).outcome == Crashed
    ensures c.IsTurn() && MoveVerdict(v, c, g, bursts) == Fault
    ensures Handle(v, c, g, bursts, roster).view == v
  {
  }

  // ---- Legality ----

  /**
   * Turn legality over the two cells shifted towards the new facing: legal
   * exactly when both are absent or both are present and turnable; a throw
   * exactly when the body cell is absent and the weapon cell present, or the
   * body cell is turnable and the weapon cell absent. Bursts play no part.
   */
  lemma TurnLegality(v: PlayerView, c: ControllerEvent, g: Grid, bursts: seq<Pos>, other: seq<Pos>)
    requires c.IsTurn()
    ensures var body := Step(Body(v), NewFacing(v.direction, c));
      var weapon := Step(Weapon(v), NewFacing(v.direction, c));
      var r := MoveVerdict(v, c, g, bursts);
      (r == Legal <==> (Absent(g, body) && Absent(g, weapon)) ||
                       (!Absent(g, body) && !Absent(g, weapon) &&
                        CellAt(g, body).value.turnable && CellAt(g, weapon).value.turnable)) &&
      (r == Fault <==> (Absent(g, body) && !Absent(g, weapon)) ||
                       (!Absent(g, body) && CellAt(g, body).value.turnable && Absent(g, weapon))) &&
      (!Absent(g, body) && !CellAt(g, body).value.turnable ==> r == Illegal)
    ensures MoveVerdict(v, c, g, bursts) == MoveVerdict(v, c, g, other)
  {
    TurnShiftFollowsNewFacing(Body(v), v.direction, c);
    TurnShiftFollowsNewFacing(Weapon(v), v.direction, c);
  }

  /**
   * Step legality: never a throw; off the map the step is legal exactly when a
   * burst lies on the destination; on the map the destination must be moveable
   * and the weapon's next cell absent or turnable.
   */
  lemma StepLegality(v: PlayerView, c: ControllerEvent, g: Grid, bursts: seq<Pos>)
    requires !c.IsTurn()
    ensures var body := Step(Body(v), CommandDirection(c));
      var weapon := Step(Weapon(v), CommandDirection(c));
      var r := MoveVerdict(v, c, g, bursts);
      r != Fault &&
      (Absent(g, body) ==> (r == Legal <==> exists b :: b in bursts && b.x == body.x && b.y == body.y)) &&
      (!Absent(g, body) ==> (r == Legal <==> CellAt(g, body).value.moveable &&
                                             (Absent(g, weapon) || CellAt(g, weapon).value.turnable)))
  {
  }

  // ---- Worked situations ----

  /**
   * A two-column map whose second column is empty: stepping right from (0,0)
   * onto the missing cell, with no burst there, is rejected, not taken.
   */
  lemma StepOffTheMapIsBlocked()
    ensures var v := PlayerView(0, 0, 0, 0, Right, Idle, false, false);
      var g: Grid := [[Some(Tile(true, true))], [None]];
      Handle(v, CtrlRight, g, [], []) == Response(v.(state := BlockRight), Blocked) &&
      Handle(v, CtrlRight, g, [Pos(1, 0)], []) == Response(v.(targetX := 1), Moved(0, 0, Right))
  {
  }

  /**
   * A legal TURNLEFT need not be undone by a legal TURNRIGHT. A player at (1,1)
   * facing TOP turns left: the checked cells (0,1) and (0,0) are turnable. Once
   * the turn animation has put it back to IDLE, facing LEFT, the TURNRIGHT back
   * checks (1,0) and (0,0). (1,0), the cell it faced before turning, was never
   * checked by the first turn: when it is closed the return turn is rejected,
   * and when it is missing while (0,0) exists the return turn reads
   * `.turnable` of a missing cell and throws. When (0,0) is missing too, both
   * checked cells are absent and the turn back is taken.
   */
  lemma TurnBackCanFail()
    ensures var open := Some(Tile(true, true));
      var v := PlayerView(1, 1, 1, 1, Top, Idle, false, false);
      var turned := v.(direction := Left, state := TurnLeft);
      var back := turned.(state := Idle);
      var closed: Grid := [[open, open], [Some(Tile(false, false)), open]];
      var holed: Grid := [[open, open], [None, open]];
      Handle(v, CtrlTurnLeft, closed, [], []) == Response(turned, Turned) &&
      Handle(back, CtrlTurnRight, closed, [], []) == Response(back.(state := BlockTurnRight), Blocked) &&
      Handle(v, CtrlTurnLeft, holed, [], []) == Response(turned, Turned) &&
      Handle(back, CtrlTurnRight, holed, [], []) == Response(back, Crashed)
  ensures var v := PlayerView(1, 1, 1, 1, Top, Idle, false, false);
      var turned := v.(direction := Left, state := TurnLeft);
      var back := turned.(state := Idle);
      var bare: Grid := [[None, None], [None, Some(Tile(true, true))]];
      Handle(v, CtrlTurnLeft, bare, [], []) == Response(turned, Turned) &&
      Handle(back, CtrlTurnRight, bare, [], []) == Response(back.(direction := Top, state := TurnRight), Turned)
  {
  }

  /**
   * For a settled player, the TURNRIGHT that undoes a TURNLEFT checks the cell
   * the player faced before turning (its old weapon cell), which neither cell
   * of the first turn is, and the diagonal cell the first turn checked as its
   * weapon-side cell.
   */
  lemma TurnBackChecksOldWeaponCell(v: PlayerView)
    requires v.x == v.targetX && v.y == v.targetY
    ensures var back := v.(direction := TurnLeftOf(v.direction));
      var diagonal := TurnShift(Weapon(v), v.direction, CtrlTurnLeft);
      TurnShift(Body(back), back.direction, CtrlTurnRight) == Weapon(v) &&
      TurnShift(Weapon(back), back.direction, CtrlTurnRight) == diagonal &&
      TurnShift(Body(v), v.direction, CtrlTurnLeft) != Weapon(v) && diagonal != Weapon(v)
  {
  }

  /**
   * A player at (2,2) facing TOP with an enemy on its weapon cell (2,1) does not
   * attack it on TOP: the attack reaches (2,0), and the step into the enemy's
   * blocked cell is rejected. An enemy on (2,0) is attacked.
   */
  lemma EnemyOnWeaponCellIsNotAttacked(g: Grid)
    requires |g| == 5 && forall i :: 0 <= i < 5 ==> |g[i]| == 5
    requires g[2][1] == Some(Tile(false, false))
    ensures var v := PlayerView(2, 2, 2, 2, Top, Idle, false, false);
      Handle(v, CtrlTop, g, [], [Occupant("e", 2, 1, Enemy)]) == Response(v.(state := BlockFront), Blocked) &&
      Handle(v, CtrlTop, g, [], [Occupant("e", 2, 0, Enemy)]) == Response(v.(state := Attack), Attacked("e"))
  {
  }
}
