/**
 * The finite vocabularies the rules engine is written over. The enums are
 * string-valued in the game, so two constants of different enums compare equal
 * exactly when they carry the same name; `PlayerRules.CommandDirection` is where
 * the model relies on that.
 */
module Enums {

  /** The facing of an entity (DIRECTION_ENUM). */
  datatype Direction = Top | Bottom | Left | Right

  /** A command from the controller (CONTROLLER_EVENT): four steps and two turns. */
  datatype ControllerEvent = CtrlTop | CtrlBottom | CtrlLeft | CtrlRight | CtrlTurnLeft | CtrlTurnRight
  {
    predicate IsTurn() {
      this == CtrlTurnLeft || this == CtrlTurnRight
    }
  }

  /** The behavioural state of an entity (ENTITY_STATE_ENUM), as far as the core uses it. */
  datatype EntityState =
    | Idle | Attack | TurnLeft | TurnRight
    | BlockFront | BlockBack | BlockLeft | BlockRight | BlockTurnLeft | BlockTurnRight
    | Death

  /** The kind of an entity (ENTITY_TYPE_ENUM). */
  datatype EntityType = Player | Enemy | Door
}
