# CrampedRoomOfDeath rules engine in Dafny

This project models the turn-by-turn rules of the CrampedRoomOfDeath demo, a grid-based dungeon puzzle game. It covers:

- how one player command is handled (`PlayerManager`);
- how a death updates the enemy roster, the tile grid and the level-cleared signal, and how a level is built and advanced (`BattleManager`);
- the entity record that the player, the enemies and the door share (`EntityManager`).

The grid is `tileInfo[x][y]`. Each cell has two flags: `moveable` gates the body and `turnable` gates the weapon's reach. A cell is *absent* when its column or its slot is missing. That includes negative and out-of-range indices.

*Bursts* are extra positions that make an absent cell enterable. The *weapon cell* is one step from the player's drawn position towards its facing.

Modules:

| module | file | models |
|---|---|---|
| `Enums` | enums.dfy | facings, controller commands, entity states and kinds |
| `Tiles` | tiles.dfy | positions, tiles, cell lookup with the absent-cell rule, in-place flag writes |
| `Roster` | roster.dfy | roster entries, the `filter` applied to the roster, first-match scanning |
| `Entities` | entity.dfy | the entity record class: setters, `death`, `init` |
| `PlayerRules` | player_rules.dfy | the player's decisions as pure functions: `getWeaponPos`, `XYMove`, `canAttack`, `canMove`, `move`, `inputHandle` |
| `Players` | player.dfy | the player class, whose methods are proved against `PlayerRules` |
| `Battle` | battle.dfy | the battle class: death handling, spawning, level building and advance |

The model follows the code as written. In particular:

- **Stepping off the map is blocked unless a burst is there.** Only a turn treats "both checked cells absent" as open.
- **A turn can throw.** It reads `.turnable` of `undefined` and throws when the body-side cell is absent and the weapon-side cell exists, or when the body-side cell is turnable and the weapon-side cell is absent. A present body-side cell that is not turnable rejects the turn before the weapon-side cell is read. A throw is `Verdict.Fault` and `Outcome.Crashed`, and it leaves the player unchanged (`PlayerRules.TurnLegality` states when a turn throws, `PlayerRules.CrashOnlyOnTurns` that a throw changes nothing).
- **A legal turn need not be reversible.** TURNLEFT then TURNRIGHT restores the facing, but the turn back checks the cell the player faced before turning (the old weapon cell), which the first turn never checked, together with the diagonal cell both turns check (`PlayerRules.TurnBackChecksOldWeaponCell`). If the old weapon cell is closed, for example by an adjacent enemy, the turn back is rejected. If it is missing while the diagonal cell exists, the turn back throws (`PlayerRules.TurnBackCanFail`).
- **The attack point is one step beyond the weapon cell**, in the direction of the command. An enemy standing on the weapon cell itself is not attacked. The facing does not have to match the command.
- **Steps change neither the facing nor the state.** Only the target cell moves.
- **Body and weapon cells come from different positions.** The body cell uses `targetX/targetY`. The weapon cell uses the drawn `x/y`. Both are kept, so a second command before the first animation frame sees the old drawn cell (`Players.TwoStepsBeforeFirstFrame`).
- **Every death reopens its cell, a door's included**, and the level-cleared signal has no once-only guard: a repeated ENEMY death notice on an empty roster schedules it again.
- **Controller commands map to facings by name.** `XYMove`'s `case DIRECTION_ENUM.TOP || CONTROLLER_EVENT.TOP:` selects `DIRECTION_ENUM.TOP` alone. A controller event therefore moves a position only because the string-valued enums give it the same value as the facing of the same name. `PlayerRules.CommandDirection` encodes that assumption.

## Model

| member | source | states |
|---|---|---|
| `Tiles.SetFlags` | CrampedRoomOfDeathDemo/assets/scripts/Scene/BattleManager.ts:160-161 | writing a cell's two flags sets exactly that cell to the new tile, keeps every other cell and the grid's shape |
| `Tiles.ReopenAfterBlock` | CrampedRoomOfDeathDemo/assets/scripts/Scene/BattleManager.ts:94-95 | a cell blocked by a spawn and reopened by a death ends open; every other cell and the set of existing cells are as before |
| `Roster.Filter` | CrampedRoomOfDeathDemo/assets/scripts/Scene/BattleManager.ts:148 | the roster filter keeps exactly the entries satisfying the test, never grows the roster, and keeps it whole when all pass |
| `Roster.FilterConcat` | CrampedRoomOfDeathDemo/assets/scripts/Player/PlayerManager.ts:115 | filtering distributes over concatenation, so kept entries keep their relative order |
| `Roster.WithoutRemovesExactly` | CrampedRoomOfDeathDemo/assets/scripts/Scene/BattleManager.ts:148 | removing an id drops every entry with that id, keeps every other entry, and keeps their order |
| `Roster.FirstAt` | CrampedRoomOfDeathDemo/assets/scripts/Player/PlayerManager.ts:116-122 | the scan finds nothing iff no entry stands on the cell, else the id of the first entry in list order that does |
| `Roster.FirstEnemyWins` | CrampedRoomOfDeathDemo/assets/scripts/Player/PlayerManager.ts:115-122 | the first ENEMY entry of the roster on the attack point is the target, whatever non-enemies stand there |
| `Roster.EnemyTargets` | CrampedRoomOfDeathDemo/assets/scripts/Player/PlayerManager.ts:115-123 | a target is found iff some ENEMY entry stands on the cell, and the target is such an entry |
| `Entities.EntityManager.constructor` | CrampedRoomOfDeathDemo/assets/Base/EntityManager.ts:22-32 | a new entity is at (0,0), IDLE, facing TOP, alive, kind unset, with the id it was given |
| `Entities.EntityManager.SetState` | CrampedRoomOfDeathDemo/assets/Base/EntityManager.ts:43-50 | the state setter stores its argument, which the getter then returns, and changes no other field |
| `Entities.EntityManager.SetDirection` | CrampedRoomOfDeathDemo/assets/Base/EntityManager.ts:52-59 | the direction setter stores its argument and changes no other field |
| `Entities.EntityManager.Death` | CrampedRoomOfDeathDemo/assets/Base/EntityManager.ts:37-41 | death sets isDead and DEATH and reports the entity's own unchanged x, y, kind and id |
| `Entities.EntityManager.Init` | CrampedRoomOfDeathDemo/assets/Base/EntityManager.ts:61-72 | init copies x, y, kind, state and direction from its parameters unchanged |
| `Entities.SpawnAndKill` | CrampedRoomOfDeathDemo/assets/Base/EntityManager.ts:27-40 | an initialised entity's death reports exactly the cell and kind it was given and its fixed id |
| `PlayerRules.StepIsUnit` | CrampedRoomOfDeathDemo/assets/scripts/Player/PlayerManager.ts:279-292 | XYMove changes exactly one coordinate by one, distinct facings give distinct cells, and the opposite step undoes it |
| `PlayerRules.TurnsAreInverse` | CrampedRoomOfDeathDemo/assets/scripts/Player/PlayerManager.ts:233-266 | TURNLEFT and TURNRIGHT undo each other, four equal turns restore the facing, a turn always changes it |
| `PlayerRules.TurnShiftFollowsNewFacing` | CrampedRoomOfDeathDemo/assets/scripts/Player/PlayerManager.ts:143-183 | canMove's per-facing increment table for a turn is one step towards the facing move would produce |
| `PlayerRules.WeaponAheadWhenSettled` | CrampedRoomOfDeathDemo/assets/scripts/Player/PlayerManager.ts:270-272 | once the drawn cell equals the target, the weapon cell is the cell ahead of the body, never the body |
| `PlayerRules.AttackTarget` | CrampedRoomOfDeathDemo/assets/scripts/Player/PlayerManager.ts:112-124 | turns never attack; a step attacks iff an ENEMY entry stands one step beyond the weapon cell, and the target is one |
| `PlayerRules.BusyInputIsDropped` | CrampedRoomOfDeathDemo/assets/scripts/Player/PlayerManager.ts:71 | a command while not IDLE or while moving changes nothing |
| `PlayerRules.HandleFrame` | CrampedRoomOfDeathDemo/assets/scripts/Player/PlayerManager.ts:70-105 | a command never changes the drawn position, the death flag or the moving flag |
| `PlayerRules.AttackPreemptsMovement` | CrampedRoomOfDeathDemo/assets/scripts/Player/PlayerManager.ts:73-75 | with an enemy on the attack point the command attacks, sets ATTACK only, and is independent of grid and bursts |
| `PlayerRules.BlockedCommand` | CrampedRoomOfDeathDemo/assets/scripts/Player/PlayerManager.ts:77-100 | a command is blocked iff nothing is attacked and canMove says no; then only the state changes, to that command's BLOCK variant |
| `PlayerRules.LegalStep` | CrampedRoomOfDeathDemo/assets/scripts/Player/PlayerManager.ts:215-232 | a committed step moves one target coordinate by one in the command's direction, reports its start, keeps facing and state |
| `PlayerRules.LegalTurn` | CrampedRoomOfDeathDemo/assets/scripts/Player/PlayerManager.ts:233-266 | a committed turn rotates the facing, sets TURNLEFT/TURNRIGHT and keeps the target |
| `PlayerRules.CrashOnlyOnTurns` | CrampedRoomOfDeathDemo/assets/scripts/Player/PlayerManager.ts:185-190 | canMove throws only for turns, and a throw leaves the player unchanged |
| `PlayerRules.TurnLegality` | CrampedRoomOfDeathDemo/assets/scripts/Player/PlayerManager.ts:137-190 | a turn is legal iff both shifted cells are absent or both are present and turnable; it throws iff the body cell is absent while the weapon cell is present, or the body cell is turnable while the weapon cell is absent; bursts play no part |
| `PlayerRules.StepLegality` | CrampedRoomOfDeathDemo/assets/scripts/Player/PlayerManager.ts:191-212 | a step never throws; off the map it is legal iff a burst is on the destination; on the map iff destination moveable and weapon's next cell absent or turnable |
| `PlayerRules.StepOffTheMapIsBlocked` | CrampedRoomOfDeathDemo/assets/scripts/Player/PlayerManager.ts:197-208 | stepping onto a missing cell is blocked without a burst and taken with one |
| `PlayerRules.TurnBackCanFail` | CrampedRoomOfDeathDemo/assets/scripts/Player/PlayerManager.ts:137-190 | after a legal TURNLEFT, the TURNRIGHT back can be rejected (the old weapon cell closed) or throw (the old weapon cell missing while the diagonal cell exists); with both missing it is taken |
| `PlayerRules.TurnBackChecksOldWeaponCell` | CrampedRoomOfDeathDemo/assets/scripts/Player/PlayerManager.ts:143-183 | for a settled player, the TURNRIGHT undoing a TURNLEFT checks the old weapon cell, which the first turn did not check, and the same diagonal cell |
| `PlayerRules.EnemyOnWeaponCellIsNotAttacked` | CrampedRoomOfDeathDemo/assets/scripts/Player/PlayerManager.ts:114 | an enemy on the weapon cell is not attacked (the step is blocked); an enemy one cell further is |
| `Players.PlayerManager.constructor` | CrampedRoomOfDeathDemo/assets/scripts/Player/PlayerManager.ts:12-18 | a new player has target (0,0), is not moving, and wraps a fresh entity record |
| `Players.PlayerManager.Init` | CrampedRoomOfDeathDemo/assets/scripts/Player/PlayerManager.ts:20-29 | init copies the entity fields and puts the target on the initial cell |
| `Players.PlayerManager.InputHandle` | CrampedRoomOfDeathDemo/assets/scripts/Player/PlayerManager.ts:70-105 | new fields and outcome are exactly those of the decision function the lemmas above are about |
| `Players.PlayerManager.OnBeHit` | CrampedRoomOfDeathDemo/assets/scripts/Player/PlayerManager.ts:107-110 | being hit sets isDead and the given state and nothing else |
| `Players.PlayerManager.CanAttack` | CrampedRoomOfDeathDemo/assets/scripts/Player/PlayerManager.ts:112-124 | the loop over the ENEMY entries returns exactly the first one on the attack point |
| `Players.PlayerManager.OnAttack` | CrampedRoomOfDeathDemo/assets/scripts/Player/PlayerManager.ts:126-129 | sets ATTACK only and emits the enemy's id |
| `Players.PlayerManager.CanMove` | CrampedRoomOfDeathDemo/assets/scripts/Player/PlayerManager.ts:131-213 | the checks and the loop over bursts return exactly the legality verdict characterised above |
| `Players.PlayerManager.Move` | CrampedRoomOfDeathDemo/assets/scripts/Player/PlayerManager.ts:215-268 | commits a step or a turn exactly as the decision function's commit step |
| `Players.PlayerManager.StartMoving` | CrampedRoomOfDeathDemo/assets/scripts/Player/PlayerManager.ts:46 | the player starts moving when the drawn cell differs from the target |
| `Players.PlayerManager.Settle` | CrampedRoomOfDeathDemo/assets/scripts/Player/PlayerManager.ts:54-67 | the animation's last frame puts the drawn cell on the target and clears the moving flag |
| `Players.TwoStepsBeforeFirstFrame` | CrampedRoomOfDeathDemo/assets/scripts/Player/PlayerManager.ts:134-135 | two steps before any animation frame are both taken, the second checked from the moved target |
| `Battle.BattleManager.constructor` | CrampedRoomOfDeathDemo/assets/scripts/Scene/BattleManager.ts:18-20 | a new battle has no level, an empty store and no scheduled signal |
| `Battle.BattleManager.OnEntityDeath` | CrampedRoomOfDeathDemo/assets/scripts/Scene/BattleManager.ts:143-162 | an ENEMY death removes its id and schedules level-cleared iff the roster is then empty; any death reopens exactly its cell |
| `Battle.BattleManager.SpawnEnemy` | CrampedRoomOfDeathDemo/assets/scripts/Scene/BattleManager.ts:93-95 | a spawned enemy is appended to the roster and its cell blocked for moving and turning |
| `Battle.BattleManager.GenerateEnemies` | CrampedRoomOfDeathDemo/assets/scripts/Scene/BattleManager.ts:83-109 | the skeletons at (2,4) and (7,6) join the roster in order and block their cells; a missing (2,4) throws before the second skeleton, leaving (7,6) as it was; nothing else changes |
| `Battle.BattleManager.GeneratePlayer` | CrampedRoomOfDeathDemo/assets/scripts/Scene/BattleManager.ts:69-81 | the player is created at (2,8) facing TOP and IDLE, and its cell is not blocked |
| `Battle.BattleManager.GenerateDoor` | CrampedRoomOfDeathDemo/assets/scripts/Scene/BattleManager.ts:111-123 | the door's cell (7,8) is blocked for moving and turning |
| `Battle.BattleManager.ClearLevel` | CrampedRoomOfDeathDemo/assets/scripts/Scene/BattleManager.ts:130-133 | the store is emptied; the level index and scheduled signals survive |
| `Battle.BattleManager.InitLevel` | CrampedRoomOfDeathDemo/assets/scripts/Scene/BattleManager.ts:42-57 | the row count is the map's length and the column count its first column's length; the fixed skeletons, player and door are spawned, whatever the level; a missing level or empty map throws and leaves the store cleared |
| `Battle.BattleManager.NextLevel` | CrampedRoomOfDeathDemo/assets/scripts/Scene/BattleManager.ts:125-128 | the level index goes up by exactly one, then the store is exactly what InitLevel builds for the new index: the level, map and counts, the spawned roster, the blocked grid and the new player, or the cleared store when that level is missing or empty |
| `Battle.LevelClearedIsNotOnceOnly` | CrampedRoomOfDeathDemo/assets/scripts/Scene/BattleManager.ts:148-154 | killing two enemies schedules level-cleared once; a further ENEMY death on the empty roster schedules it again |
| `Battle.DoorDeathReopensItsCell` | CrampedRoomOfDeathDemo/assets/scripts/Scene/BattleManager.ts:156-161 | a door's blocked cell becomes moveable and turnable when the door dies |

## Left out

- Drawn-position animation: `update`/`updateXY` move `x`/`y` by floating-point steps of 0.1 per frame. The model has integer positions only. `StartMoving` is the moving-flag test that opens the first frame and `Settle` is the frame that reaches the target; the frames in between are not modelled.
- The event bus: subscribing, unsubscribing and dispatch are not modelled. Emitted events are returned as values (`Outcome`, `DeathReport`). PLAYER_MOVE_END and PLAYER_BORN are not returned.
- The 1000 ms level-cleared timer is a counter of scheduled signals. When the signal fires, and what happens after it, is not modelled.
- The animation state machine that the state and direction setters notify is not modelled.
- Rendering is not modelled: sprites, node sizes, `updatePos`, `initStage`, `adpatPos`, `createUINode`, `destroyAllChildren`, the tile-map drawing in `generateTileMap`, and the whole of TileMapManager.ts and TileManager.ts.
- Random id generation: ids are parameters, and distinct entities are given distinct ids.
- DataManager, Levels, Enums and the skeleton and door managers are not part of this model. The tile grid, bursts, roster entries and level data are inputs.
  - `ClearLevel` assumes that DataManager's reset empties the roster, bursts, grid and map, and keeps the level index.
  - The grid a level uses is a parameter of `InitLevel`, because the code that builds it is not part of this model.
- The generate functions run asynchronously after awaited initialisation. The model runs them one after another in the order written. A throw inside one stops only that one, as an unawaited rejected promise does.
- Roster entries are values copied from the entities, not references to them, so later changes to a live enemy object are not seen through the roster.
- Players.PlayerManager.CanAttack: the source's `canAttack` calls `onAttack` itself on a hit. In the model `InputHandle` makes that call, right after, with the same effect.
- `XYMove` called with a turn command logs an error and returns nothing. No caller reaches that path, so `Step` takes only facings.
- The base entity's empty `onAttack`/`onBeHit` and `update` are not modelled separately: the first two do nothing, and `update` only draws.
