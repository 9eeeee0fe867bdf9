/**
 * The battle: it builds a level (map size, tile grid, enemies, player, door),
 * advances to the next level, and reacts to entity deaths by updating the enemy
 * roster, scheduling the level-cleared signal and reopening the dead entity's
 * cell. It also owns the shared store the game keeps these in.
 */
module Battle {
  import opened Wrappers
  import opened Enums
  import opened Tiles
  import opened Roster
  import opened Entities
  import opened PlayerRules
  import Players

  /** One slot of a level's map as authored; only its shape matters here. */
  datatype TileItem = TileItem(src: Option<int>, kind: Option<string>)

  /** A level's data: its map, column by column. */
  datatype Level = Level(mapInfo: seq<seq<TileItem>>)

  /** The ids the entities of a level receive when they are created. */
  datatype SpawnIds = SpawnIds(woodenSkeleton: Id, ironSkeleton: Id, player: Id, door: Id)

  const PlayerSpawn := EntityParams(2, 8, Player, Idle, Top)
  const WoodenSkeletonSpawn := EntityParams(2, 4, Enemy, Idle, Top)
  const IronSkeletonSpawn := EntityParams(7, 6, Enemy, Idle, Top)
  const DoorSpawn := EntityParams(7, 8, Door, Idle, Top)

  const ClosedCell := Some(Tile(false, false))

  class BattleManager {
    var level: Option<Level>
    // The shared store.
    var levelIndex: int
    var mapInfo: seq<seq<TileItem>>
    var mapRowCount: int
    var mapColumnCount: int
    var tileInfo: Grid
    var enemies: seq<Occupant>
    var bursts: seq<Pos>
    var player: Players.PlayerManager?
    /** How many level-cleared signals have been scheduled (each fires after a 1000 ms timer). */
    var levelClearedScheduled: nat

    constructor (levelIndex: int)
      ensures this.levelIndex == levelIndex && level == None
      ensures mapInfo == [] && mapRowCount == 0 && mapColumnCount == 0
      ensures tileInfo == [] && enemies == [] && bursts == [] && player == null
      ensures levelClearedScheduled == 0
    {
      this.levelIndex := levelIndex;
      level := None;
      mapInfo, mapRowCount, mapColumnCount := [], 0, 0;
      tileInfo, enemies, bursts, player := [], [], [], null;
      levelClearedScheduled := 0;
    }

    /**
     * An entity died. An ENEMY death drops every roster entry with its id and,
     * if the roster is then empty, schedules one more level-cleared signal;
     * PLAYER, DOOR and kind-less deaths leave both alone. Every death then
     * reopens the entity's cell and no other; writing to a missing cell throws
     * (`ok` is false) after the roster and the timer have been updated.
     */
    method OnEntityDeath(x: int, y: int, kind: Option<EntityType>, id: Id) returns (ok: bool)
      modifies this
      ensures enemies == if kind == Some(Enemy) then Without(old(enemies), id) else old(enemies)
      ensures levelClearedScheduled ==
                old(levelClearedScheduled) + if kind == Some(Enemy) && enemies == [] then 1 else 0
      ensures ok == !Absent(old(tileInfo), Pos(x, y))
      ensures tileInfo == if ok then Reopen(old(tileInfo), Pos(x, y)) else old(tileInfo)
      ensures ok ==> CellAt(tileInfo, Pos(x, y)) == Some(Tile(true, true)) &&
                     forall q :: q != Pos(x, y) ==> CellAt(tileInfo, q) == CellAt(old(tileInfo), q)
      ensures level == old(level) && levelIndex == old(levelIndex) && mapInfo == old(mapInfo)
      ensures mapRowCount == old(mapRowCount) && mapColumnCount == old(mapColumnCount)
      ensures bursts == old(bursts) && player == old(player)
    {
      match kind {
        case Some(Player) =>
        case Some(Enemy) =>
          enemies := Without(enemies, id);
          if |enemies| == 0 {
            levelClearedScheduled := levelClearedScheduled + 1;
          }
        case Some(Door) =>
        case None =>
      }
      var cell := Pos(x, y);
      if Absent(tileInfo, cell) {
        return false;
      }
      tileInfo := Reopen(tileInfo, cell);
      ok := true;
    }

    /**
     * Creates an enemy from `params`, appends it to the roster and blocks its
     * cell; writing to a missing cell throws (`ok` is false) after the append.
     */
    method SpawnEnemy(id: Id, params: EntityParams) returns (ok: bool)
      modifies this
      ensures enemies == old(enemies) + [Occupant(id, params.x, params.y, params.kind)]
      ensures ok == !Absent(old(tileInfo), Pos(params.x, params.y))
      ensures tileInfo == if ok then Block(old(tileInfo), Pos(params.x, params.y)) else old(tileInfo)
      ensures level == old(level) && levelIndex == old(levelIndex) && mapInfo == old(mapInfo)
      ensures mapRowCount == old(mapRowCount) && mapColumnCount == old(mapColumnCount)
      ensures bursts == old(bursts) && player == old(player) && levelClearedScheduled == old(levelClearedScheduled)
    {
      var enemy := new EntityManager(id);
      enemy.Init(params);
      enemies := enemies + [Occupant(enemy.id, enemy.x, enemy.y, params.kind)];
      var cell := Pos(enemy.x, enemy.y);
      if Absent(tileInfo, cell) {
        return false;
      }
      tileInfo := Block(tileInfo, cell);
      ok := true;
    }

    /** The level's two skeletons, at (2,4) and (7,6); a throw on the first stops the second. */
    method GenerateEnemies(woodenId: Id, ironId: Id) returns (ok: bool)
      modifies this
      ensures var wooden := Pos(2, 4);
        var iron := Pos(7, 6);
        var placed := !Absent(old(tileInfo), wooden);
        && enemies == old(enemies) + [Occupant(woodenId, 2, 4, Enemy)] +
                       (if placed then [Occupant(ironId, 7, 6, Enemy)] else [])
        && ok == (placed && !Absent(old(tileInfo), iron))
        && (placed ==> CellAt(tileInfo, wooden) == ClosedCell)
        && CellAt(tileInfo, iron) == (if ok then ClosedCell else CellAt(old(tileInfo), iron))
        && (forall q :: q != wooden && q != iron ==> CellAt(tileInfo, q) == CellAt(old(tileInfo), q))
        && (forall q :: Absent(tileInfo, q) == Absent(old(tileInfo), q))
      ensures level == old(level) && levelIndex == old(levelIndex) && mapInfo == old(mapInfo)
      ensures mapRowCount == old(mapRowCount) && mapColumnCount == old(mapColumnCount)
      ensures bursts == old(bursts) && player == old(player) && levelClearedScheduled == old(levelClearedScheduled)
    {
      ok := SpawnEnemy(woodenId, WoodenSkeletonSpawn);
      if !ok {
        return;
      }
      ok := SpawnEnemy(ironId, IronSkeletonSpawn);
    }

    /** The player at (2,8) facing TOP; its cell is not blocked. */
    method GeneratePlayer(id: Id)
      modifies this
      ensures player != null && fresh(player) && fresh(player.entity)
      ensures player.entity.id == id && player.entity.kind == Some(Player)
      ensures player.View() == PlayerView(2, 8, 2, 8, Top, Idle, false, false)
      ensures tileInfo == old(tileInfo) && enemies == old(enemies)
      ensures level == old(level) && levelIndex == old(levelIndex) && mapInfo == old(mapInfo)
      ensures mapRowCount == old(mapRowCount) && mapColumnCount == old(mapColumnCount)
      ensures bursts == old(bursts) && levelClearedScheduled == old(levelClearedScheduled)
    {
      var p := new Players.PlayerManager(id);
      p.Init(PlayerSpawn);
      player := p;
    }

    /** The door at (7,8); its cell is blocked, and writing to a missing cell throws. */
    method GenerateDoor(id: Id) returns (ok: bool)
      modifies this
      ensures ok == !Absent(old(tileInfo), Pos(7, 8))
      ensures tileInfo == if ok then Block(old(tileInfo), Pos(7, 8)) else old(tileInfo)
      ensures enemies == old(enemies)
      ensures level == old(level) && levelIndex == old(levelIndex) && mapInfo == old(mapInfo)
      ensures mapRowCount == old(mapRowCount) && mapColumnCount == old(mapColumnCount)
      ensures bursts == old(bursts) && player == old(player) && levelClearedScheduled == old(levelClearedScheduled)
    {
      var door := new EntityManager(id);
      door.Init(DoorSpawn);
      var cell := Pos(door.x, door.y);
      if Absent(tileInfo, cell) {
        return false;
      }
      tileInfo := Block(tileInfo, cell);
      ok := true;
    }

    /**
     * Empties the store for a new level. The level index and the already
     * scheduled level-cleared timers are kept: nothing cancels them.
     */
    method ClearLevel()
      modifies this
      ensures mapInfo == [] && mapRowCount == 0 && mapColumnCount == 0
      ensures tileInfo == [] && enemies == [] && bursts == [] && player == null
      ensures level == old(level) && levelIndex == old(levelIndex)
      ensures levelClearedScheduled == old(levelClearedScheduled)
    {
      mapInfo, mapRowCount, mapColumnCount := [], 0, 0;
      tileInfo, enemies, bursts, player := [], [], [], null;
    }

    /**
     * Builds the level `levelIndex` from `levels`, with `tiles` as its tile grid.
     * After clearing the store it records the level and the map's row and
     * column counts, then spawns the skeletons, the player and the door. A
     * missing level, or a map without columns, throws (`ok` is false) once the
     * store is cleared; a spawn that throws stops only that spawn.
     */
    method InitLevel(levels: map<int, Level>, tiles: Grid, ids: SpawnIds) returns (ok: bool)
      modifies this
      ensures ok == (old(levelIndex) in levels && |levels[old(levelIndex)].mapInfo| > 0)
      ensures levelIndex == old(levelIndex) && levelClearedScheduled == old(levelClearedScheduled)
      ensures levelIndex !in levels ==> level == None && mapInfo == [] && mapRowCount == 0
      ensures levelIndex in levels ==>
                level == Some(levels[levelIndex]) && mapInfo == levels[levelIndex].mapInfo &&
                mapRowCount == |mapInfo|
      ensures !ok ==> tileInfo == [] && enemies == [] && bursts == [] && player == null && mapColumnCount == 0
      ensures ok ==> mapColumnCount == |mapInfo[0]|
      ensures ok ==> var wooden, iron, door := Pos(2, 4), Pos(7, 6), Pos(7, 8);
        && enemies == [Occupant(ids.woodenSkeleton, 2, 4, Enemy)] +
                      (if !Absent(tiles, wooden) then [Occupant(ids.ironSkeleton, 7, 6, Enemy)] else [])
        && (!Absent(tiles, wooden) ==> CellAt(tileInfo, wooden) == ClosedCell)
        && CellAt(tileInfo, iron) == (if !Absent(tiles, wooden) && !Absent(tiles, iron) then ClosedCell else CellAt(tiles, iron))
        && (!Absent(tiles, door) ==> CellAt(tileInfo, door) == ClosedCell)
        && (forall q :: q != wooden && q != iron && q != door ==> CellAt(tileInfo, q) == CellAt(tiles, q))
        && (forall q :: Absent(tileInfo, q) == Absent(tiles, q))
        && bursts == []
        && player != null && fresh(player) && player.entity.id == ids.player && player.entity.kind == Some(Player)
        && player.View() == PlayerView(2, 8, 2, 8, Top, Idle, false, false)
    {
      ClearLevel();
      if levelIndex !in levels {
        level := None;
        return false;
      }
      level := Some(levels[levelIndex]);
      mapInfo := levels[levelIndex].mapInfo;
      mapRowCount := |mapInfo|;
      if |mapInfo| == 0 {
        return false;
      }
      mapColumnCount := |mapInfo[0]|;
      tileInfo := tiles;
      var _ := GenerateEnemies(ids.woodenSkeleton, ids.ironSkeleton);
      GeneratePlayer(ids.player);
      var _ := GenerateDoor(ids.door);
      ok := true;
    }

    /**
     * Advances the level index by exactly one and builds that level: the new
     * store is the one `InitLevel` builds for the new index.
     */
    method NextLevel(levels: map<int, Level>, tiles: Grid, ids: SpawnIds) returns (ok: bool)
      modifies this
      ensures levelIndex == old(levelIndex) + 1
      ensures levelClearedScheduled == old(levelClearedScheduled)
      ensures ok == (levelIndex in levels && |levels[levelIndex].mapInfo| > 0)
      ensures levelIndex !in levels ==> level == None && mapInfo == [] && mapRowCount == 0
      ensures levelIndex in levels ==>
                level == Some(levels[levelIndex]) && mapInfo == levels[levelIndex].mapInfo &&
                mapRowCount == |mapInfo|
      ensures !ok ==> tileInfo == [] && enemies == [] && bursts == [] && player == null && mapColumnCount == 0
      ensures ok ==> mapColumnCount == |mapInfo[0]|
      ensures ok ==> var wooden, iron, door := Pos(2, 4), Pos(7, 6), Pos(7, 8);
        && enemies == [Occupant(ids.woodenSkeleton, 2, 4, Enemy)] +
                      (if !Absent(tiles, wooden) then [Occupant(ids.ironSkeleton, 7, 6, Enemy)] else [])
        && (!Absent(tiles, wooden) ==> CellAt(tileInfo, wooden) == ClosedCell)
        && CellAt(tileInfo, iron) == (if !Absent(tiles, wooden) && !Absent(tiles, iron) then ClosedCell else CellAt(tiles, iron))
        && (!Absent(tiles, door) ==> CellAt(tileInfo, door) == ClosedCell)
        && (forall q :: q != wooden && q != iron && q != door ==> CellAt(tileInfo, q) == CellAt(tiles, q))
        && (forall q :: Absent(tileInfo, q) == Absent(tiles, q))
        && bursts == []
        && player != null && fresh(player) && player.entity.id == ids.player && player.entity.kind == Some(Player)
        && player.View() == PlayerView(2, 8, 2, 8, Top, Idle, false, false)
    {
      levelIndex := levelIndex + 1;
      ok := InitLevel(levels, tiles, ids);
    }
  }

  /**
   * Two skeletons die one after the other: only the second death schedules the
   * level-cleared signal. A further ENEMY death notice on the emptied roster
   * schedules it again, since nothing remembers that the level is already cleared.
   */
  method LevelClearedIsNotOnceOnly(a: Id, b: Id) returns (afterFirst: nat, afterSecond: nat, afterRepeat: nat)
    requires a != b
    ensures afterFirst == 0 && afterSecond == 1 && afterRepeat == 2
  {
    var battle := new BattleManager(1);
    var open := Some(Tile(true, true));
    battle.tileInfo := [[open, open]];
    var _ := battle.SpawnEnemy(a, EntityParams(0, 0, Enemy, Idle, Top));
    var _ := battle.SpawnEnemy(b, EntityParams(0, 1, Enemy, Idle, Top));
    var _ := battle.OnEntityDeath(0, 0, Some(Enemy), a);
    afterFirst := battle.levelClearedScheduled;
    var _ := battle.OnEntityDeath(0, 1, Some(Enemy), b);
    afterSecond := battle.levelClearedScheduled;
    var _ := battle.OnEntityDeath(0, 1, Some(Enemy), b);
    afterRepeat := battle.levelClearedScheduled;
  }

  /** A door's death reopens its cell like any other: a blocked door cell becomes moveable and turnable. */
  method DoorDeathReopensItsCell(id: Id) returns (before: Option<Tile>, after: Option<Tile>)
    ensures before == ClosedCell && after == Some(Tile(true, true))
  {
    var battle := new BattleManager(1);
    battle.tileInfo := seq(8, _ => seq(9, _ => Some(Tile(true, true))));
    var _ := battle.GenerateDoor(id);
    before := CellAt(battle.tileInfo, Pos(7, 8));
    var _ := battle.OnEntityDeath(7, 8, Some(Door), id);
    after := CellAt(battle.tileInfo, Pos(7, 8));
  }
}
