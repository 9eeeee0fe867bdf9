/**
 * The tile grid `tileInfo[x][y]` shared by the player's legality checks and the
 * battle's occupancy bookkeeping. A cell is absent when the column `tileInfo[x]`
 * or the slot `tileInfo[x][y]` is missing or empty; negative and out-of-range
 * indices are absent too, never an error.
 */
module Tiles {
  import opened Wrappers

  /** A grid position; may lie outside the map while a candidate cell is checked. */
  datatype Pos = Pos(x: int, y: int)

  /** The two flags of a tile that the rules consult. */
  datatype Tile = Tile(moveable: bool, turnable: bool)

  /** Columns indexed by x, each a sequence of slots indexed by y. */
  type Grid = seq<seq<Option<Tile>>>

  /** The tile at `p`, or `None` where the source's `!tileInfo[x] || !tileInfo[x][y]` holds. */
  function CellAt(g: Grid, p: Pos): Option<Tile>
  {
    if 0 <= p.x < |g| && 0 <= p.y < |g[p.x]| then g[p.x][p.y] else None
  }

  predicate Absent(g: Grid, p: Pos) {
    CellAt(g, p).None?
  }

  /** Writing both flags of the tile at `p` in place; the cell must exist, or the write throws. */
  function SetFlags(g: Grid, p: Pos, moveable: bool, turnable: bool): (r: Grid)
    requires !Absent(g, p)
    ensures |r| == |g| && forall i :: 0 <= i < |g| ==> |r[i]| == |g[i]|
    ensures CellAt(r, p) == Some(Tile(moveable, turnable))
    ensures forall q :: q != p ==> CellAt(r, q) == CellAt(g, q)
  {
    g[p.x := g[p.x][p.y := Some(Tile(moveable, turnable))]]
  }

  /** An entity moving onto `p` closes the cell for both moving and turning. */
  function Block(g: Grid, p: Pos): Grid
    requires !Absent(g, p)
  {
    SetFlags(g, p, false, false)
  }

  /** A vacated cell reopens for both moving and turning. */
  function Reopen(g: Grid, p: Pos): Grid
    requires !Absent(g, p)
  {
    SetFlags(g, p, true, true)
  }

  /** Blocking and then reopening a cell leaves every cell open or as it was, and keeps which cells exist. */
  lemma ReopenAfterBlock(g: Grid, p: Pos, q: Pos)
    requires !Absent(g, p)
    ensures !Absent(Block(g, p), p)
    ensures CellAt(Reopen(Block(g, p), p), q) == if q == p then Some(Tile(true, true)) else CellAt(g, q)
    ensures Absent(Reopen(Block(g, p), p), q) == Absent(g, q)
  {
  }
}
