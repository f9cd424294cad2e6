/**
 * `Map`: the rows of tiles and the terrain-height lookup under a moving
 * object. A row is looked up by its index in the list and a tile by its
 * index in the row, as the Java lists are.
 */
module GameMap {
  import opened JavaNum
  import opened Tiles
  import Entity

  type Grid = seq<seq<Tile>>

  /** `(int)(p / TILE_SIZE)`: the cell index of a coordinate, truncated toward zero. */
  function CellIndex(p: real): (i: int)
    ensures p >= 0.0 ==> i >= 0 && 0.0 <= p - i as real * TileSize < TileSize
    ensures -TileSize < p < 0.0 ==> i == 0
    ensures p <= -TileSize ==> i < 0
  {
    Trunc(p / TileSize)
  }

  /** The cell (column, row) exists in the grid. */
  predicate InGrid(grid: Grid, col: int, row: int) {
    0 <= row < |grid| && 0 <= col < |grid[row]|
  }

  /**
   * `getHeight` at the sample point (px, py): the surface height of the
   * tile in that cell at the point's offset within the cell, or 0.0 when
   * the row or column index is outside the map.
   */
  function HeightAt(grid: Grid, px: real, py: real): (r: real)
    ensures !InGrid(grid, CellIndex(px), CellIndex(py)) ==> r == 0.0
    ensures InGrid(grid, CellIndex(px), CellIndex(py)) ==>
              var t := grid[CellIndex(py)][CellIndex(px)];
              r == t.Surface(px - CellIndex(px) as real * TileSize, py - CellIndex(py) as real * TileSize)
    ensures px >= 0.0 && py >= 0.0 && InGrid(grid, CellIndex(px), CellIndex(py)) ==>
              var t := grid[CellIndex(py)][CellIndex(px)];
              Top(t.shape, t.base) - TileHeight <= r <= Top(t.shape, t.base)
  {
    var col := CellIndex(px);
    var row := CellIndex(py);
    if row < 0 || row >= |grid| then 0.0
    else if col < 0 || col >= |grid[row]| then 0.0
    else grid[row][col].Surface(px - col as real * TileSize, py - row as real * TileSize)
  }

  /** The point an object stands on: half its sprite width (integer division) right, its sprite height down. */
  function FootPoint(d: Entity.DynamicObject): (p: (real, real))
    requires Entity.WellFormed(d)
  {
    (Entity.GetX(d) + Div(Entity.Width(d), 2) as real, Entity.GetY(d) + Entity.Height(d) as real)
  }

  /** `getHeight(obj)`: the terrain height under the object's foot point. */
  function HeightUnder(grid: Grid, d: Entity.DynamicObject): (r: real)
    requires Entity.WellFormed(d)
    ensures var (px, py) := FootPoint(d);
            px >= 0.0 && py >= 0.0 && InGrid(grid, CellIndex(px), CellIndex(py)) ==>
              var t := grid[CellIndex(py)][CellIndex(px)];
              Top(t.shape, t.base) - TileHeight <= r <= Top(t.shape, t.base)
    ensures var (px, py) := FootPoint(d); !InGrid(grid, CellIndex(px), CellIndex(py)) ==> r == 0.0
  {
    var (px, py) := FootPoint(d);
    HeightAt(grid, px, py)
  }

  /** The terrain height depends only on the foot point, not on the object's own height. */
  lemma HeightIgnoresElevation(grid: Grid, d: Entity.DynamicObject, h: real, oh: real)
    requires Entity.WellFormed(d)
    ensures HeightUnder(grid, d.(h := h, offsetHeight := oh)) == HeightUnder(grid, d)
  {
    var e := d.(h := h, offsetHeight := oh);
    assert e.animations == d.animations && e.state == d.state;
    assert Entity.WellFormed(e);
    assert Entity.Current(e) == Entity.Current(d);
    assert FootPoint(e) == FootPoint(d);
  }

  /** Over a flat tile the lookup is its stored height anywhere inside the cell. */
  lemma FlatCellIsLevel(grid: Grid, px: real, py: real)
    requires px >= 0.0 && py >= 0.0
    requires InGrid(grid, CellIndex(px), CellIndex(py))
    requires grid[CellIndex(py)][CellIndex(px)].shape == Flat
    ensures HeightAt(grid, px, py) == grid[CellIndex(py)][CellIndex(px)].base
  {
  }

  /**
   * Truncation toward zero puts the strip just above and left of the map's
   * origin into cell 0, where the tile's surface is read at a negative offset.
   */
  lemma OriginStripReadsCellZero(grid: Grid, px: real, py: real)
    requires -TileSize < px < 0.0 && -TileSize < py < 0.0
    requires InGrid(grid, 0, 0)
    ensures HeightAt(grid, px, py) == grid[0][0].Surface(px, py)
  {
  }
}
