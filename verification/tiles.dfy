/**
 * The terrain tiles (`StaticObject` and its nine subclasses). Each subclass
 * only overrides the height function, so the shapes are one tagged union
 * and `ShapeHeight` is the overridden `getHeight(x, y)` over local tile
 * coordinates, where a tile covers [0, 64) x [0, 64).
 */
module Tiles {
  import opened JavaNum
  import opened Graphics

  /** Edge length of a tile in world units. */
  const TileSize: real := 64.0
  /** One step of terrain elevation in world units. */
  const TileHeight: real := 32.0

  /** Listed in the order of the map file's type codes 0..8. */
  datatype Shape = Flat | NWest | North | NEast | East | SEast | South | SWest | West

  /** A local offset that lies on the closed tile square. */
  predicate OnTile(x: real, y: real) {
    0.0 <= x <= TileSize && 0.0 <= y <= TileSize
  }

  /**
   * The highest surface point of a shape whose `getHeight` is computed from
   * the stored height `base`. Every shape peaks at `base`, except the
   * north-west slope, whose constructor stores one tile-height lower.
   */
  function Top(shape: Shape, base: real): real {
    if shape == NWest then base + TileHeight else base
  }

  /** The south-west slope's `getHeight` as the source writes it. */
  function SWestAsWritten(base: real, x: real, y: real): real {
    var tempHeight := x - y;
    if tempHeight <= TileSize then base - TileHeight else base - TileSize + tempHeight / 2.0
  }

  /** The south-west slope as the mirror image of the north-east slope. */
  function SWestCorrected(base: real, x: real, y: real): real {
    var tempHeight := x - y;
    if tempHeight < 0.0 then base - TileHeight else base - TileHeight + tempHeight / 2.0
  }

  /** `getHeight(x, y)` of each tile class, given the stored height `base`. */
  function ShapeHeight(shape: Shape, base: real, x: real, y: real): (r: real)
    ensures shape == Flat ==> r == Top(shape, base)
    ensures OnTile(x, y) ==> Top(shape, base) - TileHeight <= r <= Top(shape, base)
  {
    match shape
    case Flat => base
    case North => base - TileHeight + y / 2.0
    case South => base - y / 2.0
    case East => base - x / 2.0
    case West => base - TileHeight + x / 2.0
    case NEast =>
      var tempHeight := x - y;
      if tempHeight > 0.0 then base - TileHeight else base - TileHeight - tempHeight / 2.0
    case NWest =>
      var tempHeight := (x + y) / 2.0;
      if tempHeight < TileHeight then base else base - TileHeight + tempHeight
    case SEast =>
      var tempHeight := (x + y) / 2.0;
      if tempHeight > TileHeight then base - TileHeight else base - tempHeight
    case SWest => SWestAsWritten(base, x, y)
  }

  /**
   * A terrain tile: its shape, its sprite and the column-fill sprite drawn
   * beneath it, its stored height and its grid column and row.
   */
  datatype Tile = Tile(shape: Shape, image: Drawable, lower: Drawable, base: real, col: int, row: int)
  {
    /** `getHeight(x, y)` at a local offset on this tile. */
    function Surface(x: real, y: real): real {
      ShapeHeight(shape, base, x, y)
    }

    /** `getDrawable()`. */
    function GetDrawable(): Drawable {
      image
    }

    /** `getLowerDrawable()`. */
    function GetLowerDrawable(): Drawable {
      lower
    }

    /** `renderHeight()`: the stored height cast to int. */
    function RenderHeight(): int {
      Trunc(base)
    }

    /** `getDepth()`: the painter's-algorithm key. */
    function Depth(): int {
      col * 101 + row * 100 + Trunc(base / TileHeight)
    }

    /** `render_x()`: screen x of the tile's left edge. */
    function RenderX(): int {
      (col - 1) * TileSize.Floor - row * TileSize.Floor
    }

    /** `render_y()`: screen y of the tile's top edge. */
    function RenderY(): int {
      row * TileHeight.Floor + col * TileHeight.Floor
    }
  }

  /**
   * The tile constructors as the map parser calls them: every class
   * forwards its arguments to `StaticObject`, except that the north-west
   * slope stores its height one tile-height lower.
   */
  function MakeTile(shape: Shape, image: Drawable, lower: Drawable, height: real, x: int, y: int): (t: Tile)
    ensures t.shape == shape && t.col == x && t.row == y
    ensures t.GetDrawable() == image && t.GetLowerDrawable() == lower
    ensures Top(shape, t.base) == height
    ensures shape != NWest ==> t.base == height
  {
    Tile(shape, image, lower, if shape == NWest then height - TileHeight else height, x, y)
  }

  /** The local corner at which a slope reaches its top. */
  function HighCorner(shape: Shape): (real, real) {
    match shape
    case Flat => (0.0, 0.0)
    case North => (0.0, TileSize)
    case South => (0.0, 0.0)
    case East => (0.0, 0.0)
    case West => (TileSize, 0.0)
    case NEast => (0.0, TileSize)
    case NWest => (TileSize, TileSize)
    case SEast => (0.0, 0.0)
    case SWest => (TileSize, 0.0)
  }

  /** The local corner at which a slope is one tile-height below its top. */
  function LowCorner(shape: Shape): (real, real) {
    match shape
    case Flat => (0.0, 0.0)
    case North => (0.0, 0.0)
    case South => (0.0, TileSize)
    case East => (TileSize, 0.0)
    case West => (0.0, 0.0)
    case NEast => (TileSize, 0.0)
    case NWest => (0.0, 0.0)
    case SEast => (TileSize, TileSize)
    case SWest => (0.0, TileSize)
  }

  /**
   * Every slope but the south-west one spans exactly one tile-height unit
   * over its tile: it reaches the constructor's height at one corner and one
   * unit less at another. The south-west slope, as written, is one unit
   * below the constructor's height at both of its corners.
   */
  lemma SlopeSpansOneUnit(shape: Shape, image: Drawable, lower: Drawable, height: real, x: int, y: int)
    requires shape != Flat
    ensures var t := MakeTile(shape, image, lower, height, x, y);
      && (shape != SWest ==> t.Surface(HighCorner(shape).0, HighCorner(shape).1) == height)
      && (shape == SWest ==> t.Surface(HighCorner(shape).0, HighCorner(shape).1) == height - TileHeight)
      && t.Surface(LowCorner(shape).0, LowCorner(shape).1) == height - TileHeight
  {
  }

  /** The flat tile's height ignores both local coordinates. */
  lemma FlatIsConstant(base: real, x1: real, y1: real, x2: real, y2: real)
    ensures ShapeHeight(Flat, base, x1, y1) == ShapeHeight(Flat, base, x2, y2) == base
  {
  }

  /** Cardinal slopes: each ramps along one axis only, half a unit per unit. */
  lemma CardinalSlopes(base: real, x: real, y: real, x': real, y': real)
    ensures ShapeHeight(North, base, x, y) == ShapeHeight(North, base, x', y) 
    ensures y < y' ==> ShapeHeight(North, base, x, y) < ShapeHeight(North, base, x, y')
    ensures ShapeHeight(North, base, x, 0.0) == base - TileHeight && ShapeHeight(North, base, x, TileSize) == base
    ensures ShapeHeight(South, base, x, y) == ShapeHeight(South, base, x', y)
    ensures y < y' ==> ShapeHeight(South, base, x, y) > ShapeHeight(South, base, x, y')
    ensures ShapeHeight(South, base, x, 0.0) == base && ShapeHeight(South, base, x, TileSize) == base - TileHeight
    ensures ShapeHeight(East, base, x, y) == ShapeHeight(East, base, x, y')
    ensures x < x' ==> ShapeHeight(East, base, x, y) > ShapeHeight(East, base, x', y)
    ensures ShapeHeight(East, base, 0.0, y) == base && ShapeHeight(East, base, TileSize, y) == base - TileHeight
    ensures ShapeHeight(West, base, x, y) == ShapeHeight(West, base, x, y')
    ensures x < x' ==> ShapeHeight(West, base, x, y) < ShapeHeight(West, base, x', y)
    ensures ShapeHeight(West, base, 0.0, y) == base - TileHeight && ShapeHeight(West, base, TileSize, y) == base
  {
  }

  /**
   * The north-east slope depends only on x - y, is flat at base - 32 where
   * x > y and rises continuously from the diagonal toward (0, 64).
   */
  lemma NEastShape(base: real, x: real, y: real, x': real, y': real)
    ensures x - y == x' - y' ==> ShapeHeight(NEast, base, x, y) == ShapeHeight(NEast, base, x', y')
    ensures x > y ==> ShapeHeight(NEast, base, x, y) == base - TileHeight
    ensures x <= y ==> ShapeHeight(NEast, base, x, y) == base - TileHeight - (x - y) / 2.0
    ensures ShapeHeight(NEast, base, x, y) >= base - TileHeight
    ensures x == y ==> ShapeHeight(NEast, base, x, y) == base - TileHeight
  {
  }

  /**
   * The north-west slope (stored base already shifted down by the
   * constructor) is flat on the half x + y < 64 and rises continuously to
   * base + 32 at (64, 64); it never decreases as x + y grows.
   */
  lemma NWestShape(base: real, x: real, y: real, x': real, y': real)
    ensures (x + y) / 2.0 < TileHeight ==> ShapeHeight(NWest, base, x, y) == base
    ensures (x + y) / 2.0 >= TileHeight ==> ShapeHeight(NWest, base, x, y) == base - TileHeight + (x + y) / 2.0
    ensures (x + y) / 2.0 == TileHeight ==> ShapeHeight(NWest, base, x, y) == base
    ensures x + y <= x' + y' ==> ShapeHeight(NWest, base, x, y) <= ShapeHeight(NWest, base, x', y')
    ensures ShapeHeight(NWest, base, x, y) >= base
  {
  }

  /**
   * The south-east slope falls from base at (0, 0) until x + y reaches 64
   * and is flat at base - 32 beyond; it never increases as x + y grows.
   */
  lemma SEastShape(base: real, x: real, y: real, x': real, y': real)
    ensures (x + y) / 2.0 > TileHeight ==> ShapeHeight(SEast, base, x, y) == base - TileHeight
    ensures (x + y) / 2.0 <= TileHeight ==> ShapeHeight(SEast, base, x, y) == base - (x + y) / 2.0
    ensures ShapeHeight(SEast, base, 0.0, 0.0) == base
    ensures x + y <= x' + y' ==> ShapeHeight(SEast, base, x, y) >= ShapeHeight(SEast, base, x', y')
    ensures x + y >= 0.0 ==> base - TileHeight <= ShapeHeight(SEast, base, x, y) <= base
  {
  }

  /**
   * The south-west slope as written depends only on x - y, never decreases
   * in it, and its two branches meet at x - y = 64. But x - y never exceeds
   * 64 on a tile, so the whole tile is flat one unit below its height.
   */
  lemma SWestAsWrittenShape(base: real, x: real, y: real, x': real, y': real)
    ensures x - y <= TileSize ==> SWestAsWritten(base, x, y) == base - TileHeight
    ensures x - y > TileSize ==> SWestAsWritten(base, x, y) == base - TileSize + (x - y) / 2.0
    ensures x - y == TileSize ==> base - TileSize + (x - y) / 2.0 == base - TileHeight
    ensures x - y <= x' - y' ==> SWestAsWritten(base, x, y) <= SWestAsWritten(base, x', y')
    ensures OnTile(x, y) ==> SWestAsWritten(base, x, y) == base - TileHeight
  {
  }

  /**
   * The written south-west slope never reaches the tile's height, while the
   * mirrored north-east formula does at the corner (64, 0); the two differ
   * by 31.5 already at the in-tile point (63, 0).
   */
  lemma SWestDiscrepancy(base: real)
    ensures SWestAsWritten(base, 63.0, 0.0) == base - TileHeight
    ensures SWestCorrected(base, 63.0, 0.0) == base - 0.5
    ensures SWestCorrected(base, TileSize, 0.0) == base
    ensures forall x: real, y: real :: OnTile(x, y) ==> SWestAsWritten(base, x, y) < base
  {
  }

  /**
   * The corrected south-west slope depends only on x - y, is flat where
   * x < y, never decreases in x - y, and stays within one unit below base.
   */
  lemma SWestCorrectedShape(base: real, x: real, y: real, x': real, y': real)
    ensures x - y == x' - y' ==> SWestCorrected(base, x, y) == SWestCorrected(base, x', y')
    ensures x - y <= x' - y' ==> SWestCorrected(base, x, y) <= SWestCorrected(base, x', y')
    ensures x - y == 0.0 ==> SWestCorrected(base, x, y) == base - TileHeight
    ensures OnTile(x, y) ==> base - TileHeight <= SWestCorrected(base, x, y) <= base
  {
  }

  /**
   * The east slope joins a flat tile of its own height on its west edge and
   * a flat tile one unit lower on its east edge (and likewise the other
   * cardinal slopes), so a ramp between two terraces has no step.
   */
  lemma RampJoinsTerraces(height: real, y: real, x: real)
    ensures ShapeHeight(East, height, 0.0, y) == ShapeHeight(Flat, height, TileSize, y)
    ensures ShapeHeight(East, height, TileSize, y) == ShapeHeight(Flat, height - TileHeight, 0.0, y)
    ensures ShapeHeight(West, height, TileSize, y) == ShapeHeight(Flat, height, 0.0, y)
    ensures ShapeHeight(West, height, 0.0, y) == ShapeHeight(Flat, height - TileHeight, TileSize, y)
    ensures ShapeHeight(North, height, x, TileSize) == ShapeHeight(Flat, height, x, 0.0)
    ensures ShapeHeight(North, height, x, 0.0) == ShapeHeight(Flat, height - TileHeight, x, TileSize)
    ensures ShapeHeight(South, height, x, 0.0) == ShapeHeight(Flat, height, x, TileSize)
    ensures ShapeHeight(South, height, x, TileSize) == ShapeHeight(Flat, height - TileHeight, x, 0.0)
  {
  }

  /** The grid cell whose tile projects to the given screen corner. */
  function GridOfScreen(sx: int, sy: int): (int, int) {
    var diff := Div(sx, 64) + 1;   // col - row
    var sum := Div(sy, 32);        // col + row
    (Div(sum + diff, 2), Div(sum - diff, 2))
  }

  /** The projection of a tile's grid cell to the screen can be inverted. */
  lemma {:induction false} ProjectionRoundTrip(t: Tile)
    ensures GridOfScreen(t.RenderX(), t.RenderY()) == (t.col, t.row)
  {
    var d := t.col - t.row - 1;
    var s := t.col + t.row;
    assert t.RenderX() == 64 * d;
    assert t.RenderY() == 32 * s;
    DivExact(d, 64);
    DivExact(s, 32);
    DivExact(t.col, 2);
    DivExact(t.row, 2);
    assert s + (d + 1) == 2 * t.col;
    assert s - (d + 1) == 2 * t.row;
  }

  /** At equal height, one grid step adds 101 along x and 100 along y to the depth key. */
  lemma DepthSteps(t: Tile)
    ensures t.(col := t.col + 1).Depth() == t.Depth() + 101
    ensures t.(row := t.row + 1).Depth() == t.Depth() + 100
    ensures t.(col := t.col + 1, row := t.row - 1).RenderY() == t.RenderY()
  {
  }
}
