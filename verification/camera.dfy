/**
 * `Camera`: turns the tile grid and the player's objects into a list of
 * visible elements in painter's order, and eases the view toward a
 * followed object once it leaves the middle of the screen.
 *
 * `render()` files every element under an integer depth key in a sorted
 * map of insertion-ordered buckets and then emits the buckets in ascending
 * key order; the model states that result as a stable sort by key.
 */
module Cameras {
  import opened Wrappers
  import opened JavaNum
  import opened Graphics
  import Anim
  import opened Entity
  import Tiles
  import Physics
  import Gui
  import Ordering

  const FollowSpeed: real := 6.0
  const BorderFraction: real := 1.0 / 5.0

  /** What an element draws: a tile image, or an object's current animation. */
  datatype Picture = Still(image: Drawable) | Animated(animation: Anim.Animation)

  type Element = VisibleElement<Picture>

  /**
   * The camera's state: its integer position, the canvas size it reads,
   * the filler image drawn under raised tiles, the added objects (which no
   * method draws), the player's objects and the tile rows (`null` until set).
   */
  datatype Camera = Camera(x: int, y: int, canvasWidth: int, canvasHeight: int, filler: Drawable,
                           objects: seq<DynamicObject>, player: Option<seq<DynamicObject>>,
                           tiles: Option<seq<seq<Tiles.Tile>>>)

  /** The constructor: at the origin, with no objects, no player and no tiles. */
  function NewCamera(canvasWidth: int, canvasHeight: int, filler: Drawable): (c: Camera)
    ensures c.x == 0 && c.y == 0 && c.objects == [] && c.player.None? && c.tiles.None?
  {
    Camera(0, 0, canvasWidth, canvasHeight, filler, [], None, None)
  }

  function SetPlayer(c: Camera, player: seq<DynamicObject>): (r: Camera)
    ensures r == c.(player := Some(player))
  {
    c.(player := Some(player))
  }

  function AddObject(c: Camera, d: DynamicObject): (r: Camera)
    ensures r.objects == c.objects + [d] && r == c.(objects := r.objects)
  {
    c.(objects := c.objects + [d])
  }

  /** `clearObjects()`: also forgets the player list. */
  function ClearObjects(c: Camera): (r: Camera)
    ensures r.objects == [] && r.player.None? && r == c.(objects := [], player := None)
  {
    c.(objects := [], player := None)
  }

  function SetTiles(c: Camera, tiles: seq<seq<Tiles.Tile>>): (r: Camera)
    ensures r == c.(tiles := Some(tiles))
  {
    c.(tiles := Some(tiles))
  }

  // ---------------------------------------------------------------- follow

  /**
   * What one axis of `follow` promises, for a view at `pos`, the target
   * `d` screen units past it and a canvas `extent` long: inside the middle
   * three fifths nothing moves; before them the view moves back by a sixth
   * of the shortfall, past them forward by a sixth of the excess, each up
   * to the truncation to int.
   */
  predicate Eased(pos: int, d: real, extent: int, r: int) {
    var border := extent as real * BorderFraction;
    (border <= d <= extent as real - border ==> r == pos) &&
    (d < border ==> pos as real - (border - d) / FollowSpeed - 1.0 < r as real && r <= pos) &&
    (border <= d && d > extent as real - border ==>
       pos <= r && (r as real) < pos as real + (d - (extent as real - border)) / FollowSpeed + 1.0)
  }

  /** One axis of `follow`: `pos -= (border - d) / 6` or `pos += (d - (extent - border)) / 6`, stored back as an int. */
  function Ease(pos: int, d: real, extent: int): (r: int)
    ensures Eased(pos, d, extent, r)
  {
    var border := extent as real * BorderFraction;
    TruncNear(pos as real - (border - d) / FollowSpeed, pos);
    TruncNear(pos as real + (d - (extent as real - border)) / FollowSpeed, pos);
    if d < border then
      assert (border - d) / FollowSpeed > 0.0;
      Trunc(pos as real - (border - d) / FollowSpeed)
    else if d > extent as real - border then
      assert (d - (extent as real - border)) / FollowSpeed > 0.0;
      Trunc(pos as real + (d - (extent as real - border)) / FollowSpeed)
    else pos
  }

  /** Truncation moves a value by less than one, and never past an integer on its other side. */
  lemma TruncNear(v: real, p: int)
    ensures v - 1.0 < Trunc(v) as real < v + 1.0
    ensures v < p as real ==> Trunc(v) <= p
    ensures v > p as real ==> Trunc(v) >= p
  {
  }

  /**
   * Easing never carries the target across the screen: from before the
   * middle the target ends up no further off and at most one unit past the
   * border; likewise from past it.
   */
  lemma EaseNeverOvershoots(pos: int, target: real, extent: int)
    ensures var border := extent as real * BorderFraction;
            var d := target - pos as real;
            var d' := target - Ease(pos, d, extent) as real;
            (d < border ==> d <= d' < border + 1.0) &&
            (border <= d && d > extent as real - border ==> extent as real - border - 1.0 < d' <= d)
  {
    var border := extent as real * BorderFraction;
    var d := target - pos as real;
    var r := Ease(pos, d, extent);
    assert Eased(pos, d, extent, r);
    if d < border {
      assert (border - d) / FollowSpeed < border - d;
    }
    if border <= d && d > extent as real - border {
      assert (d - (extent as real - border)) / FollowSpeed < d - (extent as real - border);
    }
  }

  /**
   * `follow(obj)`: each axis eased on its own, x by the sprite's screen x
   * and y by its screen y lifted by its height.
   */
  function Follow(c: Camera, obj: DynamicObject): (r: Camera)
    requires WellFormed(obj)
    ensures r == c.(x := r.x, y := r.y)
    ensures Eased(c.x, (RenderX(obj) - c.x) as real, c.canvasWidth, r.x)
    ensures Eased(c.y, RenderY(obj) as real - GetHeight(obj) - c.y as real, c.canvasHeight, r.y)
  {
    var dx := (RenderX(obj) - c.x) as real;
    var dy := RenderY(obj) as real - GetHeight(obj) - c.y as real;
    c.(x := Ease(c.x, dx, c.canvasWidth), y := Ease(c.y, dy, c.canvasHeight))
  }

  // --------------------------------------------------- keyed element lists

  /** An element filed under its depth key. */
  datatype Keyed = Keyed(key: int, elem: Element)

  function KeyOf(e: Keyed): int {
    e.key
  }

  // ------------------------------------------------------ bucketed render

  /** `orderedObjects`: key to the bucket of elements filed under it. */
  type Buckets = map<int, seq<Keyed>>

  /** What a map files under key `k`. */
  function Bucket(m: Buckets, k: int): seq<Keyed> {
    if k in m then m[k] else []
  }

  /** Every bucket holds only elements carrying its own key. */
  predicate Homogeneous(m: Buckets) {
    forall k, i :: k in m && 0 <= i < |m[k]| ==> m[k][i].key == k
  }

  /** `orderedObjects.get(key)`, then `add` to it or `put` a fresh list. */
  function File(m: Buckets, e: Keyed): (r: Buckets)
    ensures r.Keys == m.Keys + {e.key}
    ensures forall k :: Bucket(r, k) == Bucket(m, k) + (if k == e.key then [e] else [])
  {
    if e.key in m then m[e.key := m[e.key] + [e]] else m[e.key := [e]]
  }

  /** Every element filed in order: each bucket holds exactly its key's elements, in order. */
  function FileAll(s: seq<Keyed>): (m: Buckets)
    ensures forall k :: Bucket(m, k) == Ordering.Of(s, KeyOf, k)
    ensures Homogeneous(m)
    decreases |s|
  {
    if |s| == 0 then map[]
    else
      var m' := FileAll(s[..|s| - 1]);
      var e := s[|s| - 1];
      forall k
        ensures Bucket(File(m', e), k) == Ordering.Of(s, KeyOf, k)
      {
        Ordering.Unsnoc(s);
        Ordering.OfSnoc(s[..|s| - 1], e, KeyOf, k);
      }
      forall k | k in File(m', e)
        ensures forall i :: 0 <= i < |File(m', e)[k]| ==> File(m', e)[k][i].key == k
      {
        Ordering.OfKeys(s, KeyOf, k);
      }
      File(m', e)
  }

  /** The least key of a non-empty key set. */
  function MinKey(keys: set<int>): (k: int)
    requires exists y :: y in keys
    ensures k in keys && forall x :: x in keys ==> k <= x
  {
    MinExists(keys);
    var k :| k in keys && forall x :: x in keys ==> k <= x;
    k
  }

  lemma {:induction false} MinExists(keys: set<int>)
    requires exists y :: y in keys
    ensures exists k :: k in keys && forall x :: x in keys ==> k <= x
    decreases |keys|
  {
    var y :| y in keys;
    var rest := keys - {y};
    if exists x :: x in rest {
      MinExists(rest);
      var m :| m in rest && forall x :: x in rest ==> m <= x;
      var least := if y < m then y else m;
      forall x | x in keys
        ensures least <= x
      {
        if x != y {
          assert x in rest;
        }
      }
      assert least in keys;
    } else {
      assert forall x :: x in keys ==> x == y || x in rest;
      assert forall x :: x in keys ==> y <= x;
    }
  }

  /** `orderedObjects.values()`: the buckets in ascending key order, each in its own order. */
  function Flatten(m: Buckets): (r: seq<Keyed>)
    requires Homogeneous(m)
    ensures Ordering.Sorted(r, KeyOf)
    ensures forall i :: 0 <= i < |r| ==> r[i].key in m
    decreases |m.Keys|
  {
    if !exists k :: k in m then []
    else
      var k := MinKey(m.Keys);
      var rest := m - {k};
      assert rest.Keys == m.Keys - {k};
      var r := m[k] + Flatten(rest);
      assert forall i :: 0 <= i < |m[k]| ==> r[i].key == k;
      assert forall i :: |m[k]| <= i < |r| ==> r[i].key in rest && k <= r[i].key;
      r
  }

  /** The flattened map files under each key exactly that key's bucket. */
  lemma {:induction false} FlattenOf(m: Buckets, k': int)
    requires Homogeneous(m)
    ensures Ordering.Of(Flatten(m), KeyOf, k') == Bucket(m, k')
    decreases |m.Keys|
  {
    if exists k :: k in m {
      var k := MinKey(m.Keys);
      var rest := m - {k};
      assert rest.Keys == m.Keys - {k};
      assert Homogeneous(rest);
      assert Flatten(m) == m[k] + Flatten(rest);
      FlattenOf(rest, k');
      Ordering.OfAppend(m[k], Flatten(rest), KeyOf, k');
      assert forall i :: 0 <= i < |m[k]| ==> KeyOf(m[k][i]) == k;
      Ordering.OfUniform(m[k], KeyOf, k, k');
      assert Bucket(m, k') == if k' == k then m[k] else Bucket(rest, k');
    } else {
      assert k' !in m;
    }
  }

  /**
   * The bucketed draw list is the stable sort of the filing order: sorted
   * by key, each key's elements in filing order, and nothing lost or added.
   */
  function DrawList(s: seq<Keyed>): (r: seq<Keyed>)
    ensures Ordering.StablySorted(r, s, KeyOf)
    ensures r == Ordering.SortByKey(s, KeyOf)
    ensures |r| == |s| && multiset(r) == multiset(s)
  {
    DrawListIsSort(s);
    Flatten(FileAll(s))
  }

  lemma DrawListIsSort(s: seq<Keyed>)
    ensures Ordering.StablySorted(Flatten(FileAll(s)), s, KeyOf)
    ensures Flatten(FileAll(s)) == Ordering.SortByKey(s, KeyOf)
  {
    var r := Flatten(FileAll(s));
    forall k
      ensures Ordering.Of(r, KeyOf, k) == Ordering.Of(s, KeyOf, k)
    {
      FlattenOf(FileAll(s), k);
    }
    assert Ordering.StablySorted(r, s, KeyOf);
    Ordering.SortByKeyStable(s, KeyOf);
  }

  // ------------------------------------------------------- what is filed

  /** The screen position `render_x(j, i)` / `render_y(j, i)` of the tile cell at column j, row i. */
  function CellX(t: Tiles.Tile, j: int, i: int): int { t.(col := j, row := i).RenderX() }
  function CellY(t: Tiles.Tile, j: int, i: int): int { t.(col := j, row := i).RenderY() }

  /** The key a tile in column j of row i is filed under: `j * 101 + i * 100 + renderHeight() / 32`. */
  function TileKey(t: Tiles.Tile, j: int, i: int): int {
    j * 101 + i * 100 + Div(t.RenderHeight(), 32)
  }

  /** The number of filler elements under a tile: one per whole tile height of its render height. */
  function Fillers(t: Tiles.Tile): nat {
    var n := Div(t.RenderHeight(), 32);
    if n > 0 then n else 0
  }

  /**
   * A tile's elements: a filler at each height 0, 32, ... below its render
   * height, then its own image at its render height, all at the same
   * screen position and under the same key.
   */
  function TileElements(c: Camera, t: Tiles.Tile, j: int, i: int): (r: seq<Keyed>)
    ensures |r| == Fillers(t) + 1
    ensures forall e :: 0 <= e < |r| ==> r[e].key == TileKey(t, j, i)
    ensures forall e :: 0 <= e < |r| ==>
              r[e].elem.x == CellX(t, j, i) - c.x - 64 && r[e].elem.y == CellY(t, j, i) - c.y
    ensures forall e :: 0 <= e < Fillers(t) ==> r[e].elem.drawable == Still(c.filler) && r[e].elem.height == e * 32
    ensures r[Fillers(t)].elem == VisibleElement(Still(t.GetDrawable()), CellX(t, j, i) - c.x - 64, CellY(t, j, i) - c.y, t.RenderHeight())
  {
    var key := TileKey(t, j, i);
    var sx := CellX(t, j, i) - c.x - 64;
    var sy := CellY(t, j, i) - c.y;
    var n := Fillers(t);
    seq(n, h requires 0 <= h < n => Keyed(key, VisibleElement(Still(c.filler), sx, sy, h * 32)))
      + [Keyed(key, VisibleElement(Still(t.GetDrawable()), sx, sy, t.RenderHeight()))]
  }

  /** The elements of a row from column `j` on, row index `i`. */
  function RowElements(c: Camera, row: seq<Tiles.Tile>, j: int, i: int): seq<Keyed>
    requires 0 <= j <= |row|
    decreases |row| - j
  {
    if j == |row| then [] else TileElements(c, row[j], j, i) + RowElements(c, row, j + 1, i)
  }

  /** The elements of the rows from row `i` on. */
  function GridElements(c: Camera, rows: seq<seq<Tiles.Tile>>, i: int): seq<Keyed>
    requires 0 <= i <= |rows|
    decreases |rows| - i
  {
    if i == |rows| then [] else RowElements(c, rows[i], 0, i) + GridElements(c, rows, i + 1)
  }

  /** The elements one tile contributes, summed over a row from column `j` on. */
  function RowCount(row: seq<Tiles.Tile>, j: int): nat
    requires 0 <= j <= |row|
    decreases |row| - j
  {
    if j == |row| then 0 else Fillers(row[j]) + 1 + RowCount(row, j + 1)
  }

  /** ... and over the rows from row `i` on. */
  function GridCount(rows: seq<seq<Tiles.Tile>>, i: int): nat
    requires 0 <= i <= |rows|
    decreases |rows| - i
  {
    if i == |rows| then 0 else RowCount(rows[i], 0) + GridCount(rows, i + 1)
  }

  lemma {:induction false} RowElementsLength(c: Camera, row: seq<Tiles.Tile>, j: int, i: int)
    requires 0 <= j <= |row|
    ensures |RowElements(c, row, j, i)| == RowCount(row, j)
    decreases |row| - j
  {
    if j < |row| {
      RowElementsLength(c, row, j + 1, i);
    }
  }

  lemma {:induction false} GridElementsLength(c: Camera, rows: seq<seq<Tiles.Tile>>, i: int)
    requires 0 <= i <= |rows|
    ensures |GridElements(c, rows, i)| == GridCount(rows, i)
    decreases |rows| - i
  {
    if i < |rows| {
      RowElementsLength(c, rows[i], 0, i);
      GridElementsLength(c, rows, i + 1);
    }
  }

  /** The key a player object is filed under, from its position with offsets. */
  function ObjectKey(d: DynamicObject): int {
    Div(Trunc(GetY(d)), 64) * 100 + Div(Trunc(GetX(d)), 64) * 101 + Trunc(GetHeight(d) / 32.0) + 1
  }

  /** A player object's element: its current animation at its sprite position and truncated height. */
  function ObjectElement(c: Camera, d: DynamicObject): (r: Keyed)
    requires WellFormed(d)
    ensures r.key == ObjectKey(d) && r.elem.drawable == Animated(Current(d))
    ensures r.elem.x == RenderX(d) - c.x && r.elem.y == RenderY(d) - c.y && r.elem.height == Trunc(GetHeight(d))
  {
    Keyed(ObjectKey(d), VisibleElement(Animated(Current(d)), RenderX(d) - c.x, RenderY(d) - c.y, Trunc(GetHeight(d))))
  }

  function ObjectElements(c: Camera, ds: seq<DynamicObject>): (r: seq<Keyed>)
    requires forall i :: 0 <= i < |ds| ==> WellFormed(ds[i])
    ensures |r| == |ds| && forall i :: 0 <= i < |ds| ==> r[i] == ObjectElement(c, ds[i])
  {
    seq(|ds|, i requires 0 <= i < |ds| => ObjectElement(c, ds[i]))
  }

  /** Everything `render()` files, in filing order: the tiles row by row, then the player's objects. */
  function Filed(c: Camera): seq<Keyed>
    requires c.tiles.Some? && c.player.Some?
    requires forall i :: 0 <= i < |c.player.value| ==> WellFormed(c.player.value[i])
  {
    GridElements(c, c.tiles.value, 0) + ObjectElements(c, c.player.value)
  }

  function Elements(s: seq<Keyed>): (r: seq<Element>)
    ensures |r| == |s| && forall i :: 0 <= i < |s| ==> r[i] == s[i].elem
  {
    seq(|s|, i requires 0 <= i < |s| => s[i].elem)
  }

  /**
   * `render()`: the canvas is cleared and receives the draw list. Without
   * tiles or without a player list the source dereferences `null`; that
   * is `None` here. The result has one element per filler and tile plus
   * one per player object, in the stable key order of `DrawList`.
   */
  function Render(c: Camera): (r: Option<seq<Element>>)
    requires c.player.Some? ==> forall i :: 0 <= i < |c.player.value| ==> WellFormed(c.player.value[i])
    ensures r.Some? <==> c.tiles.Some? && c.player.Some?
    ensures r.Some? ==> |r.value| == GridCount(c.tiles.value, 0) + |c.player.value|
    ensures r.Some? ==> r.value == Elements(Ordering.SortByKey(Filed(c), KeyOf))
    ensures r.Some? ==> exists s :: Ordering.StablySorted(s, Filed(c), KeyOf) && r.value == Elements(s)
  {
    if c.tiles.None? || c.player.None? then None
    else
      GridElementsLength(c, c.tiles.value, 0);
      var s := DrawList(Filed(c));
      Some(Elements(s))
  }

  /**
   * The tile key is the tile's own depth when it sits at its own grid
   * cell, and an object's key is its own depth when it carries no offsets:
   * `render()` orders by `getDepth()`.
   */
  lemma KeysAreDepths(t: Tiles.Tile, d: DynamicObject)
    ensures TileKey(t, t.col, t.row) == t.Depth()
    ensures Physics.NoOffsets(d) ==> ObjectKey(d) == Depth(d)
  {
    DivOfTrunc(t.base, 32);
    assert t.base / 32 as real == t.base / Tiles.TileHeight;
    DivOfTrunc(d.h, 32);
    if Physics.NoOffsets(d) {
      assert GetX(d) == d.x && GetY(d) == d.y && GetHeight(d) == d.h;
      assert GetHeight(d) / 32.0 == d.h / 32 as real;
    }
  }

  // ---------------------------------------------------------------- canvas

  /** `clearTop(n)` on the canvas's draw list: removes the last `n`; more than there are throws. */
  function ClearTop(canvas: seq<Element>, n: int): (r: Option<seq<Element>>)
    ensures n <= |canvas| <==> r.Some?
    ensures r.Some? ==> |r.value| == if n > 0 then |canvas| - n else |canvas|
    ensures r.Some? ==> r.value == canvas[..|r.value|]
  {
    if n > |canvas| then None
    else if n > 0 then Some(canvas[..|canvas| - n])
    else Some(canvas)
  }

  function GuiElement(e: Gui.Element): Element {
    VisibleElement(Still(e.drawable), e.x, e.y, e.height)
  }

  /** `renderGUI()`: the overlay's elements go on top of the canvas. */
  function RenderGui(canvas: seq<Element>, gui: Gui.Gui): (r: seq<Element>)
    requires Gui.Valid(gui)
    ensures |r| == |canvas| + Gui.Size(gui) && r[..|canvas|] == canvas
    ensures forall i :: 0 <= i < Gui.Size(gui) ==> r[|canvas| + i] == GuiElement(Gui.Render(gui)[i])
  {
    var g := Gui.Render(gui);
    canvas + seq(|g|, i requires 0 <= i < |g| => GuiElement(g[i]))
  }

  /** `clearGUI()`: take `size()` elements off the top. */
  function ClearGui(canvas: seq<Element>, gui: Gui.Gui): (r: Option<seq<Element>>)
    requires Gui.Valid(gui)
    ensures r.Some? <==> Gui.Size(gui) <= |canvas|
  {
    ClearTop(canvas, Gui.Size(gui))
  }

  /** Clearing the overlay just drawn gives the canvas back. */
  lemma ClearUndoesRender(canvas: seq<Element>, gui: Gui.Gui)
    requires Gui.Valid(gui)
    ensures ClearGui(RenderGui(canvas, gui), gui) == Some(canvas)
  {
    var r := RenderGui(canvas, gui);
    if Gui.Size(gui) > 0 {
      assert r[..|r| - Gui.Size(gui)] == canvas;
    }
  }
}
