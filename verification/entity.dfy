/**
 * `DynamicObject`: a movable sprite with a world position (x, y, h), a
 * separately settable offset on each axis, a collision radius and a list
 * of animations of which one, `state`, is current.
 */
module Entity {
  import opened JavaNum
  import opened Anim
  import Tiles

  datatype DynamicObject = DynamicObject(
    x: real, y: real, h: real, radius: real,
    offsetHeight: real, offsetX: real, offsetY: real,
    state: int, animations: seq<Animation>)

  /** The constructor: everything but the animations and the radius is zero. */
  function NewObject(animations: seq<Animation>, radius: real): (d: DynamicObject)
    ensures d.animations == animations && d.radius == radius && d.state == 0
    ensures d.x == 0.0 && d.y == 0.0 && d.h == 0.0
    ensures d.offsetX == 0.0 && d.offsetY == 0.0 && d.offsetHeight == 0.0
  {
    DynamicObject(0.0, 0.0, 0.0, radius, 0.0, 0.0, 0.0, 0, animations)
  }

  /** The current state names an animation, and every animation's frame index selects a frame. */
  predicate WellFormed(d: DynamicObject) {
    0 <= d.state < |d.animations| &&
    forall i :: 0 <= i < |d.animations| ==> FrameInRange(d.animations[i])
  }

  /** Every animation can be advanced and keeps its frame index in range. */
  predicate Playable(d: DynamicObject) {
    WellFormed(d) && forall i :: 0 <= i < |d.animations| ==> Lively(d.animations[i])
  }

  function GetX(d: DynamicObject): real { d.x + d.offsetX }
  function GetY(d: DynamicObject): real { d.y + d.offsetY }
  function GetHeight(d: DynamicObject): real { d.h + d.offsetHeight }

  function SetHeightOffset(d: DynamicObject, offset: real): (r: DynamicObject)
    ensures r == d.(offsetHeight := offset)
    ensures GetHeight(r) == d.h + offset && GetX(r) == GetX(d) && GetY(r) == GetY(d)
  {
    d.(offsetHeight := offset)
  }

  function SetHeight(d: DynamicObject, height: real): (r: DynamicObject)
    ensures r == d.(h := height)
    ensures GetHeight(r) == height + d.offsetHeight && GetX(r) == GetX(d) && GetY(r) == GetY(d)
    ensures WellFormed(r) == WellFormed(d)
  {
    d.(h := height)
  }

  function SetPos(d: DynamicObject, x: real, y: real): (r: DynamicObject)
    ensures r == d.(x := x, y := y)
    ensures GetX(r) == x + d.offsetX && GetY(r) == y + d.offsetY && GetHeight(r) == GetHeight(d)
    ensures WellFormed(r) == WellFormed(d)
  {
    d.(x := x, y := y)
  }

  function SetPosOffset(d: DynamicObject, ox: real, oy: real): (r: DynamicObject)
    ensures r == d.(offsetX := ox, offsetY := oy)
    ensures GetX(r) == d.x + ox && GetY(r) == d.y + oy && GetHeight(r) == GetHeight(d)
  {
    d.(offsetX := ox, offsetY := oy)
  }

  /** `move_vert`, `move_x`, `move_y`: each shifts one coordinate and leaves the rest alone. */
  function MoveVert(d: DynamicObject, v: real): (r: DynamicObject)
    ensures r == d.(h := r.h)
    ensures GetHeight(r) == GetHeight(d) + v
  {
    d.(h := d.h + v)
  }

  function MoveX(d: DynamicObject, v: real): (r: DynamicObject)
    ensures r == d.(x := r.x)
    ensures GetX(r) == GetX(d) + v
  {
    d.(x := d.x + v)
  }

  function MoveY(d: DynamicObject, v: real): (r: DynamicObject)
    ensures r == d.(y := r.y)
    ensures GetY(r) == GetY(d) + v
  {
    d.(y := d.y + v)
  }

  /** Moves along different axes commute, and a move is undone by its opposite. */
  lemma MovesCommuteAndInvert(d: DynamicObject, a: real, b: real)
    ensures MoveX(MoveY(d, b), a) == MoveY(MoveX(d, a), b)
    ensures MoveX(MoveX(d, a), -a) == d
    ensures MoveY(MoveY(d, b), -b) == d
    ensures MoveVert(MoveVert(d, a), -a) == d
  {
  }

  /** `getAnimation()`. */
  function Current(d: DynamicObject): (a: Animation)
    requires 0 <= d.state < |d.animations|
    ensures a in d.animations
  {
    d.animations[d.state]
  }

  function Width(d: DynamicObject): int
    requires WellFormed(d)
  {
    Anim.GetWidth(Current(d)).value
  }

  function Height(d: DynamicObject): int
    requires WellFormed(d)
  {
    Anim.GetHeight(Current(d)).value
  }

  /**
   * The isometric projection of a ground point onto the screen before the
   * sprite's own offset: x - y across, (x + y) / 2 down.
   */
  function ProjectX(gx: real, gy: real): real { gx - gy }
  function ProjectY(gx: real, gy: real): real { (gx + gy) / 2.0 }

  /** The inverse projection: the ground point under a screen point. */
  function Unproject(px: real, py: real): (g: (real, real))
    ensures ProjectX(g.0, g.1) == px && ProjectY(g.0, g.1) == py
    ensures forall gx: real, gy: real :: ProjectX(gx, gy) == px && ProjectY(gx, gy) == py ==> g == (gx, gy)
  {
    (py + px / 2.0, py - px / 2.0)
  }

  /** `render_x()`: the left edge of the sprite, truncated toward zero. */
  function RenderX(d: DynamicObject): (r: int)
    requires WellFormed(d)
    ensures var exact := ProjectX(GetX(d), GetY(d)) - Width(d) as real / 2.0;
            (exact >= 0.0 ==> r as real <= exact < r as real + 1.0) &&
            (exact < 0.0 ==> r as real - 1.0 < exact <= r as real)
  {
    Trunc(GetX(d) - GetY(d) - Width(d) as real / 2.0)
  }

  /** `render_y()`: the top edge of the sprite, truncated toward zero. */
  function RenderY(d: DynamicObject): (r: int)
    requires WellFormed(d)
    ensures var exact := ProjectY(GetX(d), GetY(d)) - Height(d) as real;
            (exact >= 0.0 ==> r as real <= exact < r as real + 1.0) &&
            (exact < 0.0 ==> r as real - 1.0 < exact <= r as real)
  {
    Trunc((GetX(d) + GetY(d)) / 2.0 - Height(d) as real)
  }

  /**
   * `getDepth()`: the painter's-order key, from the raw position (offsets
   * are ignored) with Java's truncating casts and integer division.
   */
  function Depth(d: DynamicObject): int {
    Div(Trunc(d.y), 64) * 100 + Div(Trunc(d.x), 64) * 101 + Div(Trunc(d.h), 32) + 1
  }

  /**
   * An object standing in a tile's cell, in the same height band as that
   * tile's base, sorts directly after the tile: its depth is the tile's
   * plus one.
   */
  lemma {:induction false} DepthJustAboveTile(d: DynamicObject, t: Tiles.Tile)
    requires t.col == Trunc(d.x / 64.0) && t.row == Trunc(d.y / 64.0)
    requires Trunc(t.base / Tiles.TileHeight) == Trunc(d.h / 32.0)
    ensures Depth(d) == t.Depth() + 1
  {
    DivOfTrunc(d.x, 64);
    DivOfTrunc(d.y, 64);
    DivOfTrunc(d.h, 32);
  }

  /**
   * `setState(s)`: out-of-range states are ignored; switching to a different
   * state rewinds the new animation; re-selecting the current one changes nothing.
   */
  function SetState(d: DynamicObject, s: int): (r: DynamicObject)
    ensures (s < 0 || s >= |d.animations|) ==> r == d
    ensures 0 <= s < |d.animations| ==> r.state == s
    ensures s == d.state ==> r == d
    ensures 0 <= s < |d.animations| && s != d.state ==>
              r == d.(state := s, animations := d.animations[s := Anim.Reset(d.animations[s])])
    ensures WellFormed(d) ==> WellFormed(r)
    ensures Playable(d) ==> Playable(r)
  {
    if s < 0 || s >= |d.animations| then d
    else if d.state != s then
      d.(state := s, animations := d.animations[s := Anim.Reset(d.animations[s])])
    else d
  }

  /** `reset()`: rewind the current animation. */
  function Reset(d: DynamicObject): (r: DynamicObject)
    requires 0 <= d.state < |d.animations|
    ensures r.state == d.state && |r.animations| == |d.animations|
    ensures Current(r) == Current(d).(currentFrame := 0.0)
    ensures forall i :: 0 <= i < |d.animations| && i != d.state ==> r.animations[i] == d.animations[i]
    ensures r == d.(animations := r.animations)
    ensures WellFormed(d) ==> WellFormed(r)
    ensures Playable(d) ==> Playable(r)
  {
    d.(animations := d.animations[d.state := Anim.Reset(d.animations[d.state])])
  }

  /** Advance the current animation by one tick (a null frame list throws in Java). */
  function AdvanceAnimation(d: DynamicObject): (r: DynamicObject)
    requires 0 <= d.state < |d.animations| && Current(d).frames.Some?
    ensures r.state == d.state && |r.animations| == |d.animations|
    ensures Current(r) == Anim.Advance(Current(d))
    ensures forall i :: 0 <= i < |d.animations| && i != d.state ==> r.animations[i] == d.animations[i]
    ensures r == d.(animations := r.animations)
    ensures WellFormed(d) && Current(d).speed >= 0.0 && IndexInRange(Current(d)) ==> WellFormed(r)
    ensures Playable(d) ==> Playable(r)
  {
    var a := Anim.Advance(d.animations[d.state]);
    d.(animations := d.animations[d.state := a])
  }

  /** The horizontal gap between the two sprites' centres as `collide` measures it. */
  function GapX(d: DynamicObject, o: DynamicObject): int
    requires WellFormed(d) && WellFormed(o)
  {
    (RenderX(d) + Div(Width(d), 2)) - (RenderX(o) + Div(Width(o), 2))
  }

  /**
   * The vertical gap as `collide` measures it: both feet are taken at this
   * object's own sprite height, so the gap is that of the top edges.
   */
  function GapY(d: DynamicObject, o: DynamicObject): (g: int)
    requires WellFormed(d) && WellFormed(o)
    ensures g == RenderY(d) - RenderY(o)
  {
    (RenderY(d) + Height(d)) - (RenderY(o) + Height(d))
  }

  /** The centres, `gx` and `gy` apart, lie within `reach` of each other: the distance test squared. */
  predicate Within(gx: int, gy: int, reach: real) {
    reach >= 0.0 && gx as real * gx as real + gy as real * gy as real <= reach * reach
  }

  /**
   * `collide(other)`, with the square root compared by squaring: the centres
   * lie within the summed radii, and the raw heights differ by at most the
   * other sprite's height.
   */
  function Collide(d: DynamicObject, o: DynamicObject): (c: bool)
    requires WellFormed(d) && WellFormed(o)
    ensures c ==> Abs(d.h - o.h) <= Height(o) as real
    ensures c ==> d.radius + o.radius >= 0.0
    ensures GapX(d, o) == 0 && GapY(d, o) == 0 && d.radius + o.radius >= 0.0 && d.h == o.h && Height(o) >= 0 ==> c
  {
    Within(GapX(d, o), GapY(d, o), d.radius + o.radius) && Abs(d.h - o.h) <= Height(o) as real
  }

  /** For a non-negative `dist` with dist² = sq: dist <= reach exactly when reach >= 0 and sq <= reach². */
  lemma {:induction false} RootCompare(dist: real, sq: real, reach: real)
    requires dist >= 0.0 && dist * dist == sq
    ensures dist <= reach <==> (reach >= 0.0 && sq <= reach * reach)
  {
    if dist < reach {
      SquareGrows(dist, reach);
    } else if reach < dist && reach >= 0.0 {
      SquareGrows(reach, dist);
    }
  }

  /** The squared test agrees with comparing the Euclidean distance `dist` of the gaps. */
  lemma WithinIsDistance(gx: int, gy: int, reach: real, dist: real)
    requires dist >= 0.0 && dist * dist == (gx * gx + gy * gy) as real
    ensures Within(gx, gy, reach) <==> dist <= reach
  {
    SquaresAsReal(gx, gy);
    RootCompare(dist, gx as real * gx as real + gy as real * gy as real, reach);
  }

  /**
   * `Collide` agrees with the source's test that uses the Euclidean
   * distance: for `dist` the square root of the squared gap.
   */
  lemma CollideIsDistanceTest(d: DynamicObject, o: DynamicObject, dist: real)
    requires WellFormed(d) && WellFormed(o)
    requires dist >= 0.0
    requires dist * dist == (GapX(d, o) * GapX(d, o) + GapY(d, o) * GapY(d, o)) as real
    ensures Collide(d, o) <==> (dist <= d.radius + o.radius && Abs(d.h - o.h) <= Height(o) as real)
  {
    WithinIsDistance(GapX(d, o), GapY(d, o), d.radius + o.radius, dist);
  }

  lemma SquaresAsReal(a: int, b: int)
    ensures (a * a + b * b) as real == a as real * a as real + b as real * b as real
  {
  }
}
