/**
 * `Model`: a `DynamicObject` with velocities, gravity, jumping, terrain
 * collision against the map, and a shadow object that follows it along
 * the ground.
 */
module Physics {
  import opened JavaNum
  import opened Wrappers
  import Anim
  import opened Entity
  import opened GameMap
  import Heading

  const JumpSpeed: real := 13.0
  const Gravity: real := 1.5
  /** Half a tile height: the highest step a model walks up. */
  const StepLimit: real := 16.0
  /** Below this magnitude a velocity counts as standing still. */
  const Still: real := 0.001

  datatype Model = Model(
    normalSpeed: real, diagonalSpeed: real,
    velX: real, velY: real, velH: real,
    body: DynamicObject, shadow: DynamicObject, grid: Grid)

  /** The diagonal speed is the straight speed divided by the square root of two. */
  predicate SpeedsAgree(normal: real, diagonal: real) {
    diagonal >= 0.0 && 2.0 * diagonal * diagonal == normal * normal
  }

  predicate NoOffsets(d: DynamicObject) {
    d.offsetX == 0.0 && d.offsetY == 0.0 && d.offsetHeight == 0.0
  }

  /** What every model keeps: a well-formed sprite, no offsets on sprite or shadow, and consistent speeds. */
  predicate Valid(m: Model) {
    WellFormed(m.body) && NoOffsets(m.body) && NoOffsets(m.shadow) &&
    SpeedsAgree(m.normalSpeed, m.diagonalSpeed)
  }

  /**
   * The constructor. A null or empty animation list is an error. The
   * radius is the first animation's width over `radiusConstant`; both
   * sprite and shadow start at (x, y). `diagonal` is the square root the
   * constructor takes, supplied by the caller, and `shadowAnimations` the
   * shadow sprite's animations.
   */
  function NewModel(animations: Option<seq<Anim.Animation>>, grid: Grid, x: real, y: real,
                    radiusConstant: real, speed: real, diagonal: real,
                    shadowAnimations: seq<Anim.Animation>): (r: Result<Model, string>)
    requires radiusConstant != 0.0 && SpeedsAgree(speed, diagonal)
    requires animations.Some? && |animations.value| > 0 ==>
               forall i :: 0 <= i < |animations.value| ==> Anim.FrameInRange(animations.value[i])
    ensures r.Err? <==> animations.None? || |animations.value| == 0
    ensures r.Ok? ==> Valid(r.value) && r.value.grid == grid
    ensures r.Ok? ==> GetX(r.value.body) == x && GetY(r.value.body) == y && GetHeight(r.value.body) == 0.0
    ensures r.Ok? ==> GetX(r.value.shadow) == x && GetY(r.value.shadow) == y
    ensures r.Ok? ==> r.value.body.radius == r.value.shadow.radius ==
                        Anim.GetWidth(animations.value[0]).value as real / radiusConstant
    ensures r.Ok? ==> r.value.velX == 0.0 && r.value.velY == 0.0 && r.value.velH == 0.0
    ensures r.Ok? ==> r.value.body.state == 0 && r.value.body.animations == animations.value
  {
    if animations.None? || |animations.value| < 1 then Err("ERR: Model animation doesn't exist")
    else
      var radius := Anim.GetWidth(animations.value[0]).value as real / radiusConstant;
      var body := SetPos(NewObject(animations.value, radius), x, y);
      var shadow := SetPos(NewObject(shadowAnimations, radius), x, y);
      Ok(Model(speed, diagonal, 0.0, 0.0, 0.0, body, shadow, grid))
  }

  /**
   * One horizontal step of `update` along an axis: move by `v`, and step
   * back to the old coordinate when the terrain there rises half a tile or
   * more above the sprite.
   */
  function StepX(grid: Grid, b: DynamicObject, v: real): (r: DynamicObject)
    requires WellFormed(b) && b.offsetX == 0.0 && b.offsetY == 0.0
    ensures r == b || r == MoveX(b, v)
    ensures GetX(r) == GetX(b) || GetX(r) == GetX(b) + v
    ensures r == MoveX(b, v) <==> HeightUnder(grid, MoveX(b, v)) < GetHeight(b) + StepLimit || v == 0.0
    ensures GetY(r) == GetY(b) && GetHeight(r) == GetHeight(b) && WellFormed(r)
    ensures r.offsetX == 0.0 && r.offsetY == 0.0 && r.offsetHeight == b.offsetHeight
    ensures r.state == b.state && r.animations == b.animations
  {
    var oldX := GetX(b);
    var moved := MoveX(b, v);
    assert WellFormed(moved);
    if HeightUnder(grid, moved) >= GetHeight(moved) + StepLimit then SetPos(moved, oldX, GetY(moved))
    else moved
  }

  function StepY(grid: Grid, b: DynamicObject, v: real): (r: DynamicObject)
    requires WellFormed(b) && b.offsetX == 0.0 && b.offsetY == 0.0
    ensures r == b || r == MoveY(b, v)
    ensures GetY(r) == GetY(b) || GetY(r) == GetY(b) + v
    ensures r == MoveY(b, v) <==> HeightUnder(grid, MoveY(b, v)) < GetHeight(b) + StepLimit || v == 0.0
    ensures GetX(r) == GetX(b) && GetHeight(r) == GetHeight(b) && WellFormed(r)
    ensures r.offsetX == 0.0 && r.offsetY == 0.0 && r.offsetHeight == b.offsetHeight
    ensures r.state == b.state && r.animations == b.animations
  {
    var oldY := GetY(b);
    var moved := MoveY(b, v);
    assert WellFormed(moved);
    if HeightUnder(grid, moved) >= GetHeight(moved) + StepLimit then SetPos(moved, GetX(moved), oldY)
    else moved
  }

  /**
   * The vertical half of `update`: gravity lowers the vertical velocity,
   * the sprite moves by it, and a sprite falling onto or below the terrain
   * lands on it with the vertical velocity cleared. Returns the new
   * vertical velocity, the sprite, and the terrain height under it.
   */
  /**
   * The sprite lands in this frame: after gravity it is not rising, and the
   * move by its vertical velocity takes it onto or below the terrain.
   */
  predicate Lands(grid: Grid, b: DynamicObject, velH: real)
    requires WellFormed(b)
  {
    velH - Gravity <= 0.0 && GetHeight(b) + (velH - Gravity) <= HeightUnder(grid, b)
  }

  function Fall(grid: Grid, b: DynamicObject, velH: real): (r: (real, DynamicObject, real))
    requires WellFormed(b) && b.offsetHeight == 0.0
    ensures var (v, nb, ground) := r;
            && WellFormed(nb) && GetX(nb) == GetX(b) && GetY(nb) == GetY(b)
            && nb == b.(h := nb.h)
            && ground == HeightUnder(grid, b)
            && (Lands(grid, b, velH) ==> v == 0.0 && GetHeight(nb) == ground)
            && (!Lands(grid, b, velH) ==> v == velH - Gravity && GetHeight(nb) == GetHeight(b) + (velH - Gravity))
            && (velH - Gravity <= 0.0 ==> GetHeight(nb) >= ground)
  {
    var v := velH - Gravity;
    var moved := MoveVert(b, v);
    HeightIgnoresElevation(grid, b, moved.h, moved.offsetHeight);
    var ground := HeightUnder(grid, moved);
    if v <= 0.0 && GetHeight(moved) <= ground then (0.0, SetHeight(moved, ground), ground)
    else (v, moved, ground)
  }

  /** `update()`: fall, step along x, step along y, then put the shadow on the ground under the sprite. */
  function Update(m: Model): (r: Model)
    requires Valid(m)
    ensures Valid(r)
    ensures r == m.(velH := r.velH, body := r.body, shadow := r.shadow)
    ensures r.body == StepY(m.grid, StepX(m.grid, Fall(m.grid, m.body, m.velH).1, m.velX), m.velY)
    ensures Lands(m.grid, m.body, m.velH) ==> r.velH == 0.0 && GetHeight(r.body) == HeightUnder(m.grid, m.body)
    ensures !Lands(m.grid, m.body, m.velH) ==>
              r.velH == m.velH - Gravity && GetHeight(r.body) == GetHeight(m.body) + (m.velH - Gravity)
    ensures GetX(r.body) == GetX(m.body) || GetX(r.body) == GetX(m.body) + m.velX
    ensures GetY(r.body) == GetY(m.body) || GetY(r.body) == GetY(m.body) + m.velY
    ensures GetX(r.shadow) == GetX(r.body) && GetY(r.shadow) == GetY(r.body)
    ensures r.shadow.h == HeightUnder(m.grid, m.body)
    ensures r.body.state == m.body.state && r.body.animations == m.body.animations
    ensures Playable(m.body) ==> Playable(r.body)
  {
    var f := Fall(m.grid, m.body, m.velH);
    var fallen := f.1;
    assert WellFormed(fallen) && NoOffsets(fallen);
    var sx := StepX(m.grid, fallen, m.velX);
    var sy := StepY(m.grid, sx, m.velY);
    var shadow := SetPos(SetHeight(m.shadow, f.2), GetX(sy), GetY(sy));
    m.(velH := f.0, body := sy, shadow := shadow)
  }

  /**
   * The shadow re-set `Player.update` and `NonPlayerObject.act` do after
   * the physics step: the shadow goes to the terrain height under the
   * sprite where it now stands, at the sprite's position.
   */
  function Reshadow(m: Model): (r: Model)
    requires Valid(m)
    ensures Valid(r) && r == m.(shadow := r.shadow)
    ensures r.shadow.h == HeightUnder(m.grid, m.body)
    ensures GetX(r.shadow) == GetX(m.body) && GetY(r.shadow) == GetY(m.body)
    ensures r.shadow == m.shadow.(h := r.shadow.h, x := r.shadow.x, y := r.shadow.y)
  {
    m.(shadow := SetPos(SetHeight(m.shadow, HeightUnder(m.grid, m.body)), GetX(m.body), GetY(m.body)))
  }

  /** A model at rest on the terrain stays exactly where it is. */
  lemma {:induction false} RestingIsStable(m: Model)
    requires Valid(m) && m.velX == 0.0 && m.velY == 0.0 && m.velH == 0.0
    requires GetHeight(m.body) == HeightUnder(m.grid, m.body)
    ensures Update(m).body == m.body && Update(m).velH == 0.0
  {
    var (v, fallen, ground) := Fall(m.grid, m.body, m.velH);
    assert fallen == m.body;
    assert MoveX(fallen, 0.0) == fallen;
    assert MoveY(fallen, 0.0) == fallen;
  }

  /** The unit direction of an integer, as `move_x` and `move_y` clamp it. */
  function Clamp(direction: int): (d: int)
    ensures Heading.Unit(d)
    ensures (d > 0 <==> direction > 0) && (d < 0 <==> direction < 0)
  {
    if direction > 0 then 1 else if direction < 0 then -1 else 0
  }

  /** Both velocities are clearly nonzero: the model is already moving diagonally. */
  predicate Diagonal(m: Model) {
    Abs(m.velX) > Still && Abs(m.velY) > Still
  }

  /**
   * `move_x(direction)`: set the x velocity to the straight speed in that
   * direction, or, when already moving diagonally, set both velocities to
   * the diagonal speed, keeping y's sign.
   */
  function MoveXDir(m: Model, direction: int): (r: Model)
    requires SpeedsAgree(m.normalSpeed, m.diagonalSpeed)
    ensures r == m.(velX := r.velX, velY := r.velY)
    ensures !Diagonal(m) ==> r.velX == m.normalSpeed * Clamp(direction) as real && r.velY == m.velY
    ensures Diagonal(m) ==> r.velX == m.diagonalSpeed * Clamp(direction) as real
    ensures Diagonal(m) ==> r.velY == m.diagonalSpeed * Signum(m.velY)
    ensures Diagonal(m) && direction != 0 ==> r.velX * r.velX + r.velY * r.velY == m.normalSpeed * m.normalSpeed
    ensures m.normalSpeed > 0.0 ==> Signum(r.velY) == Signum(m.velY) || !Diagonal(m)
  {
    var d := Clamp(direction);
    if Abs(m.velX) <= Still || Abs(m.velY) <= Still then m.(velX := m.normalSpeed * d as real)
    else
      var r := m.(velY := m.diagonalSpeed * Signum(m.velY), velX := m.diagonalSpeed * d as real);
      DiagonalPositive(m.normalSpeed, m.diagonalSpeed);
      if d == 0 then r
      else DiagonalSpeed(m.normalSpeed, m.diagonalSpeed, d as real, Signum(m.velY)); r
  }

  /** `move_y(direction)`: the same with the axes exchanged. */
  function MoveYDir(m: Model, direction: int): (r: Model)
    requires SpeedsAgree(m.normalSpeed, m.diagonalSpeed)
    ensures r == m.(velX := r.velX, velY := r.velY)
    ensures !Diagonal(m) ==> r.velY == m.normalSpeed * Clamp(direction) as real && r.velX == m.velX
    ensures Diagonal(m) ==> r.velY == m.diagonalSpeed * Clamp(direction) as real
    ensures Diagonal(m) ==> r.velX == m.diagonalSpeed * Signum(m.velX)
    ensures Diagonal(m) && direction != 0 ==> r.velX * r.velX + r.velY * r.velY == m.normalSpeed * m.normalSpeed
    ensures m.normalSpeed > 0.0 ==> Signum(r.velX) == Signum(m.velX) || !Diagonal(m)
  {
    var d := Clamp(direction);
    if Abs(m.velX) <= Still || Abs(m.velY) <= Still then m.(velY := m.normalSpeed * d as real)
    else
      var r := m.(velX := m.diagonalSpeed * Signum(m.velX), velY := m.diagonalSpeed * d as real);
      DiagonalPositive(m.normalSpeed, m.diagonalSpeed);
      if d == 0 then r
      else DiagonalSpeed(m.normalSpeed, m.diagonalSpeed, Signum(m.velX), d as real); r
  }

  /**
   * Setting one axis to a nonzero direction and then the other axis to any
   * direction leaves each velocity with the sign of its direction: the
   * diagonal rule of the second call keeps the first axis's sign.
   */
  lemma {:induction false} MoveYThenXSigns(m: Model, dy: int, dx: int)
    requires SpeedsAgree(m.normalSpeed, m.diagonalSpeed) && m.normalSpeed > 0.0
    requires Heading.Unit(dx) && Heading.Unit(dy) && dy != 0
    ensures var r := MoveXDir(MoveYDir(m, dy), dx);
            Signum(r.velX) == dx as real && Signum(r.velY) == dy as real
  {
    DiagonalPositive(m.normalSpeed, m.diagonalSpeed);
    var a := MoveYDir(m, dy);
    assert Signum(a.velY) == dy as real;
    var r := MoveXDir(a, dx);
    if Diagonal(a) {
      assert r.velY == m.diagonalSpeed * Signum(a.velY);
    }
  }

  lemma {:induction false} MoveXThenYSigns(m: Model, dx: int, dy: int)
    requires SpeedsAgree(m.normalSpeed, m.diagonalSpeed) && m.normalSpeed > 0.0
    requires Heading.Unit(dx) && Heading.Unit(dy) && dx != 0
    ensures var r := MoveYDir(MoveXDir(m, dx), dy);
            Signum(r.velX) == dx as real && Signum(r.velY) == dy as real
  {
    DiagonalPositive(m.normalSpeed, m.diagonalSpeed);
    var a := MoveXDir(m, dx);
    assert Signum(a.velX) == dx as real;
    var r := MoveYDir(a, dy);
    if Diagonal(a) {
      assert r.velX == m.diagonalSpeed * Signum(a.velX);
    }
  }

  /** Two unit components at the diagonal speed make up the straight speed. */
  lemma DiagonalSpeed(normal: real, diagonal: real, a: real, b: real)
    requires SpeedsAgree(normal, diagonal)
    requires (a == 1.0 || a == -1.0) && (b == 1.0 || b == -1.0)
    ensures (diagonal * a) * (diagonal * a) + (diagonal * b) * (diagonal * b) == normal * normal
  {
    assert (diagonal * a) * (diagonal * a) == diagonal * diagonal;
    assert (diagonal * b) * (diagonal * b) == diagonal * diagonal;
  }

  /** A positive straight speed has a positive diagonal speed. */
  lemma DiagonalPositive(normal: real, diagonal: real)
    requires SpeedsAgree(normal, diagonal)
    ensures normal > 0.0 ==> diagonal > 0.0
  {
    if normal > 0.0 {
      SquareGrows(0.0, normal);
    }
  }

  function SetVelX(m: Model, v: real): (r: Model)
    ensures r == m.(velX := v)
  {
    m.(velX := v)
  }

  function SetVelY(m: Model, v: real): (r: Model)
    ensures r == m.(velY := v)
  {
    m.(velY := v)
  }

  /** On the ground: within one straight speed of the terrain. */
  predicate Grounded(m: Model)
    requires WellFormed(m.body)
  {
    Abs(GetHeight(m.body) - HeightUnder(m.grid, m.body)) < m.normalSpeed
  }

  /** `jump()`: only a model with no vertical velocity, standing on the ground, takes off. */
  function Jump(m: Model): (r: Model)
    requires WellFormed(m.body)
    ensures r == m.(velH := r.velH)
    ensures r.velH == JumpSpeed <==> (m.velH == 0.0 && Grounded(m)) || m.velH == JumpSpeed
    ensures r.velH != m.velH ==> m.velH == 0.0 && Grounded(m)
  {
    if m.velH == 0.0 && Abs(GetHeight(m.body) - HeightUnder(m.grid, m.body)) < m.normalSpeed then
      m.(velH := JumpSpeed)
    else m
  }

  /** After a jump from the ground, the next update lifts the sprite by the take-off speed less gravity. */
  lemma {:induction false} JumpLifts(m: Model)
    requires Valid(m) && m.velH == 0.0 && Grounded(m)
    ensures Update(Jump(m)).velH == JumpSpeed - Gravity
    ensures GetHeight(Update(Jump(m)).body) == GetHeight(m.body) + JumpSpeed - Gravity
  {
    var j := Jump(m);
    assert j.velH == JumpSpeed;
    var (v, fallen, ground) := Fall(j.grid, j.body, j.velH);
    assert v == JumpSpeed - Gravity;
  }

  /** `setState(s)` on the sprite. */
  function SetModelState(m: Model, s: int): (r: Model)
    ensures r == m.(body := SetState(m.body, s))
    ensures Valid(m) ==> Valid(r)
    ensures Playable(m.body) ==> Playable(r.body)
  {
    m.(body := SetState(m.body, s))
  }

  /** `advanceAnimation()`. */
  function AdvanceModel(m: Model): (r: Model)
    requires 0 <= m.body.state < |m.body.animations| && Current(m.body).frames.Some?
    ensures r == m.(body := AdvanceAnimation(m.body))
    ensures Valid(m) && Current(m.body).speed >= 0.0 && Anim.IndexInRange(Current(m.body)) ==> Valid(r)
    ensures Playable(m.body) ==> Playable(r.body)
  {
    m.(body := AdvanceAnimation(m.body))
  }

  /** `reset()`. */
  function ResetModel(m: Model): (r: Model)
    requires 0 <= m.body.state < |m.body.animations|
    ensures r == m.(body := Entity.Reset(m.body))
    ensures Valid(m) ==> Valid(r)
    ensures Playable(m.body) ==> Playable(r.body)
  {
    m.(body := Entity.Reset(m.body))
  }

  /** `getDynamicObjects()`: the shadow first, so it is drawn beneath the sprite at equal depth. */
  function DynamicObjects(m: Model): (r: seq<DynamicObject>)
    ensures |r| == 2 && r[0] == m.shadow && r[1] == m.body
  {
    [m.shadow, m.body]
  }

  /** Carry out an actor's calls in order. */
  function Apply(m: Model, cmds: seq<Heading.Command>): (r: Model)
    requires Valid(m)
    ensures Valid(r)
    ensures r.grid == m.grid
    ensures Playable(m.body) ==> Playable(r.body)
    ensures r.velH == m.velH || exists i :: 0 <= i < |cmds| && cmds[i].Jump?
    ensures (forall i :: 0 <= i < |cmds| ==> cmds[i].MoveX? || cmds[i].MoveY?) ==> r.body == m.body
    decreases |cmds|
  {
    if |cmds| == 0 then m
    else
      var c := cmds[0];
      var next := match c
        case MoveX(d) => MoveXDir(m, d)
        case MoveY(d) => MoveYDir(m, d)
        case SetState(s) => SetModelState(m, s)
        case Reset => ResetModel(m)
        case Jump => Jump(m);
      var r := Apply(next, cmds[1..]);
      assert forall i :: 0 <= i < |cmds[1..]| ==> cmds[1..][i] == cmds[i + 1];
      r
  }
}
