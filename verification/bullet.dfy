/**
 * `Bullet`: a projectile that flies at a fixed velocity in six sub-steps
 * per frame, stops on hitting the terrain or a zombie, and kills the
 * first zombie it touches.
 */
module Bullets {
  import opened Wrappers
  import opened JavaNum
  import opened Entity
  import opened GameMap
  import Physics
  import Zombies

  const Resolution: int := 6
  /** A bullet this far below the terrain has hit it: half a tile height. */
  const BuryDepth: real := 16.0

  datatype Bullet = Bullet(body: DynamicObject, shadow: DynamicObject,
                           velX: real, velY: real, velH: real, done: bool)

  /** What a bullet keeps: both sprites well formed and without offsets. */
  predicate Valid(b: Bullet) {
    WellFormed(b.body) && WellFormed(b.shadow) && Physics.NoOffsets(b.body) && Physics.NoOffsets(b.shadow)
  }

  /**
   * The constructor, with the two `Math.random()` draws `r1`, `r2` in
   * [0, 1) as parameters: both sprites start at the wielder's position
   * shifted by up to half the velocity on each axis, at the wielder's height.
   */
  function NewBullet(body: DynamicObject, shadow: DynamicObject, wielder: DynamicObject,
                     vx: real, vy: real, vh: real, r1: real, r2: real): (b: Bullet)
    requires 0.0 <= r1 < 1.0 && 0.0 <= r2 < 1.0
    ensures !b.done && b.velX == vx && b.velY == vy && b.velH == vh
    ensures b.body == body.(x := b.body.x, y := b.body.y, h := b.body.h)
    ensures b.shadow == shadow.(x := b.shadow.x, y := b.shadow.y, h := b.shadow.h)
    ensures b.body.x == b.shadow.x && b.body.y == b.shadow.y
    ensures b.body.h == GetHeight(wielder) && b.shadow.h == GetHeight(wielder)
    ensures Physics.NoOffsets(body) ==> GetHeight(b.body) == GetHeight(wielder)
    ensures Physics.NoOffsets(shadow) ==> GetHeight(b.shadow) == GetHeight(wielder)
    ensures Abs(b.body.x - GetX(wielder)) <= Abs(vx) / 2.0
    ensures Abs(b.body.y - GetY(wielder)) <= Abs(vy) / 2.0
    ensures WellFormed(body) && WellFormed(shadow) && Physics.NoOffsets(body) && Physics.NoOffsets(shadow) ==> Valid(b)
  {
    var ox := vx * (r1 - 0.5);
    var oy := vy * (r2 - 0.5);
    var s := SetHeight(SetPos(shadow, GetX(wielder) + ox, GetY(wielder) + oy), GetHeight(wielder));
    var m := SetHeight(SetPos(body, GetX(wielder) + ox, GetY(wielder) + oy), GetHeight(wielder));
    OffsetBound(vx, r1);
    OffsetBound(vy, r2);
    Bullet(m, s, vx, vy, vh, false)
  }

  lemma OffsetBound(v: real, r: real)
    requires 0.0 <= r < 1.0
    ensures Abs(v * (r - 0.5)) <= Abs(v) / 2.0
  {
    var t := r - 0.5;
    var w := Abs(v);
    var p := v * t;
    MulMonoLe(t, 0.5, w);
    MulMonoLe(-0.5, t, w);
    assert t * w == w * t;
    assert -(w / 2.0) <= w * t <= w / 2.0;
    if v < 0.0 {
      assert p == -(w * t);
    } else {
      assert p == w * t;
    }
    assert -(w / 2.0) <= p <= w / 2.0;
    assert Abs(p) <= w / 2.0;
  }

  /** One sub-step: a sixth of the velocity on every axis. */
  function Step(b: Bullet): (r: Bullet)
    requires Valid(b)
    ensures Valid(r) && r == b.(body := r.body)
    ensures GetX(r.body) == GetX(b.body) + b.velX / 6.0
    ensures GetY(r.body) == GetY(b.body) + b.velY / 6.0
    ensures GetHeight(r.body) == GetHeight(b.body) + b.velH / 6.0
  {
    var moved := SetPos(b.body, GetX(b.body) + b.velX / Resolution as real, GetY(b.body) + b.velY / Resolution as real);
    b.(body := SetHeight(moved, GetHeight(moved) + b.velH / Resolution as real))
  }

  /** The sprite after k unobstructed sub-steps. */
  function Flight(b: Bullet, k: nat): (r: Bullet)
    requires Valid(b)
    ensures Valid(r) && r == b.(body := r.body)
    decreases k
  {
    if k == 0 then b else Step(Flight(b, k - 1))
  }

  /** k sub-steps move the sprite by k sixths of the velocity. */
  lemma FlightDistance(b: Bullet, k: nat)
    requires Valid(b)
    ensures GetX(Flight(b, k).body) == GetX(b.body) + k as real * (b.velX / 6.0)
    ensures GetY(Flight(b, k).body) == GetY(b.body) + k as real * (b.velY / 6.0)
    ensures GetHeight(Flight(b, k).body) == GetHeight(b.body) + k as real * (b.velH / 6.0)
  {
    FlightX(b, k);
    FlightY(b, k);
    FlightH(b, k);
  }

  lemma {:induction false} FlightX(b: Bullet, k: nat)
    requires Valid(b)
    ensures GetX(Flight(b, k).body) == GetX(b.body) + k as real * (b.velX / 6.0)
    decreases k
  {
    if k > 0 {
      var a := b.velX / 6.0;
      var x0 := GetX(b.body);
      var prev := Flight(b, k - 1);
      FlightX(b, k - 1);
      assert GetX(Flight(b, k).body) == GetX(prev.body) + a;
      OneMoreStep(x0, a, k - 1);
    }
  }

  lemma {:induction false} FlightY(b: Bullet, k: nat)
    requires Valid(b)
    ensures GetY(Flight(b, k).body) == GetY(b.body) + k as real * (b.velY / 6.0)
    decreases k
  {
    if k > 0 {
      var a := b.velY / 6.0;
      var y0 := GetY(b.body);
      var prev := Flight(b, k - 1);
      FlightY(b, k - 1);
      assert GetY(Flight(b, k).body) == GetY(prev.body) + a;
      OneMoreStep(y0, a, k - 1);
    }
  }

  lemma {:induction false} FlightH(b: Bullet, k: nat)
    requires Valid(b)
    ensures GetHeight(Flight(b, k).body) == GetHeight(b.body) + k as real * (b.velH / 6.0)
    decreases k
  {
    if k > 0 {
      var a := b.velH / 6.0;
      var h0 := GetHeight(b.body);
      var prev := Flight(b, k - 1);
      FlightH(b, k - 1);
      assert GetHeight(Flight(b, k).body) == GetHeight(prev.body) + a;
      OneMoreStep(h0, a, k - 1);
    }
  }

  lemma OneMoreStep(x0: real, a: real, j: nat)
    ensures x0 + j as real * a + a == x0 + (j + 1) as real * a
  {
  }

  /** The bullet is buried: below the terrain under it by more than half a tile height. */
  predicate Buried(grid: Grid, b: Bullet)
    requires WellFormed(b.body)
  {
    GetHeight(b.body) < HeightUnder(grid, b.body) - BuryDepth
  }

  /** The first target, from `from` on, whose sprite the bullet's sprite collides with. */
  function FirstHit(b: Bullet, targets: seq<Zombies.Zombie>, from: nat): (r: Option<nat>)
    requires WellFormed(b.body)
    requires forall j :: 0 <= j < |targets| ==> WellFormed(targets[j].model.body)
    ensures r.Some? ==> from <= r.value < |targets| && Collide(b.body, targets[r.value].model.body)
    ensures r.Some? ==> forall j :: from <= j < r.value ==> !Collide(b.body, targets[j].model.body)
    ensures r.None? ==> forall j :: from <= j < |targets| ==> !Collide(b.body, targets[j].model.body)
    decreases |targets| - from
  {
    if from >= |targets| then None
    else if Collide(b.body, targets[from].model.body) then Some(from)
    else FirstHit(b, targets, from + 1)
  }

  /** A flight that was not stopped moves the shadow to the ground under the bullet. */
  function Land(b: Bullet, grid: Grid): (r: Bullet)
    requires Valid(b)
    ensures Valid(r) && r == b.(shadow := r.shadow)
    ensures GetX(r.shadow) == GetX(r.body) && GetY(r.shadow) == GetY(r.body)
    ensures r.shadow.h == HeightUnder(grid, r.shadow)
  {
    var s := SetPos(b.shadow, GetX(b.body), GetY(b.body));
    b.(shadow := SetHeight(s, HeightUnder(grid, s)))
  }

  /** The flight was above the burial depth at the start of each of its first `n` sub-steps. */
  predicate Unburied(grid: Grid, b: Bullet, n: nat)
    requires Valid(b)
  {
    forall k :: 0 <= k < n ==> !Buried(grid, Flight(b, k))
  }

  /** After each of its first `n` sub-steps the flight touched no target. */
  predicate Missed(b: Bullet, targets: seq<Zombies.Zombie>, n: nat)
    requires Valid(b)
    requires forall j :: 0 <= j < |targets| ==> WellFormed(targets[j].model.body)
  {
    forall k, j :: 1 <= k <= n && 0 <= j < |targets| ==> !Collide(Flight(b, k).body, targets[j].model.body)
  }

  lemma UnburiedStep(grid: Grid, b: Bullet, n: nat)
    requires Valid(b) && Unburied(grid, b, n) && !Buried(grid, Flight(b, n))
    ensures Unburied(grid, b, n + 1)
  {
  }

  lemma MissedStep(b: Bullet, targets: seq<Zombies.Zombie>, n: nat)
    requires Valid(b)
    requires forall j :: 0 <= j < |targets| ==> WellFormed(targets[j].model.body)
    requires Missed(b, targets, n)
    requires forall j :: 0 <= j < |targets| ==> !Collide(Flight(b, n + 1).body, targets[j].model.body)
    ensures Missed(b, targets, n + 1)
  {
  }

  /**
   * One `observe` against `targets`, as its outcome: the sprite made
   * `steps` sub-steps, none starting buried and none colliding before the
   * last; either the last collided with `hit`, the first target it
   * touches, which is now dead, or nothing was hit and a flight cut short
   * ended buried.
   */
  predicate Observed(b: Bullet, grid: Grid, targets: seq<Zombies.Zombie>, r: Bullet,
                     targets': seq<Zombies.Zombie>, steps: nat, hit: Option<nat>)
    requires Valid(b)
  {
    (forall j :: 0 <= j < |targets| ==> WellFormed(targets[j].model.body)) &&
    Valid(r) && steps <= Resolution && r.body == Flight(b, steps).body && Unburied(grid, b, steps) &&
    (hit.Some? ==>
       steps >= 1 && Missed(b, targets, steps - 1) && r.done && hit.value < |targets| &&
       Collide(r.body, targets[hit.value].model.body) &&
       (forall j :: 0 <= j < hit.value ==> !Collide(r.body, targets[j].model.body)) &&
       targets' == targets[hit.value := Zombies.Kill(targets[hit.value])]) &&
    (hit.None? ==>
       Missed(b, targets, steps) && targets' == targets &&
       (steps < Resolution ==> r.done && Buried(grid, r)))
  }

  /**
   * `observe(targets)`: up to six sub-steps. Before each, a buried bullet
   * is done and stops where it is; after each, the first target it
   * collides with is killed and the bullet is done. A flight that is not
   * stopped moves the shadow under the bullet. `steps` counts the
   * sub-steps taken.
   */
  method Observe(b: Bullet, grid: Grid, targets: seq<Zombies.Zombie>)
    returns (r: Bullet, targets': seq<Zombies.Zombie>, steps: nat, hit: Option<nat>)
    requires Valid(b)
    requires forall j :: 0 <= j < |targets| ==> WellFormed(targets[j].model.body)
    ensures Valid(r) && steps <= Resolution
    ensures r.body == Flight(b, steps).body
    ensures Unburied(grid, b, steps)
    ensures hit.Some? ==> steps >= 1 && Missed(b, targets, steps - 1)
    ensures hit.None? ==> Missed(b, targets, steps)
    ensures r.velX == b.velX && r.velY == b.velY && r.velH == b.velH
    ensures hit.Some? ==> r.done && steps >= 1 && hit.value < |targets|
    ensures hit.Some? ==> Collide(r.body, targets[hit.value].model.body)
    ensures hit.Some? ==> forall j :: 0 <= j < hit.value ==> !Collide(r.body, targets[j].model.body)
    ensures hit.Some? ==> targets' == targets[hit.value := Zombies.Kill(targets[hit.value])]
    ensures hit.None? ==> targets' == targets
    ensures r.done != b.done ==> r.done
    ensures steps < Resolution && hit.None? ==> r.done && Buried(grid, r)
    ensures Observed(b, grid, targets, r, targets', steps, hit)
    ensures steps < Resolution || hit.Some? ==> r.shadow == b.shadow
    ensures steps == Resolution && hit.None? ==>
              r.done == b.done && GetX(r.shadow) == GetX(r.body) && GetY(r.shadow) == GetY(r.body) &&
              r.shadow.h == HeightUnder(grid, r.shadow)
  {
    r := b;
    targets' := targets;
    hit := None;
    steps := 0;
    while steps < Resolution
      invariant 0 <= steps <= Resolution
      invariant r == Flight(b, steps)
      invariant hit.None? && targets' == targets
      invariant Unburied(grid, b, steps) && Missed(b, targets, steps)
    {
      if Buried(grid, r) {
        r := r.(done := true);
        return;
      }
      UnburiedStep(grid, b, steps);
      r := Step(r);
      steps := steps + 1;
      assert r == Flight(b, steps);
      hit := FirstHit(r, targets, 0);
      if hit.None? {
        MissedStep(b, targets, steps - 1);
      }
      if hit.Some? {
        r := r.(done := true);
        targets' := targets[hit.value := Zombies.Kill(targets[hit.value])];
        return;
      }
    }
    r := Land(r, grid);
  }

  /** A flight that is never stopped covers exactly one velocity in one frame. */
  lemma FullFlightCoversVelocity(b: Bullet)
    requires Valid(b)
    ensures GetX(Flight(b, 6).body) == GetX(b.body) + b.velX
    ensures GetY(Flight(b, 6).body) == GetY(b.body) + b.velY
    ensures GetHeight(Flight(b, 6).body) == GetHeight(b.body) + b.velH
  {
    FlightDistance(b, 6);
  }
}
