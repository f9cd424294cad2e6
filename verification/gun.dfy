/**
 * `Gun`: the player's weapon. It aims along a normalised direction at a
 * fixed bullet speed, turns its sprite toward the mouse, sits at the
 * wielder's hands, fires at most once every thirty frames and keeps its
 * live bullets and their sprites in the scene's list of dynamic objects.
 *
 * Object identity does not exist here, so the scene list holds handles:
 * `Other(n)` for a sprite the gun does not own, and `BulletMain(id)` /
 * `BulletShadow(id)` for the two sprites of the bullet fired as shot `id`.
 */
module Guns {
  import opened Wrappers
  import opened JavaNum
  import Anim
  import opened Entity
  import opened GameMap
  import Heading
  import Bullets
  import Zombies

  const BulletRadius: real := 16.0
  const ShootDelay: real := 30.0
  const MaxStrafeDifference: real := 64.0

  datatype ObjRef = Other(id: nat) | BulletMain(id: nat) | BulletShadow(id: nat)

  /** A fired bullet together with the handle of its sprites. */
  datatype Shot = Shot(id: nat, bullet: Bullets.Bullet)

  datatype Gun = Gun(
    model: DynamicObject, bulletAnims: seq<Anim.Animation>, shadowAnims: seq<Anim.Animation>,
    speed: real, deltaX: real, deltaY: real, deltaH: real, delay: real,
    offsetX: real, offsetY: real,
    shots: seq<Shot>, objects: seq<ObjRef>, nextId: nat)

  function IdList(shots: seq<Shot>): (ids: seq<nat>)
    ensures |ids| == |shots| && forall i :: 0 <= i < |shots| ==> ids[i] == shots[i].id
  {
    seq(|shots|, i requires 0 <= i < |shots| => shots[i].id)
  }

  predicate Distinct(ids: seq<nat>) {
    forall i, j :: 0 <= i < j < |ids| ==> ids[i] != ids[j]
  }

  /**
   * The scene list holds exactly one main sprite and one shadow for every
   * live shot, each shot's id is below `nextId` and no two shots share
   * one, and the list holds no bullet sprite of any other shot.
   */
  predicate Tracked(ids: seq<nat>, objs: seq<ObjRef>, nextId: nat) {
    Distinct(ids) &&
    (forall k :: k in ids ==> k < nextId) &&
    (forall k :: k in ids ==> multiset(objs)[BulletMain(k)] == 1 && multiset(objs)[BulletShadow(k)] == 1) &&
    (forall o :: o in objs && !o.Other? ==> o.id in ids)
  }

  lemma DistinctCons(x: nat, ys: seq<nat>)
    ensures Distinct([x] + ys) <==> x !in ys && Distinct(ys)
  {
    var xs := [x] + ys;
    if x !in ys && Distinct(ys) {
      forall i, j | 0 <= i < j < |xs|
        ensures xs[i] != xs[j]
      {
        assert xs[j] == ys[j - 1];
        if i > 0 {
          assert xs[i] == ys[i - 1];
        }
      }
    }
    if Distinct(xs) {
      forall i, j | 0 <= i < j < |ys|
        ensures ys[i] != ys[j]
      {
        assert ys[i] == xs[i + 1] && ys[j] == xs[j + 1];
      }
      forall i | 0 <= i < |ys|
        ensures ys[i] != x
      {
        assert ys[i] == xs[i + 1] && xs[0] == x;
      }
    }
  }

  lemma DistinctSnoc(xs: seq<nat>, x: nat)
    requires Distinct(xs) && x !in xs
    ensures Distinct(xs + [x])
  {
    var ys := xs + [x];
    forall i, j | 0 <= i < j < |ys|
      ensures ys[i] != ys[j]
    {
      assert ys[i] == xs[i];
      if j < |xs| {
        assert ys[j] == xs[j];
      }
    }
  }

  lemma IdListCons(shots: seq<Shot>)
    requires |shots| > 0
    ensures IdList(shots) == [shots[0].id] + IdList(shots[1..])
  {
  }

  /** An animation list a sprite can be built on. */
  predicate Usable(anims: seq<Anim.Animation>) {
    |anims| > 0 && forall i :: 0 <= i < |anims| ==> Anim.FrameInRange(anims[i])
  }

  /** The delay is a whole number of frames between 0 and 30. */
  predicate Cooling(delay: real) {
    delay == delay.Floor as real && 0.0 <= delay <= ShootDelay
  }

  predicate Valid(g: Gun) {
    WellFormed(g.model) && Usable(g.bulletAnims) && Usable(g.shadowAnims) &&
    Cooling(g.delay) && Abs(g.offsetX) <= 1.0 && Abs(g.offsetY) <= 1.0 &&
    Tracked(IdList(g.shots), g.objects, g.nextId) &&
    (forall i :: 0 <= i < |g.shots| ==> Bullets.Valid(g.shots[i].bullet))
  }

  /**
   * The constructor: the gun's sprite on `animations` with radius 0, no
   * wielder yet, no delay, no offsets and no bullets; `objects` is the
   * scene list it shares, which holds no bullet sprite yet.
   */
  function NewGun(animations: seq<Anim.Animation>, bulletAnims: seq<Anim.Animation>,
                  shadowAnims: seq<Anim.Animation>, objects: seq<ObjRef>, speed: real): (g: Gun)
    ensures g.model == NewObject(animations, 0.0) && g.speed == speed
    ensures g.delay == 0.0 && g.offsetX == 0.0 && g.offsetY == 0.0 && g.shots == [] && g.objects == objects
    ensures (Usable(animations) && Usable(bulletAnims) && Usable(shadowAnims) &&
             forall o :: o in objects ==> o.Other?) ==> Valid(g)
  {
    Gun(NewObject(animations, 0.0), bulletAnims, shadowAnims, speed, 0.0, 0.0, 0.0, 0.0, 0.0, 0.0, [], objects, 0)
  }

  /** One frame of cool-down: a positive delay drops by one. */
  function Tick(delay: real): (d: real)
    ensures Cooling(delay) ==> Cooling(d)
  {
    if delay > 0.0 then
      assert (delay - 1.0).Floor == delay.Floor - 1;
      delay - 1.0
    else delay
  }

  /**
   * `aimAt(x, y, height)`, with the length of (x, y, height) supplied by
   * the caller: the bullet velocity points along the vector, scaled from
   * its length to the gun's speed, so no component exceeds the speed; one
   * frame of the delay passes.
   */
  function AimAt(g: Gun, x: real, y: real, h: real, length: real): (r: Gun)
    requires length > 0.0 && length * length == x * x + y * y + h * h
    ensures r == g.(deltaX := r.deltaX, deltaY := r.deltaY, deltaH := r.deltaH, delay := r.delay)
    ensures Along(r.deltaX, x, length, g.speed) && Along(r.deltaY, y, length, g.speed) && Along(r.deltaH, h, length, g.speed)
    ensures Abs(r.deltaX) <= Abs(g.speed) && Abs(r.deltaY) <= Abs(g.speed) && Abs(r.deltaH) <= Abs(g.speed)
    ensures r.delay == Tick(g.delay)
    ensures Valid(g) ==> Valid(r)
  {
    AimFacts(x, y, h, length, g.speed);
    g.(deltaX := x / length * g.speed, deltaY := y / length * g.speed, deltaH := h / length * g.speed,
       delay := Tick(g.delay))
  }

  /** `d` is the coordinate `x` of a vector of length `length`, rescaled to length `s`. */
  predicate Along(d: real, x: real, length: real, s: real) {
    d * length == x * s
  }

  lemma AimFacts(x: real, y: real, h: real, length: real, s: real)
    requires length > 0.0 && length * length == x * x + y * y + h * h
    ensures Along(x / length * s, x, length, s) && Abs(x / length * s) <= Abs(s)
    ensures Along(y / length * s, y, length, s) && Abs(y / length * s) <= Abs(s)
    ensures Along(h / length * s, h, length, s) && Abs(h / length * s) <= Abs(s)
  {
    CoordinateBelowLength(x, y * y + h * h, length);
    CoordinateBelowLength(y, x * x + h * h, length);
    CoordinateBelowLength(h, x * x + y * y, length);
    Scaled(x, length, s);
    Scaled(y, length, s);
    Scaled(h, length, s);
  }

  /**
   * A coordinate `x` no larger than the length `l`, divided by the length
   * and scaled by `s`: it keeps its direction and is at most `s` in size.
   */
  lemma Scaled(x: real, l: real, s: real)
    requires l > 0.0 && Abs(x) <= l
    ensures Along(x / l, x, l, 1.0) && (x / l * s) * l == x * s
    ensures Abs(x / l) <= 1.0
    ensures Abs(x / l * s) <= Abs(s)
  {
    assert (x / l) * l == x;
    assert (x / l * s) * l == ((x / l) * l) * s;
    AbsDiv(x, l);
    DivMono(Abs(x), l, l);
    DivSelf(l);
    AbsMul(x / l, s);
    MulMonoLe(Abs(x / l), 1.0, Abs(s));
    calc {
      Abs(x / l * s);
    ==
      Abs(x / l) * Abs(s);
    <=
      1.0 * Abs(s);
    ==
      Abs(s);
    }
  }

  lemma DivSelf(l: real)
    requires l > 0.0
    ensures l / l == 1.0
  {
  }

  lemma CoordinateBelowLength(x: real, rest: real, l: real)
    requires l > 0.0 && rest >= 0.0 && l * l == x * x + rest
    ensures Abs(x) <= l
  {
    if Abs(x) > l {
      SquareGrows(l, Abs(x));
    }
  }

  /** The delay after `k` frames of cool-down. */
  function CoolDown(delay: real, k: nat): (d: real)
    decreases k
  {
    if k == 0 then delay else Tick(CoolDown(delay, k - 1))
  }

  /** A whole delay counts down one frame at a time and stops at zero. */
  lemma {:induction false} CoolDownCounts(delay: real, k: nat)
    requires Cooling(delay)
    ensures CoolDown(delay, k) == if k as real >= delay then 0.0 else delay - k as real
    decreases k
  {
    if k > 0 {
      CoolDownCounts(delay, k - 1);
    }
  }

  /**
   * `aimModel(vec_x, vec_y)`, with the length of (vec_x, vec_y) supplied
   * by the caller: the hand offset is the unit vector along it, and the
   * sprite faces the steering heading for that vector with a diagonal
   * band 64 units wide.
   */
  function AimModel(g: Gun, vx: real, vy: real, length: real): (r: Gun)
    requires length > 0.0 && length * length == vx * vx + vy * vy
    ensures r == g.(model := r.model, offsetX := r.offsetX, offsetY := r.offsetY)
    ensures Along(r.offsetX, vx, length, 1.0) && Along(r.offsetY, vy, length, 1.0)
    ensures Abs(r.offsetX) <= 1.0 && Abs(r.offsetY) <= 1.0
    ensures |g.model.animations| >= 8 ==>
              0 <= r.model.state < 8 &&
              Heading.HeadingOf(r.model.state) == Heading.DominantHeading(vx, vy, MaxStrafeDifference)
    ensures Valid(g) ==> Valid(r)
  {
    var hd := Heading.DominantHeading(vx, vy, MaxStrafeDifference);
    var s := Heading.StateOf(hd.0, hd.1);
    CoordinateBelowLength(vx, vy * vy, length);
    CoordinateBelowLength(vy, vx * vx, length);
    Scaled(vx, length, 1.0);
    Scaled(vy, length, 1.0);
    Heading.HeadingRoundTrip(hd.0, hd.1, s.value);
    g.(model := SetState(g.model, s.value), offsetX := vx / length, offsetY := vy / length)
  }

  /** The animation states in which the gun is held low: facing away. */
  predicate HeldLow(state: int) {
    state == 1 || state == 3 || state == 6
  }

  /**
   * `update()` with the wielder's sprite: the gun stands on the wielder,
   * shifted by its hand offset scaled to a third of its own width and a
   * quarter of its own height; facing away it is lifted a fifth of the
   * wielder's height, otherwise half of it and then lowered a third.
   */
  function Update(g: Gun, wielder: DynamicObject): (r: Gun)
    requires WellFormed(g.model) && WellFormed(wielder)
    ensures r == g.(model := Held(g.model, wielder, g.offsetX, g.offsetY))
    ensures Valid(g) ==> Valid(r)
  {
    g.(model := Held(g.model, wielder, g.offsetX, g.offsetY))
  }

  /** The gun's sprite placed on the wielder with hand offset (ox, oy). */
  function Held(m: DynamicObject, wielder: DynamicObject, ox: real, oy: real): (r: DynamicObject)
    requires WellFormed(m) && WellFormed(wielder)
    ensures r.state == m.state && r.animations == m.animations && WellFormed(r)
    ensures GetX(r) == GetX(wielder) + ox * Width(m) as real / 3.0
    ensures GetY(r) == GetY(wielder) + oy * Height(m) as real / 4.0
    ensures HeldLow(m.state) ==> GetHeight(r) == GetHeight(wielder) + Div(Height(wielder), 5) as real
    ensures !HeldLow(m.state) ==>
              GetHeight(r) == GetHeight(wielder) + (Div(Height(wielder), 2) + Div(-Height(wielder), 3)) as real
    ensures Height(wielder) >= 0 ==>
              GetHeight(wielder) <= GetHeight(r) <= GetHeight(wielder) + Height(wielder) as real / 2.0
    ensures Abs(ox) <= 1.0 ==> Abs(GetX(r) - GetX(wielder)) <= Abs(Width(m) as real) / 3.0
    ensures Abs(oy) <= 1.0 ==> Abs(GetY(r) - GetY(wielder)) <= Abs(Height(m) as real) / 4.0
  {
    var placed := SetPos(m, GetX(wielder), GetY(wielder));
    assert Current(placed) == Current(m);
    var shifted := SetPosOffset(placed, ox * Width(placed) as real / 3.0, oy * Height(placed) as real / 4.0);
    assert GetX(shifted) == GetX(wielder) + ox * Width(m) as real / 3.0;
    assert GetY(shifted) == GetY(wielder) + oy * Height(m) as real / 4.0;
    ShiftBound(GetX(shifted), GetX(wielder), ox, Width(m) as real, 3.0);
    ShiftBound(GetY(shifted), GetY(wielder), oy, Height(m) as real, 4.0);
    var hw := Height(wielder);
    LiftWithinHalf(hw);
    if HeldLow(m.state) then
      SetHeightOffset(SetHeight(shifted, GetHeight(wielder)), Div(hw, 5) as real)
    else
      SetHeightOffset(SetHeight(shifted, GetHeight(wielder) + Div(hw, 2) as real), Div(-hw, 3) as real)
  }

  /** Both lifts stay between nothing and half the wielder's height. */
  lemma LiftWithinHalf(hw: int)
    ensures hw >= 0 ==> 0 <= Div(hw, 5) && Div(hw, 5) as real <= hw as real / 2.0
    ensures hw >= 0 ==> 0 <= Div(hw, 2) + Div(-hw, 3) && (Div(hw, 2) + Div(-hw, 3)) as real <= hw as real / 2.0
  {
  }

  /** A position shifted by `a * w / d` with `|a| <= 1` stays within `|w| / d` of where it started. */
  lemma ShiftBound(p: real, q: real, a: real, w: real, d: real)
    requires d > 0.0 && p == q + a * w / d
    ensures Abs(a) <= 1.0 ==> Abs(p - q) <= Abs(w) / d
  {
    if Abs(a) <= 1.0 {
      ScaledBound(a, w, d);
    }
  }

  lemma ScaledBound(a: real, w: real, d: real)
    requires Abs(a) <= 1.0 && d > 0.0
    ensures Abs(a * w / d) <= Abs(w) / d
  {
    var p := a * w;
    AbsMul(a, w);
    MulMonoLe(Abs(a), 1.0, Abs(w));
    assert Abs(p) <= Abs(w);
    AbsDiv(p, d);
    DivMono(Abs(p), Abs(w), d);
  }

  lemma AbsMul(a: real, b: real)
    ensures Abs(a * b) == Abs(a) * Abs(b)
  {
    if a < 0.0 && b < 0.0 {
      assert a * b == (-a) * (-b);
    } else if a < 0.0 {
      assert Abs(a * b) == (-a) * b;
    } else if b < 0.0 {
      assert Abs(a * b) == a * (-b);
    }
  }

  lemma AbsDiv(p: real, d: real)
    requires d > 0.0
    ensures Abs(p / d) == Abs(p) / d
  {
    if p < 0.0 {
      assert p / d < 0.0;
      assert -(p / d) == (-p) / d;
    }
  }

  lemma DivMono(u: real, v: real, d: real)
    requires u <= v && d > 0.0
    ensures u / d <= v / d
  {
  }

  /**
   * `shoot()` with the wielder's sprite and the two random draws in [0, 1):
   * when the delay has run out, a bullet leaves the wielder with the aimed
   * velocity, its shadow and then its main sprite join the scene list, and
   * the delay grows by thirty frames; otherwise nothing happens.
   */
  function Shoot(g: Gun, wielder: DynamicObject, r1: real, r2: real): (r: (Gun, bool))
    requires 0.0 <= r1 < 1.0 && 0.0 <= r2 < 1.0
    ensures r.1 <==> g.delay <= 0.0
    ensures !r.1 ==> r.0 == g
    ensures r.1 ==> r.0.delay == g.delay + ShootDelay && r.0.nextId == g.nextId + 1
    ensures r.1 ==> r.0 == g.(delay := r.0.delay, shots := r.0.shots, objects := r.0.objects, nextId := r.0.nextId)
    ensures r.1 ==> |r.0.shots| == |g.shots| + 1 && r.0.shots[..|g.shots|] == g.shots
    ensures r.1 ==> r.0.objects == g.objects + [BulletShadow(g.nextId), BulletMain(g.nextId)]
    ensures r.1 ==> var b := r.0.shots[|g.shots|];
              b.id == g.nextId && !b.bullet.done &&
              b.bullet.velX == g.deltaX && b.bullet.velY == g.deltaY && b.bullet.velH == g.deltaH &&
              GetHeight(b.bullet.body) == GetHeight(wielder) &&
              Abs(GetX(b.bullet.body) - GetX(wielder)) <= Abs(g.deltaX) / 2.0 &&
              Abs(GetY(b.bullet.body) - GetY(wielder)) <= Abs(g.deltaY) / 2.0
    ensures Valid(g) ==> Valid(r.0)
  {
    if g.delay <= 0.0 then
      var body := NewObject(g.bulletAnims, BulletRadius);
      var shadow := NewObject(g.shadowAnims, BulletRadius);
      var b := Bullets.NewBullet(body, shadow, wielder, g.deltaX, g.deltaY, g.deltaH, r1, r2);
      var id := g.nextId;
      var r := g.(delay := g.delay + ShootDelay, shots := g.shots + [Shot(id, b)],
                  objects := g.objects + [BulletShadow(id), BulletMain(id)], nextId := id + 1);
      FreshShotTracked(g, b);
      assert Valid(g) ==> forall i :: 0 <= i < |r.shots| ==> Bullets.Valid(r.shots[i].bullet);
      (r, true)
    else
      (g, false)
  }

  lemma FreshShotTracked(g: Gun, b: Bullets.Bullet)
    ensures var id := g.nextId;
            Tracked(IdList(g.shots), g.objects, id) ==>
              IdList(g.shots + [Shot(id, b)]) == IdList(g.shots) + [id] &&
              Tracked(IdList(g.shots) + [id], g.objects + [BulletShadow(id), BulletMain(id)], id + 1)
  {
    var id := g.nextId;
    var ids := IdList(g.shots);
    assert IdList(g.shots + [Shot(id, b)]) == ids + [id];
    if Tracked(ids, g.objects, id) {
      var objs := g.objects + [BulletShadow(id), BulletMain(id)];
      assert id !in ids;
      DistinctSnoc(ids, id);
      forall o | o in g.objects && !o.Other?
        ensures o.id < id
      {
        assert o.id in ids;
      }
      assert BulletMain(id) !in g.objects && BulletShadow(id) !in g.objects;
      assert multiset(objs) == multiset(g.objects) + multiset{BulletShadow(id), BulletMain(id)};
    }
  }

  /** A second shot needs the thirty frames of aiming the first one added. */
  lemma ShotsAreSpaced(g: Gun, wielder: DynamicObject, r1: real, r2: real, k: nat)
    requires Valid(g) && 0.0 <= r1 < 1.0 && 0.0 <= r2 < 1.0
    requires Shoot(g, wielder, r1, r2).1
    ensures var d := Shoot(g, wielder, r1, r2).0.delay;
            (k < 30 ==> CoolDown(d, k) > 0.0) && (k >= 30 ==> CoolDown(d, k) == 0.0)
  {
    var d := Shoot(g, wielder, r1, r2).0.delay;
    assert d == ShootDelay;
    CoolDownCounts(d, k);
  }

  /**
   * The zombies after a flight are the zombies before it, each the same
   * or newly dead.
   */
  predicate Survives(before: seq<Zombies.Zombie>, after: seq<Zombies.Zombie>) {
    |after| == |before| &&
    forall j :: 0 <= j < |before| ==>
      after[j].model == before[j].model && after[j].distSq == before[j].distSq &&
      (before[j].dead ==> after[j].dead)
  }

  /** Replacing one shot's bullet by another valid bullet keeps the gun valid and its ids. */
  lemma ReplaceBullet(g: Gun, i: nat, b: Bullets.Bullet)
    requires Valid(g) && i < |g.shots| && Bullets.Valid(b)
    ensures var g' := g.(shots := g.shots[i := Shot(g.shots[i].id, b)]);
            Valid(g') && IdList(g'.shots) == IdList(g.shots)
  {
    var g' := g.(shots := g.shots[i := Shot(g.shots[i].id, b)]);
    assert IdList(g'.shots) == IdList(g.shots);
  }

  /**
   * `observeBullets(targets)`: every bullet, in order, makes its flight
   * against the zombies as the bullets before it left them; a hit marks
   * its zombie dead. `seen[i]` is the zombie list the `i`-th bullet flew
   * against, and `steps[i]` and `hits[i]` are that flight's sub-steps and
   * victim.
   */
  method ObserveBullets(g: Gun, grid: Grid, targets: seq<Zombies.Zombie>)
    returns (r: Gun, targets': seq<Zombies.Zombie>, seen: seq<seq<Zombies.Zombie>>, steps: seq<nat>, hits: seq<Option<nat>>)
    requires Valid(g)
    requires forall j :: 0 <= j < |targets| ==> WellFormed(targets[j].model.body)
    ensures Valid(r) && r == g.(shots := r.shots)
    ensures IdList(r.shots) == IdList(g.shots)
    ensures forall i :: 0 <= i < |g.shots| && g.shots[i].bullet.done ==> r.shots[i].bullet.done
    ensures Survives(targets, targets')
    ensures |seen| == |g.shots| + 1 && |steps| == |g.shots| && |hits| == |g.shots|
    ensures seen[0] == targets && seen[|g.shots|] == targets'
    ensures forall i :: 0 <= i < |g.shots| ==>
              Bullets.Observed(g.shots[i].bullet, grid, seen[i], r.shots[i].bullet, seen[i + 1], steps[i], hits[i])
    ensures forall j :: 0 <= j < |targets| && !targets[j].dead && targets'[j].dead ==>
              exists i :: 0 <= i < |g.shots| && hits[i] == Some(j) && Collide(r.shots[i].bullet.body, targets[j].model.body)
  {
    r := g;
    targets' := targets;
    seen, steps, hits := [targets], [], [];
    var i := 0;
    while i < |g.shots|
      invariant 0 <= i <= |g.shots|
      invariant Valid(r) && r == g.(shots := r.shots)
      invariant IdList(r.shots) == IdList(g.shots)
      invariant DoneKept(g.shots, r.shots)
      invariant Survives(targets, targets')
      invariant forall j :: 0 <= j < |targets'| ==> WellFormed(targets'[j].model.body)
      invariant Untouched(g.shots, r.shots, i)
      invariant |seen| == i + 1 && |steps| == i && |hits| == i
      invariant seen[0] == targets && seen[i] == targets'
      invariant Flown(g.shots, grid, seen, r.shots, steps, hits, i)
    {
      var b, ts, n, hit := Bullets.Observe(r.shots[i].bullet, grid, targets');
      HitSurvives(targets', ts, hit);
      SurvivesTrans(targets, targets', ts);
      ReplaceBullet(r, i, b);
      KeepDone(g.shots, r.shots, i, b);
      FlownStep(g.shots, grid, seen, r.shots, steps, hits, i, b, ts, n, hit);
      r := r.(shots := r.shots[i := Shot(r.shots[i].id, b)]);
      targets' := ts;
      seen, steps, hits := seen + [ts], steps + [n], hits + [hit];
      i := i + 1;
    }
    forall j | 0 <= j < |targets| && !targets[j].dead && targets'[j].dead
      ensures exists i :: 0 <= i < |g.shots| && hits[i] == Some(j) && Collide(r.shots[i].bullet.body, targets[j].model.body)
    {
      DeadWereHit(g.shots, grid, seen, r.shots, steps, hits, |g.shots|, |g.shots|, j);
    }
  }

  /** The first `n` bullets of `before` flew, in order, to the bullets of `after`. */
  predicate Flown(before: seq<Shot>, grid: Grid, seen: seq<seq<Zombies.Zombie>>, after: seq<Shot>,
                  steps: seq<nat>, hits: seq<Option<nat>>, n: nat)
    requires forall i :: 0 <= i < |before| ==> Bullets.Valid(before[i].bullet)
  {
    n <= |before| && |after| == |before| && |seen| == n + 1 && |steps| == n && |hits| == n &&
    forall i :: 0 <= i < n ==>
      Bullets.Observed(before[i].bullet, grid, seen[i], after[i].bullet, seen[i + 1], steps[i], hits[i])
  }

  /**
   * Along the first `m` flights of a record, the `j`-th zombie keeps its
   * sprite, and if it was alive at the start and is dead after them, one
   * of those flights hit it, its bullet colliding with that sprite.
   */
  lemma {:induction false} DeadWereHit(before: seq<Shot>, grid: Grid, seen: seq<seq<Zombies.Zombie>>, after: seq<Shot>,
                                       steps: seq<nat>, hits: seq<Option<nat>>, n: nat, m: nat, j: nat)
    requires forall i :: 0 <= i < |before| ==> Bullets.Valid(before[i].bullet)
    requires Flown(before, grid, seen, after, steps, hits, n) && m <= n
    requires forall i :: 0 <= i < |after| ==> WellFormed(after[i].bullet.body)
    requires j < |seen[0]| && WellFormed(seen[0][j].model.body) && !seen[0][j].dead
    ensures j < |seen[m]| && seen[m][j].model == seen[0][j].model
    ensures seen[m][j].dead ==>
              exists i :: 0 <= i < m && hits[i] == Some(j) && Collide(after[i].bullet.body, seen[0][j].model.body)
    decreases m
  {
    if m > 0 {
      var i := m - 1;
      DeadWereHit(before, grid, seen, after, steps, hits, n, i, j);
      assert Bullets.Observed(before[i].bullet, grid, seen[i], after[i].bullet, seen[m], steps[i], hits[i]);
      if seen[m][j].dead && !seen[i][j].dead {
        assert hits[i] == Some(j);
      }
    }
  }

  /** From the `n`-th on, the shots of `after` are those of `before`. */
  predicate Untouched(before: seq<Shot>, after: seq<Shot>, n: nat) {
    |after| == |before| && forall k :: n <= k < |before| ==> after[k] == before[k]
  }

  /** One more flight, of bullet `n` against the last zombie list, extends the record. */
  lemma FlownStep(before: seq<Shot>, grid: Grid, seen: seq<seq<Zombies.Zombie>>, after: seq<Shot>,
                  steps: seq<nat>, hits: seq<Option<nat>>, n: nat, b: Bullets.Bullet,
                  ts: seq<Zombies.Zombie>, k: nat, hit: Option<nat>)
    requires forall i :: 0 <= i < |before| ==> Bullets.Valid(before[i].bullet)
    requires Flown(before, grid, seen, after, steps, hits, n) && n < |before| && Untouched(before, after, n)
    requires Bullets.Observed(before[n].bullet, grid, seen[n], b, ts, k, hit)
    ensures var after' := after[n := Shot(after[n].id, b)];
            Flown(before, grid, seen + [ts], after', steps + [k], hits + [hit], n + 1) &&
            Untouched(before, after', n + 1)
  {
    var after' := after[n := Shot(after[n].id, b)];
    forall i | 0 <= i < n + 1
      ensures Bullets.Observed(before[i].bullet, grid, (seen + [ts])[i], after'[i].bullet, (seen + [ts])[i + 1],
                               (steps + [k])[i], (hits + [hit])[i])
    {
      var seen', steps', hits' := seen + [ts], steps + [k], hits + [hit];
      if i < n {
        assert after'[i] == after[i];
        assert seen'[i] == seen[i] && seen'[i + 1] == seen[i + 1] && steps'[i] == steps[i] && hits'[i] == hits[i];
      } else {
        assert seen'[i] == seen[n] && seen'[i + 1] == ts && steps'[i] == k && hits'[i] == hit;
      }
    }
  }

  /** No bullet that was done before is live after. */
  predicate DoneKept(before: seq<Shot>, after: seq<Shot>) {
    |after| == |before| &&
    forall k :: 0 <= k < |before| && before[k].bullet.done ==> after[k].bullet.done
  }

  lemma KeepDone(before: seq<Shot>, after: seq<Shot>, i: nat, b: Bullets.Bullet)
    requires DoneKept(before, after) && i < |after| && (after[i].bullet.done ==> b.done)
    ensures DoneKept(before, after[i := Shot(after[i].id, b)])
  {
  }

  lemma HitSurvives(t: seq<Zombies.Zombie>, t': seq<Zombies.Zombie>, hit: Option<nat>)
    requires hit.Some? ==> hit.value < |t| && t' == t[hit.value := Zombies.Kill(t[hit.value])]
    requires hit.None? ==> t' == t
    ensures Survives(t, t')
  {
  }

  lemma SurvivesTrans(a: seq<Zombies.Zombie>, b: seq<Zombies.Zombie>, c: seq<Zombies.Zombie>)
    requires Survives(a, b) && Survives(b, c)
    ensures Survives(a, c)
  {
  }

  /** The shots whose bullets are not done, in order. */
  function Live(shots: seq<Shot>): (r: seq<Shot>)
    ensures forall t :: t in r <==> t in shots && !t.bullet.done
    ensures |r| <= |shots|
  {
    if |shots| == 0 then []
    else if shots[0].bullet.done then Live(shots[1..])
    else [shots[0]] + Live(shots[1..])
  }

  /**
   * `r` is the sub-list of `shots` picked out, in increasing order, by the
   * positions `idx`, which are exactly the positions from `from` on of the
   * shots that are not done.
   */
  predicate SelectsFrom(shots: seq<Shot>, r: seq<Shot>, idx: seq<nat>, from: nat) {
    |idx| == |r| &&
    (forall i :: 0 <= i < |idx| ==>
       from <= idx[i] < |shots| && r[i] == shots[idx[i]] && !shots[idx[i]].bullet.done) &&
    (forall i, j :: 0 <= i < j < |idx| ==> idx[i] < idx[j]) &&
    (forall k :: from <= k < |shots| && !shots[k].bullet.done ==> exists i :: 0 <= i < |idx| && idx[i] == k)
  }

  /**
   * `Live` keeps the shots in their list order, as removing through the
   * iterator does: `idx` lists, in increasing order, exactly the positions
   * of the shots that are not done, and the `i`-th live shot is the shot
   * at `idx[i]`.
   */
  lemma {:induction false} LiveKeepsOrder(shots: seq<Shot>) returns (idx: seq<nat>)
    ensures SelectsFrom(shots, Live(shots), idx, 0)
    decreases |shots|
  {
    if |shots| == 0 {
      idx := [];
    } else {
      var rest := LiveKeepsOrder(shots[1..]);
      var shifted := SelectsShift(shots, Live(shots[1..]), rest);
      if shots[0].bullet.done {
        assert Live(shots) == Live(shots[1..]);
        SelectsSkip(shots, Live(shots[1..]), shifted);
        idx := shifted;
      } else {
        assert Live(shots) == [shots[0]] + Live(shots[1..]);
        idx := SelectsCons(shots, Live(shots[1..]), shifted);
      }
    }
  }

  /** Positions in the tail, one further on, select the same shots from the whole list. */
  lemma SelectsShift(shots: seq<Shot>, r: seq<Shot>, rest: seq<nat>) returns (shifted: seq<nat>)
    requires |shots| > 0 && SelectsFrom(shots[1..], r, rest, 0)
    ensures SelectsFrom(shots, r, shifted, 1)
  {
    shifted := Shift(rest);
    ShiftPicks(shots, r, rest, shifted);
    ShiftCovers(shots, r, rest, shifted);
  }

  lemma ShiftPicks(shots: seq<Shot>, r: seq<Shot>, rest: seq<nat>, shifted: seq<nat>)
    requires |shots| > 0 && SelectsFrom(shots[1..], r, rest, 0)
    requires |shifted| == |rest| && forall i :: 0 <= i < |rest| ==> shifted[i] == rest[i] + 1
    ensures forall i :: 0 <= i < |shifted| ==>
              1 <= shifted[i] < |shots| && r[i] == shots[shifted[i]] && !shots[shifted[i]].bullet.done
  {
    var tail := shots[1..];
    forall i | 0 <= i < |rest|
      ensures 1 <= shifted[i] < |shots| && r[i] == shots[shifted[i]] && !shots[shifted[i]].bullet.done
    {
      assert tail[rest[i]] == shots[rest[i] + 1];
    }
  }

  lemma ShiftCovers(shots: seq<Shot>, r: seq<Shot>, rest: seq<nat>, shifted: seq<nat>)
    requires |shots| > 0 && SelectsFrom(shots[1..], r, rest, 0)
    requires |shifted| == |rest| && forall i :: 0 <= i < |rest| ==> shifted[i] == rest[i] + 1
    ensures forall k :: 1 <= k < |shots| && !shots[k].bullet.done ==> exists i :: 0 <= i < |shifted| && shifted[i] == k
  {
    var tail := shots[1..];
    forall k | 1 <= k < |shots| && !shots[k].bullet.done
      ensures exists i :: 0 <= i < |shifted| && shifted[i] == k
    {
      assert tail[k - 1] == shots[k];
      var i :| 0 <= i < |rest| && rest[i] == k - 1;
      assert shifted[i] == k;
    }
  }

  /** A done first shot adds nothing to the selection. */
  lemma SelectsSkip(shots: seq<Shot>, r: seq<Shot>, idx: seq<nat>)
    requires |shots| > 0 && shots[0].bullet.done && SelectsFrom(shots, r, idx, 1)
    ensures SelectsFrom(shots, r, idx, 0)
  {
  }

  /** A live first shot is selected first, at position 0. */
  lemma SelectsCons(shots: seq<Shot>, r: seq<Shot>, shifted: seq<nat>) returns (idx: seq<nat>)
    requires |shots| > 0 && !shots[0].bullet.done && SelectsFrom(shots, r, shifted, 1)
    ensures SelectsFrom(shots, [shots[0]] + r, idx, 0)
  {
    idx := [0] + shifted;
    ConsAt(0, shifted);
    ConsAt(shots[0], r);
    forall i | 0 <= i < |idx|
      ensures idx[i] < |shots| && ([shots[0]] + r)[i] == shots[idx[i]] && !shots[idx[i]].bullet.done
    {
      if i > 0 {
        assert idx[i] == shifted[i - 1] && ([shots[0]] + r)[i] == r[i - 1];
      }
    }
    forall k | 0 <= k < |shots| && !shots[k].bullet.done
      ensures exists i :: 0 <= i < |idx| && idx[i] == k
    {
      if k == 0 {
        assert idx[0] == 0;
      } else {
        var i :| 0 <= i < |shifted| && shifted[i] == k;
        assert idx[i + 1] == k;
      }
    }
  }

  /** Every index one further on, keeping the order. */
  lemma Shift(s: seq<nat>) returns (r: seq<nat>)
    ensures |r| == |s| && forall i :: 0 <= i < |s| ==> r[i] == s[i] + 1
    ensures (forall i, j :: 0 <= i < j < |s| ==> s[i] < s[j]) ==> forall i, j :: 0 <= i < j < |r| ==> r[i] < r[j]
  {
    r := seq(|s|, i requires 0 <= i < |s| => s[i] + 1);
  }

  lemma ConsAt<T>(x: T, s: seq<T>)
    ensures forall i :: 1 <= i <= |s| ==> ([x] + s)[i] == s[i - 1]
  {
  }

  /** The handles of sprites the gun does not own, in order. */
  function Others(objs: seq<ObjRef>): (r: seq<ObjRef>)
    ensures forall o :: o in r <==> o in objs && o.Other?
  {
    if |objs| == 0 then []
    else if objs[0].Other? then [objs[0]] + Others(objs[1..])
    else Others(objs[1..])
  }

  /** `LinkedList.remove(o)`: drop the first occurrence, if any. */
  function RemoveFirst(s: seq<ObjRef>, x: ObjRef): (r: seq<ObjRef>)
    ensures multiset(r) == multiset(s) - multiset{x}
    ensures !x.Other? ==> Others(r) == Others(s)
  {
    if |s| == 0 then s
    else if s[0] == x then
      assert s == [s[0]] + s[1..];
      s[1..]
    else
      assert s == [s[0]] + s[1..];
      [s[0]] + RemoveFirst(s[1..], x)
  }

  function Dec(c: nat): nat {
    if c == 0 then 0 else c - 1
  }

  /** The ids of the shots whose bullets are done. */
  function DoneIds(shots: seq<Shot>): (ids: set<nat>)
    ensures forall k :: k in ids ==> k in IdList(shots)
  {
    set i | 0 <= i < |shots| && shots[i].bullet.done :: IdList(shots)[i]
  }

  lemma DoneIdsCons(shots: seq<Shot>)
    requires |shots| > 0
    ensures DoneIds(shots) == (if shots[0].bullet.done then {shots[0].id} else {}) + DoneIds(shots[1..])
  {
    var rest := shots[1..];
    forall k | k in DoneIds(rest)
      ensures k in DoneIds(shots)
    {
      var i :| 0 <= i < |rest| && rest[i].bullet.done && IdList(rest)[i] == k;
      assert shots[i + 1] == rest[i];
      assert IdList(shots)[i + 1] == k;
    }
    forall k | k in DoneIds(shots)
      ensures k in (if shots[0].bullet.done then {shots[0].id} else {}) + DoneIds(rest)
    {
      var i :| 0 <= i < |shots| && shots[i].bullet.done && IdList(shots)[i] == k;
      if i > 0 {
        assert rest[i - 1] == shots[i];
        assert IdList(rest)[i - 1] == k;
      }
    }
  }

  /** How many copies of `o` survive removing the sprites of the done shots. */
  function Kept(o: ObjRef, done: set<nat>, before: seq<ObjRef>): nat {
    if !o.Other? && o.id in done then Dec(multiset(before)[o]) else multiset(before)[o]
  }

  /**
   * The loop of `updateBullets()`: each done bullet leaves the list and its
   * main sprite, then its shadow, leave the scene list.
   */
  function Prune(shots: seq<Shot>, objs: seq<ObjRef>): (r: (seq<Shot>, seq<ObjRef>))
    ensures r.0 == Live(shots)
    ensures Others(r.1) == Others(objs)
    ensures Distinct(IdList(shots)) ==> forall o :: multiset(r.1)[o] == Kept(o, DoneIds(shots), objs)
    decreases |shots|
  {
    if |shots| == 0 then (shots, objs)
    else
      var s := shots[0];
      var objs' := if s.bullet.done then RemoveFirst(RemoveFirst(objs, BulletMain(s.id)), BulletShadow(s.id)) else objs;
      var rest := Prune(shots[1..], objs');
      PruneStep(shots, objs, objs', rest.1);
      (if s.bullet.done then rest.0 else [s] + rest.0, rest.1)
  }

  lemma PruneStep(shots: seq<Shot>, objs: seq<ObjRef>, objs': seq<ObjRef>, out: seq<ObjRef>)
    requires |shots| > 0
    requires objs' == if shots[0].bullet.done then RemoveFirst(RemoveFirst(objs, BulletMain(shots[0].id)), BulletShadow(shots[0].id)) else objs
    requires Distinct(IdList(shots[1..])) ==> forall o :: multiset(out)[o] == Kept(o, DoneIds(shots[1..]), objs')
    ensures Distinct(IdList(shots)) ==> forall o :: multiset(out)[o] == Kept(o, DoneIds(shots), objs)
  {
    if Distinct(IdList(shots)) {
      var s := shots[0];
      var rest := shots[1..];
      IdListCons(shots);
      DistinctCons(s.id, IdList(rest));
      DoneIdsCons(shots);
      assert s.id !in DoneIds(rest);
      if s.bullet.done {
        RemoveBoth(objs, s.id);
      }
      forall o
        ensures multiset(out)[o] == Kept(o, DoneIds(shots), objs)
      {
        assert multiset(out)[o] == Kept(o, DoneIds(rest), objs');
        if o == BulletMain(s.id) || o == BulletShadow(s.id) {
          assert o.id !in DoneIds(rest);
        } else {
          assert multiset(objs')[o] == multiset(objs)[o];
        }
      }
    }
  }

  /** Removing a shot's main sprite and then its shadow drops one copy of each. */
  lemma RemoveBoth(objs: seq<ObjRef>, id: nat)
    ensures var r := RemoveFirst(RemoveFirst(objs, BulletMain(id)), BulletShadow(id));
            forall o :: multiset(r)[o] ==
              if o == BulletMain(id) || o == BulletShadow(id) then Dec(multiset(objs)[o]) else multiset(objs)[o]
  {
    var m := RemoveFirst(objs, BulletMain(id));
    var r := RemoveFirst(m, BulletShadow(id));
    assert multiset(m) == multiset(objs) - multiset{BulletMain(id)};
    assert multiset(r) == multiset(m) - multiset{BulletShadow(id)};
  }

  /** The ids of the live shots are exactly the ids of shots that are not done. */
  lemma {:induction false} LiveIds(shots: seq<Shot>)
    requires Distinct(IdList(shots))
    ensures Distinct(IdList(Live(shots)))
    ensures forall k :: k in IdList(Live(shots)) <==> k in IdList(shots) && k !in DoneIds(shots)
    decreases |shots|
  {
    if |shots| > 0 {
      var s := shots[0];
      var rest := shots[1..];
      IdListCons(shots);
      DistinctCons(s.id, IdList(rest));
      DoneIdsCons(shots);
      LiveIds(rest);
      if !s.bullet.done {
        var l := Live(shots);
        assert l == [s] + Live(rest);
        assert l[1..] == Live(rest);
        IdListCons(l);
        DistinctCons(s.id, IdList(Live(rest)));
      }
    }
  }

  /** Pruning the done shots keeps the scene list in step with the live ones. */
  lemma {:induction false} PruneKeepsTracked(shots: seq<Shot>, objs: seq<ObjRef>, nextId: nat)
    requires Tracked(IdList(shots), objs, nextId)
    ensures Tracked(IdList(Prune(shots, objs).0), Prune(shots, objs).1, nextId)
    ensures forall t :: t in shots && t.bullet.done ==>
              BulletMain(t.id) !in Prune(shots, objs).1 && BulletShadow(t.id) !in Prune(shots, objs).1
  {
    var p := Prune(shots, objs);
    var ids := IdList(shots);
    LiveIds(shots);
    forall k | k in IdList(p.0)
      ensures multiset(p.1)[BulletMain(k)] == 1 && multiset(p.1)[BulletShadow(k)] == 1
    {
      assert k in ids && k !in DoneIds(shots);
      assert multiset(p.1)[BulletMain(k)] == Kept(BulletMain(k), DoneIds(shots), objs);
      assert multiset(p.1)[BulletShadow(k)] == Kept(BulletShadow(k), DoneIds(shots), objs);
    }
    forall o | o in p.1 && !o.Other?
      ensures o.id in IdList(p.0)
    {
      assert multiset(p.1)[o] == Kept(o, DoneIds(shots), objs);
      assert o in objs;
      assert o.id in ids;
      assert o == BulletMain(o.id) || o == BulletShadow(o.id);
      assert multiset(objs)[o] == 1;
    }
    forall t | t in shots && t.bullet.done
      ensures BulletMain(t.id) !in p.1 && BulletShadow(t.id) !in p.1
    {
      var i :| 0 <= i < |shots| && shots[i] == t;
      assert IdList(shots)[i] == t.id;
      assert t.id in DoneIds(shots);
      assert multiset(p.1)[BulletMain(t.id)] == Kept(BulletMain(t.id), DoneIds(shots), objs);
      assert multiset(p.1)[BulletShadow(t.id)] == Kept(BulletShadow(t.id), DoneIds(shots), objs);
    }
  }

  /**
   * `updateBullets()`: the done bullets leave the gun, and their two
   * sprites leave the scene list; the sprites the gun does not own keep
   * their order.
   */
  function UpdateBullets(g: Gun): (r: Gun)
    ensures r == g.(shots := r.shots, objects := r.objects)
    ensures forall t :: t in r.shots <==> t in g.shots && !t.bullet.done
    ensures Others(r.objects) == Others(g.objects)
    ensures Valid(g) ==> Valid(r)
    ensures Valid(g) ==> forall t :: t in g.shots && t.bullet.done ==>
              BulletMain(t.id) !in r.objects && BulletShadow(t.id) !in r.objects
  {
    var p := Prune(g.shots, g.objects);
    PruneFacts(g);
    g.(shots := p.0, objects := p.1)
  }

  lemma PruneFacts(g: Gun)
    ensures var p := Prune(g.shots, g.objects);
            Valid(g) ==>
              Valid(g.(shots := p.0, objects := p.1)) &&
              forall t :: t in g.shots && t.bullet.done ==> BulletMain(t.id) !in p.1 && BulletShadow(t.id) !in p.1
  {
    if Valid(g) {
      var p := Prune(g.shots, g.objects);
      PruneKeepsTracked(g.shots, g.objects, g.nextId);
      forall i | 0 <= i < |p.0|
        ensures Bullets.Valid(p.0[i].bullet)
      {
        assert p.0[i] in g.shots;
      }
    }
  }
}
