/**
 * `Zombie`: an enemy that, within range of the player, either copies the
 * movement of a nearby zombie closer to the player (its leader) or steers
 * toward the player itself, and stands still when out of range.
 * Distances are kept squared: the source's square roots only ever meet
 * comparisons, which squaring non-negative values preserves.
 */
module Zombies {
  import opened Wrappers
  import opened JavaNum
  import opened Heading
  import opened Physics
  import Entity

  const MaxActiveDistance: real := 333.0
  const MinDistanceBetween: real := 48.0
  const MaxStrafeDifference: real := 8.0
  const ZombieSpeed: real := 5.0

  /**
   * `distance` is `Double.MAX_VALUE` until the first `observe`; `None`
   * stands for it, as a value above every real distance.
   */
  datatype Zombie = Zombie(model: Model, distSq: Option<real>, dead: bool)

  /** The squared distance between two objects' positions. */
  function DistSq(a: Entity.DynamicObject, b: Entity.DynamicObject): (d: real)
    ensures d >= 0.0
  {
    var dx := Entity.GetX(b) - Entity.GetX(a);
    var dy := Entity.GetY(b) - Entity.GetY(a);
    dx * dx + dy * dy
  }

  /** `distance < limit` on the stored distance. */
  predicate Within(distSq: Option<real>, limit: real) {
    distSq.Some? && distSq.value < limit * limit
  }

  /** `distance > other.distance`. */
  predicate Farther(a: Option<real>, b: Option<real>) {
    match (a, b)
    case (None, Some(_)) => true
    case (Some(x), Some(y)) => x > y
    case _ => false
  }

  /** For actual distances, comparing squares is comparing distances. */
  lemma {:induction false} SquaresCompare(d: real, e: real)
    requires d >= 0.0 && e >= 0.0
    ensures d * d > e * e <==> d > e
  {
    if d > e {
      SquareGrows(e, d);
    } else if d < e {
      SquareGrows(d, e);
    }
  }

  function FollowCalls(dx: real, dy: real): (cmds: seq<Command>)
    ensures |cmds| == 3
  {
    if Abs(Abs(dx) - Abs(dy)) < MaxStrafeDifference then
      if dx > 0.0 && dy > 0.0 then [MoveY(1), MoveX(1), SetState(0)]
      else if dx < 0.0 && dy > 0.0 then [MoveY(1), MoveX(-1), SetState(5)]
      else if dx > 0.0 && dy < 0.0 then [MoveY(-1), MoveX(1), SetState(2)]
      else [MoveY(-1), MoveX(-1), SetState(1)]
    else if Abs(dx) > Abs(dy) then
      if dx > 0.0 then [MoveX(1), MoveY(0), SetState(4)]
      else [MoveX(-1), MoveY(0), SetState(6)]
    else
      if dy > 0.0 then [MoveY(1), MoveX(0), SetState(7)]
      else [MoveY(-1), MoveX(0), SetState(3)]
  }

  /** `follow(target)` steers along the shared steering table with a strafe band of 8. */
  lemma {:induction false} FollowSteers(dx: real, dy: real)
    ensures var h := DominantHeading(dx, dy, MaxStrafeDifference);
            Steers(FollowCalls(dx, dy), h.0, h.1)
  {
    var c := FollowCalls(dx, dy);
    assert c == [c[0], c[1], c[2]];
    LastOfThree(c[0], c[1], c[2]);
  }

  /**
   * Carried out on a model with a positive speed, `follow`'s calls leave the
   * velocities pointing along the steering table's heading and the sprite
   * in that heading's state.
   */
  lemma {:induction false} FollowOutcome(m: Model, dx: real, dy: real)
    requires Valid(m) && m.normalSpeed > 0.0
    ensures var f := Apply(m, FollowCalls(dx, dy));
            var h := DominantHeading(dx, dy, MaxStrafeDifference);
            && Signum(f.velX) == h.0 as real && Signum(f.velY) == h.1 as real
            && f.body == Entity.SetState(m.body, StateOf(h.0, h.1).value)
  {
    var c := FollowCalls(dx, dy);
    var h := DominantHeading(dx, dy, MaxStrafeDifference);
    FollowSteers(dx, dy);
    assert c == [c[0], c[1], c[2]];
    LastOfThree(c[0], c[1], c[2]);
    assert c[2] == SetState(StateOf(h.0, h.1).value);
    assert c[1..][1..] == [c[2]] && c[2..] == [c[2]];
    if c[0].MoveY? {
      assert c[1].MoveX? && c[0].dir == h.1 && c[1].dir == h.0;
      var a := MoveYDir(m, c[0].dir);
      var b := MoveXDir(a, c[1].dir);
      assert Apply(m, c) == Apply(a, c[1..]);
      assert Apply(a, c[1..]) == Apply(b, [c[2]]);
      assert Apply(b, [c[2]]) == SetModelState(b, c[2].state);
      MoveYThenXSigns(m, c[0].dir, c[1].dir);
    } else {
      assert c[0].MoveX? && c[1].MoveY? && c[0].dir == h.0 && c[1].dir == h.1;
      var a := MoveXDir(m, c[0].dir);
      var b := MoveYDir(a, c[1].dir);
      assert Apply(m, c) == Apply(a, c[1..]);
      assert Apply(a, c[1..]) == Apply(b, [c[2]]);
      assert Apply(b, [c[2]]) == SetModelState(b, c[2].state);
      MoveXThenYSigns(m, c[0].dir, c[1].dir);
    }
  }

  /** `observe()`: remember the distance to the player. */
  function Observe(z: Zombie, player: Entity.DynamicObject): (r: Zombie)
    ensures r == z.(distSq := Some(DistSq(z.model.body, player)))
    ensures Within(r.distSq, MaxActiveDistance) <==> DistSq(z.model.body, player) < MaxActiveDistance * MaxActiveDistance
  {
    z.(distSq := Some(DistSq(z.model.body, player)))
  }

  /** `kill()`: mark dead (the sound it plays is left out). */
  function Kill(z: Zombie): (r: Zombie)
    ensures r.dead && r.model == z.model && r.distSq == z.distSq
  {
    z.(dead := true)
  }

  /** Zombie `o` can lead `z`: it is within 48 units and nearer the player. */
  predicate CanLead(z: Zombie, o: Zombie) {
    DistSq(z.model.body, o.model.body) < MinDistanceBetween * MinDistanceBetween && Farther(z.distSq, o.distSq)
  }

  /** The loop over `others`: the last zombie that can lead, if any. */
  function Leader(z: Zombie, others: seq<Zombie>): (r: Option<nat>)
    ensures r.Some? ==> r.value < |others| && CanLead(z, others[r.value])
    ensures r.Some? ==> forall j :: r.value < j < |others| ==> !CanLead(z, others[j])
    ensures r.None? <==> forall j :: 0 <= j < |others| ==> !CanLead(z, others[j])
  {
    if |others| == 0 then None
    else if CanLead(z, others[|others| - 1]) then Some(|others| - 1)
    else Leader(z, others[..|others| - 1])
  }

  /** A zombie is never its own leader: it is not nearer the player than itself. */
  lemma NotOwnLeader(z: Zombie)
    ensures !CanLead(z, z)
  {
  }

  /**
   * `act(others)` with the player's object: a dead zombie reports true at
   * once; otherwise it picks its behaviour, runs the physics step and
   * reports false.
   */
  function Act(z: Zombie, others: seq<Zombie>, player: Entity.DynamicObject): (r: (Zombie, bool))
    requires Valid(z.model) && Entity.Playable(z.model.body)
    ensures z.dead ==> r == (z, true)
    ensures !z.dead ==> !r.1 && Valid(r.0.model) && Entity.Playable(r.0.model.body)
    ensures !z.dead ==> r.0.distSq == z.distSq && !r.0.dead
    ensures !z.dead && Within(z.distSq, MaxActiveDistance) && Leader(z, others).Some? ==>
              var l := others[Leader(z, others).value];
              && r.0.model.velX == l.model.velX && r.0.model.velY == l.model.velY
              && r.0.model.body.state == Entity.SetState(z.model.body, l.model.body.state).state
    ensures !z.dead && Within(z.distSq, MaxActiveDistance) && Leader(z, others).None? && z.model.normalSpeed > 0.0 ==>
              var h := DominantHeading(Entity.GetX(player) - Entity.GetX(z.model.body),
                                       Entity.GetY(player) - Entity.GetY(z.model.body), MaxStrafeDifference);
              && Signum(r.0.model.velX) == h.0 as real && Signum(r.0.model.velY) == h.1 as real
              && r.0.model.body.state == Entity.SetState(z.model.body, StateOf(h.0, h.1).value).state
    ensures !z.dead && !Within(z.distSq, MaxActiveDistance) ==>
              r.0.model.velX == 0.0 && r.0.model.velY == 0.0 && r.0.model.body.state == z.model.body.state
  {
    if z.dead then (z, true)
    else
      var m :=
        if Within(z.distSq, MaxActiveDistance) then
          match Leader(z, others)
          case Some(i) =>
            var l := others[i].model;
            AdvanceModel(SetModelState(SetVelY(SetVelX(z.model, l.velX), l.velY), l.body.state))
          case None =>
            var dx := Entity.GetX(player) - Entity.GetX(z.model.body);
            var dy := Entity.GetY(player) - Entity.GetY(z.model.body);
            if z.model.normalSpeed > 0.0 then
              FollowOutcome(z.model, dx, dy);
              AdvanceModel(Apply(z.model, FollowCalls(dx, dy)))
            else AdvanceModel(Apply(z.model, FollowCalls(dx, dy)))
        else
          Idle(z.model);
      (z.(model := Physics.Update(m)), false)
  }

  /** Out of range: `move_x(0)`, `move_y(0)`, `reset()` bring the model to a halt. */
  function Idle(m: Model): (r: Model)
    requires Valid(m) && Entity.Playable(m.body)
    ensures Valid(r) && Entity.Playable(r.body)
    ensures r.velX == 0.0 && r.velY == 0.0
    ensures r.body == Entity.Reset(m.body)
  {
    var a := MoveXDir(m, 0);
    var b := MoveYDir(a, 0);
    ResetModel(b)
  }
}
