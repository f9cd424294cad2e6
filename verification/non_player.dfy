/**
 * `NonPlayerObject`: an actor that heads for its target by quadrant every
 * frame and then advances its animation and runs the physics step.
 */
module NonPlayers {
  import opened JavaNum
  import opened Heading
  import opened Physics
  import Entity
  import GameMap

  datatype NonPlayer = NonPlayer(model: Model, target: Entity.DynamicObject)

  /**
   * `observe()` for a target at (tx, ty) and the actor at (mx, my): a
   * diagonal step into the target's quadrant; any tie on either axis
   * falls to the last case, (-1, -1).
   */
  function ObserveCalls(mx: real, my: real, tx: real, ty: real): (cmds: seq<Command>)
    ensures |cmds| == 3
  {
    if tx > mx && ty > my then [MoveY(1), MoveX(1), SetState(0)]
    else if tx < mx && ty > my then [MoveY(1), MoveX(-1), SetState(5)]
    else if tx > mx && ty < my then [MoveY(-1), MoveX(1), SetState(2)]
    else [MoveY(-1), MoveX(-1), SetState(1)]
  }

  /**
   * The quadrant table is the diagonal band of the steering table
   * `Zombie.follow` and `Gun.aimModel` use: it heads toward the target on
   * both axes when neither is tied, and to (-1, -1) otherwise.
   */
  lemma {:induction false} ObserveIsDiagonalSteering(mx: real, my: real, tx: real, ty: real, strafe: real)
    requires strafe > Abs(Abs(tx - mx) - Abs(ty - my))
    ensures var h := DominantHeading(tx - mx, ty - my, strafe);
            Steers(ObserveCalls(mx, my, tx, ty), h.0, h.1)
    ensures tx != mx && ty != my ==> Steers(ObserveCalls(mx, my, tx, ty), Sign(tx - mx), Sign(ty - my))
    ensures tx == mx || ty == my ==> Steers(ObserveCalls(mx, my, tx, ty), -1, -1)
  {
    var c := ObserveCalls(mx, my, tx, ty);
    assert c == [c[0], c[1], c[2]];
    LastOfThree(c[0], c[1], c[2]);
  }

  /** `observe()` on the actor's model. */
  function Observe(n: NonPlayer): (r: NonPlayer)
    requires Valid(n.model)
    ensures Valid(r.model) && r.target == n.target
    ensures Entity.Playable(n.model.body) ==> Entity.Playable(r.model.body)
  {
    var b := n.model.body;
    var cmds := ObserveCalls(Entity.GetX(b), Entity.GetY(b), Entity.GetX(n.target), Entity.GetY(n.target));
    n.(model := Apply(n.model, cmds))
  }

  /**
   * `act()`: advance the animation, step the physics, then put the shadow
   * on the terrain under the sprite where the step left it.
   */
  function Act(n: NonPlayer): (r: NonPlayer)
    requires Valid(n.model) && Entity.Playable(n.model.body)
    ensures Valid(r.model) && Entity.Playable(r.model.body) && r.target == n.target
    ensures r.model == Reshadow(Physics.Update(AdvanceModel(n.model)))
    ensures r.model.shadow.h == GameMap.HeightUnder(r.model.grid, r.model.body)
    ensures Entity.GetX(r.model.shadow) == Entity.GetX(r.model.body) && Entity.GetY(r.model.shadow) == Entity.GetY(r.model.body)
  {
    n.(model := Reshadow(Physics.Update(AdvanceModel(n.model))))
  }
}
