/**
 * The eight movement directions the game's actors use and the animation
 * state each one selects, shared by the player, the non-player objects
 * and the zombies; and the `Model` calls an actor's decision issues.
 */
module Heading {
  import opened Wrappers
  import opened JavaNum

  /** One call an actor makes on its `Model`, in the order it makes them. */
  datatype Command = MoveX(dir: int) | MoveY(dir: int) | SetState(state: int) | Reset | Jump

  /** A unit step along each isometric axis. */
  predicate Unit(d: int) { -1 <= d <= 1 }

  /**
   * The animation state for a heading (dx, dy): 0 for (+,+), 1 for (-,-),
   * 2 for (+,-), 3 for (0,-), 4 for (+,0), 5 for (-,+), 6 for (-,0),
   * 7 for (0,+); standing still has none.
   */
  function StateOf(dx: int, dy: int): (s: Option<int>)
    requires Unit(dx) && Unit(dy)
    ensures s.None? <==> dx == 0 && dy == 0
    ensures s.Some? ==> 0 <= s.value < 8
  {
    if dx == 1 && dy == 1 then Some(0)
    else if dx == -1 && dy == -1 then Some(1)
    else if dx == 1 && dy == -1 then Some(2)
    else if dx == 0 && dy == -1 then Some(3)
    else if dx == 1 && dy == 0 then Some(4)
    else if dx == -1 && dy == 1 then Some(5)
    else if dx == -1 && dy == 0 then Some(6)
    else if dx == 0 && dy == 1 then Some(7)
    else None
  }

  /** The heading an animation state stands for. */
  function HeadingOf(s: int): (d: (int, int))
    requires 0 <= s < 8
    ensures Unit(d.0) && Unit(d.1) && d != (0, 0)
  {
    match s
    case 0 => (1, 1)
    case 1 => (-1, -1)
    case 2 => (1, -1)
    case 3 => (0, -1)
    case 4 => (1, 0)
    case 5 => (-1, 1)
    case 6 => (-1, 0)
    case 7 => (0, 1)
  }

  /** The eight moving headings and the eight states correspond one to one. */
  lemma HeadingRoundTrip(dx: int, dy: int, s: int)
    requires Unit(dx) && Unit(dy) && 0 <= s < 8
    ensures StateOf(HeadingOf(s).0, HeadingOf(s).1) == Some(s)
    ensures StateOf(dx, dy) == Some(s) <==> HeadingOf(s) == (dx, dy)
  {
  }

  /** The three kinds of call whose last occurrence decides the move. */
  datatype Kind = XMove | YMove | StateSet

  predicate Is(c: Command, k: Kind) {
    match k
    case XMove => c.MoveX?
    case YMove => c.MoveY?
    case StateSet => c.SetState?
  }

  /** The position of the last call of kind `k`, or -1 when there is none. */
  function LastOf(cmds: seq<Command>, k: Kind): (i: int)
    ensures -1 <= i < |cmds| && (i >= 0 ==> Is(cmds[i], k))
    ensures forall j :: i < j < |cmds| ==> !Is(cmds[j], k)
    decreases |cmds|
  {
    if |cmds| == 0 then -1
    else if Is(cmds[|cmds| - 1], k) then |cmds| - 1
    else LastOf(cmds[..|cmds| - 1], k)
  }

  /** The direction of the last `MoveX` among the calls, if any. */
  function LastMoveX(cmds: seq<Command>): (d: Option<int>)
    ensures d.Some? <==> exists i :: 0 <= i < |cmds| && cmds[i].MoveX?
    ensures d.Some? ==> exists i :: 0 <= i < |cmds| && cmds[i] == MoveX(d.value) &&
                          forall j :: i < j < |cmds| ==> !cmds[j].MoveX?
  {
    var i := LastOf(cmds, XMove);
    if i < 0 then None else Some(cmds[i].dir)
  }

  /** The direction of the last `MoveY` among the calls, if any. */
  function LastMoveY(cmds: seq<Command>): (d: Option<int>)
    ensures d.Some? <==> exists i :: 0 <= i < |cmds| && cmds[i].MoveY?
    ensures d.Some? ==> exists i :: 0 <= i < |cmds| && cmds[i] == MoveY(d.value) &&
                          forall j :: i < j < |cmds| ==> !cmds[j].MoveY?
  {
    var i := LastOf(cmds, YMove);
    if i < 0 then None else Some(cmds[i].dir)
  }

  /** The state of the last `SetState` among the calls, if any. */
  function LastState(cmds: seq<Command>): (d: Option<int>)
    ensures d.Some? <==> exists i :: 0 <= i < |cmds| && cmds[i].SetState?
    ensures d.Some? ==> exists i :: 0 <= i < |cmds| && cmds[i] == SetState(d.value) &&
                          forall j :: i < j < |cmds| ==> !cmds[j].SetState?
  {
    var i := LastOf(cmds, StateSet);
    if i < 0 then None else Some(cmds[i].state)
  }

  /** The last calls of each kind among three calls. */
  lemma LastOfThree(a: Command, b: Command, c: Command)
    ensures LastMoveX([a, b, c]) ==
              if c.MoveX? then Some(c.dir) else if b.MoveX? then Some(b.dir) else if a.MoveX? then Some(a.dir) else None
    ensures LastMoveY([a, b, c]) ==
              if c.MoveY? then Some(c.dir) else if b.MoveY? then Some(b.dir) else if a.MoveY? then Some(a.dir) else None
    ensures LastState([a, b, c]) ==
              if c.SetState? then Some(c.state) else if b.SetState? then Some(b.state) else if a.SetState? then Some(a.state) else None
  {
    assert [a, b, c][..2] == [a, b];
    assert [a, b][..1] == [a];
    assert [a][..0] == [];
    assert LastMoveX([a]) == if a.MoveX? then Some(a.dir) else None;
    assert LastMoveY([a]) == if a.MoveY? then Some(a.dir) else None;
    assert LastState([a]) == if a.SetState? then Some(a.state) else None;
    assert LastMoveX([a, b]) == if b.MoveX? then Some(b.dir) else LastMoveX([a]);
    assert LastMoveY([a, b]) == if b.MoveY? then Some(b.dir) else LastMoveY([a]);
    assert LastState([a, b]) == if b.SetState? then Some(b.state) else LastState([a]);
  }

  /** A trailing `jump` changes none of the last directions or states. */
  lemma LastIgnoresJump(cmds: seq<Command>)
    ensures LastMoveX(cmds + [Jump]) == LastMoveX(cmds)
    ensures LastMoveY(cmds + [Jump]) == LastMoveY(cmds)
    ensures LastState(cmds + [Jump]) == LastState(cmds)
  {
    assert (cmds + [Jump])[..|cmds|] == cmds;
  }

  /**
   * A decision of the shape every actor uses: set both axis directions and
   * then the state that matches them.
   */
  predicate Steers(cmds: seq<Command>, dx: int, dy: int)
    requires Unit(dx) && Unit(dy)
  {
    LastMoveX(cmds) == Some(dx) && LastMoveY(cmds) == Some(dy) &&
    (StateOf(dx, dy).Some? ==> LastState(cmds) == StateOf(dx, dy))
  }

  /** The direction of a real: 1, -1 or 0. */
  function Sign(r: real): (s: int)
    ensures Unit(s) && (s > 0 <==> r > 0.0) && (s < 0 <==> r < 0.0)
  {
    if r > 0.0 then 1 else if r < 0.0 then -1 else 0
  }

  /**
   * The heading `Zombie.follow` and `Gun.aimModel` pick for an offset
   * (dx, dy): diagonal when the axes differ by less than `strafe`, by the
   * quadrant, with every tie falling to (-1, -1); otherwise along the
   * dominant axis toward the offset, the y axis winning a tie of magnitudes.
   */
  function DominantHeading(dx: real, dy: real, strafe: real): (h: (int, int))
    ensures Unit(h.0) && Unit(h.1) && h != (0, 0)
    ensures Abs(Abs(dx) - Abs(dy)) < strafe && dx != 0.0 && dy != 0.0 ==> h == (Sign(dx), Sign(dy))
    ensures Abs(Abs(dx) - Abs(dy)) < strafe && (dx == 0.0 || dy == 0.0) ==> h == (-1, -1)
    ensures Abs(Abs(dx) - Abs(dy)) >= strafe && Abs(dx) > Abs(dy) ==> h == (Sign(dx), 0)
    ensures Abs(Abs(dx) - Abs(dy)) >= strafe && Abs(dx) <= Abs(dy) && strafe > 0.0 ==> h == (0, Sign(dy))
  {
    if Abs(Abs(dx) - Abs(dy)) < strafe then
      if dx > 0.0 && dy > 0.0 then (1, 1)
      else if dx < 0.0 && dy > 0.0 then (-1, 1)
      else if dx > 0.0 && dy < 0.0 then (1, -1)
      else (-1, -1)
    else if Abs(dx) > Abs(dy) then
      (if dx > 0.0 then 1 else -1, 0)
    else
      (0, if dy > 0.0 then 1 else -1)
  }

  /**
   * Outside the diagonal band, the heading moves strictly toward the
   * offset along exactly one axis.
   */
  lemma DominantHeadingApproaches(dx: real, dy: real, strafe: real)
    requires strafe > 0.0 && Abs(Abs(dx) - Abs(dy)) >= strafe
    ensures var h := DominantHeading(dx, dy, strafe);
            (h.0 as real * dx > 0.0 && h.1 == 0) || (h.1 as real * dy > 0.0 && h.0 == 0)
  {
  }
}
