/**
 * `Player`: the keyboard-driven actor. Held keys are bits of `moveState`,
 * here the set of held keys;
 * `move` turns them into `Model` calls, and `update` advances the
 * animation while any key is held and then runs the physics step.
 */
module Players {
  import opened Wrappers
  import opened Heading
  import opened Physics
  import Entity
  import GameMap

  /** The five key flags: MOVE_UP = 1, MOVE_DOWN = 2, MOVE_LEFT = 4, MOVE_RIGHT = 8, MOVE_JUMP = 16. */
  datatype Key = Up | Down | Left | Right | JumpKey

  /** The bit value of each flag in `moveState`. */
  function Flag(k: Key): int {
    match k
    case Up => 1
    case Down => 2
    case Left => 4
    case Right => 8
    case JumpKey => 16
  }

  /** The integer `moveState` holding exactly the given keys' bits. */
  function BitsOf(keys: set<Key>): (n: int)
    ensures 0 <= n < 32
    ensures n > 0 <==> keys != {}
  {
    if keys != {} then SomeKeyHeld(keys); Sum(keys) else Sum(keys)
  }

  function Sum(keys: set<Key>): int {
    (if Up in keys then 1 else 0) + (if Down in keys then 2 else 0) + (if Left in keys then 4 else 0) +
    (if Right in keys then 8 else 0) + (if JumpKey in keys then 16 else 0)
  }

  lemma SomeKeyHeld(keys: set<Key>)
    requires keys != {}
    ensures Up in keys || Down in keys || Left in keys || Right in keys || JumpKey in keys
  {
    var k :| k in keys;
    assert k.Up? || k.Down? || k.Left? || k.Right? || k.JumpKey?;
  }

  /** The held keys; `moveState` is `BitsOf(keys)`. */
  datatype Player = Player(keys: set<Key>, model: Model)

  /** `setMove(on, flag)`: set the flag's bit, or clear exactly it. */
  function SetMove(keys: set<Key>, on: bool, flag: Key): (r: set<Key>)
    ensures flag in r <==> on
    ensures forall k :: k != flag ==> (k in r <==> k in keys)
    ensures on ==> BitsOf(r) == BitsOf(keys) + (if flag in keys then 0 else Flag(flag))
    ensures !on ==> BitsOf(r) == BitsOf(keys) - (if flag in keys then Flag(flag) else 0)
  {
    if on then keys + {flag} else keys - {flag}
  }

  predicate Has(keys: set<Key>, k: Key) {
    k in keys
  }

  /**
   * `move()`: up beats down and left beats right; the calls in each
   * branch are issued in the order the source makes them, then `jump`
   * when the jump key is held.
   */
  function Move(keys: set<Key>): (cmds: seq<Command>)
    ensures Heading.Jump in cmds <==> Has(keys, JumpKey)
    ensures |cmds| >= 3
  {
    if Has(keys, JumpKey) then Walk(keys) + [Heading.Jump] else Walk(keys)
  }

  /** The direction branch of `move`. */
  function Walk(keys: set<Key>): (cmds: seq<Command>)
    ensures |cmds| == 3 && Heading.Jump !in cmds
  {
    if Has(keys, Up) then
      if Has(keys, Left) then [MoveY(0), MoveX(-1), SetState(6)]
      else if Has(keys, Right) then [MoveY(-1), MoveX(0), SetState(3)]
      else [MoveY(-1), MoveX(-1), SetState(1)]
    else if Has(keys, Down) then
      if Has(keys, Left) then [MoveY(1), MoveX(0), SetState(7)]
      else if Has(keys, Right) then [MoveY(0), MoveX(1), SetState(4)]
      else [MoveY(1), MoveX(1), SetState(0)]
    else
      if Has(keys, Left) then [MoveX(-1), MoveY(1), SetState(5)]
      else if Has(keys, Right) then [MoveX(1), MoveY(-1), SetState(2)]
      else [MoveY(0), MoveX(0), Reset]
  }

  function Clip(n: int): int { if n > 0 then 1 else if n < 0 then -1 else 0 }

  /**
   * The screen direction the held keys ask for, in isometric axes: up is
   * (-1, -1), down (1, 1), left (-1, 1) and right (1, -1); up cancels
   * down and left cancels right by priority, and the two chosen screen
   * directions add up, clipped to unit steps.
   */
  function Intent(keys: set<Key>): (d: (int, int))
    ensures Unit(d.0) && Unit(d.1)
  {
    var v := if Has(keys, Up) then -1 else if Has(keys, Down) then 1 else 0;
    var h := if Has(keys, Left) then -1 else if Has(keys, Right) then 1 else 0;
    (Clip(v + h), Clip(v - h))
  }

  /** No direction key is held. */
  predicate Still(keys: set<Key>) {
    !Has(keys, Up) && !Has(keys, Down) && !Has(keys, Left) && !Has(keys, Right)
  }

  /** The direction branch steers toward the intent, with the state of that heading. */
  lemma WalkFollowsIntent(keys: set<Key>)
    ensures Steers(Walk(keys), Intent(keys).0, Intent(keys).1)
  {
    var walk := Walk(keys);
    LastOfThree(walk[0], walk[1], walk[2]);
    assert walk == [walk[0], walk[1], walk[2]];
  }

  /** The keys ask for no direction exactly when none is held, and that is when `move` rewinds. */
  lemma StillIffReset(keys: set<Key>)
    ensures Intent(keys) == (0, 0) <==> Still(keys)
    ensures Reset in Move(keys) <==> Still(keys)
  {
    var walk := Walk(keys);
    assert Reset in Move(keys) <==> Reset in walk by {
      if Has(keys, JumpKey) {
        assert Move(keys) == walk + [Heading.Jump];
      }
    }
  }

  /**
   * `move` steers in the direction the keys ask for, with the animation
   * state of that heading, and rewinds the animation when no direction
   * key is held.
   */
  lemma MoveFollowsIntent(keys: set<Key>)
    ensures Steers(Move(keys), Intent(keys).0, Intent(keys).1)
    ensures Intent(keys) == (0, 0) <==> Reset in Move(keys)
  {
    LastIgnoresJump(Walk(keys));
    WalkFollowsIntent(keys);
    StillIffReset(keys);
  }

  /**
   * `update()`: advance the animation while `moveState > 0`, that is while
   * some key is held, step the physics, then put the shadow on the terrain
   * under the sprite where the step left it.
   */
  function Update(p: Player): (r: Player)
    requires Valid(p.model) && Entity.Playable(p.model.body)
    ensures r.keys == p.keys
    ensures Valid(r.model) && Entity.Playable(r.model.body)
    ensures BitsOf(p.keys) > 0 ==> r.model == Reshadow(Physics.Update(AdvanceModel(p.model)))
    ensures BitsOf(p.keys) <= 0 ==> r.model == Reshadow(Physics.Update(p.model))
    ensures r.model.shadow.h == GameMap.HeightUnder(r.model.grid, r.model.body)
    ensures Entity.GetX(r.model.shadow) == Entity.GetX(r.model.body) && Entity.GetY(r.model.shadow) == Entity.GetY(r.model.body)
  {
    var m := if BitsOf(p.keys) > 0 then AdvanceModel(p.model) else p.model;
    p.(model := Reshadow(Physics.Update(m)))
  }

  /** One frame of control: the held keys' calls, then the update. */
  function Tick(p: Player): (r: Player)
    requires Valid(p.model) && Entity.Playable(p.model.body)
    ensures Valid(r.model) && Entity.Playable(r.model.body)
  {
    Update(p.(model := Apply(p.model, Move(p.keys))))
  }
}
