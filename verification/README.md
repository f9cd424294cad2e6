# Kaninator in Dafny

Kaninator is an isometric zombie shooter written in Java. The player walks a
height-mapped tile map, aims a gun with the pointer and shoots at zombies
that steer toward them. Menus, a high-score list and a small state machine
tie the screens together. This project models the game's logic as pure
functions over immutable datatypes and proves what the code promises.

The modules follow the program's classes:

- `JavaNum`: Java's `(int)` cast of a double (toward zero), `int / int`
  (toward zero) and `Math.signum`, written out over Dafny's unbounded
  integers and exact reals.
- `Anim`: `Animation`, the frame counter with its speed, lock and wrap-around.
- `Tiles`: the nine tile classes (`FlatTile`, the four cardinal and four
  diagonal slopes) as one tagged union, with `StaticObject`'s depth and
  screen projection. The tile constants are 64 (size) and 32 (height).
- `GameMap`: `Map.getHeight`, the tile lookup under a sprite, with its 0.0
  fallback outside the grid.
- `Scanning`, `MapText`: `MapFactory` and `MapLoader`, the two versions of
  the map file parser, over tokens `Int(n) | Word(w)`.
- `Entity`: `DynamicObject`: positions with offsets, the isometric
  projection, the depth key, `setState` and `collide`.
- `Physics`: `Model`: gravity, terrain-blocked steps, the straight and
  diagonal speeds, and `jump`.
- `Heading`, `Players`, `NonPlayers`, `Zombies`: the steering tables of
  the player's keys, the plain non-player object, and the zombies with
  their leader rule.
- `Bullets`, `Guns`: a bullet's six sub-steps per frame, the gun's aim,
  cool-down, shot bookkeeping and pruning of spent bullets.
- `Graphics`, `Ordering`, `Cameras`: the camera's easing, and its draw
  list, a stable sort by depth key (the `TreeMap` of lists).
- `Gui`, `Menus`: the 3x3 overlay layout with hit testing, and the menu
  with its wrap-around cursor.
- `Highscores`: `Score.compareTo`, the score-file line format in both
  directions, `addScore` and the entries of the high-score screen.
- `Dispatch`: the state switch in `Kaninator.main`.
- `Wrappers`: `Option` and `Result`.

Doubles are exact `real`s. A square root is never taken: distances are
compared by their squares, and where the code divides by a length the
caller supplies a positive `length` with `length * length` equal to the sum
of squares. `(int)` casts and integer division are modelled with
`JavaNum.Trunc` and `JavaNum.Div`. `collide` measures the vertical gap
between the two sprites using its own sprite height for both, as
kaninator/mechanics/DynamicObject.java:40 does. `Entity.GapY` states the
consequence: the gap is that of the two top edges.

## Model

| member | source | states |
|---|---|---|
| JavaNum.Trunc | kaninator/graphics/Animation.java:28 | The `(int)` cast of a double lands within one unit of it on the side of zero: below it for non-negative values, above it for negative ones |
| JavaNum.Div | kaninator/mechanics/DynamicObject.java:118-120 | Java's `int / int` leaves a remainder with the sign of the dividend and smaller in size than the divisor, which is rounding toward zero and not Euclidean division |
| JavaNum.Signum | kaninator/game/Model.java:109 | `Math.signum` is 1, -1 or 0 exactly when its argument is positive, negative or zero |
| JavaNum.DivOfTrunc | kaninator/mechanics/DynamicObject.java:118-120 | Casting a double to int and then dividing by a positive int gives the same result as casting the double's quotient, for negative values as well |
| Anim.NewAnimation | kaninator/graphics/Animation.java:18-24 | A new animation is unlocked, at frame 0, with the given frames and speed, so its frame index is in range |
| Anim.GetHeight | kaninator/graphics/Animation.java:31-34 | The height is 0 for a null or empty frame list. Otherwise it is that of the frame `(int) currentFrame` selects, and the call fails exactly when that index is outside the list, where `frames.get` throws |
| Anim.GetWidth | kaninator/graphics/Animation.java:36-39 | The width is 0 for a null or empty frame list. Otherwise it is that of the frame `(int) currentFrame` selects, and the call fails exactly when that index is outside the list, where `frames.get` throws |
| Anim.Advance | kaninator/graphics/Animation.java:41-49 | Only the frame position changes. Below the frame count it moves on by the speed. At the count it stays put when locked and restarts at 0 otherwise. A non-negative speed keeps the index in [0, size) |
| Anim.IndexSelectsFrame | kaninator/graphics/Animation.java:26-29 | An index in [0, size) always names an existing frame to draw |
| Anim.Reset | kaninator/graphics/Animation.java:61-64 | Reset rewinds to frame 0 and leaves the lock, speed and frames alone |
| Anim.Clone | kaninator/graphics/Animation.java:66-69 | A clone shares the frames and speed but starts at frame 0 and is unlocked, whatever the original's state |
| Anim.AdvanceKeepsRange | kaninator/graphics/Animation.java:41-49 | However many times it advances at a non-negative speed, the frame index never leaves [0, size) |
| Anim.LockedHoldsForever | kaninator/graphics/Animation.java:45-46 | A locked animation whose next step would overflow never moves again |
| Anim.UnitSpeedCycles | kaninator/graphics/Animation.java:43-48 | An unlocked animation of n frames at speed 1 shows frames 0, 1, ..., n-1 and is back at 0 after n steps |
| Tiles.ShapeHeight | kaninator/mechanics/StaticObject.java:60 | On the tile square every shape's surface lies in the one tile-height band just below its top. The flat tile is level at its stored height |
| Tiles.MakeTile | kaninator/mechanics/NWestSlope.java:15-18 | A tile keeps its shape, sprites and grid cell. Its top equals the constructor's height, because the north-west slope stores one tile-height less and no other shape shifts it |
| Tiles.SlopeSpansOneUnit | kaninator/mechanics/StaticObject.java:21-28 | Every slope except the south-west one reaches the constructor's height at one named corner and is one tile-height lower at another. The south-west slope, as written, is one tile-height below at both of its corners |
| Tiles.FlatIsConstant | kaninator/mechanics/FlatTile.java:23-27 | The flat tile's height ignores both local coordinates |
| Tiles.CardinalSlopes | kaninator/mechanics/EastSlope.java:35-38 | The north, south, east and west slopes each ramp strictly along one axis and are constant along the other. Each spans exactly one tile-height between its two edges |
| Tiles.NEastShape | kaninator/mechanics/NEastSlope.java:23-31 | The north-east slope depends only on x - y. It is flat one unit down where x > y and never below that level. Its two branches meet on the diagonal |
| Tiles.NWestShape | kaninator/mechanics/NWestSlope.java:24-32 | The north-west slope is flat on the half where x + y < 64. It never decreases as x + y grows, and its two branches meet at x + y = 64 |
| Tiles.SEastShape | kaninator/mechanics/SEastSlope.java:25-33 | The south-east slope starts at its height at (0, 0). It never increases as x + y grows, and it stays within one unit below its height |
| Tiles.SWestAsWrittenShape | kaninator/mechanics/SWestSlope.java:25-33 | As written, the south-west slope depends only on x - y, but its rising branch starts at x - y > 64. That point is off the tile, so the whole tile is flat one unit down |
| Tiles.SWestDiscrepancy | kaninator/mechanics/SWestSlope.java:27-32 | The written formula never reaches the tile's height on the tile. The mirrored north-east formula reaches it at (64, 0) and differs by 31.5 at (63, 0) |
| Tiles.SWestCorrectedShape | kaninator/mechanics/SWestSlope.java:25-33 | The corrected south-west slope depends only on x - y and never decreases in it. It is one unit down on the diagonal and stays within one unit below its height |
| Tiles.RampJoinsTerraces | kaninator/mechanics/EastSlope.java:35-38 | Each cardinal slope meets a flat tile of its own height on its high edge and one a tile-height lower on its low edge, so a ramp between terraces has no step |
| Tiles.ProjectionRoundTrip | kaninator/mechanics/StaticObject.java:50-58 | The screen corner `render_x`, `render_y` of a tile determines its grid column and row, so no two tiles share a corner |
| Tiles.DepthSteps | kaninator/mechanics/StaticObject.java:45-48 | At equal height one step along x adds 101 to the depth key and one step along y adds 100. Moving one cell along the screen row keeps `render_y` |
| GameMap.CellIndex | kaninator/game/Map.java:32-33 | For a non-negative coordinate the cell index is the cell containing it. Truncation sends the strip (-64, 0) to cell 0 and anything further left to a negative index |
| GameMap.HeightAt | kaninator/game/Map.java:32-46 | Outside the rows, or outside the row's tiles, the height is 0. Otherwise it is the cell's tile surface at the point's offset in the cell, which lies in that tile's one-unit band |
| GameMap.HeightUnder | kaninator/game/Map.java:27-47 | The height under an object is read at its foot point, half the sprite width right and the sprite height down. It is 0 off the map and within the tile's band on it |
| GameMap.HeightIgnoresElevation | kaninator/game/Map.java:29-30 | The terrain height under an object does not depend on how high the object itself stands |
| GameMap.FlatCellIsLevel | kaninator/game/Map.java:43-46 | Over a flat tile the lookup gives its stored height anywhere in the cell |
| GameMap.OriginStripReadsCellZero | kaninator/game/Map.java:32-41 | Points just above and left of the origin read the tile of cell (0, 0) at a negative offset, because `(int)` truncates toward zero |
| Entity.NewObject | kaninator/mechanics/DynamicObject.java:26-32 | A new object has the given animations and radius, and every position, offset and the state are zero |
| Entity.SetHeightOffset | kaninator/mechanics/DynamicObject.java:48-51 | Only the height offset changes, so the reported height is the raw height plus the new offset and x, y stay put |
| Entity.SetHeight | kaninator/mechanics/DynamicObject.java:53-56 | Only the raw height changes: the reported height is the new height plus the kept offset |
| Entity.SetPos | kaninator/mechanics/DynamicObject.java:58-62 | Only the raw position changes: the reported x, y are the new ones plus the kept offsets, and the height is unchanged |
| Entity.SetPosOffset | kaninator/mechanics/DynamicObject.java:64-68 | Only the offsets change: the reported x, y are the raw position plus the new offsets |
| Entity.MoveVert | kaninator/mechanics/DynamicObject.java:70-73 | The reported height grows by the velocity and nothing else changes |
| Entity.MoveX | kaninator/mechanics/DynamicObject.java:75-78 | The reported x grows by the velocity and nothing else changes |
| Entity.MoveY | kaninator/mechanics/DynamicObject.java:80-83 | The reported y grows by the velocity and nothing else changes |
| Entity.MovesCommuteAndInvert | kaninator/mechanics/DynamicObject.java:70-83 | Moves along different axes commute, and each move is undone by its opposite |
| Entity.Current | kaninator/mechanics/DynamicObject.java:146-149 | The current animation is one of the object's animations |
| Entity.Unproject | kaninator/mechanics/DynamicObject.java:100-114 | The isometric projection x - y, (x + y) / 2 is one-to-one: every screen point has exactly one ground point |
| Entity.RenderX | kaninator/mechanics/DynamicObject.java:100-106 | The screen x is the projected left edge, less half the sprite width, truncated toward zero: within one unit of it on the side of zero |
| Entity.RenderY | kaninator/mechanics/DynamicObject.java:108-114 | The screen y is the projected point less the sprite height, truncated toward zero: within one unit of it on the side of zero |
| Entity.DepthJustAboveTile | kaninator/mechanics/DynamicObject.java:116-122 | An object in a tile's cell and in the same height band as that tile sorts directly after it: its depth is the tile's plus one |
| Entity.SetState | kaninator/mechanics/DynamicObject.java:129-139 | An out-of-range state is ignored, and re-selecting the current state changes nothing. A new state is taken and its animation rewound. Well-formedness is kept |
| Entity.Reset | kaninator/mechanics/DynamicObject.java:141-144 | Only the current animation is rewound to frame 0. Every other animation and the state stay |
| Entity.AdvanceAnimation | kaninator/game/Model.java:205-208 | Only the current animation advances. The others are untouched, and a non-negative speed keeps every frame index in range |
| Entity.GapY | kaninator/mechanics/DynamicObject.java:37-40 | Because both feet are taken at this object's own sprite height, the vertical gap `collide` measures is that of the two top edges |
| Entity.Collide | kaninator/mechanics/DynamicObject.java:34-46 | A collision needs the raw heights within the other sprite's height and a non-negative reach. Two objects at the same spot and height always collide |
| Entity.WithinIsDistance | kaninator/mechanics/DynamicObject.java:42-44 | Comparing squared gaps with the squared reach is the same as comparing the Euclidean distance with the reach |
| Entity.CollideIsDistanceTest | kaninator/mechanics/DynamicObject.java:34-46 | The squared collision test agrees exactly with the source's square-root distance test |
| Physics.NewModel | kaninator/game/Model.java:42-60 | A null or empty animation list is an error and nothing else is. Otherwise sprite and shadow start at (x, y) with the radius the first animation's width over the constant. The model is at rest with consistent speeds |
| Physics.StepX | kaninator/game/Model.java:78-82 | The x move is taken exactly when the terrain at the new spot is less than half a tile above the sprite. Otherwise the sprite stays, and y and the height never change |
| Physics.StepY | kaninator/game/Model.java:84-86 | The y move is taken exactly when the terrain at the new spot is less than half a tile above the sprite. Otherwise the sprite stays, and x and the height never change |
| Physics.Fall | kaninator/game/Model.java:69-76 | Gravity lowers the vertical velocity. The sprite lands on the terrain with the velocity cleared exactly when it is then not rising and the move would take it to or below the terrain. Otherwise it moves by the lowered velocity. It never ends below the terrain while falling |
| Physics.Update | kaninator/game/Model.java:67-90 | The sprite is the fallen sprite (`Fall`) stepped along x by `StepX` and then along y by `StepY`, so each axis moves by its velocity or not at all. The sprite lands, with the vertical velocity cleared, exactly when `Fall` says so, and otherwise rises or falls by the velocity less gravity. The shadow ends under the sprite, at the terrain height from before the horizontal steps, and the model stays valid |
| Physics.Reshadow | kaninator/game/Player.java:54-55 | The shadow re-set after a physics step puts the shadow at the sprite's position and at the terrain height under the sprite where it now stands. Nothing else changes |
| Physics.RestingIsStable | kaninator/game/Model.java:67-90 | A model at rest on the terrain stays exactly where it is |
| Physics.Clamp | kaninator/game/Model.java:96-101 | A direction is clamped to -1, 0 or 1 with its sign kept |
| Physics.MoveXDir | kaninator/game/Model.java:96-112 | From a standstill or a straight move, x gets the straight speed in the clamped direction and y is kept. While moving diagonally, x gets the diagonal speed in the clamped direction and y the diagonal speed in its own sign. For a nonzero direction the total speed is then the straight speed; for direction 0, x stops and y keeps only the diagonal speed |
| Physics.MoveYDir | kaninator/game/Model.java:118-134 | From a standstill or a straight move, y gets the straight speed in the clamped direction and x is kept. While moving diagonally, y gets the diagonal speed in the clamped direction and x the diagonal speed in its own sign. For a nonzero direction the total speed is then the straight speed; for direction 0, y stops and x keeps only the diagonal speed |
| Physics.MoveYThenXSigns | kaninator/game/Model.java:96-134 | With a positive speed, `move_y` to a nonzero direction and then `move_x` leave each velocity with the sign of its own direction, diagonal rule included |
| Physics.MoveXThenYSigns | kaninator/game/Model.java:96-134 | The same with the axes exchanged: `move_x` to a nonzero direction and then `move_y` |
| Physics.DiagonalSpeed | kaninator/game/Model.java:59 | Two unit components at the diagonal speed make up exactly the straight speed |
| Physics.SetVelX | kaninator/game/Model.java:140-143 | Only the x velocity changes, without regard to the model's speed |
| Physics.SetVelY | kaninator/game/Model.java:149-152 | Only the y velocity changes, without regard to the model's speed |
| Physics.Jump | kaninator/game/Model.java:177-181 | The vertical velocity becomes the jump speed exactly when the model has none and stands within one straight speed of the terrain. Otherwise nothing changes |
| Physics.JumpLifts | kaninator/game/Model.java:177-181 | After a jump from the ground, the next update lifts the sprite by the jump speed less gravity |
| Physics.SetModelState | kaninator/game/Model.java:196-199 | The sprite's state is set as `setState` does, and the model stays valid |
| Physics.AdvanceModel | kaninator/game/Model.java:205-208 | The sprite's current animation advances, and the model stays valid |
| Physics.ResetModel | kaninator/game/Model.java:214-217 | The sprite's current animation is rewound, and the model stays valid |
| Physics.DynamicObjects | kaninator/game/Model.java:232-238 | The model gives the shadow first and then the sprite |
| Physics.Apply | kaninator/game/Player.java:69-137 | Carrying out an actor's calls keeps the model valid and its map. Only a jump changes the vertical velocity, and calls that only set directions leave the sprite where it is |
| Heading.StateOf | kaninator/game/Player.java:71-126 | Each of the eight moving headings has its own animation state in 0..7, and standing still has none |
| Heading.HeadingRoundTrip | kaninator/game/Player.java:71-126 | Headings and states correspond one to one: the state of a heading names that heading back |
| Heading.LastIgnoresJump | kaninator/game/Player.java:135-136 | A trailing jump changes neither axis's last direction nor the last state |
| Heading.DominantHeading | kaninator/game/Zombie.java:54-110 | Inside the strafe band the heading is the quadrant's diagonal, with ties falling to (-1, -1). Outside it the heading runs along the dominant axis toward the offset, y winning a tie |
| Heading.DominantHeadingApproaches | kaninator/game/Zombie.java:81-110 | Outside the diagonal band the heading moves strictly toward the offset along exactly one axis |
| Players.BitsOf | kaninator/game/Player.java:18 | The move state, as the sum of the five key flags, is below 32 and positive exactly when some key is held |
| Players.SetMove | kaninator/game/Player.java:139-145 | The flag is set or cleared and every other key is kept. The move state grows or shrinks by that flag's bit only when the flag changes |
| Players.Move | kaninator/game/Player.java:69-137 | A jump call is issued exactly when the jump key is held |
| Players.Walk | kaninator/game/Player.java:71-133 | The direction branch always makes three calls and never jumps |
| Players.WalkFollowsIntent | kaninator/game/Player.java:71-133 | The direction branch steers in the screen direction the keys ask for, with up beating down and left beating right, and selects that heading's state |
| Players.StillIffReset | kaninator/game/Player.java:127-132 | The keys ask for no direction exactly when no direction key is held, and exactly then `move` rewinds the animation |
| Players.MoveFollowsIntent | kaninator/game/Player.java:69-137 | `move` steers where the keys point, with the matching state, and rewinds the animation exactly when no direction is asked for |
| Players.Update | kaninator/game/Player.java:47-56 | The animation advances only while some key is held. Then the physics step runs, and the shadow is put at the terrain height under the sprite's new position. The model stays valid and playable |
| Players.Tick | kaninator/game/Player.java:47-137 | A frame of control, the key calls followed by the update, keeps the model valid and playable |
| NonPlayers.ObserveIsDiagonalSteering | kaninator/game/NonPlayerObject.java:45-71 | `observe` heads diagonally into the target's quadrant. With a tie on either axis it heads to (-1, -1). This is the diagonal band of the zombies' steering table |
| NonPlayers.Observe | kaninator/game/NonPlayerObject.java:45-71 | Observing keeps the model valid and playable and the target unchanged |
| NonPlayers.Act | kaninator/game/NonPlayerObject.java:73-80 | `act` advances the animation and runs the physics step. Then it puts the shadow at the terrain height under the sprite's new position, keeping the model valid and playable |
| Zombies.DistSq | kaninator/game/Zombie.java:44-48 | The squared distance is never negative |
| Zombies.SquaresCompare | kaninator/game/Zombie.java:132-137 | For true distances, comparing squares is comparing distances, so the squared model decides as the source's square roots do |
| Zombies.FollowSteers | kaninator/game/Zombie.java:50-111 | `follow` steers along the shared heading table with a strafe band of 8 and selects that heading's state |
| Zombies.FollowOutcome | kaninator/game/Zombie.java:50-111 | Carried out with a positive speed, `follow`'s calls leave both velocities signed as the steering table's heading. The sprite ends in that heading's state |
| Zombies.Observe | kaninator/game/Zombie.java:113-116 | Observing records the distance to the player and nothing else. The zombie is then active exactly when the player is nearer than 333 |
| Zombies.Kill | kaninator/game/Zombie.java:118-122 | Killing marks the zombie dead and changes nothing else |
| Zombies.Leader | kaninator/game/Zombie.java:129-135 | The leader is the last other zombie within 48 units that is nearer the player. There is none exactly when no zombie qualifies |
| Zombies.NotOwnLeader | kaninator/game/Zombie.java:130-134 | A zombie in its own list of others never becomes its own leader |
| Zombies.Act | kaninator/game/Zombie.java:124-161 | A dead zombie reports true and does nothing. An active zombie with a leader copies the leader's velocities and state. An active zombie without one follows the player: its velocities point along the heading table's direction toward the player, in that heading's state. An inactive zombie halts in its own state. The rest report false and stay valid |
| Zombies.Idle | kaninator/game/Zombie.java:152-157 | Out of range, both velocities become zero and the sprite's animation is rewound |
| Bullets.NewBullet | kaninator/game/Bullet.java:39-58 | A new bullet is live with the given velocities. Sprite and shadow are the given objects with only their position and raw height changed: both stand at the same point, each within half the velocity of the wielder on each axis, and both take the wielder's height, which is then their reported height when they carry no offsets |
| Bullets.OffsetBound | kaninator/game/Bullet.java:41-42 | A random draw in [0, 1) shifts the start by at most half the velocity |
| Bullets.Step | kaninator/game/Bullet.java:77-78 | One sub-step moves the sprite by a sixth of the velocity on every axis |
| Bullets.FlightDistance | kaninator/game/Bullet.java:69-78 | k sub-steps move the sprite by k sixths of the velocity on every axis |
| Bullets.FirstHit | kaninator/game/Bullet.java:80-90 | The hit is the first target in list order that the bullet collides with. There is none exactly when it collides with no target |
| Bullets.Land | kaninator/game/Bullet.java:92-93 | The shadow moves under the bullet onto the terrain there, and nothing else changes |
| Bullets.Observe | kaninator/game/Bullet.java:67-94 | At most six sub-steps, and the flight stops at the first one that starts buried or ends touching a zombie. Every earlier sub-step started unburied and touched nothing. A hit kills the first zombie touched. Only a full unobstructed flight moves the shadow to the ground under the bullet |
| Bullets.FullFlightCoversVelocity | kaninator/game/Bullet.java:69-78 | A frame that is never stopped moves the bullet by exactly one velocity |
| Guns.NewGun | kaninator/game/Gun.java:38-51 | A new gun has no delay, no offsets and no bullets. It is valid when its sprites can be built and the shared scene list holds no bullet sprite |
| Guns.Tick | kaninator/game/Gun.java:74-75 | One frame of cool-down keeps the delay a whole number of frames between 0 and 30 |
| Guns.AimAt | kaninator/game/Gun.java:58-76 | The bullet velocity points along the aimed vector, rescaled to the gun's speed, so no component exceeds the speed. One frame of delay passes |
| Guns.CoolDownCounts | kaninator/game/Gun.java:74-75 | A whole delay counts down one per frame and stops at zero |
| Guns.AimModel | kaninator/game/Gun.java:78-109 | The hand offset is the unit vector toward the pointer, and the sprite faces the shared steering heading with a band of 64 |
| Guns.Update | kaninator/game/Gun.java:111-129 | Only the gun's sprite moves, to its held position on the wielder, and the gun stays valid |
| Guns.Held | kaninator/game/Gun.java:113-128 | The gun stands on the wielder, within a third of its sprite's width and a quarter of its height. It is lifted by a fifth of the wielder's height in states 1, 3 and 6 and otherwise by a half less a third. Both lifts, with Java's integer division, stay between nothing and half the wielder's height |
| Guns.LiftWithinHalf | kaninator/game/Gun.java:121-126 | With Java's integer division both lifts stay between nothing and half the wielder's height |
| Guns.Shoot | kaninator/game/Gun.java:131-142 | A shot happens exactly when the delay has run out, and otherwise nothing changes. A bullet leaves the wielder with the aimed velocity, its shadow then its sprite join the scene list, and the delay grows by 30 |
| Guns.FreshShotTracked | kaninator/game/Gun.java:136-139 | A newly fired shot gets a fresh id, and the scene list then holds exactly one sprite and one shadow for it |
| Guns.ShotsAreSpaced | kaninator/game/Gun.java:133-140 | After a shot, the next one needs exactly 30 frames of aiming |
| Guns.ObserveBullets | kaninator/game/Gun.java:144-151 | Bullet i, in list order, makes exactly the flight `Observed` describes (the sub-steps of `Bullets.Observe`, its first hit and its kill) against the zombies as bullets 0 to i-1 left them; `seen` records those lists from `targets` to `targets'`. No bullet that was done comes back, the zombies keep their sprites, and every zombie that is newly dead was hit by some bullet whose final sprite collides with it |
| Guns.DeadWereHit | kaninator/game/Gun.java:144-151 | Along a record of flights a zombie keeps its sprite, and if it was alive at the start and is dead at the end, one of the flights hit it, with that bullet's sprite colliding with it |
| Guns.Live | kaninator/game/Gun.java:155-160 | The live shots are exactly the shots whose bullets are not done |
| Guns.LiveKeepsOrder | kaninator/game/Gun.java:155-160 | Removing done bullets through the iterator keeps the rest in list order: the live shots are the shots at a strictly increasing list of positions, and those positions are exactly the ones whose bullets are not done |
| Guns.RemoveFirst | kaninator/game/Gun.java:161-162 | Removing drops one occurrence of the sprite and keeps every sprite the gun does not own, in order |
| Guns.Prune | kaninator/game/Gun.java:153-166 | The kept shots are the live ones, the foreign sprites keep their order, and each done shot's sprite and shadow lose one copy |
| Guns.LiveIds | kaninator/game/Gun.java:155-160 | The ids of the live shots are exactly those of the shots that are not done, and stay distinct |
| Guns.PruneKeepsTracked | kaninator/game/Gun.java:153-166 | After pruning, the scene list holds exactly one sprite and one shadow for every live shot and none for a done one |
| Guns.UpdateBullets | kaninator/game/Gun.java:153-166 | The done bullets leave the gun and their sprites leave the scene list. The foreign sprites keep their order, and the gun stays valid |
| Cameras.NewCamera | kaninator/mechanics/Camera.java:38-55 | A new camera is at the origin with no objects, no player list and no tiles |
| Cameras.SetPlayer | kaninator/mechanics/Camera.java:80-83 | Only the player list is replaced |
| Cameras.AddObject | kaninator/mechanics/Camera.java:85-88 | The object is appended and nothing else changes |
| Cameras.ClearObjects | kaninator/mechanics/Camera.java:90-94 | Clearing the objects also forgets the player list |
| Cameras.SetTiles | kaninator/mechanics/Camera.java:97-100 | Only the tile rows are replaced |
| Cameras.Ease | kaninator/mechanics/Camera.java:107-115 | Inside the middle three fifths the view does not move. Before them it moves back by a sixth of the shortfall and past them forward by a sixth of the excess, up to truncation |
| Cameras.EaseNeverOvershoots | kaninator/mechanics/Camera.java:107-115 | Easing never carries the target across the screen: it ends no further off and at most one unit past the border |
| Cameras.Follow | kaninator/mechanics/Camera.java:102-116 | Each axis eases on its own, x by the sprite's screen x and y by its screen y lifted by its height, and nothing else changes |
| Cameras.File | kaninator/mechanics/Camera.java:142-156 | Filing appends the element to its key's bucket, creating the bucket when missing, and leaves every other bucket alone |
| Cameras.FileAll | kaninator/mechanics/Camera.java:129-207 | After filing, each bucket holds exactly its key's elements in filing order |
| Cameras.Flatten | kaninator/mechanics/Camera.java:210-214 | The buckets come out in ascending key order |
| Cameras.FlattenOf | kaninator/mechanics/Camera.java:210-214 | The flattened list holds under each key exactly that key's bucket |
| Cameras.DrawList | kaninator/mechanics/Camera.java:129-214 | The draw list is the stable sort of the filing order by key: sorted, each key's elements in filing order, and a permutation |
| Cameras.TileElements | kaninator/mechanics/Camera.java:137-180 | A tile gives one filler per whole tile height, at heights 0, 32 and so on, then its own image at its render height. All share the tile's key and screen position |
| Cameras.RowElementsLength | kaninator/mechanics/Camera.java:135-184 | A row contributes one element per filler and one per tile |
| Cameras.GridElementsLength | kaninator/mechanics/Camera.java:132-186 | The grid contributes one element per filler and one per tile |
| Cameras.ObjectElement | kaninator/mechanics/Camera.java:188-206 | An object is drawn with its current animation at its screen position less the camera's, at its truncated height, under its depth-like key |
| Cameras.ObjectElements | kaninator/mechanics/Camera.java:188-207 | Every player object gives exactly one element, in order |
| Cameras.Render | kaninator/mechanics/Camera.java:124-216 | Rendering fails exactly when tiles or player are missing. Otherwise the canvas gets one element per filler, tile and player object, in the stable key order of everything filed |
| Cameras.KeysAreDepths | kaninator/mechanics/Camera.java:137 | A tile's key at its own cell is its depth, and an object's key is its depth when it has no offsets, so rendering orders by `getDepth()` |
| Cameras.ClearTop | kaninator/graphics/Screen.java:126-133 | Removing n elements from the top keeps the rest in order. Removing more than there are fails |
| Cameras.RenderGui | kaninator/mechanics/Camera.java:62-70 | The overlay's elements go on top of the canvas, in the overlay's order |
| Cameras.ClearGui | kaninator/mechanics/Camera.java:75-78 | Clearing the overlay fails exactly when the canvas holds fewer elements than the overlay |
| Cameras.ClearUndoesRender | kaninator/mechanics/Camera.java:62-78 | Clearing the overlay just drawn gives back the canvas as it was |
| Gui.NewGui | kaninator/mechanics/GUI.java:34-48 | A new overlay has nine empty sections, no padding and the given size, so it holds nothing |
| Gui.SetPadding | kaninator/mechanics/GUI.java:54-60 | A negative padding is ignored. Any other becomes the padding and nothing else changes, so the padding is never negative |
| Gui.Size | kaninator/mechanics/GUI.java:74-82 | The count of drawables over all nine sections is exactly the number of elements `render()` emits |
| Gui.AddToSection | kaninator/mechanics/GUI.java:101-104 | The drawable joins the end of its section. The other sections stay the same, and the size grows by one |
| Gui.ClearSection | kaninator/mechanics/GUI.java:90-93 | The section is emptied. The others stay the same, and the size drops by what the section held |
| Gui.RealX | kaninator/mechanics/GUI.java:168-184 | The left column starts at the padding, the middle column is centred on half the width with Java's integer halving, and the right column ends at the width less the padding |
| Gui.RealY | kaninator/mechanics/GUI.java:193-209 | The top row hangs from the padding by the offset. The middle row's bottom edge sits at half the height plus the offset. The bottom row's bottom edge sits at the height less the offset and the padding |
| Gui.SectionElements | kaninator/mechanics/GUI.java:147-157 | A section gives one element per drawable, in queue order. Each is at its column's x and its row's y for the heights above it plus one pixel each, at height zero |
| Gui.Render | kaninator/mechanics/GUI.java:138-160 | Every overlay element is drawn at height zero, so it stays above the scene |
| Gui.SectionStacking | kaninator/mechanics/GUI.java:148-157 | Drawables are one pixel apart: downward in the top and middle rows, upward from the bottom in the bottom row |
| Gui.TouchesElement | kaninator/mechanics/GUI.java:113-132 | The result is the first drawable of the section whose open rectangle holds the pointer, and -1 exactly when none does |
| Gui.TouchMatchesRender | kaninator/mechanics/GUI.java:113-157 | The drawable hit testing reports contains the pointer at the very place `render()` draws it |
| Menus.NewMenu | kaninator/mechanics/Menu.java:33-40 | A new menu has no entries and no title, with the cursor at 0 |
| Menus.SetTitle | kaninator/mechanics/Menu.java:47-50 | Only the title changes |
| Menus.AddEntry | kaninator/mechanics/Menu.java:59-63 | Both entry lists grow by the given drawables, in step, and everything else is kept |
| Menus.ClearEntries | kaninator/mechanics/Menu.java:77-82 | Both entry lists are emptied, and the cursor and title stay |
| Menus.Clear | kaninator/mechanics/Menu.java:68-72 | The title and entry sections of the overlay are emptied, and every other section is untouched |
| Menus.Render | kaninator/mechanics/Menu.java:87-100 | The title section holds just the title. The entry section holds one drawable per entry in order, the active one under the cursor and the passive one elsewhere. The other sections are untouched |
| Menus.MoveUp | kaninator/mechanics/Menu.java:105-111 | On an entry, the cursor moves up one place modulo the entry count, wrapping from the first to the last |
| Menus.MoveDown | kaninator/mechanics/Menu.java:116-122 | On an entry, the cursor moves down one place modulo the entry count, wrapping from the last to the first |
| Menus.MovesCancel | kaninator/mechanics/Menu.java:105-122 | On an entry, moving up and then down, or down and then up, leaves the menu as it was |
| Menus.MoveDownCycles | kaninator/mechanics/Menu.java:116-122 | k presses of the down key advance the cursor by k modulo the entry count and keep it on an entry |
| Menus.SetPosition | kaninator/mechanics/Menu.java:131-136 | The cursor moves only onto an entry under the pointer, the first such one. With no entry under the pointer the menu is unchanged |
| Menus.PointerSelects | kaninator/mechanics/Menu.java:131-145 | On a rendered menu, pointing at an entry and at none above it makes `select()` return that entry |
| MapText.ShapeOfCode | kaninator/io/MapFactory.java:152-181 | Exactly the type codes 0 to 8 name a tile shape |
| MapText.CodeRoundTrip | kaninator/io/MapFactory.java:152-181 | Type codes and shapes correspond one to one |
| MapText.TileFromPair | kaninator/io/MapFactory.java:145-182 | A pair adds a tile exactly when its code is known. The tile sits at the pair's column and row with the code's shape, its top at the height times the tile-height unit, over the flat filler |
| MapText.FactoryScan | kaninator/io/MapFactory.java:135-183 | `MapFactory`'s row holds tiles of that row at strictly increasing columns, at most one per two tokens |
| MapText.LoaderScan | kaninator/io/MapLoader.java:131-172 | `MapLoader`'s row holds tiles of that row at strictly increasing columns, at most one per two tokens |
| MapText.ParseLine | kaninator/io/MapFactory.java:128-186 | A null line gives an empty row, and any line gives tiles of its row numbered from column 0 |
| MapText.FactorySkipsWord | kaninator/io/MapFactory.java:139-143 | A non-integer where a height is expected is dropped and parsing goes on |
| MapText.FactoryDropsLoneHeight | kaninator/io/MapFactory.java:145-150 | A height followed by a non-integer makes no tile and does not advance the column |
| MapText.PairStep | kaninator/io/MapFactory.java:145-182 | A full pair adds its tile, or none for an unknown code, and moves one column on in both versions |
| MapText.LoaderStopsAtWord | kaninator/io/MapLoader.java:132 | `MapLoader` ignores everything from the first non-integer on |
| MapText.LoaderIsPrefixOfFactory | kaninator/io/MapLoader.java:126-175 | On every line `MapLoader`'s row is a prefix of `MapFactory`'s, and on a line of integers only the two agree |
| MapText.FactorySelfTestValidLine | kaninator/io/MapFactory.java:222-234 | The self-test's line of five `0 0` pairs gives five tiles level at height 0 |
| MapText.FactorySelfTestGarbageLine | kaninator/io/MapFactory.java:238-245 | The self-test's garbage line gives the three tiles it expects from `MapFactory`, and none from `MapLoader` |
| MapText.RowsAreNumberedLines | kaninator/io/MapFactory.java:87-98 | Skipped lines use no row number: row k of the map is the k-th line that is neither empty nor a comment, parsed as row k |
| MapText.SkippedLineIsInvisible | kaninator/io/MapFactory.java:92-93 | An empty or comment line changes nothing in the map read |
| MapText.ReadMapFile | kaninator/io/MapFactory.java:66-103 | A resource that cannot be opened is an error and nothing else is. An opened file gives one row per kept line, in order, under its own row number |
| Highscores.Compare | kaninator/game/Highscore.java:36-44 | `compareTo` is negative exactly when the first score is higher and positive exactly when it is lower |
| Highscores.CompareIsTotalPreorder | kaninator/game/Highscore.java:36-44 | `compareTo` is antisymmetric and transitive, and ties exactly on equal scores |
| Highscores.ParseInt | kaninator/game/Highscore.java:103-105 | A token reads as an `int` only within the 32-bit range |
| Highscores.DecimalReadsBack | kaninator/game/Highscore.java:31-34 | Every `int` printed in decimal reads back as itself |
| Highscores.SplitEmptyIffBlank | kaninator/game/Highscore.java:92 | A line has a token exactly when it is not blank |
| Highscores.Lex | kaninator/game/Highscore.java:101-111 | A line's tokens are its whitespace-separated words in order, each an `int` exactly when it reads as one |
| Highscores.ParseLine | kaninator/game/Highscore.java:97-112 | The name is the words before the first `int`, each followed by one space, and the score is that `int`, or 0 when there is none |
| Highscores.ReadLineIsReadable | kaninator/game/Highscore.java:97-112 | Every score read from a line is one whose written line reads back |
| Highscores.WrittenLineReadsBack | kaninator/game/Highscore.java:31-34 | A readable score's written line reads back as the same score |
| Highscores.ReadLines | kaninator/game/Highscore.java:92-115 | Reading gives at most one score per line |
| Highscores.ReadLinesParseEach | kaninator/game/Highscore.java:92-115 | The k-th score read is the parse of the k-th line |
| Highscores.ReadLinesStopAtLastToken | kaninator/game/Highscore.java:92-94 | Reading stops at the last line holding a token: the last line read is not blank and every later line is |
| Highscores.ReadScores | kaninator/game/Highscore.java:77-117 | The list is cleared first, and a missing file leaves it empty |
| Highscores.ToStringShape | kaninator/game/Highscore.java:31-34 | A score prints as its name, a space and then its value, so the line always begins with the name and is never blank |
| Highscores.WriteScores | kaninator/game/Highscore.java:119-136 | One `toString()` line per score, in list order |
| Highscores.WriteThenRead | kaninator/game/Highscore.java:119-136 | Readable scores written and read back give the same list |
| Highscores.ReadWriteRead | kaninator/game/Highscore.java:77-136 | Reading a file, writing the list and reading again gives the same list |
| Highscores.AddScore | kaninator/game/Highscore.java:138-147 | The list grows by the new score as a permutation, ordered highest first by `compareTo`, with tied scores in their earlier order |
| Highscores.ListScores | kaninator/game/Highscore.java:167-180 | The screen lists the first six scores, or fewer when there are fewer, then "Menu!". Its index is the number listed, the value that leaves the screen |
| Highscores.MenuEntryIsTarget | kaninator/game/Highscore.java:177-180 | On a menu without entries, "Menu!" sits exactly at the target index and the scores before it, each drawn alike |
| Highscores.Leave | kaninator/game/Highscore.java:203-207 | Leaving empties the menu's entries, so the next visit again starts without entries, and returns the main menu's code |
| Dispatch.Switch | kaninator/game/Kaninator.java:82-106 | The switch fails exactly on a code above 5 or on game over without a game. Slot 0 runs only with a game, and a score is recorded exactly on game over, which forgets the game |
| Dispatch.SwitchMeetsIntent | kaninator/game/Kaninator.java:82-106 | Every code runs the screen it names: resuming an existing game goes back to it, and starting goes to the new game or, when creation fails, to the main menu |
| Dispatch.Visits | kaninator/game/Kaninator.java:76-108 | A sentinel code runs nothing, and every slot run is one of the four |
| Dispatch.VisitsStopAtSentinel | kaninator/game/Kaninator.java:77-108 | A run that does not fail runs one state for the starting code and one per returned code before the first negative one |
| Dispatch.StartsAtMainMenu | kaninator/game/Kaninator.java:76 | The first state run is the main menu |
| Dispatch.KnownCodesRun | kaninator/game/Kaninator.java:76-108 | Codes from -1 to 4 never make a pass fail |
| Ordering.SortByKey | kaninator/game/Highscore.java:145 | The sort is a permutation with keys in ascending order |
| Ordering.SortByKeyStable | kaninator/game/Highscore.java:145 | The sort keeps each key's elements in their order, and it is the only list that is sorted and does so |
| Ordering.InsertSorted | kaninator/mechanics/Camera.java:142-156 | Inserting keeps a sorted list sorted |
| Ordering.SortedUnique | kaninator/mechanics/Camera.java:210-214 | Two sorted lists that hold the same elements under every key, in the same order, are equal |

## Left out

- Floating point: IEEE rounding, NaN and infinities are not modelled. Doubles are exact reals, and each square root becomes a squared comparison or a caller-supplied length.
- Guns.AimAt: requires a non-zero aim vector. For the zero vector the source divides by a zero length and gets NaN velocities.
- Guns.AimModel: requires a non-zero pointer vector, for the same reason as `aimAt`.
- Physics.NewModel: requires a non-zero radius constant. It also requires the supplied diagonal speed to satisfy 2·diagonal² = speed², which replaces the square root at kaninator/game/Model.java:59. It further requires every supplied animation's frame index to be in range already. Fresh animations from `Anim.NewAnimation` meet this, but the constructor itself does not check it.
- Physics.AdvanceModel: requires the current animation to have frames. A null frame list makes `Animation.advance` throw in the source.
- Menus.Render: requires a title. With a null title the source adds `null` to the title section, and sections here hold drawables only.
- Windowing and painting (`Screen`, `Canvas`, `Image`, `Text`, `Shadow`): the screen's draw list is a sequence of visible elements. Fonts are a `text` function parameter, and a drawable is its width and height.
- Asset loading (`ImageFactory`, both `AnimationFactory` classes) and sound (`SoundClip` calls in `Gun.shoot` and `Zombie.kill`): these are foreign I/O with no logic of the game's own.
- Input adapters (`Keyboard`, `Mouse`): the held keys and the pointer position are parameters.
- Randomness: the two `Math.random()` draws of the `Bullet` constructor are parameters in [0, 1).
- Files: a map or score file is its sequence of lines, and a file that cannot be opened is `None`. `Scanner`'s tokenising is modelled for the score file. For the map file the lexer is a parameter. Locale-specific digits and whitespace other than space, tab and line breaks are not modelled.
- Writing the score file: a write failure only prints a message in the source, so `WriteScores` gives the lines that would be printed.
- Console output (`System.out.println`) and `Thread.sleep`: these have no effect on the state modelled.
- The `doState` polling loops of `Highscore`, `Main`, `Settings`, `game/Menu` and `Game`: the screens are modelled by their entries, their exit and the codes they return, not by their frame loops. `Game`, `Main`, `Settings` and `game/Menu` are not part of this model.
- The `addScore` call at kaninator/game/Kaninator.java:100 passes one argument, while kaninator/game/Highscore.java:138 takes a name and a score. `Dispatch` records only that the score is added, and `Highscores.AddScore` models the two-argument method.
- Highscores.WriteThenRead: holds only for readable scores, whose names are words each followed by one space, none of which reads as an `int`. Any other name does not survive the file format. `Highscores.ReadLineIsReadable` shows that every score read from a file is readable.
- Getters that only read a field (`getMainObject`, `getShadow`, `getVelX`, `getState`, `getTiles`, `Bullet.update`) are field reads of the datatypes, and `setLock`/`setSpeed` are field updates.
- `Gun.setWielder`: the wielder is a parameter of the gun's operations.
- The constructors of `Player`, `NonPlayerObject` and `Zombie`: a null or empty animation list makes each of them return at once, leaving every field null, and the model has no object with null fields. Otherwise `Zombie` builds a `Model`, which `Physics.NewModel` models. `Player` and `NonPlayerObject` instead build a sprite and a separate shadow sprite directly, which the model treats as the sprite and shadow of a `Model` (see the version-drift line).
- The collision loop in `Player.update` only prints a message. The physics step it ends with is modelled.
- Version drift in the source: the slope classes use tile constants they do not declare, taken here as 64 and 32. The map parser calls the slope constructors with five arguments and `DynamicObject` with a form that is not shown. `Camera` calls `render_x(j, i)`, which is not defined. Each formula, the south-west slope's included, is modelled as written, and the mismatched calls stand for the definitions shown.
- Player and NonPlayerObject: both declare their `model` as a `DynamicObject`. They then call `update()` and `jump()` on it, which kaninator/mechanics/DynamicObject.java does not define, and `move_x(±1)`/`move_y(±1)` as direction setters, where `DynamicObject.move_x(v)` moves the sprite by `v`. The model takes their `model` to be a `Model` as in `Zombie`, so these calls are `Model`'s physics step, jump and direction setters.
- Menus: a `Menus.Menu` holds its `Gui` as a value. In the source the menu and the screen share one `GUI` object, so the screen sees the menu's changes at once. Here they are visible only through the menu returned.
- The camera's `objects` list is kept, but `render` never draws it, and neither does this model.
- `GoreFactory` and `Gore`: they depend on randomness and on `Model` methods that are not shown.
- The exception classes: they carry only a message, and the errors they signal are `None` or `Err` results.

## Findings

| source | as written | input that shows it | evidently intended | confidence | as-written member | corrected member |
|---|---|---|---|---|---|---|
| kaninator/mechanics/SWestSlope.java:29-32 | The rising branch starts only at x - y > 64, and on the tile x - y < 64, so the south-west slope is flat one tile-height below its height over the whole tile | At local (63, 0) the written slope gives height - 32. The mirror image of the north-east slope gives height - 0.5 there and height at (64, 0) | The mirror image of `NEastSlope.getHeight`: flat at height - 32 where x < y, rising by (x - y) / 2 to height at (64, 0) | medium, not executed | Tiles.SWestAsWrittenShape, Tiles.SWestDiscrepancy | Tiles.SWestCorrectedShape |
