# Killer Quebes — a verified model of the game logic

Killer Quebes is a small TL-Engine game. The player aims a marble with Z/X and
fires it with Space at a 2 x 10 grid of blocks that creep towards the player.
The marble bounces off the blocks and off two columns of barriers. A block is
damaged on its first hit (NORMAL -> HIT_ONCE) and destroyed on its second
(HIT_ONCE -> DEAD, moved far away). The game is a four-state machine:
READY (aim, fire), FIRING (the marble moves, exits are tested, collisions are
detected), CONTACT (count destroyed blocks) and OVER (all 20 destroyed).

This project models the discrete logic of `Shehani_G21364691.cpp` in three
modules:

- `Geometry` (geometry.dfy): the sphere-versus-box overlap test in the X/Z
  plane. It is proved equal to a reference definition ("some point of the box
  is strictly closer than the radius"), and the strict comparison is proved to
  separate touching from colliding.
- `Rules` (rules.dfy): the game as pure functions on a `Snapshot` value that
  holds every field the logic reads or writes. Each handler (`ReadyStep`,
  `FiringStep`, `ContactStep`, and `FrameStep` that dispatches on the state)
  maps one snapshot to the next. Lemmas here cover three things:
  - each helper's properties: first-hit-wins, the bounce rule, the damage
    chain, aim clamping and the DEAD count;
  - whole frames: only the legal state transitions happen, at most one cell
    changes and DEAD cells are frozen;
  - whole sessions (`Run`): an invariant is kept, the DEAD count never falls,
    and OVER is final.
- `Game` (game.dfy): the game's data structure as a class `GameData`. Block
  states and positions are fixed-size two-dimensional arrays, the barrier
  positions are one-dimensional arrays, and the scalar fields are mutable.
  The class has one method per per-frame source function, with the same
  loops and early returns; the constructor fills the arrays with array
  initialisers rather than the set-up loops. Each
  method is proved to change the state exactly as the matching `Rules`
  function says (`Model() == F(old(Model()))`). So every property proved in
  `Rules` holds of the imperative code too.

Floats are modelled as mathematical reals. The sine/cosine launch computation
is a parameter `launch` of each frame's input.

## Model

| member | source | states |
|---|---|---|
| Geometry.ClosestOnAxis | Shehani_G21364691.cpp:90-96 | the clamped coordinate lies inside the box's extent on that axis, and equals the sphere coordinate when that is already inside |
| Geometry.DistanceSqToBox | Shehani_G21364691.cpp:98-100 | the squared distance to the clamped point is non-negative, and zero exactly when the sphere centre is inside the box |
| Geometry.SphereToBoxCollision | Shehani_G21364691.cpp:80-103 | a sphere of non-zero radius whose centre is inside the box collides; a zero radius never collides |
| Geometry.ClosestIsNearest | Shehani_G21364691.cpp:90-96 | on each axis no point of the box's extent is closer to the sphere centre than the clamped point |
| Geometry.CollisionIsOverlap | Shehani_G21364691.cpp:80-103 | the clamp-and-compare test holds exactly when some point of the box lies strictly within the radius of the sphere centre (both directions) |
| Geometry.TouchingIsNotColliding | Shehani_G21364691.cpp:102 | a sphere on the centre line of the box's +X face, at any distance gap >= 0 from it, collides exactly when gap < r, so a sphere that just touches the face does not collide (strict comparison) |
| Rules.Damage | Shehani_G21364691.cpp:288-302 | a non-DEAD state moves exactly one step along NORMAL -> HIT_ONCE -> DEAD; DEAD stays DEAD |
| Rules.DeadCount | Shehani_G21364691.cpp:118-132 | the number of DEAD cells never exceeds the number of cells |
| Rules.DeadCountAll | Shehani_G21364691.cpp:118-132 | the DEAD count equals the number of cells exactly when every cell is DEAD |
| Rules.DeadCountUpdate | Shehani_G21364691.cpp:118-132 | replacing one cell changes the count by that cell's DEAD contribution only |
| Rules.DeadCountPrefix | Shehani_G21364691.cpp:121-130 | counting one more cell of the row-major scan adds that cell's contribution |
| Rules.FirstHit | Shehani_G21364691.cpp:260-268 | the scan finds the first live cell in row-major order that the marble overlaps; it finds none exactly when no live cell is overlapped |
| Rules.Bounce | Shehani_G21364691.cpp:274-285 | both speeds are kept; X reverses when the offset from the block centre is larger in X than in Z (|dx| > |dz|), otherwise Z reverses |
| Rules.Struck | Shehani_G21364691.cpp:287-302 | the struck block's state takes one damage step; a block that is not destroyed keeps its position |
| Rules.HitBlock | Shehani_G21364691.cpp:269-302 | striking cell k changes only that cell (to its struck form) and the marble velocity, which takes the bounce for the offset of the marble from that block's centre |
| Rules.CheckBlocks | Shehani_G21364691.cpp:258-310 | reports a hit exactly when some live cell overlaps the marble; with no hit nothing changes |
| Rules.CheckBlocksStrikesFirst | Shehani_G21364691.cpp:260-304 | on a hit only the first overlapping live cell is struck: it takes one damage step, every other cell is unchanged, exactly one velocity component reverses, and nothing else changes |
| Rules.HeadOnHit | Shehani_G21364691.cpp:258-304 | a marble one unit in front of a NORMAL block's centre in cell 0 hits it, reverses Z, and leaves that block HIT_ONCE in place |
| Rules.CheckBlocksDeadCount | Shehani_G21364691.cpp:288-302 | a block check never lowers the DEAD count and raises it by at most one; it rises exactly when a HIT_ONCE block was struck |
| Rules.CheckBlocksKeepsParked | Shehani_G21364691.cpp:295-297 | every DEAD cell stays parked at the far-away position after a block check |
| Rules.BarrierHitFrom | Shehani_G21364691.cpp:316-329 | the barrier scan from index i hits exactly when some left or right barrier at index >= i overlaps the marble |
| Rules.CheckBarriers | Shehani_G21364691.cpp:314-331 | a hit is reported exactly when some left or right barrier overlaps the marble; on a hit only the X velocity reverses; with no hit nothing changes |
| Rules.TurnAim | Shehani_G21364691.cpp:234-253 | Z steps the angle down and X steps it up by the rotation speed, clamped to ±60; with no key held the angle is unchanged; the clamp range is kept |
| Rules.TurnAimZFirst | Shehani_G21364691.cpp:234-244 | with both keys held X is ignored, for every angle; from inside the clamp range the angle never rises |
| Rules.AimStaysClamped | Shehani_G21364691.cpp:232-254 | after any sequence of key frames the aim angle is still within ±60 |
| Rules.IndicatorTurnAsWritten | Shehani_G21364691.cpp:242-252 | the dummy's rotation as written: a full step whenever a key is held, clamped or not; unchanged with no key |
| Rules.IndicatorOvershootsAsWritten | Shehani_G21364691.cpp:244-253 | at angle 60 with X held the angle stays at 60 while the as-written indicator turns to 60.02 |
| Rules.IndicatorTurn | Shehani_G21364691.cpp:237-252 | the corrected indicator turns by exactly the change of the aim angle |
| Rules.IndicatorTracksAim | Shehani_G21364691.cpp:234-253 | the corrected indicator stays equal to the aim angle; the as-written one does so exactly when no clamp happened |
| Rules.UpdateAim | Shehani_G21364691.cpp:232-254 | the new aim is TurnAim of the old aim and the keys; the indicator turns by exactly the aim's change (the corrected turn); nothing else changes |
| Rules.Drift | Shehani_G21364691.cpp:216-219 | a live block moves towards the player by the frame's movement; a DEAD block is untouched; state and X never change |
| Rules.DriftBlocks | Shehani_G21364691.cpp:206-228 | the block drift changes only the blocks and the two accumulators |
| Rules.DriftKeepsStates | Shehani_G21364691.cpp:206-228 | drift keeps every cell's state and X, leaves DEAD cells alone, moves live cells by speed times frame time, adds that movement to the movement total, and advances the wobble clock by the frame time |
| Rules.DriftKeepsDeadCount | Shehani_G21364691.cpp:206-228 | drift does not change the DEAD count |
| Rules.ResetMarble | Shehani_G21364691.cpp:107-114 | the marble returns to (0, 2, 0) at rest, and nothing else changes |
| Rules.ReadyStep | Shehani_G21364691.cpp:335-356 | every READY frame re-aims by TurnAim (the indicator turning by the aim's change) and drifts every cell by Rules.Drift, advancing both accumulators; Space then switches to FIRING with the launch velocity of the new aim; the marble does not move and nothing else changes |
| Rules.Advance | Shehani_G21364691.cpp:365-371 | a FIRING frame before its exit tests re-aims by TurnAim (the indicator turning by the aim's change), drifts every cell by Rules.Drift, advances both accumulators, and moves the marble by exactly its velocity; velocity, state and everything else are kept |
| Rules.Collide | Shehani_G21364691.cpp:389-395 | a contact is reported exactly when a live block or a barrier overlaps the marble |
| Rules.FiringOutcome | Shehani_G21364691.cpp:373-400 | beyond the back limit or in front of the origin the marble is reset and the state is READY; the result's state is always READY, CONTACT or the moved state's own |
| Rules.FiringOutcomeCases | Shehani_G21364691.cpp:373-400 | for a moved state that is not already READY, READY follows exactly from an exit; inside the arena with no contact the moved state is kept unchanged; a barrier contact with no block contact reverses X and sets CONTACT |
| Rules.FiringStep | Shehani_G21364691.cpp:360-401 | a FIRING frame ends in READY, CONTACT or the same state |
| Rules.FiringExits | Shehani_G21364691.cpp:373-400 | the exits in priority order: both out-of-arena tests reset the marble and go to READY, and READY follows only from them; inside the arena CONTACT follows exactly when a block or barrier overlaps; a block hit takes priority and leaves the block check's state; a barrier-only contact reverses X; with no contact the frame stays FIRING and only the move has changed anything |
| Rules.ContactStep | Shehani_G21364691.cpp:405-419 | the contact handler changes only the game state |
| Rules.ContactWinsExactly | Shehani_G21364691.cpp:407-418 | CONTACT goes to OVER exactly when all 20 cells are DEAD, and to FIRING otherwise |
| Rules.FrameStep | Shehani_G21364691.cpp:461-478 | only the legal transitions happen: READY -> READY/FIRING, FIRING -> FIRING/READY/CONTACT, CONTACT -> OVER/FIRING, and OVER changes nothing |
| Rules.Initial | Shehani_G21364691.cpp:135-201 | the start state is READY with every cell NORMAL |
| Rules.BarrierColumn | Shehani_G21364691.cpp:188-193 | each side has eight barriers |
| Rules.InitialBlock | Shehani_G21364691.cpp:172-184 | block (row, column) starts NORMAL at X = -58.5 + 13 * column and Z = 120 + 15 * row |
| Rules.InitialInv | Shehani_G21364691.cpp:135-201 | the start state satisfies the game invariant |
| Rules.FrameStepInv | Shehani_G21364691.cpp:461-478 | every frame keeps the invariant (aim within ±60, marble at rest at the origin in READY, all cells DEAD in OVER, DEAD cells parked far away, and, with the corrected indicator turn, indicator equal to aim) |
| Rules.FiringInv | Shehani_G21364691.cpp:360-401 | a FIRING frame keeps the invariant |
| Rules.DriftedIsGridStep | Shehani_G21364691.cpp:206-228 | a drift is a legal grid step |
| Rules.StrikeIsGridStep | Shehani_G21364691.cpp:287-302 | a drift followed by one strike of a live cell is a legal grid step |
| Rules.FiringGridStep | Shehani_G21364691.cpp:360-401 | a FIRING frame is a legal grid step |
| Rules.FrameStepBlocks | Shehani_G21364691.cpp:461-478 | in any frame each cell's state moves at most one step forward, DEAD cells are frozen, and at most one cell changes state |
| Rules.FrameStepDeadCount | Shehani_G21364691.cpp:461-478 | a frame raises the DEAD count by zero or one |
| Rules.SameStatesSameDeadCount | Shehani_G21364691.cpp:118-132 | two grids with the same states have the same DEAD count |
| Rules.FrameStepShape | Shehani_G21364691.cpp:461-478 | a frame keeps the grid and barrier sizes and never moves a barrier |
| Rules.Run | Shehani_G21364691.cpp:449-479 | the main loop's repeated dispatch over a sequence of frames keeps the state well formed and the barriers where they are |
| Rules.RunAppend | Shehani_G21364691.cpp:449-479 | running two sequences of frames one after the other is the same as running their concatenation |
| Rules.RunKeeps | Shehani_G21364691.cpp:449-479 | over any run of frames the invariant is kept, the DEAD count never falls, and a game in OVER stays unchanged |
| Rules.ReachableInv | Shehani_G21364691.cpp:444-479 | every state reachable from the start satisfies the invariant |
| Game.Barriers | Shehani_G21364691.cpp:49-50 | reads each barrier array pair as a column of positions |
| Game.InitialColumn | Shehani_G21364691.cpp:188-193 | barrier arrays holding the set-up positions (X fixed, Z = i * 25) read as the start column of barriers |
| Game.GameData.Blocks | Shehani_G21364691.cpp:46-47 | reads the 2 x 10 grid as 20 cells in row-major order |
| Game.GameData.Model | Shehani_G21364691.cpp:43-60 | the class's fields read as a well-formed snapshot |
| Game.GameData.BlockAt | Shehani_G21364691.cpp:46-47 | cell (row, column) of the grid is element row * 10 + column of the snapshot |
| Game.GameData.constructor | Shehani_G21364691.cpp:135-201 | set-up produces exactly the start state |
| Game.GameData.InitialGrid | Shehani_G21364691.cpp:175-185 | block arrays holding NORMAL cells at the set-up positions read as the start cells |
| Game.GameData.ResetMarble | Shehani_G21364691.cpp:107-114 | the method changes the state exactly as Rules.ResetMarble |
| Game.GameData.CountHitBlocks | Shehani_G21364691.cpp:118-132 | the nested scan returns the number of DEAD cells, between 0 and 20 |
| Game.GameData.UpdateAiming | Shehani_G21364691.cpp:232-254 | the method updates aim and indicator as Rules.UpdateAim (with the corrected indicator turn) |
| Game.GameData.UpdateBlockPositions | Shehani_G21364691.cpp:206-228 | the method drifts the grid as Rules.DriftBlocks |
| Game.GameData.DriftGrid | Shehani_G21364691.cpp:212-227 | the nested loop moves every live cell and leaves DEAD ones alone |
| Game.GameData.CheckBlockCollisions | Shehani_G21364691.cpp:258-310 | the nested scan with early return computes exactly Rules.CheckBlocks, result and new state |
| Game.GameData.StrikeBlock | Shehani_G21364691.cpp:269-302 | bouncing and damaging cell (row, column) is Rules.HitBlock |
| Game.GameData.AdvanceDamage | Shehani_G21364691.cpp:287-302 | the damage switch replaces exactly that cell by its struck form |
| Game.GameData.CheckBarrierCollisions | Shehani_G21364691.cpp:314-331 | the barrier scan computes exactly Rules.CheckBarriers |
| Game.GameData.HandleReadyState | Shehani_G21364691.cpp:335-356 | the READY handler is Rules.ReadyStep |
| Game.GameData.HandleFiringState | Shehani_G21364691.cpp:360-401 | the FIRING handler is Rules.FiringStep |
| Game.GameData.ResolveFiring | Shehani_G21364691.cpp:373-400 | the exit tests and collision checks are Rules.FiringOutcome |
| Game.GameData.ResolveContact | Shehani_G21364691.cpp:389-400 | the block check, the barrier check only without a block hit, and the switch to CONTACT on any contact are Rules.Collide followed by that switch |
| Game.GameData.HandleContactState | Shehani_G21364691.cpp:405-419 | the CONTACT handler is Rules.ContactStep |
| Game.GameData.RunFrame | Shehani_G21364691.cpp:460-478 | one pass of the state-machine switch is Rules.FrameStep |

## Left out

- Engine set-up, mesh and font loading, the camera, text drawing, `DrawScene`, the Escape key and the `IsRunning` test are I/O. A frame's keys and timer are an `Input` value instead, and the main loop is Rules.Run over a finite sequence of such inputs.
- The sine and cosine of the aim angle (lines 350-352) are not modelled. The launch velocity is the `launch` function passed in with each frame's input.
- Floating-point rounding: every `float` is a real. Hence `Rules.FirstBlockX` is exactly -58.5, and the 0.02 turn step does not accumulate rounding error.
- The vertical wobble of live blocks (lines 221-224), `blockInitialY` and the block meshes' Y positions: the Y axis plays no part in any collision. The wobble clock `wobbleTime` is still advanced. A destroyed block is parked at X = Z = 9999; its Y is not kept.
- Orientation and skins (`RotateY` of the marble, `ResetOrientation`, `SetSkin`) have no effect on the logic. The dummy model's yaw is kept as the indicator angle, turned as described in the next line.
- Rules.UpdateAim, Game.GameData.UpdateAiming: the frame model turns the dummy model by the corrected amount (Rules.IndicatorTurn, the angle's actual change). It does not use the source's full step at the clamp (lines 242 and 252; see Findings). So Rules.FrameStep, Game.GameData.RunFrame and the "indicator equal to aim" part of Rules.Inv describe the corrected program. The program as written breaks that part at the clamp, as Rules.IndicatorOvershootsAsWritten shows; the other parts of Rules.Inv do not depend on the indicator.
- Game.GameData.constructor: the arrays are filled by array initialisers, not by the set-up loops of lines 175-201; only the resulting state is modelled.
- The HandleOverState text (lines 423-427): an OVER frame changes nothing.
- The arrow model attached to the dummy (lines 167-169) only moves with the dummy.
- Rules.BarrierHitFrom: the left-before-right order of the barrier scan is not stated. Any barrier hit has the same effect, so the order cannot be observed.

## Findings

| source | as written | input that shows it | evidently intended | confidence | as-written member | corrected member |
|---|---|---|---|---|---|---|
| Shehani_G21364691.cpp:242, Shehani_G21364691.cpp:252 | the dummy model turns by a full step, plus or minus 0.02, whenever Z or X is held, even when the aim angle was just clamped to ±60 | aim angle 60 with X held: the angle stays at 60 but the aim indicator turns to 60.02, and it drifts further every frame | the indicator turns by the angle's actual change, so it always shows the direction the marble will be fired in | not executed | Rules.IndicatorTurnAsWritten, Rules.IndicatorOvershootsAsWritten | Rules.IndicatorTurn, Rules.IndicatorTracksAim (used by Game.GameData.UpdateAiming) |
