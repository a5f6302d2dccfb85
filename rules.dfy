/** The discrete game logic of Killer Quebes on values: a Snapshot holds every
    field of the game's data structure that the logic reads or writes, and each
    per-frame handler is a function from one Snapshot to the next. The class in
    module Game is proved to compute exactly these functions. */
module Rules {
  import opened Geometry

  // Constants of the game (Shehani_G21364691.cpp:19-36).
  const NumBlocks: int := 10
  const NumRows: int := 2
  const NumCells: int := 20
  const NumBarriers: int := 8
  const Speed: real := 0.01
  const BlockZ: real := 120.0
  const MarbleRadius: real := 2.0
  const GapSize: real := 3.0
  const BarrierX: real := 60.0
  const BarrierSpacing: real := 25.0
  const MaxAimAngle: real := 60.0
  const AimRotationSpeed: real := 2.0 * Speed
  const BlockMoveSpeed: real := 3.0
  /** A marble deeper than this has overshot the blocks. */
  const BackLimit: real := BlockZ + 20.0
  /** Where a destroyed block is parked. */
  const FarAway: real := 9999.0
  const MarbleStartY: real := 2.0
  /** Depth distance between the two block rows. */
  const RowSpacing: real := 15.0
  /** X of the centre of column 0: the row of blocks is centred on X = 0. */
  const FirstBlockX: real := -((NumBlocks as real * BoxWidth + (NumBlocks - 1) as real * GapSize) / 2.0) + BoxWidth / 2.0

  datatype GameState = Ready | Firing | Contact | Over
  datatype BlockState = Normal | HitOnce | Dead

  datatype Option<T> = None | Some(value: T)

  datatype Pos = Pos(x: real, z: real)
  datatype Block = Block(state: BlockState, x: real, z: real)

  /** The state one frame works on. blocks is the 2 x 10 grid in row-major
      order: cell (row, column) is blocks[row * NumBlocks + column]. The
      indicator yaw is the accumulated Y rotation of the aiming dummy model. */
  datatype Snapshot = Snapshot(
    state: GameState,
    blocks: seq<Block>,
    leftBarriers: seq<Pos>,
    rightBarriers: seq<Pos>,
    marbleX: real, marbleY: real, marbleZ: real,
    velocityX: real, velocityZ: real,
    aim: real,
    indicatorYaw: real,
    blockMovement: real,
    wobbleTime: real)

  ghost predicate WellFormed(s: Snapshot)
  {
    |s.blocks| == NumCells && |s.leftBarriers| == NumBarriers && |s.rightBarriers| == NumBarriers
  }

  /** One frame's keyboard and timer input. launch stands for the engine's
      sin/cos decomposition of the aim angle into a firing velocity. */
  datatype Input = Input(zHeld: bool, xHeld: bool, spaceHit: bool, frameTime: real, launch: real -> (real, real))

  // ---------------------------------------------------------------- blocks

  /** Position of a damage state along NORMAL -> HIT_ONCE -> DEAD. */
  function Rank(b: BlockState): nat
  {
    match b
    case Normal => 0
    case HitOnce => 1
    case Dead => 2
  }

  /** One hit's effect on a block's damage state. DEAD has no successor. */
  function Damage(b: BlockState): (r: BlockState)
    ensures b != Dead ==> Rank(r) == Rank(b) + 1
    ensures b == Dead ==> r == Dead
  {
    match b
    case Normal => HitOnce
    case HitOnce => Dead
    case Dead => Dead
  }

  function DeadOne(b: Block): nat
  {
    if b.state == Dead then 1 else 0
  }

  /** CountHitBlocks: the number of DEAD cells. */
  function DeadCount(bs: seq<Block>): (n: nat)
    ensures n <= |bs|
  {
    if bs == [] then 0 else DeadCount(bs[..|bs| - 1]) + DeadOne(bs[|bs| - 1])
  }

  lemma {:induction false} DeadCountAll(bs: seq<Block>)
    ensures DeadCount(bs) == |bs| <==> forall k :: 0 <= k < |bs| ==> bs[k].state == Dead
  {
    if bs != [] {
      var front := bs[..|bs| - 1];
      DeadCountAll(front);
      if DeadCount(bs) == |bs| {
        forall k | 0 <= k < |bs| ensures bs[k].state == Dead {
          if k < |bs| - 1 { assert bs[k] == front[k]; }
        }
      }
      if forall k :: 0 <= k < |bs| ==> bs[k].state == Dead {
        assert forall k :: 0 <= k < |front| ==> front[k].state == Dead by {
          forall k | 0 <= k < |front| ensures front[k].state == Dead { assert front[k] == bs[k]; }
        }
      }
    }
  }

  /** Replacing one block changes the count by that block's own contribution. */
  lemma {:induction false} DeadCountUpdate(bs: seq<Block>, k: nat, b: Block)
    requires k < |bs|
    ensures DeadCount(bs[k := b]) == DeadCount(bs) - DeadOne(bs[k]) + DeadOne(b)
    decreases |bs|
  {
    var n := |bs| - 1;
    var after := bs[k := b];
    assert after[..n] == if k < n then bs[..n][k := b] else bs[..n];
    if k < n {
      DeadCountUpdate(bs[..n], k, b);
    }
  }

  lemma {:induction false} DeadCountPrefix(bs: seq<Block>, k: nat)
    requires k < |bs|
    ensures DeadCount(bs[..k + 1]) == DeadCount(bs[..k]) + DeadOne(bs[k])
  {
    assert bs[..k + 1][..k] == bs[..k];
  }

  /** The marble overlaps a box centred at (x, z). */
  predicate MarbleTouches(s: Snapshot, x: real, z: real)
  {
    SphereToBoxCollision(s.marbleX, s.marbleZ, x, z, MarbleRadius)
  }

  /** Cell k is live and the marble overlaps it. */
  predicate CanHit(s: Snapshot, k: int)
    requires 0 <= k < |s.blocks|
  {
    s.blocks[k].state != Dead && MarbleTouches(s, s.blocks[k].x, s.blocks[k].z)
  }

  /** The first cell at or after from, in row-major order, that can be hit. */
  function FirstHit(s: Snapshot, from: nat): (r: Option<nat>)
    ensures r.Some? ==> from <= r.value < |s.blocks| && CanHit(s, r.value)
    ensures r.Some? ==> forall j :: from <= j < r.value ==> !CanHit(s, j)
    ensures r.None? <==> forall j :: from <= j < |s.blocks| ==> !CanHit(s, j)
    decreases |s.blocks| - from
  {
    if from >= |s.blocks| then None
    else if CanHit(s, from) then Some(from)
    else FirstHit(s, from + 1)
  }

  /** Reflection on a block hit: the velocity component along the axis of the
      larger centre offset is reversed (Z on a tie), the other one is kept. */
  function Bounce(vx: real, vz: real, dx: real, dz: real): (v: (real, real))
    ensures Abs(v.0) == Abs(vx) && Abs(v.1) == Abs(vz)
    ensures Abs(dx) > Abs(dz) ==> v == (-vx, vz)
    ensures Abs(dx) <= Abs(dz) ==> v == (vx, -vz)
  {
    if Abs(dx) > Abs(dz) then (-vx, vz) else (vx, -vz)
  }

  /** A block after being hit: NORMAL becomes HIT_ONCE in place; HIT_ONCE
      becomes DEAD and is parked far away. */
  function Struck(b: Block): (r: Block)
    ensures r.state == Damage(b.state)
    ensures r.state != Dead ==> r.x == b.x && r.z == b.z
  {
    match b.state
    case Normal => b.(state := HitOnce)
    case HitOnce => Block(Dead, FarAway, FarAway)
    case Dead => b
  }

  /** The response to a hit on cell k. */
  function HitBlock(s: Snapshot, k: nat): (t: Snapshot)
    requires k < |s.blocks|
    ensures |t.blocks| == |s.blocks| && t.blocks[k] == Struck(s.blocks[k])
    ensures forall j :: 0 <= j < |s.blocks| && j != k ==> t.blocks[j] == s.blocks[j]
    ensures (t.velocityX, t.velocityZ) ==
      Bounce(s.velocityX, s.velocityZ, s.marbleX - s.blocks[k].x, s.marbleZ - s.blocks[k].z)
    ensures t == s.(blocks := t.blocks, velocityX := t.velocityX, velocityZ := t.velocityZ)
  {
    var b := s.blocks[k];
    var v := Bounce(s.velocityX, s.velocityZ, s.marbleX - b.x, s.marbleZ - b.z);
    s.(blocks := s.blocks[k := Struck(b)], velocityX := v.0, velocityZ := v.1)
  }

  /** CheckBlockCollisions: the new state and whether a block was hit. */
  function CheckBlocks(s: Snapshot): (r: (Snapshot, bool))
    ensures r.1 <==> exists k :: 0 <= k < |s.blocks| && CanHit(s, k)
    ensures !r.1 ==> r.0 == s
  {
    var first := FirstHit(s, 0);
    assert first.Some? ==> CanHit(s, first.value);
    match first
    case None => (s, false)
    case Some(k) => (HitBlock(s, k), true)
  }

  /** A successful block check strikes the first live overlapping cell k (in
      row-major order) and only it: k moves one step along the damage chain,
      every other cell keeps its state and position, exactly one velocity
      component is reversed and both speeds are kept. */
  lemma CheckBlocksStrikesFirst(s: Snapshot)
    requires CheckBlocks(s).1
    ensures var k := FirstHit(s, 0).value;
      var t := CheckBlocks(s).0;
      && k < |s.blocks| && CanHit(s, k)
      && (forall j :: 0 <= j < k ==> !CanHit(s, j))
      && |t.blocks| == |s.blocks|
      && t.blocks[k].state == Damage(s.blocks[k].state)
      && Rank(t.blocks[k].state) == Rank(s.blocks[k].state) + 1
      && (forall j :: 0 <= j < |s.blocks| && j != k ==> t.blocks[j] == s.blocks[j])
      && ((t.velocityX == -s.velocityX && t.velocityZ == s.velocityZ)
          || (t.velocityX == s.velocityX && t.velocityZ == -s.velocityZ))
      && Abs(t.velocityX) == Abs(s.velocityX) && Abs(t.velocityZ) == Abs(s.velocityZ)
      && t == s.(blocks := t.blocks, velocityX := t.velocityX, velocityZ := t.velocityZ)
  {
  }

  /** The head-on case: a marble one unit in front of the centre of a NORMAL
      block in cell 0 hits it, reverses its Z velocity and leaves the block
      HIT_ONCE in place. */
  lemma HeadOnHit(s: Snapshot)
    requires |s.blocks| == NumCells && s.blocks[0] == Block(Normal, 0.0, BlockZ)
    requires s.marbleX == 0.0 && s.marbleZ == BlockZ + 1.0
    ensures CheckBlocks(s) == (s.(blocks := s.blocks[0 := Block(HitOnce, 0.0, BlockZ)], velocityZ := -s.velocityZ), true)
  {
    assert CanHit(s, 0);
  }

  /** A block check never lowers the DEAD count and raises it by one at most. */
  lemma CheckBlocksDeadCount(s: Snapshot)
    ensures var t := CheckBlocks(s).0;
      DeadCount(s.blocks) <= DeadCount(t.blocks) <= DeadCount(s.blocks) + 1
    ensures var t := CheckBlocks(s).0;
      DeadCount(t.blocks) == DeadCount(s.blocks) + 1 <==>
        CheckBlocks(s).1 && s.blocks[FirstHit(s, 0).value].state == HitOnce
  {
    match FirstHit(s, 0)
    case None =>
    case Some(k) =>
      DeadCountUpdate(s.blocks, k, Struck(s.blocks[k]));
  }

  // -------------------------------------------------------------- barriers

  /** Some barrier with index at or after i overlaps the marble, scanning the
      left barrier before the right one at each index. */
  function BarrierHitFrom(s: Snapshot, i: nat): (hit: bool)
    requires |s.leftBarriers| == |s.rightBarriers|
    ensures hit <==> (exists j :: i <= j < |s.leftBarriers| &&
                       (MarbleTouches(s, s.leftBarriers[j].x, s.leftBarriers[j].z) ||
                        MarbleTouches(s, s.rightBarriers[j].x, s.rightBarriers[j].z)))
    decreases |s.leftBarriers| - i
  {
    if i >= |s.leftBarriers| then false
    else if MarbleTouches(s, s.leftBarriers[i].x, s.leftBarriers[i].z) then true
    else if MarbleTouches(s, s.rightBarriers[i].x, s.rightBarriers[i].z) then true
    else BarrierHitFrom(s, i + 1)
  }

  /** CheckBarrierCollisions: on any barrier overlap the X velocity is reversed. */
  function CheckBarriers(s: Snapshot): (r: (Snapshot, bool))
    requires |s.leftBarriers| == |s.rightBarriers|
    ensures r.1 <==> (exists j :: 0 <= j < |s.leftBarriers| &&
                       (MarbleTouches(s, s.leftBarriers[j].x, s.leftBarriers[j].z) ||
                        MarbleTouches(s, s.rightBarriers[j].x, s.rightBarriers[j].z)))
    ensures r.1 ==> r.0 == s.(velocityX := -s.velocityX)
    ensures !r.1 ==> r.0 == s
  {
    if BarrierHitFrom(s, 0) then (s.(velocityX := -s.velocityX), true) else (s, false)
  }

  // ---------------------------------------------------------------- aiming

  /** The aim angle after one frame of UpdateAiming: Z turns left, X turns
      right, Z wins when both are held, and the result is clamped to +-60. */
  function TurnAim(angle: real, zHeld: bool, xHeld: bool): (r: real)
    ensures -MaxAimAngle <= angle <= MaxAimAngle ==> -MaxAimAngle <= r <= MaxAimAngle
    ensures !zHeld && !xHeld ==> r == angle
    ensures zHeld && angle - AimRotationSpeed >= -MaxAimAngle ==> r == angle - AimRotationSpeed
    ensures zHeld && angle - AimRotationSpeed < -MaxAimAngle ==> r == -MaxAimAngle
    ensures !zHeld && xHeld && angle + AimRotationSpeed <= MaxAimAngle ==> r == angle + AimRotationSpeed
    ensures !zHeld && xHeld && angle + AimRotationSpeed > MaxAimAngle ==> r == MaxAimAngle
  {
    if zHeld then
      var a := angle - AimRotationSpeed;
      if a < -MaxAimAngle then -MaxAimAngle else a
    else if xHeld then
      var a := angle + AimRotationSpeed;
      if a > MaxAimAngle then MaxAimAngle else a
    else angle
  }

  /** Z-held takes priority: X is ignored while Z is held, and within the
      clamp range holding Z never raises the angle. */
  lemma TurnAimZFirst(angle: real)
    ensures TurnAim(angle, true, true) == TurnAim(angle, true, false)
    ensures -MaxAimAngle <= angle ==> TurnAim(angle, true, true) <= angle
  {
  }

  /** The dummy model's rotation as the source applies it: a full step per
      frame, whether or not the angle was clamped. */
  function IndicatorTurnAsWritten(yaw: real, zHeld: bool, xHeld: bool): (r: real)
    ensures zHeld ==> r == yaw - AimRotationSpeed
    ensures !zHeld && xHeld ==> r == yaw + AimRotationSpeed
    ensures !zHeld && !xHeld ==> r == yaw
  {
    if zHeld then yaw - AimRotationSpeed
    else if xHeld then yaw + AimRotationSpeed
    else yaw
  }

  /** Holding X at the limit: the angle stays at 60 while the indicator turns
      on past it, so the two drift apart. */
  lemma IndicatorOvershootsAsWritten()
    ensures TurnAim(MaxAimAngle, false, true) == MaxAimAngle
    ensures IndicatorTurnAsWritten(MaxAimAngle, false, true) == MaxAimAngle + AimRotationSpeed
    ensures IndicatorTurnAsWritten(MaxAimAngle, false, true) != TurnAim(MaxAimAngle, false, true)
  {
  }

  /** The indicator turned by the angle's actual change. */
  function IndicatorTurn(yaw: real, before: real, after: real): (r: real)
    ensures r - yaw == after - before
  {
    yaw + (after - before)
  }

  /** With the corrected turn the indicator stays in lockstep with the angle;
      as written it stays in lockstep only while the angle is not clamped. */
  lemma IndicatorTracksAim(angle: real, zHeld: bool, xHeld: bool)
    ensures IndicatorTurn(angle, angle, TurnAim(angle, zHeld, xHeld)) == TurnAim(angle, zHeld, xHeld)
    ensures IndicatorTurnAsWritten(angle, zHeld, xHeld) == TurnAim(angle, zHeld, xHeld) <==>
      (zHeld ==> angle - AimRotationSpeed >= -MaxAimAngle) &&
      (!zHeld && xHeld ==> angle + AimRotationSpeed <= MaxAimAngle)
  {
  }

  /** UpdateAiming on the whole state. */
  function UpdateAim(s: Snapshot, zHeld: bool, xHeld: bool): (t: Snapshot)
    ensures t.aim == TurnAim(s.aim, zHeld, xHeld)
    ensures t.indicatorYaw - s.indicatorYaw == t.aim - s.aim
    ensures t == s.(aim := t.aim, indicatorYaw := t.indicatorYaw)
  {
    var a := TurnAim(s.aim, zHeld, xHeld);
    s.(aim := a, indicatorYaw := IndicatorTurn(s.indicatorYaw, s.aim, a))
  }

  /** Aim after a sequence of frames of key input. */
  function AimAfter(angle: real, keys: seq<(bool, bool)>): real
    decreases |keys|
  {
    if keys == [] then angle else AimAfter(TurnAim(angle, keys[0].0, keys[0].1), keys[1..])
  }

  /** However long the keys are held, the aim stays within +-60. */
  lemma {:induction false} AimStaysClamped(angle: real, keys: seq<(bool, bool)>)
    requires -MaxAimAngle <= angle <= MaxAimAngle
    ensures -MaxAimAngle <= AimAfter(angle, keys) <= MaxAimAngle
    decreases |keys|
  {
    if keys != [] {
      AimStaysClamped(TurnAim(angle, keys[0].0, keys[0].1), keys[1..]);
    }
  }

  // ----------------------------------------------------------- block drift

  /** One live block's drift towards the player; DEAD blocks stay put. */
  function Drift(b: Block, movement: real): (r: Block)
    ensures r.state == b.state && r.x == b.x
    ensures b.state == Dead ==> r == b
    ensures b.state != Dead ==> r.z == b.z - movement
  {
    if b.state != Dead then b.(z := b.z - movement) else b
  }

  /** UpdateBlockPositions without the vertical wobble. */
  function DriftBlocks(s: Snapshot, frameTime: real): (t: Snapshot)
    ensures |t.blocks| == |s.blocks|
    ensures t == s.(blocks := t.blocks, blockMovement := t.blockMovement, wobbleTime := t.wobbleTime)
  {
    var movement := BlockMoveSpeed * frameTime;
    s.(blocks := seq(|s.blocks|, k requires 0 <= k < |s.blocks| => Drift(s.blocks[k], movement)),
       blockMovement := s.blockMovement + movement,
       wobbleTime := s.wobbleTime + frameTime)
  }

  /** Drift changes only the depth of live blocks and the two accumulators. */
  lemma DriftKeepsStates(s: Snapshot, frameTime: real)
    ensures var t := DriftBlocks(s, frameTime);
      && |t.blocks| == |s.blocks|
      && (forall k :: 0 <= k < |s.blocks| ==> t.blocks[k].state == s.blocks[k].state && t.blocks[k].x == s.blocks[k].x)
      && (forall k :: 0 <= k < |s.blocks| && s.blocks[k].state == Dead ==> t.blocks[k] == s.blocks[k])
      && (forall k :: 0 <= k < |s.blocks| && s.blocks[k].state != Dead ==>
            t.blocks[k].z == s.blocks[k].z - BlockMoveSpeed * frameTime)
      && t.blockMovement == s.blockMovement + BlockMoveSpeed * frameTime
      && t.wobbleTime == s.wobbleTime + frameTime
      && t == s.(blocks := t.blocks, blockMovement := t.blockMovement, wobbleTime := t.wobbleTime)
  {
  }

  lemma {:induction false} SameStatesSameDeadCount(a: seq<Block>, b: seq<Block>)
    requires |a| == |b|
    requires forall k :: 0 <= k < |a| ==> a[k].state == b[k].state
    ensures DeadCount(a) == DeadCount(b)
    decreases |a|
  {
    if a != [] {
      var n := |a| - 1;
      SameStatesSameDeadCount(a[..n], b[..n]);
    }
  }

  lemma DriftKeepsDeadCount(s: Snapshot, frameTime: real)
    ensures DeadCount(DriftBlocks(s, frameTime).blocks) == DeadCount(s.blocks)
  {
    DriftKeepsStates(s, frameTime);
    SameStatesSameDeadCount(DriftBlocks(s, frameTime).blocks, s.blocks);
  }

  // -------------------------------------------------------- state handlers

  /** ResetMarble: back to the firing origin at rest. */
  function ResetMarble(s: Snapshot): (t: Snapshot)
    ensures t.marbleX == 0.0 && t.marbleY == MarbleStartY && t.marbleZ == 0.0
    ensures t.velocityX == 0.0 && t.velocityZ == 0.0
    ensures t == s.(marbleX := t.marbleX, marbleY := t.marbleY, marbleZ := t.marbleZ,
                    velocityX := t.velocityX, velocityZ := t.velocityZ)
  {
    s.(marbleX := 0.0, marbleY := MarbleStartY, marbleZ := 0.0, velocityX := 0.0, velocityZ := 0.0)
  }

  /** HandleReadyState: aim, drift, and on the fire key leave for FIRING with
      the velocity launch gives for the (updated) aim angle. */
  function ReadyStep(s: Snapshot, zHeld: bool, xHeld: bool, spaceHit: bool, frameTime: real,
                     launch: real -> (real, real)): (t: Snapshot)
    ensures t.state == if spaceHit then Firing else s.state
    ensures t.marbleX == s.marbleX && t.marbleY == s.marbleY && t.marbleZ == s.marbleZ
    ensures spaceHit ==> (t.velocityX, t.velocityZ) == launch(t.aim)
    ensures !spaceHit ==> t.velocityX == s.velocityX && t.velocityZ == s.velocityZ
    ensures t.aim == TurnAim(s.aim, zHeld, xHeld) && t.indicatorYaw - s.indicatorYaw == t.aim - s.aim
    ensures |t.blocks| == |s.blocks|
    ensures forall k :: 0 <= k < |s.blocks| ==> t.blocks[k] == Drift(s.blocks[k], BlockMoveSpeed * frameTime)
    ensures t.blockMovement == s.blockMovement + BlockMoveSpeed * frameTime
    ensures t.wobbleTime == s.wobbleTime + frameTime
    ensures t == s.(state := t.state, velocityX := t.velocityX, velocityZ := t.velocityZ,
                    aim := t.aim, indicatorYaw := t.indicatorYaw, blocks := t.blocks,
                    blockMovement := t.blockMovement, wobbleTime := t.wobbleTime)
  {
    var t := DriftBlocks(UpdateAim(s, zHeld, xHeld), frameTime);
    if spaceHit then
      var v := launch(t.aim);
      t.(velocityX := v.0, velocityZ := v.1, state := Firing)
    else t
  }

  /** The part of a FIRING frame before any exit test: aim, drift, move. */
  function Advance(s: Snapshot, zHeld: bool, xHeld: bool, frameTime: real): (t: Snapshot)
    ensures t.state == s.state && t.marbleY == s.marbleY
    ensures t.velocityX == s.velocityX && t.velocityZ == s.velocityZ
    ensures t.marbleX == s.marbleX + s.velocityX && t.marbleZ == s.marbleZ + s.velocityZ
    ensures t.aim == TurnAim(s.aim, zHeld, xHeld) && t.indicatorYaw - s.indicatorYaw == t.aim - s.aim
    ensures |t.blocks| == |s.blocks|
    ensures forall k :: 0 <= k < |s.blocks| ==> t.blocks[k] == Drift(s.blocks[k], BlockMoveSpeed * frameTime)
    ensures t.blockMovement == s.blockMovement + BlockMoveSpeed * frameTime
    ensures t.wobbleTime == s.wobbleTime + frameTime
    ensures t == s.(marbleX := t.marbleX, marbleZ := t.marbleZ,
                    aim := t.aim, indicatorYaw := t.indicatorYaw, blocks := t.blocks,
                    blockMovement := t.blockMovement, wobbleTime := t.wobbleTime)
  {
    var t := DriftBlocks(UpdateAim(s, zHeld, xHeld), frameTime);
    t.(marbleX := t.marbleX + t.velocityX, marbleZ := t.marbleZ + t.velocityZ)
  }

  /** Block check, then (only without a block hit) the barrier check. */
  function Collide(s: Snapshot): (r: (Snapshot, bool))
    requires |s.leftBarriers| == |s.rightBarriers|
    ensures r.1 <==> (exists k :: 0 <= k < |s.blocks| && CanHit(s, k)) || BarrierHitFrom(s, 0)
    ensures r.0.state == s.state
  {
    var (b, blockHit) := CheckBlocks(s);
    if blockHit then (b, true) else CheckBarriers(b)
  }

  /** The exit tests of a FIRING frame on the moved marble. */
  function FiringOutcome(m: Snapshot): (t: Snapshot)
    requires |m.leftBarriers| == |m.rightBarriers|
    ensures t.state == Ready || t.state == Contact || t.state == m.state
    ensures m.marbleZ > BackLimit || m.marbleZ < 0.0 ==> t == ResetMarble(m).(state := Ready)
  {
    if m.marbleZ > BackLimit then ResetMarble(m).(state := Ready)
    else if m.marbleZ < 0.0 then ResetMarble(m).(state := Ready)
    else
      var (c, hit) := Collide(m);
      if hit then c.(state := Contact) else c
  }

  /** The in-arena cases of the exit tests: without any contact the moved
      state is kept as it is; a barrier contact (with no block contact)
      reverses X and goes to CONTACT; READY follows only from an exit. */
  lemma FiringOutcomeCases(m: Snapshot)
    requires |m.leftBarriers| == |m.rightBarriers|
    ensures var t := FiringOutcome(m);
      m.state != Ready ==> (t.state == Ready <==> m.marbleZ > BackLimit || m.marbleZ < 0.0)
    ensures var t := FiringOutcome(m);
      (0.0 <= m.marbleZ <= BackLimit && !(exists k :: 0 <= k < |m.blocks| && CanHit(m, k)) &&
       !BarrierHitFrom(m, 0)) ==> t == m
    ensures var t := FiringOutcome(m);
      (0.0 <= m.marbleZ <= BackLimit && !(exists k :: 0 <= k < |m.blocks| && CanHit(m, k)) &&
       BarrierHitFrom(m, 0)) ==> t == m.(velocityX := -m.velocityX, state := Contact)
  {
  }

  /** HandleFiringState. */
  function FiringStep(s: Snapshot, zHeld: bool, xHeld: bool, frameTime: real): (t: Snapshot)
    requires |s.leftBarriers| == |s.rightBarriers|
    ensures t.state == Ready || t.state == Contact || t.state == s.state
  {
    FiringOutcome(Advance(s, zHeld, xHeld, frameTime))
  }

  /** The exits of a FIRING frame, in priority order: past the back limit,
      then in front of the origin (both reset and go to READY), then a block
      contact, then a barrier contact (CONTACT); otherwise the state stays
      FIRING and the move is the only change. */
  lemma FiringExits(s: Snapshot, zHeld: bool, xHeld: bool, frameTime: real)
    requires s.state == Firing && |s.leftBarriers| == |s.rightBarriers|
    ensures var m := Advance(s, zHeld, xHeld, frameTime);
      var t := FiringStep(s, zHeld, xHeld, frameTime);
      && (m.marbleZ > BackLimit || m.marbleZ < 0.0 ==> t == ResetMarble(m).(state := Ready))
      && (0.0 <= m.marbleZ <= BackLimit ==>
            (t.state == Contact <==>
              (exists k :: 0 <= k < |m.blocks| && CanHit(m, k)) || BarrierHitFrom(m, 0)))
      && (0.0 <= m.marbleZ <= BackLimit && (exists k :: 0 <= k < |m.blocks| && CanHit(m, k)) ==>
            t == CheckBlocks(m).0.(state := Contact))
      && ((0.0 <= m.marbleZ <= BackLimit && !(exists k :: 0 <= k < |m.blocks| && CanHit(m, k)) &&
           BarrierHitFrom(m, 0)) ==> t == m.(velocityX := -m.velocityX, state := Contact))
      && ((0.0 <= m.marbleZ <= BackLimit && !(exists k :: 0 <= k < |m.blocks| && CanHit(m, k)) &&
           !BarrierHitFrom(m, 0)) ==> t == m && t.state == Firing)
      && (t.state == Ready <==> m.marbleZ > BackLimit || m.marbleZ < 0.0)
      && (t.state == Firing || t.state == Ready || t.state == Contact)
  {
  }

  /** HandleContactState: OVER once every cell is DEAD, else back to FIRING. */
  function ContactStep(s: Snapshot): (t: Snapshot)
    ensures t == s.(state := t.state)
  {
    if DeadCount(s.blocks) >= NumCells then s.(state := Over) else s.(state := Firing)
  }

  /** The win test: OVER exactly when all 20 cells are DEAD. */
  lemma ContactWinsExactly(s: Snapshot)
    requires WellFormed(s)
    ensures ContactStep(s).state == Over <==> forall k :: 0 <= k < |s.blocks| ==> s.blocks[k].state == Dead
    ensures ContactStep(s).state != Over ==> ContactStep(s).state == Firing
  {
    DeadCountAll(s.blocks);
  }

  /** One frame of the state-machine dispatch; OVER only draws text. */
  function FrameStep(s: Snapshot, input: Input): (t: Snapshot)
    requires |s.leftBarriers| == |s.rightBarriers|
    ensures s.state == Ready ==> t.state == Ready || t.state == Firing
    ensures s.state == Firing ==> t.state == Firing || t.state == Ready || t.state == Contact
    ensures s.state == Contact ==> t.state == Over || t.state == Firing
    ensures s.state == Over ==> t == s
  {
    match s.state
    case Ready => ReadyStep(s, input.zHeld, input.xHeld, input.spaceHit, input.frameTime, input.launch)
    case Firing => FiringStep(s, input.zHeld, input.xHeld, input.frameTime)
    case Contact => ContactStep(s)
    case Over => s
  }

  // ----------------------------------------------------- session properties

  /** What holds of every state the game reaches. */
  ghost predicate Inv(s: Snapshot)
  {
    && WellFormed(s)
    && -MaxAimAngle <= s.aim <= MaxAimAngle
    && s.indicatorYaw == s.aim
    && (s.state == Ready ==>
          s.marbleX == 0.0 && s.marbleY == MarbleStartY && s.marbleZ == 0.0
          && s.velocityX == 0.0 && s.velocityZ == 0.0)
    && (s.state == Over ==> DeadCount(s.blocks) == NumCells)
    && (forall k :: 0 <= k < |s.blocks| && s.blocks[k].state == Dead ==>
          s.blocks[k].x == FarAway && s.blocks[k].z == FarAway)
  }

  /** The state InitializeGame sets up. */
  function Initial(): (s: Snapshot)
    ensures WellFormed(s) && s.state == Ready
    ensures forall k :: 0 <= k < |s.blocks| ==> s.blocks[k].state == Normal
  {
    Snapshot(
      Ready,
      seq(NumCells, k requires 0 <= k < NumCells => InitialBlock(k / NumBlocks, k % NumBlocks)),
      BarrierColumn(-BarrierX),
      BarrierColumn(BarrierX),
      0.0, MarbleStartY, 0.0,
      0.0, 0.0,
      0.0, 0.0,
      0.0, 0.0)
  }

  /** A column of barriers at the given X, evenly spaced in depth from 0. */
  function BarrierColumn(x: real): (ps: seq<Pos>)
    ensures |ps| == NumBarriers
  {
    seq(NumBarriers, i requires 0 <= i < NumBarriers => Pos(x, i as real * BarrierSpacing))
  }

  /** Block (row, column) at start: NORMAL, spaced by width plus gap. */
  function InitialBlock(row: int, column: int): (b: Block)
    ensures b.state == Normal
    ensures b.x == -58.5 + column as real * 13.0 && b.z == 120.0 + row as real * 15.0
  {
    Block(Normal, FirstBlockX + column as real * (BoxWidth + GapSize), BlockZ + row as real * RowSpacing)
  }

  lemma InitialInv()
    ensures Inv(Initial())
  {
    DeadCountAll(Initial().blocks);
  }

  /** Every frame keeps the invariant. */
  lemma FrameStepInv(s: Snapshot, input: Input)
    requires Inv(s)
    ensures Inv(FrameStep(s, input))
  {
    match s.state
    case Ready =>
      DriftKeepsStates(UpdateAim(s, input.zHeld, input.xHeld), input.frameTime);
    case Firing =>
      FiringInv(s, input.zHeld, input.xHeld, input.frameTime);
    case Contact =>
      ContactWinsExactly(s);
      DeadCountAll(s.blocks);
    case Over =>
  }

  lemma FiringInv(s: Snapshot, zHeld: bool, xHeld: bool, frameTime: real)
    requires Inv(s) && s.state == Firing
    ensures Inv(FiringStep(s, zHeld, xHeld, frameTime))
  {
    var u := UpdateAim(s, zHeld, xHeld);
    DriftKeepsStates(u, frameTime);
    var m := Advance(s, zHeld, xHeld, frameTime);
    assert Inv(m.(state := Firing));
    if 0.0 <= m.marbleZ <= BackLimit {
      CheckBlocksKeepsParked(m);
    }
  }

  /** A block check keeps every DEAD cell parked far away. */
  lemma CheckBlocksKeepsParked(s: Snapshot)
    requires forall k :: 0 <= k < |s.blocks| && s.blocks[k].state == Dead ==>
      s.blocks[k].x == FarAway && s.blocks[k].z == FarAway
    ensures var t := CheckBlocks(s).0;
      |t.blocks| == |s.blocks| &&
      forall k :: 0 <= k < |t.blocks| && t.blocks[k].state == Dead ==>
        t.blocks[k].x == FarAway && t.blocks[k].z == FarAway
  {
    if CheckBlocks(s).1 {
      CheckBlocksStrikesFirst(s);
    }
  }

  /** How a frame may change the grid: each cell's damage state moves at most
      one step forward, DEAD cells are frozen in place, and at most one cell
      changes state. */
  ghost predicate GridStep(a: seq<Block>, b: seq<Block>)
  {
    && |b| == |a|
    && (forall k :: 0 <= k < |a| ==> Rank(a[k].state) <= Rank(b[k].state) <= Rank(a[k].state) + 1)
    && (forall k :: 0 <= k < |a| && a[k].state == Dead ==> b[k] == a[k])
    && (forall j, k :: 0 <= j < |a| && 0 <= k < |a| && j != k && b[j].state != a[j].state ==>
          b[k].state == a[k].state)
  }

  /** Drift keeps every state and leaves DEAD cells alone. */
  ghost predicate Drifted(a: seq<Block>, d: seq<Block>)
  {
    && |d| == |a|
    && (forall k :: 0 <= k < |a| ==> d[k].state == a[k].state)
    && (forall k :: 0 <= k < |a| && a[k].state == Dead ==> d[k] == a[k])
  }

  lemma DriftedIsGridStep(a: seq<Block>, d: seq<Block>)
    requires Drifted(a, d)
    ensures GridStep(a, d)
  {
  }

  lemma StrikeIsGridStep(a: seq<Block>, d: seq<Block>, k: nat)
    requires Drifted(a, d) && k < |d| && d[k].state != Dead
    ensures GridStep(a, d[k := Struck(d[k])])
  {
  }

  lemma FiringGridStep(s: Snapshot, zHeld: bool, xHeld: bool, frameTime: real)
    requires WellFormed(s)
    ensures GridStep(s.blocks, FiringStep(s, zHeld, xHeld, frameTime).blocks)
  {
    var u := UpdateAim(s, zHeld, xHeld);
    DriftKeepsStates(u, frameTime);
    var m := Advance(s, zHeld, xHeld, frameTime);
    assert Drifted(s.blocks, m.blocks);
    DriftedIsGridStep(s.blocks, m.blocks);
    if 0.0 <= m.marbleZ <= BackLimit && CheckBlocks(m).1 {
      var k := FirstHit(m, 0).value;
      StrikeIsGridStep(s.blocks, m.blocks, k);
    }
  }

  /** Every frame changes the grid only as GridStep allows. */
  lemma FrameStepBlocks(s: Snapshot, input: Input)
    requires WellFormed(s)
    ensures GridStep(s.blocks, FrameStep(s, input).blocks)
  {
    match s.state
    case Ready =>
      DriftKeepsStates(UpdateAim(s, input.zHeld, input.xHeld), input.frameTime);
      DriftedIsGridStep(s.blocks, FrameStep(s, input).blocks);
    case Firing =>
      FiringGridStep(s, input.zHeld, input.xHeld, input.frameTime);
    case Contact =>
      DriftedIsGridStep(s.blocks, s.blocks);
    case Over =>
      DriftedIsGridStep(s.blocks, s.blocks);
  }

  /** No frame lowers the DEAD count, and none raises it by more than one. */
  lemma FrameStepDeadCount(s: Snapshot, input: Input)
    requires WellFormed(s)
    ensures DeadCount(s.blocks) <= DeadCount(FrameStep(s, input).blocks) <= DeadCount(s.blocks) + 1
  {
    match s.state
    case Ready =>
      DriftKeepsDeadCount(UpdateAim(s, input.zHeld, input.xHeld), input.frameTime);
    case Firing =>
      var u := UpdateAim(s, input.zHeld, input.xHeld);
      DriftKeepsDeadCount(u, input.frameTime);
      var m := Advance(s, input.zHeld, input.xHeld, input.frameTime);
      assert m.blocks == DriftBlocks(u, input.frameTime).blocks;
      CheckBlocksDeadCount(m);
    case Contact =>
    case Over =>
  }

  /** A frame keeps the grid's size and never moves a barrier. */
  lemma FrameStepShape(s: Snapshot, input: Input)
    requires WellFormed(s)
    ensures WellFormed(FrameStep(s, input))
    ensures FrameStep(s, input).leftBarriers == s.leftBarriers
    ensures FrameStep(s, input).rightBarriers == s.rightBarriers
  {
    if s.state == Firing {
      var m := Advance(s, input.zHeld, input.xHeld, input.frameTime);
      assert |m.blocks| == NumCells;
      if 0.0 <= m.marbleZ <= BackLimit && CheckBlocks(m).1 {
        CheckBlocksStrikesFirst(m);
      }
    }
  }

  /** The state after a run of frames. */
  function Run(s: Snapshot, inputs: seq<Input>): (t: Snapshot)
    requires WellFormed(s)
    ensures WellFormed(t)
    ensures t.leftBarriers == s.leftBarriers && t.rightBarriers == s.rightBarriers
    decreases |inputs|
  {
    if inputs == [] then s
    else
      FrameStepShape(s, inputs[0]);
      Run(FrameStep(s, inputs[0]), inputs[1..])
  }

  /** Over any run of frames from a reachable state: the invariant holds (aim
      within +-60, indicator in lockstep, OVER only with all 20 blocks DEAD),
      the DEAD count never decreases, and once OVER the game stays OVER. */
  lemma {:induction false} RunKeeps(s: Snapshot, inputs: seq<Input>)
    requires Inv(s)
    ensures Inv(Run(s, inputs))
    ensures DeadCount(s.blocks) <= DeadCount(Run(s, inputs).blocks)
    ensures s.state == Over ==> Run(s, inputs) == s
    decreases |inputs|
  {
    if inputs != [] {
      FrameStepInv(s, inputs[0]);
      FrameStepDeadCount(s, inputs[0]);
      RunKeeps(FrameStep(s, inputs[0]), inputs[1..]);
    }
  }

  /** Running two sequences of frames one after the other is running their
      concatenation. */
  lemma {:induction false} RunAppend(s: Snapshot, a: seq<Input>, b: seq<Input>)
    requires WellFormed(s)
    ensures Run(s, a + b) == Run(Run(s, a), b)
    decreases |a|
  {
    if a == [] {
      assert a + b == b;
    } else {
      var next := FrameStep(s, a[0]);
      assert (a + b)[0] == a[0] && (a + b)[1..] == a[1..] + b;
      calc {
        Run(s, a + b);
        Run(next, a[1..] + b);
        { RunAppend(next, a[1..], b); }
        Run(Run(next, a[1..]), b);
        Run(Run(s, a), b);
      }
    }
  }

  /** Every state reachable from the start satisfies the invariant. */
  lemma ReachableInv(inputs: seq<Input>)
    ensures Inv(Run(Initial(), inputs))
  {
    InitialInv();
    RunKeeps(Initial(), inputs);
  }
}
