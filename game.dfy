/** The game's data structure as a mutable object whose per-frame handlers
    update its fields and grids in place. Every handler is proved to compute
    the value-level transition of module Rules; Model() is the bridge. */
module Game {
  import opened Geometry
  import opened Rules

  /** Barrier positions from an X and a Z array. */
  ghost function Barriers(xs: array<real>, zs: array<real>): (ps: seq<Pos>)
    requires xs.Length == zs.Length
    reads xs, zs
    ensures |ps| == xs.Length
    ensures forall i :: 0 <= i < xs.Length ==> ps[i] == Pos(xs[i], zs[i])
  {
    seq(xs.Length, i requires 0 <= i < xs.Length reads xs, zs => Pos(xs[i], zs[i]))
  }

  lemma InitialColumn(xs: array<real>, zs: array<real>, x: real)
    requires xs.Length == NumBarriers && zs.Length == NumBarriers
    requires forall i :: 0 <= i < NumBarriers ==> xs[i] == x
    requires forall i :: 0 <= i < NumBarriers ==> zs[i] == i as real * BarrierSpacing
    ensures Barriers(xs, zs) == BarrierColumn(x)
  {
  }

  class GameData {
    var currentState: GameState
    /** The 2 x 10 grid of damage states and the block centres. */
    const blockStates: array2<BlockState>
    const blockX: array2<real>
    const blockZ: array2<real>
    const leftBarrierX: array<real>
    const leftBarrierZ: array<real>
    const rightBarrierX: array<real>
    const rightBarrierZ: array<real>
    var marbleX: real
    var marbleY: real
    var marbleZ: real
    var marbleVelocityX: real
    var marbleVelocityZ: real
    /** The aim angle in degrees. */
    var dummyRotation: real
    /** The accumulated Y rotation of the aiming dummy model. */
    var dummyYaw: real
    var blockMovement: real
    var wobbleTime: real

    ghost predicate Valid()
    {
      && blockStates.Length0 == NumRows && blockStates.Length1 == NumBlocks
      && blockX.Length0 == NumRows && blockX.Length1 == NumBlocks
      && blockZ.Length0 == NumRows && blockZ.Length1 == NumBlocks
      && blockX != blockZ
      && leftBarrierX.Length == NumBarriers && leftBarrierZ.Length == NumBarriers
      && rightBarrierX.Length == NumBarriers && rightBarrierZ.Length == NumBarriers
    }

    /** The grid in row-major order. */
    ghost function Blocks(): (bs: seq<Block>)
      requires Valid()
      reads blockStates, blockX, blockZ
      ensures |bs| == NumCells
    {
      seq(NumCells, k requires 0 <= k < NumCells reads blockStates, blockX, blockZ =>
        Block(blockStates[k / NumBlocks, k % NumBlocks],
              blockX[k / NumBlocks, k % NumBlocks],
              blockZ[k / NumBlocks, k % NumBlocks]))
    }

    ghost function Model(): (s: Snapshot)
      requires Valid()
      reads this, blockStates, blockX, blockZ, leftBarrierX, leftBarrierZ, rightBarrierX, rightBarrierZ
      ensures WellFormed(s)
    {
      Snapshot(currentState, Blocks(),
               Barriers(leftBarrierX, leftBarrierZ), Barriers(rightBarrierX, rightBarrierZ),
               marbleX, marbleY, marbleZ, marbleVelocityX, marbleVelocityZ,
               dummyRotation, dummyYaw, blockMovement, wobbleTime)
    }

    /** Cell (row, column) of Blocks() comes from element [row, column] of the grids. */
    lemma BlockAt(row: int, column: int)
      requires Valid() && 0 <= row < NumRows && 0 <= column < NumBlocks
      ensures row * NumBlocks + column < NumCells
      ensures Blocks()[row * NumBlocks + column] ==
        Block(blockStates[row, column], blockX[row, column], blockZ[row, column])
    {
      var k := row * NumBlocks + column;
      assert k / NumBlocks == row && k % NumBlocks == column;
    }

    /** InitializeGame, without the engine: every block NORMAL at its grid
        position, barriers in two columns, marble at rest at the origin. */
    constructor ()
      ensures Valid() && Model() == Initial()
    {
      currentState := Ready;
      blockStates := new BlockState[NumRows, NumBlocks]((row, column) => Normal);
      blockX := new real[NumRows, NumBlocks]((row, column) => InitialBlock(row, column).x);
      blockZ := new real[NumRows, NumBlocks]((row, column) => InitialBlock(row, column).z);
      leftBarrierX := new real[NumBarriers](i => -BarrierX);
      leftBarrierZ := new real[NumBarriers](i => i as real * BarrierSpacing);
      rightBarrierX := new real[NumBarriers](i => BarrierX);
      rightBarrierZ := new real[NumBarriers](i => i as real * BarrierSpacing);
      marbleX, marbleY, marbleZ := 0.0, MarbleStartY, 0.0;
      marbleVelocityX, marbleVelocityZ := 0.0, 0.0;
      dummyRotation, dummyYaw := 0.0, 0.0;
      blockMovement, wobbleTime := 0.0, 0.0;
      new;
      InitialGrid();
      InitialColumn(leftBarrierX, leftBarrierZ, -BarrierX);
      InitialColumn(rightBarrierX, rightBarrierZ, BarrierX);
    }

    lemma InitialGrid()
      requires Valid()
      requires forall r, c :: 0 <= r < NumRows && 0 <= c < NumBlocks ==>
        blockStates[r, c] == Normal && blockX[r, c] == InitialBlock(r, c).x && blockZ[r, c] == InitialBlock(r, c).z
      ensures Blocks() == Initial().blocks
    {
      forall k | 0 <= k < NumCells ensures Blocks()[k] == Initial().blocks[k] {
        BlockAt(k / NumBlocks, k % NumBlocks);
      }
    }

    /** ResetMarble: the marble back at (0, 2, 0) with zero velocity. */
    method ResetMarble()
      requires Valid()
      modifies this
      ensures Model() == Rules.ResetMarble(old(Model()))
    {
      marbleX, marbleY, marbleZ := 0.0, MarbleStartY, 0.0;
      marbleVelocityX := 0.0;
      marbleVelocityZ := 0.0;
    }

    /** CountHitBlocks: the number of DEAD cells; nothing changes. */
    method CountHitBlocks() returns (count: int)
      requires Valid()
      ensures count == DeadCount(Model().blocks)
      ensures 0 <= count <= NumCells
    {
      ghost var bs := Blocks();
      count := 0;
      var row := 0;
      while row < NumRows
        invariant 0 <= row <= NumRows
        invariant count == DeadCount(bs[..row * NumBlocks])
      {
        var i := 0;
        while i < NumBlocks
          invariant 0 <= i <= NumBlocks
          invariant count == DeadCount(bs[..row * NumBlocks + i])
        {
          BlockAt(row, i);
          DeadCountPrefix(bs, row * NumBlocks + i);
          if blockStates[row, i] == Dead {
            count := count + 1;
          }
          i := i + 1;
        }
        row := row + 1;
      }
      assert bs[..NumCells] == bs;
    }

    /** UpdateAiming: Z turns left, else X turns right, clamped to +-60; the
        dummy model turns by the angle's actual change. */
    method UpdateAiming(zHeld: bool, xHeld: bool)
      requires Valid()
      modifies this
      ensures Model() == UpdateAim(old(Model()), zHeld, xHeld)
    {
      var before := dummyRotation;
      if zHeld {
        dummyRotation := dummyRotation - AimRotationSpeed;
        if dummyRotation < -MaxAimAngle {
          dummyRotation := -MaxAimAngle;
        }
        dummyYaw := dummyYaw + (dummyRotation - before);
      } else if xHeld {
        dummyRotation := dummyRotation + AimRotationSpeed;
        if dummyRotation > MaxAimAngle {
          dummyRotation := MaxAimAngle;
        }
        dummyYaw := dummyYaw + (dummyRotation - before);
      }
    }

    /** UpdateBlockPositions without the wobble: every live block moves
        towards the player by BlockMoveSpeed * frameTime. */
    method UpdateBlockPositions(frameTime: real)
      requires Valid()
      modifies this, blockZ
      ensures Model() == DriftBlocks(old(Model()), frameTime)
    {
      var movement := BlockMoveSpeed * frameTime;
      blockMovement := blockMovement + movement;
      wobbleTime := wobbleTime + frameTime;
      DriftGrid(movement);
      assert Blocks() == DriftBlocks(old(Model()), frameTime).blocks;
    }

    /** The grid loop of UpdateBlockPositions: every cell that is not DEAD
        moves movement towards the player. */
    method DriftGrid(movement: real)
      requires Valid()
      modifies blockZ
      ensures forall k :: 0 <= k < NumCells ==> Blocks()[k] == Drift(old(Blocks())[k], movement)
    {
      var row := 0;
      while row < NumRows
        invariant 0 <= row <= NumRows
        invariant forall r, c :: 0 <= r < NumRows && 0 <= c < NumBlocks ==>
          blockZ[r, c] == if r < row && blockStates[r, c] != Dead then old(blockZ[r, c]) - movement
                          else old(blockZ[r, c])
      {
        var i := 0;
        while i < NumBlocks
          invariant 0 <= i <= NumBlocks
          invariant forall r, c :: 0 <= r < NumRows && 0 <= c < NumBlocks ==>
            blockZ[r, c] == if (r < row || (r == row && c < i)) && blockStates[r, c] != Dead
                            then old(blockZ[r, c]) - movement
                            else old(blockZ[r, c])
        {
          if blockStates[row, i] != Dead {
            blockZ[row, i] := blockZ[row, i] - movement;
          }
          i := i + 1;
        }
        row := row + 1;
      }
      forall k | 0 <= k < NumCells ensures Blocks()[k] == Drift(old(Blocks())[k], movement) {
        BlockAt(k / NumBlocks, k % NumBlocks);
        assert k == (k / NumBlocks) * NumBlocks + k % NumBlocks;
      }
    }

    /** CheckBlockCollisions: the first live overlapping cell in row-major
        order is struck; without one nothing changes. */
    method CheckBlockCollisions() returns (hit: bool)
      requires Valid()
      modifies this, blockStates, blockX, blockZ
      ensures (Model(), hit) == CheckBlocks(old(Model()))
    {
      ghost var s := Model();
      var row := 0;
      while row < NumRows
        invariant 0 <= row <= NumRows
        invariant Model() == s
        invariant forall j :: 0 <= j < row * NumBlocks ==> !CanHit(s, j)
      {
        var i := 0;
        while i < NumBlocks
          invariant 0 <= i <= NumBlocks
          invariant Model() == s
          invariant forall j :: 0 <= j < row * NumBlocks + i ==> !CanHit(s, j)
        {
          BlockAt(row, i);
          if blockStates[row, i] != Dead {
            if SphereToBoxCollision(marbleX, marbleZ, blockX[row, i], blockZ[row, i], MarbleRadius) {
              assert CanHit(s, row * NumBlocks + i);
              assert FirstHit(s, 0) == Some(row * NumBlocks + i);
              StrikeBlock(row, i);
              return true;
            }
          }
          i := i + 1;
        }
        row := row + 1;
      }
      return false;
    }

    /** The response to a hit on cell (row, column): the velocity component
        along the larger centre offset is reversed, and the block's damage
        advances. */
    method StrikeBlock(row: int, column: int)
      requires Valid() && 0 <= row < NumRows && 0 <= column < NumBlocks
      modifies this, blockStates, blockX, blockZ
      ensures Model() == HitBlock(old(Model()), row * NumBlocks + column)
    {
      BlockAt(row, column);
      var dx := marbleX - blockX[row, column];
      var dz := marbleZ - blockZ[row, column];
      if Abs(dx) > Abs(dz) {
        marbleVelocityX := -marbleVelocityX;
      } else {
        marbleVelocityZ := -marbleVelocityZ;
      }
      AdvanceDamage(row, column);
    }

    /** The damage step of a hit: NORMAL becomes HIT_ONCE; HIT_ONCE becomes
        DEAD and the block is moved far away; every other cell is untouched. */
    method AdvanceDamage(row: int, column: int)
      requires Valid() && 0 <= row < NumRows && 0 <= column < NumBlocks
      modifies blockStates, blockX, blockZ
      ensures var k := row * NumBlocks + column;
        Blocks() == old(Blocks())[k := Struck(old(Blocks())[k])]
    {
      ghost var k := row * NumBlocks + column;
      BlockAt(row, column);
      match blockStates[row, column] {
        case Normal =>
          blockStates[row, column] := HitOnce;
        case HitOnce =>
          blockX[row, column] := FarAway;
          blockZ[row, column] := FarAway;
          blockStates[row, column] := Dead;
        case Dead =>
      }
      forall j | 0 <= j < NumCells
        ensures Blocks()[j] == old(Blocks())[k := Struck(old(Blocks())[k])][j]
      {
        if j != k {
          assert j / NumBlocks != row || j % NumBlocks != column;
        }
      }
    }

    /** CheckBarrierCollisions: at each index the left barrier, then the
        right one; on the first overlap the X velocity is reversed. */
    method CheckBarrierCollisions() returns (hit: bool)
      requires Valid()
      modifies this
      ensures (Model(), hit) == CheckBarriers(old(Model()))
    {
      ghost var s := Model();
      var i := 0;
      while i < NumBarriers
        invariant 0 <= i <= NumBarriers
        invariant Model() == s
        invariant BarrierHitFrom(s, 0) == BarrierHitFrom(s, i)
      {
        if SphereToBoxCollision(marbleX, marbleZ, leftBarrierX[i], leftBarrierZ[i], MarbleRadius) {
          assert MarbleTouches(s, s.leftBarriers[i].x, s.leftBarriers[i].z);
          marbleVelocityX := -marbleVelocityX;
          return true;
        }
        if SphereToBoxCollision(marbleX, marbleZ, rightBarrierX[i], rightBarrierZ[i], MarbleRadius) {
          assert MarbleTouches(s, s.rightBarriers[i].x, s.rightBarriers[i].z);
          marbleVelocityX := -marbleVelocityX;
          return true;
        }
        i := i + 1;
      }
      return false;
    }

    /** HandleReadyState: aim, drift, and on the fire key take the velocity
        launch gives for the aim angle and start FIRING. */
    method HandleReadyState(zHeld: bool, xHeld: bool, spaceHit: bool, frameTime: real,
                            launch: real -> (real, real))
      requires Valid()
      modifies this, blockZ
      ensures Model() == ReadyStep(old(Model()), zHeld, xHeld, spaceHit, frameTime, launch)
    {
      UpdateAiming(zHeld, xHeld);
      UpdateBlockPositions(frameTime);
      if spaceHit {
        var v := launch(dummyRotation);
        marbleVelocityX := v.0;
        marbleVelocityZ := v.1;
        currentState := Firing;
      }
    }

    /** HandleFiringState: aim, drift, move the marble, then the exits in
        order: overshoot, return to the front, block or barrier contact. */
    method HandleFiringState(zHeld: bool, xHeld: bool, frameTime: real)
      requires Valid()
      modifies this, blockStates, blockX, blockZ
      ensures Model() == FiringStep(old(Model()), zHeld, xHeld, frameTime)
    {
      ghost var s := Model();
      UpdateAiming(zHeld, xHeld);
      UpdateBlockPositions(frameTime);
      ghost var d := Model();
      assert d == DriftBlocks(UpdateAim(s, zHeld, xHeld), frameTime);
      marbleX := marbleX + marbleVelocityX;
      marbleZ := marbleZ + marbleVelocityZ;
      assert Blocks() == d.blocks;
      assert Model() == d.(marbleX := d.marbleX + d.velocityX, marbleZ := d.marbleZ + d.velocityZ);
      assert Model() == Advance(s, zHeld, xHeld, frameTime);
      ResolveFiring();
    }

    /** The exit tests of HandleFiringState after the marble has moved. */
    method ResolveFiring()
      requires Valid()
      modifies this, blockStates, blockX, blockZ
      ensures Model() == FiringOutcome(old(Model()))
    {
      if marbleZ > BackLimit {
        ResetMarble();
        currentState := Ready;
        return;
      }
      if marbleZ < 0.0 {
        ResetMarble();
        currentState := Ready;
        return;
      }
      ResolveContact();
    }

    /** The collision checks of HandleFiringState: blocks first, then (only
        without a block hit) the barriers; any contact switches to CONTACT. */
    method ResolveContact()
      requires Valid()
      modifies this, blockStates, blockX, blockZ
      ensures var r := Collide(old(Model()));
        Model() == if r.1 then r.0.(state := Contact) else r.0
    {
      ghost var m := Model();
      var collisionDetected := CheckBlockCollisions();
      if !collisionDetected {
        collisionDetected := CheckBarrierCollisions();
      }
      assert (Model(), collisionDetected) == Collide(m);
      if collisionDetected {
        currentState := Contact;
      }
    }

    /** HandleContactState: OVER once all cells are DEAD, else FIRING. */
    method HandleContactState()
      requires Valid()
      modifies this
      ensures Model() == ContactStep(old(Model()))
    {
      var hitCount := CountHitBlocks();
      if hitCount >= NumCells {
        currentState := Over;
      } else {
        currentState := Firing;
      }
    }

    /** One pass of the main loop's state dispatch. */
    method RunFrame(input: Input)
      requires Valid()
      modifies this, blockStates, blockX, blockZ
      ensures Model() == FrameStep(old(Model()), input)
    {
      match currentState {
        case Ready =>
          HandleReadyState(input.zHeld, input.xHeld, input.spaceHit, input.frameTime, input.launch);
        case Firing =>
          HandleFiringState(input.zHeld, input.xHeld, input.frameTime);
        case Contact =>
          HandleContactState();
        case Over =>
      }
    }
  }
}
