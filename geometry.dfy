/** The sphere-versus-box overlap test of Killer Quebes, in the horizontal X/Z
    plane (the vertical axis plays no part in collisions). Every box, block or
    barrier alike, is a square of side BoxWidth centred on its model's position. */
module Geometry {

  /** Side of every collision box; barriers reuse the block width. */
  const BoxWidth: real := 10.0
  const BoxHalfExtent: real := BoxWidth / 2.0

  function Abs(x: real): (r: real)
    ensures r >= 0.0 && (r == x || r == -x)
  {
    if x < 0.0 then -x else x
  }

  function Square(x: real): (r: real)
    ensures r >= 0.0
  {
    x * x
  }

  /** v lies in the box's extent [center - 5, center + 5] on one axis. */
  predicate WithinExtent(v: real, center: real)
  {
    center - BoxHalfExtent <= v <= center + BoxHalfExtent
  }

  predicate InsideBox(px: real, pz: real, boxX: real, boxZ: real)
  {
    WithinExtent(px, boxX) && WithinExtent(pz, boxZ)
  }

  /** The sphere centre's coordinate clamped onto the box's extent on one axis. */
  function ClosestOnAxis(v: real, center: real): (c: real)
    ensures WithinExtent(c, center)
    ensures WithinExtent(v, center) ==> c == v
  {
    if v < center - BoxHalfExtent then center - BoxHalfExtent
    else if v > center + BoxHalfExtent then center + BoxHalfExtent
    else v
  }

  /** Squared distance from the sphere centre to the clamped closest point. */
  function DistanceSqToBox(sx: real, sz: real, boxX: real, boxZ: real): (d: real)
    ensures d >= 0.0
    ensures d == 0.0 <==> InsideBox(sx, sz, boxX, boxZ)
  {
    var dx := sx - ClosestOnAxis(sx, boxX);
    var dz := sz - ClosestOnAxis(sz, boxZ);
    ZeroSquareSum(dx, dz);
    Square(dx) + Square(dz)
  }

  /** SphereToBoxCollision: the sphere of radius r centred at (sx, sz) overlaps
      the box centred at (boxX, boxZ). The comparison is strict. */
  function SphereToBoxCollision(sx: real, sz: real, boxX: real, boxZ: real, r: real): (hit: bool)
    ensures InsideBox(sx, sz, boxX, boxZ) && r != 0.0 ==> hit
    ensures hit ==> r != 0.0
  {
    SquarePositive(r);
    DistanceSqToBox(sx, sz, boxX, boxZ) < Square(r)
  }

  /** Reference meaning of an overlap: some point of the box lies strictly
      closer than r to the sphere centre. */
  ghost predicate Overlaps(sx: real, sz: real, boxX: real, boxZ: real, r: real)
  {
    exists px, pz :: InsideBox(px, pz, boxX, boxZ) && Square(sx - px) + Square(sz - pz) < Square(r)
  }

  lemma ProductPositive(a: real, b: real)
    requires a > 0.0 && b > 0.0
    ensures a * b > 0.0
  {
  }

  /** A non-zero number has a positive square. */
  lemma SquarePositive(a: real)
    ensures a != 0.0 ==> Square(a) > 0.0
  {
    if a > 0.0 {
      calc {
        Square(a);
        a * a;
        > { ProductPositive(a, a); }
        0.0;
      }
    } else if a < 0.0 {
      calc {
        Square(a);
        (-a) * (-a);
        > { ProductPositive(-a, -a); }
        0.0;
      }
    }
  }

  lemma ZeroSquareSum(a: real, b: real)
    ensures Square(a) + Square(b) == 0.0 <==> a == 0.0 && b == 0.0
  {
    SquarePositive(a);
    SquarePositive(b);
  }

  lemma SquareMonotone(a: real, b: real)
    requires 0.0 <= a <= b
    ensures Square(a) <= Square(b)
  {
    calc {
      Square(a);
      a * a;
      <= a * b;
      <= b * b;
      Square(b);
    }
  }

  lemma SquareStrictMonotone(a: real, b: real)
    requires 0.0 <= a < b
    ensures Square(a) < Square(b)
  {
    calc {
      Square(a);
      a * a;
      <= a * b;
      < { ProductPositive(b - a, b); }
      b * b;
      Square(b);
    }
  }

  /** On one axis no point of the box's extent is closer to v than the clamped one. */
  lemma ClosestIsNearest(v: real, center: real, p: real)
    requires WithinExtent(p, center)
    ensures Square(v - ClosestOnAxis(v, center)) <= Square(v - p)
  {
    var c := ClosestOnAxis(v, center);
    if v < center - BoxHalfExtent {
      SquareMonotone(c - v, p - v);
      assert Square(v - c) == Square(c - v);
      assert Square(v - p) == Square(p - v);
    } else if v > center + BoxHalfExtent {
      SquareMonotone(v - c, v - p);
    } else {
      assert v - c == 0.0;
    }
  }

  /** The clamp-and-compare test is exactly the geometric overlap. */
  lemma CollisionIsOverlap(sx: real, sz: real, boxX: real, boxZ: real, r: real)
    ensures SphereToBoxCollision(sx, sz, boxX, boxZ, r) <==> Overlaps(sx, sz, boxX, boxZ, r)
  {
    var cx, cz := ClosestOnAxis(sx, boxX), ClosestOnAxis(sz, boxZ);
    if SphereToBoxCollision(sx, sz, boxX, boxZ, r) {
      assert InsideBox(cx, cz, boxX, boxZ);
    }
    if Overlaps(sx, sz, boxX, boxZ, r) {
      var px, pz :| InsideBox(px, pz, boxX, boxZ) && Square(sx - px) + Square(sz - pz) < Square(r);
      ClosestIsNearest(sx, boxX, px);
      ClosestIsNearest(sz, boxZ, pz);
    }
  }

  /** A sphere on the centre line of a box's +X face, gap away from it,
      collides exactly when gap < r: one that just touches the face (or is
      further away) does not collide; every sphere pushed in closer does. */
  lemma TouchingIsNotColliding(boxX: real, boxZ: real, r: real, gap: real)
    requires r > 0.0
    requires 0.0 <= gap
    ensures SphereToBoxCollision(boxX + BoxHalfExtent + gap, boxZ, boxX, boxZ, r) <==> gap < r
  {
    var sx := boxX + BoxHalfExtent + gap;
    assert ClosestOnAxis(sx, boxX) == boxX + BoxHalfExtent;
    assert ClosestOnAxis(boxZ, boxZ) == boxZ;
    assert DistanceSqToBox(sx, boxZ, boxX, boxZ) == Square(gap) + Square(0.0);
    assert Square(0.0) == 0.0;
    if gap < r {
      SquareStrictMonotone(gap, r);
    } else {
      SquareMonotone(r, gap);
    }
  }
}
