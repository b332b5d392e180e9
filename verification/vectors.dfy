/**
 This module provides the 3-vector and quaternion values the physics core
 computes with. Components are `real`: single-precision rounding of the
 engine is not modelled.
 */
module Vectors {

  /** A 3-vector, as used for positions, velocities, accelerations, forces and torques. */
  datatype Vec3 = Vec3(x: real, y: real, z: real)

  /** A rotation quaternion. Orientation integration is kept abstract, so no
      operation on quaternions is defined here. */
  datatype Quat = Quat(w: real, x: real, y: real, z: real)

  const Zero: Vec3 := Vec3(0.0, 0.0, 0.0)

  function Add(a: Vec3, b: Vec3): Vec3 {
    Vec3(a.x + b.x, a.y + b.y, a.z + b.z)
  }

  function Sub(a: Vec3, b: Vec3): Vec3 {
    Vec3(a.x - b.x, a.y - b.y, a.z - b.z)
  }

  function Scale(v: Vec3, k: real): Vec3 {
    Vec3(v.x * k, v.y * k, v.z * k)
  }

  function Dot(a: Vec3, b: Vec3): real {
    a.x * b.x + a.y * b.y + a.z * b.z
  }

  function Cross(a: Vec3, b: Vec3): Vec3 {
    Vec3(a.y * b.z - a.z * b.y, a.z * b.x - a.x * b.z, a.x * b.y - a.y * b.x)
  }

  /** Squared Euclidean length; comparing it with t*t is comparing the length with t. */
  function LengthSq(v: Vec3): real {
    v.x * v.x + v.y * v.y + v.z * v.z
  }

  lemma LengthSqNonNegative(v: Vec3)
    ensures LengthSq(v) >= 0.0
  {
    SquareNonNegative(v.x);
    SquareNonNegative(v.y);
    SquareNonNegative(v.z);
  }

  lemma SquareNonNegative(a: real)
    ensures a * a >= 0.0
  {
    if a < 0.0 { assert a * a == (-a) * (-a); }
  }

  lemma ProductPositive(a: real, b: real)
    requires a > 0.0 && b > 0.0
    ensures a * b > 0.0
  {
  }

  lemma NonNegativeProduct(a: real, b: real)
    requires a >= 0.0 && b >= 0.0
    ensures a * b >= 0.0
  {
    if a > 0.0 && b > 0.0 { ProductPositive(a, b); }
  }

  /** Scaling a vector scales its squared length by the square of the factor. */
  lemma ScaleLengthSq(v: Vec3, k: real)
    ensures LengthSq(Scale(v, k)) == k * k * LengthSq(v)
  {
    calc {
      LengthSq(Scale(v, k));
      (v.x * k) * (v.x * k) + (v.y * k) * (v.y * k) + (v.z * k) * (v.z * k);
      { assert (v.x * k) * (v.x * k) == k * k * (v.x * v.x);
        assert (v.y * k) * (v.y * k) == k * k * (v.y * v.y);
        assert (v.z * k) * (v.z * k) == k * k * (v.z * v.z); }
      k * k * (v.x * v.x) + k * k * (v.y * v.y) + k * k * (v.z * v.z);
      k * k * LengthSq(v);
    }
  }

  /** A factor of magnitude at most one never lengthens a vector. */
  lemma ScaleShrinks(v: Vec3, k: real)
    requires -1.0 <= k <= 1.0
    ensures LengthSq(Scale(v, k)) <= LengthSq(v)
  {
    ScaleLengthSq(v, k);
    var l := LengthSq(v);
    var kk := k * k;
    assert kk <= 1.0 by {
      if k >= 0.0 { assert k * k <= k * 1.0; } else { assert k * k == (-k) * (-k); assert (-k) * (-k) <= (-k) * 1.0; }
    }
    LengthSqNonNegative(v);
    assert kk * l <= 1.0 * l by {
      NonNegativeProduct(1.0 - kk, l);
    }
  }

  /** The cross product is perpendicular to both of its operands. */
  lemma CrossPerpendicular(a: Vec3, b: Vec3)
    ensures Dot(Cross(a, b), a) == 0.0
    ensures Dot(Cross(a, b), b) == 0.0
  {
  }

  /** A vector crossed with a multiple of itself yields the zero vector. */
  lemma CrossParallel(a: Vec3, k: real)
    ensures Cross(Scale(a, k), a) == Zero
    ensures Cross(a, Scale(a, k)) == Zero
  {
  }
}
