/** Plane rotations: the rotation matrix of an angle and the rotation of a
    2-vector, with cos and sin those of an `Analytic`. */
module Rotations {
  import opened Geometry

  /** A 2x2 matrix, rows (a, b) and (c, d). */
  datatype Mat2 = Mat2(a: real, b: real, c: real, d: real)

  function Identity(): Mat2 { Mat2(1.0, 0.0, 0.0, 1.0) }

  function Det(x: Mat2): real { x.a * x.d - x.b * x.c }

  /** The matrix product x @ y. */
  function Mul(x: Mat2, y: Mat2): Mat2
  {
    Mat2(x.a * y.a + x.b * y.c, x.a * y.b + x.b * y.d,
         x.c * y.a + x.d * y.c, x.c * y.b + x.d * y.d)
  }

  /** `calculate_rotation_matrix_2d(in_angle)`. */
  function RotationMatrix(m: Analytic, angle: real): (r: Mat2)
    ensures r.a == r.d && r.b == -r.c
  {
    Mat2(m.cos(angle), -m.sin(angle), m.sin(angle), m.cos(angle))
  }

  /** Rotation by 0 is the identity. */
  lemma ZeroRotationIsIdentity(m: Analytic)
    requires Lawful(m)
    ensures RotationMatrix(m, 0.0) == Identity()
  {
  }

  /** Every rotation matrix has determinant 1. */
  lemma RotationDeterminant(m: Analytic, angle: real)
    requires Lawful(m)
    ensures Det(RotationMatrix(m, angle)) == 1.0
  {
    Pythagoras(m, angle);
  }

  /** Rotations compose by adding their angles. */
  lemma CompositionOfRotations(m: Analytic, x: real, y: real)
    requires Lawful(m)
    ensures Mul(RotationMatrix(m, x), RotationMatrix(m, y)) == RotationMatrix(m, x + y)
  {
    CosAdd(m, x, y);
    SinAdd(m, x, y);
  }

  /** A full turn (four right angles) changes no rotation: R(-a) = R(2 pi - a). */
  lemma RotateByNegativeAngle(m: Analytic, x: real)
    requires Lawful(m)
    ensures RotationMatrix(m, -x) == RotationMatrix(m, 4.0 * m.quarter - x)
  {
    RightAngles(m);
    CosAdd(m, -x, 4.0 * m.quarter);
    SinAdd(m, -x, 4.0 * m.quarter);
    assert -x + 4.0 * m.quarter == 4.0 * m.quarter - x;
  }

  /** Rotation by 90 degrees is [[0, -1], [1, 0]]. */
  lemma RightAngleMatrix(m: Analytic)
    requires Lawful(m)
    ensures RotationMatrix(m, m.quarter) == Mat2(0.0, -1.0, 1.0, 0.0)
  {
  }

  /** `rotate_2d(in_vec, in_angle)`: the matrix applied to a vector of length 2
      (the function asserts the length). The result is as long as the input. */
  function Rotate2d(m: Analytic, v: seq<real>, angle: real): (r: seq<real>)
    requires Lawful(m) && |v| == 2
    ensures |r| == 2
    ensures r[0] * r[0] + r[1] * r[1] == v[0] * v[0] + v[1] * v[1]
  {
    var x := RotationMatrix(m, angle);
    var r := [x.a * v[0] + x.b * v[1], x.c * v[0] + x.d * v[1]];
    Pythagoras(m, angle);
    RotationKeepsLength(m.cos(angle), m.sin(angle), v[0], v[1]);
    r
  }

  lemma RotationKeepsLength(c: real, s: real, p: real, q: real)
    requires c * c + s * s == 1.0
    ensures (c * p + -s * q) * (c * p + -s * q) + (s * p + c * q) * (s * p + c * q) == p * p + q * q
  {
    var lhs := (c * p + -s * q) * (c * p + -s * q) + (s * p + c * q) * (s * p + c * q);
    assert lhs == (c * c + s * s) * (p * p + q * q);
  }

  /** Rotating [1, 0] by 90 degrees gives [0, 1]. */
  lemma RotateUnitX(m: Analytic)
    requires Lawful(m)
    ensures Rotate2d(m, [1.0, 0.0], m.quarter) == [0.0, 1.0]
  {
  }

  /** Rotating back by the opposite angle restores the vector. */
  lemma RotateBack(m: Analytic, v: seq<real>, angle: real)
    requires Lawful(m) && |v| == 2
    ensures Rotate2d(m, Rotate2d(m, v, angle), -angle) == v
  {
    var c, s := m.cos(angle), m.sin(angle);
    CosAdd(m, angle, -angle);
    SinAdd(m, angle, -angle);
    CosAdd(m, -angle, angle);
    Pythagoras(m, angle);
    assert angle + -angle == 0.0 && -angle + angle == 0.0;
    var w := Rotate2d(m, v, angle);
    var cn, sn := m.cos(-angle), m.sin(-angle);
    NegatedTrig(m, angle);
    assert cn == c && sn == -s;
    var u := Rotate2d(m, w, -angle);
    assert u[0] == c * (c * v[0] - s * v[1]) + s * (s * v[0] + c * v[1]);
    assert u[0] == (c * c + s * s) * v[0];
    assert u[1] == -s * (c * v[0] - s * v[1]) + c * (s * v[0] + c * v[1]);
    assert u[1] == (c * c + s * s) * v[1];
    assert c * c + s * s == 1.0;
    assert u[0] == v[0] && u[1] == v[1];
    assert u == v;
  }

  /** cos is even and sin is odd. */
  lemma NegatedTrig(m: Analytic, x: real)
    requires Lawful(m)
    ensures m.cos(-x) == m.cos(x) && m.sin(-x) == -m.sin(x)
  {
    var c, s := m.cos(x), m.sin(x);
    var cn, sn := m.cos(-x), m.sin(-x);
    CosAdd(m, x, -x);
    SinAdd(m, x, -x);
    Pythagoras(m, x);
    assert x + -x == 0.0;
    // c cn - s sn == 1 and s cn + c sn == 0 determine (cn, sn) as (c, -s).
    assert c * cn - s * sn == 1.0;
    assert s * cn + c * sn == 0.0;
    assert cn == c * (c * cn - s * sn) + s * (s * cn + c * sn) by {
      assert c * (c * cn - s * sn) + s * (s * cn + c * sn) == (c * c + s * s) * cn;
    }
    assert sn == c * (s * cn + c * sn) - s * (c * cn - s * sn) by {
      assert c * (s * cn + c * sn) - s * (c * cn - s * sn) == (c * c + s * s) * sn;
    }
  }
}
