/** Points of the plane, vector arithmetic, and the three transcendental
    functions the curves need. The source computes cos, sin and the Euclidean
    norm with numpy; here they are the fields of an `Analytic` value that every
    operation receives, and `Lawful` lists the identities the proofs rely on. */
module Geometry {
  import opened Basics

  datatype Vec = Vec(x: real, y: real)

  const Origin: Vec := Vec(0.0, 0.0)

  function Add(a: Vec, b: Vec): Vec { Vec(a.x + b.x, a.y + b.y) }

  function Sub(a: Vec, b: Vec): Vec { Vec(a.x - b.x, a.y - b.y) }

  function Scale(k: real, a: Vec): Vec { Vec(k * a.x, k * a.y) }

  function Dot(a: Vec, b: Vec): real { a.x * b.x + a.y * b.y }

  /** `norm_sq` of convex_shapes.py: the squared Euclidean norm. */
  function NormSq(a: Vec): real { Dot(a, a) }

  /** `(pos_a + pos_b) / 2`. */
  function Mid(a: Vec, b: Vec): Vec { Vec((a.x + b.x) / 2.0, (a.y + b.y) / 2.0) }

  /** The point at parameter t on the segment from p (t = 0) to q (t = 1). */
  function Lerp(p: Vec, q: Vec, t: real): Vec { Add(p, Scale(t, Sub(q, p))) }

  /** cos, sin and sqrt as the numerics library provides them, and the angle
      `quarter` that stands for radians(90). */
  datatype Analytic = Analytic(cos: real -> real, sin: real -> real, sqrt: real -> real, quarter: real)

  /** Addition and the identity written as functions, so that the laws below
      are instantiated only where a proof mentions `Plus` or `Arg` explicitly. */
  function Plus(a: real, b: real): real { a + b }
  function Arg(a: real): real { a }

  ghost predicate Lawful(m: Analytic)
  {
    && m.cos(0.0) == 1.0 && m.sin(0.0) == 0.0
    && 0.0 < m.quarter && m.cos(m.quarter) == 0.0 && m.sin(m.quarter) == 1.0
    && (forall a {:trigger Arg(a)} :: m.cos(Arg(a)) * m.cos(a) + m.sin(a) * m.sin(a) == 1.0)
    && (forall a, b {:trigger Plus(a, b)} ::
          m.cos(Plus(a, b)) == m.cos(a) * m.cos(b) - m.sin(a) * m.sin(b))
    && (forall a, b {:trigger Plus(a, b)} ::
          m.sin(Plus(a, b)) == m.sin(a) * m.cos(b) + m.cos(a) * m.sin(b))
    && (forall v {:trigger Arg(v)} :: 0.0 <= Arg(v) ==> 0.0 <= m.sqrt(v) && m.sqrt(v) * m.sqrt(v) == v)
  }

  /** The unit vector at heading h: (cos h, sin h). */
  function Dir(m: Analytic, h: real): Vec { Vec(m.cos(h), m.sin(h)) }

  /** `numpy.linalg.norm` of a 2-vector. */
  function Norm(m: Analytic, v: Vec): real { m.sqrt(NormSq(v)) }

  /** Euclidean distance from a to b. */
  function Dist(m: Analytic, a: Vec, b: Vec): real { Norm(m, Sub(b, a)) }

  lemma Pythagoras(m: Analytic, a: real)
    requires Lawful(m)
    ensures m.cos(a) * m.cos(a) + m.sin(a) * m.sin(a) == 1.0
  {
    assert m.cos(Arg(a)) * m.cos(a) + m.sin(a) * m.sin(a) == 1.0;
  }

  lemma SqrtLaw(m: Analytic, v: real)
    requires Lawful(m) && 0.0 <= v
    ensures 0.0 <= m.sqrt(v) && m.sqrt(v) * m.sqrt(v) == v
  {
    assert 0.0 <= Arg(v);
  }

  lemma CosAdd(m: Analytic, a: real, b: real)
    requires Lawful(m)
    ensures m.cos(a + b) == m.cos(a) * m.cos(b) - m.sin(a) * m.sin(b)
  {
    assert m.cos(Plus(a, b)) == m.cos(a) * m.cos(b) - m.sin(a) * m.sin(b);
  }

  lemma SinAdd(m: Analytic, a: real, b: real)
    requires Lawful(m)
    ensures m.sin(a + b) == m.sin(a) * m.cos(b) + m.cos(a) * m.sin(b)
  {
    assert m.sin(Plus(a, b)) == m.sin(a) * m.cos(b) + m.cos(a) * m.sin(b);
  }

  /** Values at the multiples of a right angle, from the addition theorems. */
  lemma RightAngles(m: Analytic)
    requires Lawful(m)
    ensures m.cos(2.0 * m.quarter) == -1.0 && m.sin(2.0 * m.quarter) == 0.0
    ensures m.cos(3.0 * m.quarter) == 0.0 && m.sin(3.0 * m.quarter) == -1.0
    ensures m.cos(4.0 * m.quarter) == 1.0 && m.sin(4.0 * m.quarter) == 0.0
  {
    var q := m.quarter;
    CosAdd(m, q, q);
    SinAdd(m, q, q);
    assert q + q == 2.0 * q;
    CosAdd(m, 2.0 * q, q);
    SinAdd(m, 2.0 * q, q);
    assert 2.0 * q + q == 3.0 * q;
    CosAdd(m, 2.0 * q, 2.0 * q);
    SinAdd(m, 2.0 * q, 2.0 * q);
    assert 2.0 * q + 2.0 * q == 4.0 * q;
  }

  /** A non-negative square root is unique. */
  lemma RootUnique(a: real, b: real)
    requires 0.0 <= a && 0.0 <= b && a * a == b * b
    ensures a == b
  {
    if a < b {
      SquareStrictlyMonotone(a, b);
    } else if b < a {
      SquareStrictlyMonotone(b, a);
    }
  }

  lemma SquareStrictlyMonotone(a: real, b: real)
    requires 0.0 <= a < b
    ensures a * a < b * b
  {
    calc {
      a * a;
    <= a * b;
    <  b * b;
    }
  }

  lemma SquareNonNegative(a: real)
    ensures 0.0 <= a * a
  {
    if a < 0.0 {
      assert a * a == (-a) * (-a);
      SquareStrictlyMonotone(0.0, -a);
    } else if 0.0 < a {
      SquareStrictlyMonotone(0.0, a);
    }
  }

  lemma SqrtOfSquare(m: Analytic, a: real)
    requires Lawful(m) && 0.0 <= a
    ensures m.sqrt(a * a) == a
  {
    assert 0.0 <= a * a;
    SqrtLaw(m, a * a);
    RootUnique(m.sqrt(a * a), a);
  }

  lemma NormNonNegative(m: Analytic, v: Vec)
    requires Lawful(m)
    ensures 0.0 <= Norm(m, v)
    ensures Norm(m, v) * Norm(m, v) == NormSq(v)
  {
    assert 0.0 <= NormSq(v);
    SqrtLaw(m, NormSq(v));
  }

  lemma NormPositive(m: Analytic, v: Vec)
    requires Lawful(m) && v != Origin
    ensures 0.0 < Norm(m, v)
  {
    NormNonNegative(m, v);
    calc {
      NormSq(v);
    ==
      v.x * v.x + v.y * v.y;
    >  { SumSquaresPositive(v.x, v.y); }
      0.0;
    }
    RootOfPositive(Norm(m, v), NormSq(v));
  }

  lemma RootOfPositive(s: real, v: real)
    requires 0.0 <= s && s * s == v && 0.0 < v
    ensures 0.0 < s
  {
    ZeroSquared(s);
  }

  lemma ZeroSquared(s: real)
    ensures s == 0.0 ==> s * s == 0.0
  {
  }

  lemma SumSquaresPositive(a: real, b: real)
    requires a != 0.0 || b != 0.0
    ensures 0.0 < a * a + b * b
  {
    if a != 0.0 {
      assert 0.0 < a * a;
      assert 0.0 <= b * b;
    } else {
      assert 0.0 < b * b;
    }
  }

  lemma NormScale(m: Analytic, t: real, v: Vec)
    requires Lawful(m) && 0.0 <= t
    ensures Norm(m, Scale(t, v)) == t * Norm(m, v)
  {
    NormNonNegative(m, v);
    NormNonNegative(m, Scale(t, v));
    var n := Norm(m, v);
    assert NormSq(Scale(t, v)) == t * t * NormSq(v);
    assert (t * n) * (t * n) == t * t * (n * n);
    RootUnique(Norm(m, Scale(t, v)), t * n);
  }

  /** e is the fraction t of d, and lies strictly between 0 and d. */
  predicate FractionOf(e: real, t: real, d: real)
  {
    e == t * d && 0.0 < e < d
  }

  /** Scaling a non-zero vector by t in (0, 1) gives a strictly shorter, non-zero vector. */
  lemma NormScaledBetween(m: Analytic, t: real, v: Vec)
    requires Lawful(m) && 0.0 < t < 1.0 && v != Origin
    ensures FractionOf(Norm(m, Scale(t, v)), t, Norm(m, v))
  {
    NormScale(m, t, v);
    NormPositive(m, v);
    ScaledBetween(Norm(m, Scale(t, v)), t, Norm(m, v));
  }

  lemma ScaledBetween(e: real, t: real, d: real)
    requires e == t * d && 0.0 < t < 1.0 && 0.0 < d
    ensures 0.0 < e < d
  {
    calc {
      d - e;
    ==
      (1.0 - t) * d;
    >  { ProductPositive(1.0 - t, d); }
      0.0;
    }
    ProductPositive(t, d);
    assert d - t * d == (1.0 - t) * d;
    ProductPositive(1.0 - t, d);
  }

  lemma ProductPositive(a: real, b: real)
    requires 0.0 < a && 0.0 < b
    ensures 0.0 < a * b
  {
  }

  /** A step of length s >= 0 along any heading has length s. */
  lemma NormOfStep(m: Analytic, s: real, h: real)
    requires Lawful(m) && 0.0 <= s
    ensures Norm(m, Scale(s, Dir(m, h))) == s
  {
    Pythagoras(m, h);
    assert NormSq(Dir(m, h)) == 1.0;
    SqrtOfSquare(m, 1.0);
    NormScale(m, s, Dir(m, h));
  }

  lemma MidOfLerp(p: Vec, q: Vec, ta: real, tb: real)
    ensures Mid(Lerp(p, q, ta), Lerp(p, q, tb)) == Lerp(p, q, (ta + tb) / 2.0)
  {
  }

  lemma LerpEnds(p: Vec, q: Vec)
    ensures Lerp(p, q, 0.0) == p && Lerp(p, q, 1.0) == q
  {
  }
}
