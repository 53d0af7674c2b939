/** Convex shapes given by membership: the closed disk (`Wheel`). */
module ConvexShapes {
  import opened Basics
  import opened Geometry

  /** A wheel stores its center and the square of the radius it was built with. */
  datatype Wheel = Wheel(center: Vec, radiusSq: real)

  /** `Wheel(in_center, in_radius)`: only the square of the radius is kept. */
  function MakeWheel(center: Vec, radius: real): (w: Wheel)
    ensures w.center == center && w.radiusSq == radius * radius
  {
    Wheel(center, radius * radius)
  }

  /** `Wheel.__contains__`: the squared distance from the center is at most
      the stored square. `ContainsIsClosedDisk` states what this means. */
  predicate Contains(w: Wheel, p: Vec)
  {
    NormSq(Sub(p, w.center)) <= w.radiusSq
  }

  /** Every member lies in the axis-aligned square around the center. */
  lemma MemberInBoundingSquare(w: Wheel, p: Vec)
    requires Contains(w, p)
    ensures (p.x - w.center.x) * (p.x - w.center.x) <= w.radiusSq
    ensures (p.y - w.center.y) * (p.y - w.center.y) <= w.radiusSq
  {
    SquareNonNegative(p.x - w.center.x);
    SquareNonNegative(p.y - w.center.y);
  }

  /** The wheel as a membership predicate. */
  function Inside(w: Wheel): Vec -> bool
  {
    p => Contains(w, p)
  }

  /** Membership is exactly the closed disk: distance to the center at most |radius|. */
  lemma ContainsIsClosedDisk(m: Analytic, center: Vec, radius: real, p: Vec)
    requires Lawful(m)
    ensures Contains(MakeWheel(center, radius), p) <==> Dist(m, center, p) <= Abs(radius)
  {
    var v := Sub(p, center);
    var d := Dist(m, center, p);
    NormNonNegative(m, v);
    var a := Abs(radius);
    assert a * a == radius * radius;
    SquaresOrdered(d, a);
  }

  /** For non-negative reals, comparing squares compares the numbers. */
  lemma SquaresOrdered(x: real, y: real)
    requires 0.0 <= x && 0.0 <= y
    ensures x * x <= y * y <==> x <= y
  {
    if x <= y {
      assert x * x <= x * y <= y * y;
    } else {
      SquareStrictlyMonotone(y, x);
    }
  }

  /** Only the square of the radius is stored, so a negative radius gives the same wheel. */
  lemma NegatedRadius(center: Vec, radius: real)
    ensures MakeWheel(center, -radius) == MakeWheel(center, radius)
  {
  }

  /** The center belongs to every wheel. */
  lemma CenterInside(center: Vec, radius: real)
    ensures Contains(MakeWheel(center, radius), center)
  {
    assert NormSq(Sub(center, center)) == 0.0;
    SquareNonNegative(radius);
  }

  /** Boundary and outside points of the unit wheel, and the center of another wheel. */
  lemma WheelExamples()
    ensures Contains(MakeWheel(Origin, 1.0), Vec(1.0, 0.0))
    ensures Contains(MakeWheel(Origin, 1.0), Vec(0.0, 1.0))
    ensures Contains(MakeWheel(Vec(4.0, 3.0), 1.0), Vec(4.0, 3.0))
    ensures !Contains(MakeWheel(Origin, 1.0), Vec(1.1, 0.0))
    ensures !Contains(MakeWheel(Origin, 1.0), Vec(0.0, -1.1))
  {
  }

  /** (1 - t) x + t y squared is at most (1 - t) x^2 + t y^2 for t in [0, 1]. */
  lemma SquareConvex(x: real, y: real, t: real)
    requires 0.0 <= t <= 1.0
    ensures ((1.0 - t) * x + t * y) * ((1.0 - t) * x + t * y) <= (1.0 - t) * (x * x) + t * (y * y)
  {
    var s := 1.0 - t;
    calc {
      (s * (x * x) + t * (y * y)) - (s * x + t * y) * (s * x + t * y);
    ==
      s * (x * x) * (1.0 - s) + t * (y * y) * (1.0 - t) - 2.0 * s * t * x * y;
    ==
      s * t * ((x - y) * (x - y));
    }
    assert 0.0 <= (x - y) * (x - y);
    assert 0.0 <= s * t;
    ProductNonNegative(s * t, (x - y) * (x - y));
  }

  lemma ProductNonNegative(a: real, b: real)
    requires 0.0 <= a && 0.0 <= b
    ensures 0.0 <= a * b
  {
  }

  /** Every point of the segment between two members is a member: the wheel is convex. */
  lemma WheelConvex(w: Wheel, a: Vec, b: Vec, t: real)
    requires Contains(w, a) && Contains(w, b) && 0.0 <= t <= 1.0
    ensures Contains(w, Lerp(a, b, t))
  {
    var u := Sub(a, w.center);
    var v := Sub(b, w.center);
    var q := Sub(Lerp(a, b, t), w.center);
    LerpOffset(a, b, w.center, t);
    CombinationBelow(u.x, u.y, v.x, v.y, t, q.x, q.y);
    WeightedBelow(NormSq(u), NormSq(v), NormSq(q), w.radiusSq, t);
  }

  /** Seen from c, the point at t of the segment is the same combination of the offsets. */
  lemma LerpOffset(a: Vec, b: Vec, c: Vec, t: real)
    ensures Sub(Lerp(a, b, t), c).x == (1.0 - t) * Sub(a, c).x + t * Sub(b, c).x
    ensures Sub(Lerp(a, b, t), c).y == (1.0 - t) * Sub(a, c).y + t * Sub(b, c).y
  {
  }

  lemma CombinationBelow(ux: real, uy: real, vx: real, vy: real, t: real, qx: real, qy: real)
    requires 0.0 <= t <= 1.0
    requires qx == (1.0 - t) * ux + t * vx && qy == (1.0 - t) * uy + t * vy
    ensures qx * qx + qy * qy <= (1.0 - t) * (ux * ux + uy * uy) + t * (vx * vx + vy * vy)
  {
    SquareConvex(ux, vx, t);
    SquareConvex(uy, vy, t);
  }

  /** Below a convex combination of two values at most r is below r. */
  lemma WeightedBelow(x: real, y: real, z: real, r: real, t: real)
    requires x <= r && y <= r && 0.0 <= t <= 1.0 && z <= (1.0 - t) * x + t * y
    ensures z <= r
  {
    ProductNonNegative(1.0 - t, r - x);
    ProductNonNegative(t, r - y);
  }

  /** The midpoint of two members is a member. */
  lemma MidpointInside(w: Wheel, a: Vec, b: Vec)
    requires Contains(w, a) && Contains(w, b)
    ensures Contains(w, Mid(a, b))
  {
    WheelConvex(w, a, b, 0.5);
    assert Lerp(a, b, 0.5) == Mid(a, b);
  }
}
