/** Escape of a straight curve from a disk centred at its start: the escape
    length is the radius, up to the bisection's resolution. This is the
    situation of `test_with_wheel_and_line` (a single-segment curve from the
    origin, extended straight) and of the all-zero angle data of the
    evaluator and cost-function tests (equal steps along the x axis). */
module RayEscape {
  import opened Basics
  import opened Geometry
  import opened Extendable
  import opened Escape
  import opened ConvexShapes
  import opened Curves

  /** The points are 0 u, 1 u, 2 u, ...: equal steps u from the origin. */
  ghost predicate IsRay(ps: seq<Vec>, u: Vec)
  {
    |ps| >= 2 && forall i :: 0 <= i < |ps| ==> ps[i] == Scale(i as real, u)
  }

  /** The extension of a ray continues it: point k is k u. */
  lemma RayPointAt(ps: seq<Vec>, u: Vec, k: nat)
    requires IsRay(ps, u)
    ensures PointAt(ps, k) == Scale(k as real, u)
  {
    var l := |ps|;
    if k >= l {
      var a := (l - 1) as real;
      var b := (k - (l - 1)) as real;
      assert ps[l - 1] == Scale(a, u) && ps[l - 2] == Scale(a - 1.0, u);
      assert LastDiff(ps) == u by {
        assert a * u.x - (a - 1.0) * u.x == u.x;
        assert a * u.y - (a - 1.0) * u.y == u.y;
      }
      assert a + b == k as real;
      assert a * u.x + b * u.x == (a + b) * u.x;
      assert a * u.y + b * u.y == (a + b) * u.y;
    }
  }

  /** On the ray, membership of the wheel of radius r is a bound on the parameter. */
  lemma WheelOnRay(m: Analytic, r: real, u: Vec, t: real)
    requires Lawful(m) && 0.0 < r && 0.0 <= t
    ensures Contains(MakeWheel(Origin, r), Scale(t, u)) <==> t * Norm(m, u) <= r
  {
    ContainsIsClosedDisk(m, Origin, r, Scale(t, u));
    assert Sub(Scale(t, u), Origin) == Scale(t, u);
    NormScale(m, t, u);
  }

  /** The segment between consecutive ray points a u and (a + 1) u, at parameter t. */
  lemma LerpOnRay(u: Vec, a: real, t: real)
    ensures Lerp(Scale(a, u), Scale(a + 1.0, u), t) == Scale(a + t, u)
  {
    assert a * u.x + t * ((a + 1.0) * u.x - a * u.x) == (a + t) * u.x;
    assert a * u.y + t * ((a + 1.0) * u.y - a * u.y) == (a + t) * u.y;
  }

  lemma ThresholdReal(a: real, t: real, s: real, r: real)
    requires 0.0 < s
    ensures (a + t) * s <= r <==> t <= CrossingParameter(r, s, a)
  {
    assert (r - a * s) / s * s == r - a * s;
    if t <= (r - a * s) / s {
      assert t * s <= (r - a * s) / s * s;
    } else {
      assert t * s > (r - a * s) / s * s;
    }
  }

  /** Some point of the ray lies outside the wheel: an index beyond r / |u|. */
  lemma RayLeaves(m: Analytic, r: real, ps: seq<Vec>, u: Vec)
    requires Lawful(m) && 0.0 < r && 0.0 < Norm(m, u) && IsRay(ps, u)
    ensures Escapes(Inside(MakeWheel(Origin, r)), ps)
  {
    var k := Beyond(r, Norm(m, u));
    RayOutsideAt(m, r, ps, u, Norm(m, u), k);
    assert ps[0] == Scale(0.0, u);
    RayOutsideWitness(r, ps, k);
  }

  lemma RayOutsideWitness(r: real, ps: seq<Vec>, k: nat)
    requires |ps| >= 2 && ps[0] == Origin
    requires !Contains(MakeWheel(Origin, r), PointAt(ps, k))
    ensures Escapes(Inside(MakeWheel(Origin, r)), ps)
  {
    CenterInside(Origin, r);
    OutsideWitness(Inside(MakeWheel(Origin, r)), ps, k);
  }

  /** An index k with r < k s, for s > 0. */
  lemma Beyond(r: real, s: real) returns (k: nat)
    requires 0.0 < r && 0.0 < s
    ensures r < k as real * s
  {
    var q := r / s;
    k := q.Floor + 1;
    assert q * s == r;
    StrictScale(q, k as real, s);
  }

  lemma RayOutsideAt(m: Analytic, r: real, ps: seq<Vec>, u: Vec, s: real, k: nat)
    requires Lawful(m) && 0.0 < r && s == Norm(m, u) && r < k as real * s && IsRay(ps, u)
    ensures !Contains(MakeWheel(Origin, r), PointAt(ps, k))
  {
    RayPointAt(ps, u, k);
    WheelOnRay(m, r, u, k as real);
  }

  lemma OutsideWitness(inside: Vec -> bool, ps: seq<Vec>, k: nat)
    requires |ps| >= 2 && inside(ps[0]) && !inside(PointAt(ps, k))
    ensures Escapes(inside, ps)
  {
  }

  lemma StrictScale(a: real, b: real, s: real)
    requires a < b && 0.0 < s
    ensures a * s < b * s
  {
  }

  /** Where the ray crosses the circle: the crossing segment is the one
      between a u and (a + 1) u with a s <= r < (a + 1) s, s = |u|. */
  lemma RayCrossing(m: Analytic, r: real, ps: seq<Vec>, u: Vec) returns (a: real)
    requires Lawful(m) && 0.0 < r && 0.0 < Norm(m, u) && IsRay(ps, u)
    ensures Escapes(Inside(MakeWheel(Origin, r)), ps)
    ensures var k := FirstOutside(Inside(MakeWheel(Origin, r)), ps);
      a == (k - 1) as real && PointAt(ps, k - 1) == Scale(a, u)
      && PointAt(ps, k) == Scale(a + 1.0, u)
    ensures 0.0 <= a && Brackets(a, Norm(m, u), r)
  {
    RayLeaves(m, r, ps, u);
    a := RayCrossingIndex(r, ps, u);
    CrossingBrackets(m, r, u, a);
  }

  /** The last ray point inside the wheel and the first outside bracket the radius. */
  lemma CrossingBrackets(m: Analytic, r: real, u: Vec, a: real)
    requires Lawful(m) && 0.0 < r && 0.0 <= a
    requires Contains(MakeWheel(Origin, r), Scale(a, u)) && !Contains(MakeWheel(Origin, r), Scale(a + 1.0, u))
    ensures Brackets(a, Norm(m, u), r)
  {
    WheelOnRay(m, r, u, a);
    WheelOnRay(m, r, u, a + 1.0);
  }

  /** Where the scan stops on a ray that leaves the wheel: the last point
      inside is a u and the first one outside is (a + 1) u. */
  lemma RayCrossingIndex(r: real, ps: seq<Vec>, u: Vec) returns (a: real)
    requires IsRay(ps, u) && Escapes(Inside(MakeWheel(Origin, r)), ps)
    ensures var k := FirstOutside(Inside(MakeWheel(Origin, r)), ps);
      a == (k - 1) as real && PointAt(ps, k - 1) == Scale(a, u)
      && PointAt(ps, k) == Scale(a + 1.0, u)
    ensures 0.0 <= a && Contains(MakeWheel(Origin, r), Scale(a, u))
    ensures !Contains(MakeWheel(Origin, r), Scale(a + 1.0, u))
  {
    var k := FirstOutside(Inside(MakeWheel(Origin, r)), ps);
    a := (k - 1) as real;
    RayPointAt(ps, u, k - 1);
    RayPointAt(ps, u, k);
    assert a + 1.0 == k as real;
    assert Inside(MakeWheel(Origin, r))(PointAt(ps, k - 1));
  }

  /** Along the crossing segment, membership is the threshold t <= ts. */
  lemma CrossingThreshold(m: Analytic, inside: Vec -> bool, r: real, u: Vec, a: real, p: Vec, q: Vec)
    requires Lawful(m) && 0.0 < r && 0.0 < Norm(m, u) && 0.0 <= a
    requires inside == Inside(MakeWheel(Origin, r)) && p == Scale(a, u) && q == Scale(a + 1.0, u)
    ensures forall t :: 0.0 <= t <= 1.0 ==>
      (inside(Lerp(p, q, t)) <==> t <= CrossingParameter(r, Norm(m, u), a))
  {
    forall t | 0.0 <= t <= 1.0
      ensures inside(Lerp(p, q, t)) <==> t <= CrossingParameter(r, Norm(m, u), a)
    {
      LerpOnRay(u, a, t);
      WheelOnRay(m, r, u, a + t);
      ThresholdReal(a, t, Norm(m, u), r);
    }
  }

  /** The parameter at which the ray crosses the circle of radius r, on the
      segment from a u to (a + 1) u, for |u| = s. */
  function CrossingParameter(r: real, s: real, a: real): real
    requires 0.0 < s
  {
    (r - a * s) / s
  }

  /** The error bound of the escape length: |u| / 2^(n+1). */
  function Tolerance(s: real, n: nat): real
  {
    s / Pow2(n + 1)
  }

  /** The radius r lies between the lengths a s and (a + 1) s. */
  predicate Brackets(a: real, s: real, r: real)
  {
    a * s <= r < (a + 1.0) * s
  }

  /** The crossing parameter lies in [0, 1). */
  lemma ThresholdInRange(a: real, s: real, r: real)
    requires 0.0 < s && Brackets(a, s, r)
    ensures 0.0 <= CrossingParameter(r, s, a) < 1.0
  {
    assert (a + 1.0) * s == a * s + s;
    FractionBelowOne(r - a * s, s);
  }

  lemma FractionBelowOne(x: real, s: real)
    requires 0.0 <= x < s
    ensures 0.0 <= x / s < 1.0
  {
    assert x / s * s == x;
  }

  /** The final error bound, in plain reals. */
  lemma ErrorBound(len: real, a: real, d: real, mid: real, s: real, r: real, h: real)
    requires 0.0 < s && len == s * a + d && FractionOf(d, mid, s)
    requires Within(mid, CrossingParameter(r, s, a), h)
    ensures Within(len, r, s * h)
  {
    var ts := CrossingParameter(r, s, a);
    assert ts * s == r - a * s;
    assert d == mid * s;
    assert len - r == s * (mid - ts);
    if mid - ts < 0.0 {
      assert Abs(len - r) == s * (ts - mid);
      assert s * (ts - mid) <= s * h;
    } else {
      assert s * (mid - ts) <= s * h;
    }
  }

  /** Every segment of a ray has length |u|. */
  lemma RayUniform(m: Analytic, ps: seq<Vec>, u: Vec, s: real)
    requires s == Norm(m, u) && IsRay(ps, u)
    ensures UniformSegments(m, ps, s)
  {
    forall i | 0 <= i < |ps| - 1
      ensures Dist(m, ps[i], ps[i + 1]) == s
    {
      var a := i as real;
      assert ps[i] == Scale(a, u) && ps[i + 1] == Scale(a + 1.0, u);
      assert Sub(ps[i + 1], ps[i]) == u by {
        assert (a + 1.0) * u.x - a * u.x == u.x;
        assert (a + 1.0) * u.y - a * u.y == u.y;
      }
    }
  }

  /** A ray curve with steps u != 0, with or without a truthful stored
      segment size, escapes from the wheel of radius r > 0 centred at the
      origin, and the result is within |u| / 2^(n+1) of r. */
  lemma RayEscapeAccuracy(m: Analytic, r: real, c: EscapeCurve, u: Vec, n: nat)
    requires Lawful(m) && 0.0 < r && u != Origin
    requires IsRay(c.points, u) && SizeConsistent(m, c)
    ensures Escapes(Inside(MakeWheel(Origin, r)), c.points)
    ensures Within(CurveLength(m, Inside(MakeWheel(Origin, r)), c, n), r, Tolerance(Norm(m, u), n))
  {
    var k, a, mid := RayFacts(m, r, c, u, n);
    CombineBounds(m, Inside(MakeWheel(Origin, r)), c, Norm(m, u), n, k, a, mid, r);
  }

  /** The facts about the crossing segment the error bound needs. */
  lemma RayFacts(m: Analytic, r: real, c: EscapeCurve, u: Vec, n: nat) returns (k: nat, a: real, mid: real)
    requires Lawful(m) && 0.0 < r && u != Origin
    requires IsRay(c.points, u) && SizeConsistent(m, c)
    ensures UniformSegments(m, c.points, Norm(m, u)) && 0.0 < Norm(m, u)
    ensures Escapes(Inside(MakeWheel(Origin, r)), c.points)
    ensures k == FirstOutside(Inside(MakeWheel(Origin, r)), c.points) && a == (k - 1) as real
    ensures FractionOf(DistanceToBoundary(m, Inside(MakeWheel(Origin, r)), PointAt(c.points, k - 1), PointAt(c.points, k), n), mid, Norm(m, u))
    ensures Within(mid, CrossingParameter(r, Norm(m, u), a), 1.0 / Pow2(n + 1))
  {
    var s := Norm(m, u);
    var inside := Inside(MakeWheel(Origin, r));
    NormPositive(m, u);
    a := RayCrossing(m, r, c.points, u);
    k := FirstOutside(inside, c.points);
    var p, q := Scale(a, u), Scale(a + 1.0, u);
    assert PointAt(c.points, k - 1) == p && PointAt(c.points, k) == q;
    mid := CrossingBisection(m, inside, r, u, s, a, p, q, n);
    RayUniform(m, c.points, u, s);
  }

  /** The error bound from the facts about the crossing segment. */
  lemma CombineBounds(m: Analytic, inside: Vec -> bool, c: EscapeCurve, s: real, n: nat, k: nat, a: real, mid: real, r: real)
    requires UniformSegments(m, c.points, s) && SizeConsistent(m, c) && 0.0 < s
    requires Escapes(inside, c.points) && k == FirstOutside(inside, c.points) && a == (k - 1) as real
    requires FractionOf(DistanceToBoundary(m, inside, PointAt(c.points, k - 1), PointAt(c.points, k), n), mid, s)
    requires Within(mid, CrossingParameter(r, s, a), 1.0 / Pow2(n + 1))
    ensures Within(CurveLength(m, inside, c, n), r, Tolerance(s, n))
  {
    var d := DistanceToBoundary(m, inside, PointAt(c.points, k - 1), PointAt(c.points, k), n);
    UniformCurveLength(m, inside, c, s, n, k, a, d);
    var h := 1.0 / Pow2(n + 1);
    var len := CurveLength(m, inside, c, n);
    ErrorBound(len, a, d, mid, s, r, h);
    ScaledTolerance(s, n, h);
  }

  lemma ScaledTolerance(s: real, n: nat, h: real)
    requires h == 1.0 / Pow2(n + 1)
    ensures s * h == Tolerance(s, n)
  {
  }

  /** On the crossing segment, the bisection distance is mid s for a
      parameter mid within 2^-(n+1) of the crossing parameter. */
  lemma CrossingBisection(m: Analytic, inside: Vec -> bool, r: real, u: Vec, s: real, a: real, p: Vec, q: Vec, n: nat)
    returns (mid: real)
    requires Lawful(m) && 0.0 < r && s == Norm(m, u) && 0.0 < s && 0.0 <= a && Brackets(a, s, r)
    requires inside == Inside(MakeWheel(Origin, r)) && p == Scale(a, u) && q == Scale(a + 1.0, u)
    ensures inside(p) && !inside(q)
    ensures FractionOf(DistanceToBoundary(m, inside, p, q, n), mid, s)
    ensures Within(mid, CrossingParameter(r, s, a), 1.0 / Pow2(n + 1))
  {
    CrossingThreshold(m, inside, r, u, a, p, q);
    ThresholdInRange(a, s, r);
    BisectionAccuracy(inside, p, q, CrossingParameter(r, s, a), n);
    LerpEnds(p, q);
    DistanceToBoundaryBracket(m, inside, p, q, n);
    var b := BisectParams(inside, p, q, 0.0, 1.0, n);
    mid := (b.0 + b.1) / 2.0;
    assert Dist(m, p, q) == s by {
      assert Sub(q, p) == u;
    }
  }

  /** `test_with_wheel_and_line` for angle curves: one angle, segment s > 0;
      the result is within s / 2^(n+1) of the radius. */
  lemma SingleAngleEscape(m: Analytic, kind: AngleKind, angle: real, s: real, r: real, n: nat)
    requires Lawful(m) && 0.0 < s && 0.0 < r
    ensures var c := EscapeCurve(AngleCurve(m, kind, [angle], s), Some(s));
      && Escapes(Inside(MakeWheel(Origin, r)), c.points)
      && Within(CurveLength(m, Inside(MakeWheel(Origin, r)), c, n), r, Tolerance(s, n))
  {
    var ps := AngleCurve(m, kind, [angle], s);
    var c := EscapeCurve(ps, Some(s));
    SegmentLength(m, kind, [angle], s, 0);
    assert UniformSegments(m, ps, s);
    var u := ps[1];
    assert IsRay(ps, u);
    assert Norm(m, u) == s by {
      assert Sub(u, Origin) == u;
    }
    assert u != Origin by {
      if u == Origin {
        NormZero(m);
      }
    }
    RayEscapeAccuracy(m, r, c, u, n);
  }

  lemma NormZero(m: Analytic)
    requires Lawful(m)
    ensures Norm(m, Origin) == 0.0
  {
    SqrtOfSquare(m, 0.0);
  }

  /** `test_with_wheel_and_line` for point curves: the curve [origin, p] with p != origin. */
  lemma SinglePointEscape(m: Analytic, p: Vec, r: real, n: nat)
    requires Lawful(m) && p != Origin && 0.0 < r
    ensures var c := EscapeCurve(PointCurve([p]), None);
      && Escapes(Inside(MakeWheel(Origin, r)), c.points)
      && Within(CurveLength(m, Inside(MakeWheel(Origin, r)), c, n), r, Tolerance(Norm(m, p), n))
  {
    assert IsRay(PointCurve([p]), p);
    RayEscapeAccuracy(m, r, EscapeCurve(PointCurve([p]), None), p, n);
  }

  lemma Pow2Of21()
    ensures Pow2(21) == 2097152.0
  {
    assert Pow2(5) == 32.0;
    assert Pow2(10) == 1024.0;
    assert Pow2(15) == 32768.0;
    assert Pow2(21) == 2097152.0;
  }

  /** The tolerance of the test: 20 rounds and segments up to 5 give an error below 1e-5. */
  lemma SingleAngleEscapeTolerance(m: Analytic, kind: AngleKind, angle: real, s: real, r: real)
    requires Lawful(m) && 0.0 < s <= 5.0 && 0.0 < r
    ensures var c := EscapeCurve(AngleCurve(m, kind, [angle], s), Some(s));
      && Escapes(Inside(MakeWheel(Origin, r)), c.points)
      && Abs(CurveLength(m, Inside(MakeWheel(Origin, r)), c, 20) - r) < 0.00001
  {
    SingleAngleEscape(m, kind, angle, s, r, 20);
    var c := EscapeCurve(AngleCurve(m, kind, [angle], s), Some(s));
    SmallTolerance(CurveLength(m, Inside(MakeWheel(Origin, r)), c, 20), r, s);
  }

  /** The tolerance of 20 rounds for segments of length at most 5 is below 10^-5. */
  lemma SmallTolerance(x: real, r: real, s: real)
    requires 0.0 < s <= 5.0 && Within(x, r, Tolerance(s, 20))
    ensures Abs(x - r) < 0.00001
  {
    ToleranceOf20(s);
  }

  lemma ToleranceOf20(s: real)
    ensures Tolerance(s, 20) == s / 2097152.0
  {
    Pow2Of21();
  }

  /** A list of zero angles sums to zero. */
  lemma {:induction false} ZeroSum(s: seq<real>)
    requires forall i :: 0 <= i < |s| ==> s[i] == 0.0
    ensures Sum(s) == 0.0
    decreases |s|
  {
    if |s| > 0 {
      ZeroSum(s[1..]);
    }
  }

  /** With all angles zero every step is `seg` along the x axis, for either
      kind of angle curve: point i is (i seg, 0). */
  lemma ZeroAnglesRay(m: Analytic, kind: AngleKind, angles: seq<real>, seg: real)
    requires Lawful(m) && |angles| >= 1
    requires forall i :: 0 <= i < |angles| ==> angles[i] == 0.0
    ensures IsRay(AngleCurve(m, kind, angles, seg), Vec(seg, 0.0))
  {
    var ps := AngleCurve(m, kind, angles, seg);
    forall i | 0 <= i < |ps|
      ensures ps[i] == Scale(i as real, Vec(seg, 0.0))
    {
      ZeroAnglesPoint(m, kind, angles, seg, i);
    }
  }

  lemma {:induction false} ZeroAnglesPoint(m: Analytic, kind: AngleKind, angles: seq<real>, seg: real, i: nat)
    requires Lawful(m) && i <= |angles|
    requires forall j :: 0 <= j < |angles| ==> angles[j] == 0.0
    ensures AngleCurve(m, kind, angles, seg)[i] == Scale(i as real, Vec(seg, 0.0))
    decreases i
  {
    var ps := AngleCurve(m, kind, angles, seg);
    var u := Vec(seg, 0.0);
    if i > 0 {
      ZeroAnglesPoint(m, kind, angles, seg, i - 1);
      ZeroAngleStep(m, kind, angles, seg, i - 1);
      ScaleSucc((i - 1) as real, u);
      assert (i - 1) as real + 1.0 == i as real;
    }
  }

  /** Each step of a zero-angle curve adds (seg, 0). */
  lemma ZeroAngleStep(m: Analytic, kind: AngleKind, angles: seq<real>, seg: real, i: nat)
    requires Lawful(m) && i < |angles|
    requires forall j :: 0 <= j < |angles| ==> angles[j] == 0.0
    ensures var ps := AngleCurve(m, kind, angles, seg);
      ps[i + 1] == Add(ps[i], Vec(seg, 0.0))
  {
    if kind == Logo {
      LogoStep(m, angles, seg, Origin, i);
      ZeroSum(angles[..i + 1]);
    } else {
      AzimuthStep(m, angles, seg, Origin, i);
    }
    assert Scale(seg, Dir(m, 0.0)) == Vec(seg, 0.0);
  }
}
