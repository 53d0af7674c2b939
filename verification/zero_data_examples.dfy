/** The all-zero search vectors of the evaluator and cost-function tests:
    for an angle representation they stand for a straight curve along the
    x axis, whose escape length from a wheel centred at the origin is the
    radius, up to the bisection's resolution. */
module ZeroDataExamples {
  import opened Basics
  import opened Geometry
  import opened Curves
  import opened Escape
  import opened ConvexShapes
  import opened RayEscape
  import opened Representations
  import opened Evaluators

  /** An angle representation with all-zero data, a positive segment, and a
      wheel of radius r > 0 at the origin: the curve escapes and the result
      after 20 rounds is within segment / 2^21 of r. */
  lemma ZeroAngleDataLength(m: Analytic, rep: Representation, data: seq<real>, r: real)
    requires Lawful(m) && (rep.AngleRep? || rep.AngleFixedRep?) && Valid(rep) && 0.0 < rep.segment
    requires |data| == rep.size && forall i :: 0 <= i < |data| ==> data[i] == 0.0
    requires 0.0 < r
    ensures Escapes(Inside(MakeWheel(Origin, r)), ToCurve(m, rep, data).points)
    ensures Within(CurveLength(m, Inside(MakeWheel(Origin, r)), ToCurve(m, rep, data), 20), r, rep.segment / 2097152.0)
  {
    var u := Vec(rep.segment, 0.0);
    ZeroDataRay(m, rep, data);
    StepNorm(m, rep.segment);
    RayEscapeAccuracy(m, r, ToCurve(m, rep, data), u, 20);
    ToleranceOf20(rep.segment);
  }

  /** All-zero angle data give the ray of steps (segment, 0), with a truthful segment size. */
  lemma ZeroDataRay(m: Analytic, rep: Representation, data: seq<real>)
    requires Lawful(m) && (rep.AngleRep? || rep.AngleFixedRep?) && Valid(rep) && 0.0 < rep.segment
    requires |data| == rep.size && forall i :: 0 <= i < |data| ==> data[i] == 0.0
    ensures IsRay(ToCurve(m, rep, data).points, Vec(rep.segment, 0.0))
    ensures SizeConsistent(m, ToCurve(m, rep, data))
  {
    var angles := if rep.AngleRep? then data else [0.0] + data;
    assert ToCurve(m, rep, data).points == AngleCurve(m, rep.kind, angles, rep.segment);
    ZeroAnglesRay(m, rep.kind, angles, rep.segment);
    AngleRepSizeConsistent(m, rep, data);
  }

  /** The step (s, 0) has length s and is not zero for s > 0. */
  lemma StepNorm(m: Analytic, s: real)
    requires Lawful(m) && 0.0 < s
    ensures Norm(m, Vec(s, 0.0)) == s && Vec(s, 0.0) != Origin
  {
    assert NormSq(Vec(s, 0.0)) == s * s;
    SqrtOfSquare(m, s);
  }

  /** The representations of the tests: one angle, maximal length 0.31. */
  function TestRep(kind: AngleKind, fixed: bool): (rep: Representation)
    ensures Valid(rep) && (rep.AngleRep? || rep.AngleFixedRep?) && rep.size == 1
    ensures rep.segment == if fixed then 0.155 else 0.31
  {
    if fixed then NewAngleFixedRep(kind, 1, 0.31) else NewAngleRep(kind, 1, 0.31)
  }

  /** `test_evaluate_data_in_single_shape` and `test_get_single_shape_cost`:
      for any one-angle representation with segment up to 0.31 (the four of
      `TestRep` among them), the unit wheel gives 1 within 1e-6. */
  lemma ZeroDataUnitWheel(m: Analytic, rep: Representation)
    requires Lawful(m) && (rep.AngleRep? || rep.AngleFixedRep?) && Valid(rep) && rep.size == 1
    requires 0.0 < rep.segment <= 0.31
    ensures Escapes(Inside(MakeWheel(Origin, 1.0)), ToCurve(m, rep, [0.0]).points)
    ensures CloseTo(CurveLength(m, Inside(MakeWheel(Origin, 1.0)), ToCurve(m, rep, [0.0]), 20), 1.0)
  {
    ZeroAngleDataLength(m, rep, [0.0], 1.0);
  }

  /** Closer than 1e-6, the tolerance of the tests. */
  predicate CloseTo(x: real, target: real)
  {
    Abs(x - target) < 0.000001
  }

  /** The shape list of the multiple-shape tests. */
  function TwoWheels(): seq<Vec -> bool>
  {
    [Inside(MakeWheel(Origin, 1.0)), Inside(MakeWheel(Origin, 2.0))]
  }

  /** `test_evaluate_data_max/sum_in_multiple_shape` and `test_get_cost_max/sum`:
      for any one-angle representation with segment up to 0.31 (the four of
      `TestRep` among them), the wheels of radius 1 and 2 give maximum 2 and
      sum 3, each within 1e-6. */
  lemma ZeroDataTwoWheels(m: Analytic, rep: Representation)
    requires Lawful(m) && (rep.AngleRep? || rep.AngleFixedRep?) && Valid(rep) && rep.size == 1
    requires 0.0 < rep.segment <= 0.31
    ensures AllEscape(TwoWheels(), ToCurve(m, rep, [0.0]).points)
    ensures CloseTo(MaxOf(Results(m, TwoWheels(), ToCurve(m, rep, [0.0]), 20)), 2.0)
    ensures CloseTo(Sum(Results(m, TwoWheels(), ToCurve(m, rep, [0.0]), 20)), 3.0)
  {
    var c := ToCurve(m, rep, [0.0]);
    var tol := rep.segment / 2097152.0;
    TwoWheelLengths(m, rep, c, tol);
    TwoWheelResults(m, c, tol);
  }

  /** Both wheels are left, each within tol of its radius. */
  lemma TwoWheelLengths(m: Analytic, rep: Representation, c: EscapeCurve, tol: real)
    requires Lawful(m) && (rep.AngleRep? || rep.AngleFixedRep?) && Valid(rep) && 0.0 < rep.segment <= 0.31
    requires rep.size == 1 && c == ToCurve(m, rep, [0.0]) && tol == rep.segment / 2097152.0
    ensures Escapes(Inside(MakeWheel(Origin, 1.0)), c.points) && Escapes(Inside(MakeWheel(Origin, 2.0)), c.points)
    ensures Within(CurveLength(m, Inside(MakeWheel(Origin, 1.0)), c, 20), 1.0, tol)
    ensures Within(CurveLength(m, Inside(MakeWheel(Origin, 2.0)), c, 20), 2.0, tol)
    ensures tol <= 0.31 / 2097152.0
  {
    ZeroAngleDataLength(m, rep, [0.0], 1.0);
    ZeroAngleDataLength(m, rep, [0.0], 2.0);
  }

  /** Lengths within tol of 1 and 2 in the two wheels give the maximum and the sum. */
  lemma TwoWheelResults(m: Analytic, c: EscapeCurve, tol: real)
    requires Escapes(Inside(MakeWheel(Origin, 1.0)), c.points) && Escapes(Inside(MakeWheel(Origin, 2.0)), c.points)
    requires Within(CurveLength(m, Inside(MakeWheel(Origin, 1.0)), c, 20), 1.0, tol)
    requires Within(CurveLength(m, Inside(MakeWheel(Origin, 2.0)), c, 20), 2.0, tol)
    requires tol <= 0.31 / 2097152.0
    ensures AllEscape(TwoWheels(), c.points)
    ensures CloseTo(MaxOf(Results(m, TwoWheels(), c, 20)), 2.0)
    ensures CloseTo(Sum(Results(m, TwoWheels(), c, 20)), 3.0)
  {
    var shapes := TwoWheels();
    assert AllEscape(shapes, c.points);
    var res := Results(m, shapes, c, 20);
    assert res[0] == CurveLength(m, Inside(MakeWheel(Origin, 1.0)), c, 20);
    assert res[1] == CurveLength(m, Inside(MakeWheel(Origin, 2.0)), c, 20);
    MaxAndSumOfTwo(res, tol);
  }

  lemma MaxAndSumOfTwo(s: seq<real>, tol: real)
    requires |s| == 2 && Within(s[0], 1.0, tol) && Within(s[1], 2.0, tol) && tol <= 0.31 / 2097152.0
    ensures CloseTo(MaxOf(s), 2.0)
    ensures CloseTo(Sum(s), 3.0)
  {
    assert MaxOf(s[1..]) == s[1];
    assert Sum(s[1..]) == s[1] + Sum(s[2..]);
  }
}
