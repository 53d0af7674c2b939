/** Evaluators: the escape length of a curve, or of the curve a search vector
    stands for, in one shape or in a list of shapes (their maximum or sum).

    The shape list is evaluated in order against ONE curve object, which the
    first scan may grow; the model threads the grown curve from shape to shape
    and proves that the growth changes none of the results. */
module Evaluators {
  import opened Basics
  import opened Geometry
  import opened Extendable
  import opened Escape
  import opened Representations

  /** Every shape of the list is left by the curve's extension. */
  ghost predicate AllEscape(shapes: seq<Vec -> bool>, ps: seq<Vec>)
  {
    forall i :: 0 <= i < |shapes| ==> Escapes(shapes[i], ps)
  }

  /** The per-shape results, in list order. */
  ghost function Results(m: Analytic, shapes: seq<Vec -> bool>, c: EscapeCurve, n: nat): (r: seq<real>)
    requires AllEscape(shapes, c.points)
    ensures |r| == |shapes|
    ensures forall i :: 0 <= i < |r| ==> r[i] == CurveLength(m, shapes[i], c, n)
  {
    seq(|shapes|, i requires 0 <= i < |shapes| => CurveLength(m, shapes[i], c, n))
  }

  /** Single-shape `evaluate_curve`: the escape length of the curve in the shape. */
  method EvaluateCurve(m: Analytic, shape: Vec -> bool, c: EscapeCurve, n: nat) returns (len: real)
    requires Escapes(shape, c.points)
    ensures len == CurveLength(m, shape, c, n)
    ensures SizeConsistent(m, c) ==> len == EscapeLength(m, shape, c.points, n)
  {
    var grown;
    len, grown := GetMaxLenInside(m, shape, c, n);
  }

  /** Single-shape `evaluate_data`: `evaluate_curve` of `to_curve(data)`. For
      an angle representation with a non-negative segment the stored size is
      truthful, so the result is the escape length of the curve. */
  method EvaluateData(m: Analytic, rep: Representation, shape: Vec -> bool, data: seq<real>, n: nat)
    returns (len: real)
    requires Valid(rep) && |data| == rep.size && Escapes(shape, ToCurve(m, rep, data).points)
    ensures len == CurveLength(m, shape, ToCurve(m, rep, data), n)
    ensures Lawful(m) && (rep.AngleRep? || rep.AngleFixedRep?) && 0.0 <= rep.segment ==>
      len == EscapeLength(m, shape, ToCurve(m, rep, data).points, n)
  {
    if Lawful(m) && (rep.AngleRep? || rep.AngleFixedRep?) && 0.0 <= rep.segment {
      AngleRepSizeConsistent(m, rep, data);
    }
    len := EvaluateCurve(m, shape, ToCurve(m, rep, data), n);
  }

  /** `_get_result_list_for_curve`: one escape length per shape, in list order,
      all measured on the same curve object although the scans grow it. */
  method ResultList(m: Analytic, shapes: seq<Vec -> bool>, c: EscapeCurve, n: nat)
    returns (r: seq<real>, grown: EscapeCurve)
    requires AllEscape(shapes, c.points)
    ensures r == Results(m, shapes, c, n)
    ensures grown.segmentSize == c.segmentSize
    ensures grown == c || SameExtension(c.points, grown.points)
  {
    r := [];
    grown := c;
    for i := 0 to |shapes|
      invariant |r| == i
      invariant forall j :: 0 <= j < i ==> r[j] == CurveLength(m, shapes[j], c, n)
      invariant grown.segmentSize == c.segmentSize
      invariant grown == c || SameExtension(c.points, grown.points)
    {
      if grown != c {
        SameExtensionSameCurveLength(m, shapes[i], c, grown, n);
      }
      var len, ps := GetMaxLenInside(m, shapes[i], grown, n);
      r := r + [len];
      grown := EscapeCurve(ps, c.segmentSize);
    }
  }

  /** `evaluate_curve_max`: at least every per-shape length, and equal to one of them. */
  method EvaluateCurveMax(m: Analytic, shapes: seq<Vec -> bool>, c: EscapeCurve, n: nat) returns (v: real)
    requires |shapes| > 0 && AllEscape(shapes, c.points)
    ensures forall i :: 0 <= i < |shapes| ==> CurveLength(m, shapes[i], c, n) <= v
    ensures exists i :: 0 <= i < |shapes| && v == CurveLength(m, shapes[i], c, n)
    ensures v == MaxOf(Results(m, shapes, c, n))
  {
    var r, grown := ResultList(m, shapes, c, n);
    v := MaxOf(r);
  }

  /** `evaluate_curve_sum`: the sum of the per-shape lengths, 0 for no shapes. */
  method EvaluateCurveSum(m: Analytic, shapes: seq<Vec -> bool>, c: EscapeCurve, n: nat) returns (v: real)
    requires AllEscape(shapes, c.points)
    ensures v == Sum(Results(m, shapes, c, n))
    ensures |shapes| == 0 ==> v == 0.0
  {
    var r, grown := ResultList(m, shapes, c, n);
    v := Sum(r);
  }

  /** `evaluate_data_max`: `evaluate_curve_max` of `to_curve(data)`. */
  method EvaluateDataMax(m: Analytic, rep: Representation, shapes: seq<Vec -> bool>, data: seq<real>, n: nat)
    returns (v: real)
    requires Valid(rep) && |data| == rep.size
    requires |shapes| > 0 && AllEscape(shapes, ToCurve(m, rep, data).points)
    ensures forall i :: 0 <= i < |shapes| ==> CurveLength(m, shapes[i], ToCurve(m, rep, data), n) <= v
    ensures exists i :: 0 <= i < |shapes| && v == CurveLength(m, shapes[i], ToCurve(m, rep, data), n)
    ensures v == MaxOf(Results(m, shapes, ToCurve(m, rep, data), n))
  {
    v := EvaluateCurveMax(m, shapes, ToCurve(m, rep, data), n);
  }

  /** `evaluate_data_sum`: `evaluate_curve_sum` of `to_curve(data)`. */
  method EvaluateDataSum(m: Analytic, rep: Representation, shapes: seq<Vec -> bool>, data: seq<real>, n: nat)
    returns (v: real)
    requires Valid(rep) && |data| == rep.size && AllEscape(shapes, ToCurve(m, rep, data).points)
    ensures v == Sum(Results(m, shapes, ToCurve(m, rep, data), n))
    ensures |shapes| == 0 ==> v == 0.0
  {
    v := EvaluateCurveSum(m, shapes, ToCurve(m, rep, data), n);
  }

  /** Escape lengths are positive when the stored segment size, if any, is not negative. */
  lemma CurveLengthPositive(m: Analytic, inside: Vec -> bool, c: EscapeCurve, n: nat)
    requires Lawful(m) && Escapes(inside, c.points)
    requires c.segmentSize.Some? ==> 0.0 <= c.segmentSize.value
    ensures 0.0 < CurveLength(m, inside, c, n)
  {
    var ps := c.points;
    var k := FirstOutside(inside, ps);
    var p := PointAt(ps, k - 1);
    var q := PointAt(ps, k);
    var d := DistanceToBoundary(m, inside, p, q, n);
    DistanceToBoundaryBracket(m, inside, p, q, n);
    assert 0.0 < d;
    match c.segmentSize {
      case Some(seg) =>
        SegmentFormAt(m, inside, ps, seg, n, k, d);
        NonNegativeProduct(seg, (k - 1) as real);
      case None =>
        EscapeLengthAt(m, inside, ps, n, k, d);
        ArcLengthNonNegative(m, ps, k - 1);
    }
  }

  lemma NonNegativeProduct(a: real, b: real)
    requires 0.0 <= a && 0.0 <= b
    ensures 0.0 <= a * b
  {
  }

  /** The sum of non-negative numbers is at least their maximum. */
  lemma {:induction false} SumAtLeastMax(s: seq<real>)
    requires |s| > 0 && forall i :: 0 <= i < |s| ==> 0.0 <= s[i]
    ensures MaxOf(s) <= Sum(s)
    decreases |s|
  {
    if |s| > 1 {
      SumAtLeastMax(s[1..]);
      SumNonNegative(s[1..]);
    }
  }

  lemma {:induction false} SumNonNegative(s: seq<real>)
    requires forall i :: 0 <= i < |s| ==> 0.0 <= s[i]
    ensures 0.0 <= Sum(s)
    decreases |s|
  {
    if |s| > 0 {
      SumNonNegative(s[1..]);
    }
  }

  /** For a non-empty shape list the sum result is at least the max result. */
  lemma SumResultAtLeastMax(m: Analytic, shapes: seq<Vec -> bool>, c: EscapeCurve, n: nat)
    requires Lawful(m) && |shapes| > 0 && AllEscape(shapes, c.points)
    requires c.segmentSize.Some? ==> 0.0 <= c.segmentSize.value
    ensures MaxOf(Results(m, shapes, c, n)) <= Sum(Results(m, shapes, c, n))
  {
    var r := Results(m, shapes, c, n);
    forall i | 0 <= i < |r|
      ensures 0.0 <= r[i]
    {
      CurveLengthPositive(m, shapes[i], c, n);
    }
    SumAtLeastMax(r);
  }
}
