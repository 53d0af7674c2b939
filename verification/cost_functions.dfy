/** Cost functions: what the annealing driver minimises. Each turns a search
    vector into a curve with the representation's `to_curve` and measures its
    escape length in one shape, or takes the maximum or the sum over a list of
    shapes, consuming the lengths one by one as Python's `max` and `sum` do on
    a generator. */
module CostFunctions {
  import opened Basics
  import opened Geometry
  import opened Escape
  import opened Representations
  import opened Evaluators

  /** The function returned by `get_single_shape_cost`, applied to `data`. */
  method GetSingleShapeCost(m: Analytic, rep: Representation, shape: Vec -> bool, n: nat, data: seq<real>)
    returns (v: real)
    requires Valid(rep) && |data| == rep.size && Escapes(shape, ToCurve(m, rep, data).points)
    ensures v == CurveLength(m, shape, ToCurve(m, rep, data), n)
  {
    var c := ToCurve(m, rep, data);
    var grown;
    v, grown := GetMaxLenInside(m, shape, c, n);
  }

  /** The function returned by `get_cost_max`, applied to `data`. */
  method GetCostMax(m: Analytic, rep: Representation, shapes: seq<Vec -> bool>, n: nat, data: seq<real>)
    returns (v: real)
    requires Valid(rep) && |data| == rep.size
    requires |shapes| > 0 && AllEscape(shapes, ToCurve(m, rep, data).points)
    ensures forall i :: 0 <= i < |shapes| ==> CurveLength(m, shapes[i], ToCurve(m, rep, data), n) <= v
    ensures exists i :: 0 <= i < |shapes| && v == CurveLength(m, shapes[i], ToCurve(m, rep, data), n)
  {
    v := RunningMax(m, shapes, ToCurve(m, rep, data), n);
  }

  /** `max` over the generator of escape lengths: the lengths, shape by shape
      on one (growing) curve, then their running maximum. */
  method RunningMax(m: Analytic, shapes: seq<Vec -> bool>, c: EscapeCurve, n: nat) returns (v: real)
    requires |shapes| > 0 && AllEscape(shapes, c.points)
    ensures forall i :: 0 <= i < |shapes| ==> CurveLength(m, shapes[i], c, n) <= v
    ensures exists i :: 0 <= i < |shapes| && v == CurveLength(m, shapes[i], c, n)
  {
    var lens := Lengths(m, shapes, c, n);
    v := ListMax(lens);
  }

  /** The generator itself: the escape length of each shape, in order, each
      measured on the curve the earlier shapes have grown. */
  method Lengths(m: Analytic, shapes: seq<Vec -> bool>, c: EscapeCurve, n: nat) returns (lens: seq<real>)
    requires AllEscape(shapes, c.points)
    ensures lens == Results(m, shapes, c, n)
  {
    ghost var r := Results(m, shapes, c, n);
    var pts := c.points;
    lens := [];
    for i := 0 to |shapes|
      invariant pts == c.points || SameExtension(c.points, pts)
      invariant lens == r[..i]
    {
      var len;
      len, pts := MeasureOnGrown(m, shapes[i], c, pts, n);
      assert r[..i + 1] == r[..i] + [r[i]];
      lens := lens + [len];
    }
    assert r[..|shapes|] == r;
  }

  /** One step of the generator: the escape length measured on the curve grown
      by the earlier shapes is the one of the original curve, and the curve
      keeps growing along the same extension. */
  method MeasureOnGrown(m: Analytic, shape: Vec -> bool, c: EscapeCurve, pts: seq<Vec>, n: nat)
    returns (len: real, grown: seq<Vec>)
    requires pts == c.points || SameExtension(c.points, pts)
    requires Escapes(shape, c.points)
    ensures len == CurveLength(m, shape, c, n)
    ensures SameExtension(c.points, grown) && |pts| <= |grown| && grown[..|pts|] == pts
  {
    var cur := EscapeCurve(pts, c.segmentSize);
    if pts != c.points {
      SameExtensionSameCurveLength(m, shape, c, cur, n);
    }
    len, grown := GetMaxLenInside(m, shape, cur, n);
    if pts != c.points {
      SameExtensionTrans(c.points, pts, grown);
    }
  }

  /** Python's `max` on a non-empty list: the first largest entry. */
  method ListMax(s: seq<real>) returns (v: real)
    requires |s| > 0
    ensures forall i :: 0 <= i < |s| ==> s[i] <= v
    ensures exists i :: 0 <= i < |s| && v == s[i]
  {
    v := s[0];
    ghost var w := 0;
    for i := 1 to |s|
      invariant forall j :: 0 <= j < i ==> s[j] <= v
      invariant 0 <= w < i && v == s[w]
    {
      if s[i] > v {
        v := s[i];
        w := i;
      }
    }
  }

  /** The function returned by `get_cost_sum`, applied to `data`. */
  method GetCostSum(m: Analytic, rep: Representation, shapes: seq<Vec -> bool>, n: nat, data: seq<real>)
    returns (v: real)
    requires Valid(rep) && |data| == rep.size && AllEscape(shapes, ToCurve(m, rep, data).points)
    ensures v == Sum(Results(m, shapes, ToCurve(m, rep, data), n))
  {
    v := RunningSum(m, shapes, ToCurve(m, rep, data), n);
  }

  /** `sum` over the generator of escape lengths: a running total over the
      shapes, in order, on one (growing) curve. */
  method RunningSum(m: Analytic, shapes: seq<Vec -> bool>, c: EscapeCurve, n: nat) returns (v: real)
    requires AllEscape(shapes, c.points)
    ensures v == Sum(Results(m, shapes, c, n))
  {
    ghost var r := Results(m, shapes, c, n);
    var cur := c;
    v := 0.0;
    for i := 0 to |shapes|
      invariant cur.segmentSize == c.segmentSize
      invariant cur == c || SameExtension(c.points, cur.points)
      invariant v == Sum(r[..i])
    {
      if cur != c {
        SameExtensionSameCurveLength(m, shapes[i], c, cur, n);
      }
      var len, grown := GetMaxLenInside(m, shapes[i], cur, n);
      SumPrefixStep(r, i);
      v := v + len;
      cur := EscapeCurve(grown, c.segmentSize);
    }
    assert r[..|shapes|] == r;
  }

  /** The cost functions and the evaluators compute the same numbers. */
  method CostsMatchEvaluators(m: Analytic, rep: Representation, shapes: seq<Vec -> bool>, n: nat, data: seq<real>)
    returns (costMax: real, evalMax: real, costSum: real, evalSum: real)
    requires Valid(rep) && |data| == rep.size
    requires |shapes| > 0 && AllEscape(shapes, ToCurve(m, rep, data).points)
    ensures costMax == evalMax && costSum == evalSum
  {
    costMax := GetCostMax(m, rep, shapes, n, data);
    evalMax := EvaluateDataMax(m, rep, shapes, data, n);
    MaxCharacterised(Results(m, shapes, ToCurve(m, rep, data), n), costMax);
    costSum := GetCostSum(m, rep, shapes, n, data);
    evalSum := EvaluateDataSum(m, rep, shapes, data, n);
  }

  /** The single-shape cost is the single-shape evaluator's `evaluate_data`. */
  method SingleCostMatchesEvaluator(m: Analytic, rep: Representation, shape: Vec -> bool, n: nat, data: seq<real>)
    returns (cost: real, eval: real)
    requires Valid(rep) && |data| == rep.size && Escapes(shape, ToCurve(m, rep, data).points)
    ensures cost == eval
  {
    cost := GetSingleShapeCost(m, rep, shape, n, data);
    eval := EvaluateData(m, rep, shape, data, n);
  }

  /** A member of a list that bounds every entry from above is its maximum. */
  lemma MaxCharacterised(s: seq<real>, v: real)
    requires |s| > 0 && (forall i :: 0 <= i < |s| ==> s[i] <= v)
    requires exists i :: 0 <= i < |s| && v == s[i]
    ensures v == MaxOf(s)
  {
    var i :| 0 <= i < |s| && v == s[i];
    assert s[i] <= MaxOf(s);
  }
}
