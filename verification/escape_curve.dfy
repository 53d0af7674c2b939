/** The escape length of a curve from a convex set: the length of the curve
    (extended straight past its end) up to the first point where it leaves
    the set, with the crossing located by a fixed number of bisection rounds.

    A set is given by its membership predicate `inside`. */
module Escape {
  import opened Basics
  import opened Geometry
  import opened Extendable

  /** `single_iteration`: keep the half of the bracket that still straddles the boundary. */
  function SingleIteration(inside: Vec -> bool, a: Vec, b: Vec): (r: (Vec, Vec))
    requires inside(a) && !inside(b)
    ensures inside(r.0) && !inside(r.1)
    ensures r == (a, Mid(a, b)) || r == (Mid(a, b), b)
  {
    var c := Mid(a, b);
    if !inside(c) then (a, c) else (c, b)
  }

  /** n rounds of `single_iteration`: the first point stays inside and the
      second outside, whatever the predicate. */
  function Iterate(inside: Vec -> bool, a: Vec, b: Vec, n: nat): (r: (Vec, Vec))
    requires inside(a) && !inside(b)
    ensures inside(r.0) && !inside(r.1)
    decreases n
  {
    if n == 0 then (a, b)
    else
      var s := SingleIteration(inside, a, b);
      Iterate(inside, s.0, s.1, n - 1)
  }

  /** The last round can be peeled off the end, as the loop performs it. */
  lemma {:induction false} IterateSnoc(inside: Vec -> bool, a: Vec, b: Vec, n: nat)
    requires inside(a) && !inside(b)
    ensures var r := Iterate(inside, a, b, n);
      Iterate(inside, a, b, n + 1) == SingleIteration(inside, r.0, r.1)
    decreases n
  {
    if n > 0 {
      var s := SingleIteration(inside, a, b);
      IterateSnoc(inside, s.0, s.1, n - 1);
    }
  }

  lemma HalfOverPow2(w: real, n: nat)
    ensures (w / 2.0) / Pow2(n) == w / Pow2(n + 1)
    ensures (w / Pow2(n)) / 2.0 == w / Pow2(n + 1)
  {
    var p := Pow2(n);
    assert Pow2(n + 1) == 2.0 * p;
    assert (w / 2.0) / p == w / (2.0 * p);
    assert (w / p) / 2.0 == w / (2.0 * p);
  }

  /** The bisection in parameter space: positions are pos_in + t (pos_out - pos_in).
      After n rounds the bracket lies within the initial one, keeps the
      inside/outside ends, and has width (tb - ta) / 2^n. */
  function BisectParams(inside: Vec -> bool, p: Vec, q: Vec, ta: real, tb: real, n: nat): (r: (real, real))
    requires ta < tb && inside(Lerp(p, q, ta)) && !inside(Lerp(p, q, tb))
    ensures ta <= r.0 < r.1 <= tb
    ensures r.1 - r.0 == (tb - ta) / Pow2(n)
    ensures inside(Lerp(p, q, r.0)) && !inside(Lerp(p, q, r.1))
    decreases n
  {
    if n == 0 then (ta, tb)
    else
      var tc := (ta + tb) / 2.0;
      HalfOverPow2(tb - ta, n - 1);
      assert tc - ta == (tb - ta) / 2.0 && tb - tc == (tb - ta) / 2.0;
      if !inside(Lerp(p, q, tc)) then BisectParams(inside, p, q, ta, tc, n - 1)
      else BisectParams(inside, p, q, tc, tb, n - 1)
  }

  /** The point bisection and the parameter bisection visit the same points. */
  lemma {:induction false} IterateIsBisectParams(inside: Vec -> bool, p: Vec, q: Vec, ta: real, tb: real, n: nat)
    requires ta < tb && inside(Lerp(p, q, ta)) && !inside(Lerp(p, q, tb))
    ensures var r := BisectParams(inside, p, q, ta, tb, n);
      Iterate(inside, Lerp(p, q, ta), Lerp(p, q, tb), n) == (Lerp(p, q, r.0), Lerp(p, q, r.1))
    decreases n
  {
    if n > 0 {
      var tc := (ta + tb) / 2.0;
      MidOfLerp(p, q, ta, tb);
      if !inside(Lerp(p, q, tc)) {
        IterateIsBisectParams(inside, p, q, ta, tc, n - 1);
      } else {
        IterateIsBisectParams(inside, p, q, tc, tb, n - 1);
      }
    }
  }

  /** `find_distance_to_boundary`: distance from pos_in to the midpoint of the final bracket. */
  function DistanceToBoundary(m: Analytic, inside: Vec -> bool, pin: Vec, pout: Vec, n: nat): real
    requires inside(pin) && !inside(pout)
  {
    var r := Iterate(inside, pin, pout, n);
    Norm(m, Sub(Mid(r.0, r.1), pin))
  }

  /** The distance is ((ta + tb) / 2) |pos_out - pos_in| for the final parameter
      bracket [ta, tb], which has width 2^-n; it lies strictly between 0 and |pos_out - pos_in|. */
  lemma DistanceToBoundaryBracket(m: Analytic, inside: Vec -> bool, pin: Vec, pout: Vec, n: nat)
    requires Lawful(m) && inside(pin) && !inside(pout)
    ensures inside(Lerp(pin, pout, 0.0)) && !inside(Lerp(pin, pout, 1.0))
    ensures var r := BisectParams(inside, pin, pout, 0.0, 1.0, n);
      && 0.0 <= r.0 < r.1 <= 1.0 && r.1 - r.0 == 1.0 / Pow2(n)
      && FractionOf(DistanceToBoundary(m, inside, pin, pout, n), (r.0 + r.1) / 2.0, Dist(m, pin, pout))
  {
    DistanceAtParameter(m, inside, pin, pout, n);
    var r := BisectParams(inside, pin, pout, 0.0, 1.0, n);
    assert pin != pout;
    NormScaledBetween(m, (r.0 + r.1) / 2.0, Sub(pout, pin));
  }

  /** The final midpoint is pos_in + t (pos_out - pos_in) for the midpoint t of the parameter bracket. */
  lemma DistanceAtParameter(m: Analytic, inside: Vec -> bool, pin: Vec, pout: Vec, n: nat)
    requires inside(pin) && !inside(pout)
    ensures inside(Lerp(pin, pout, 0.0)) && !inside(Lerp(pin, pout, 1.0))
    ensures var r := BisectParams(inside, pin, pout, 0.0, 1.0, n);
      DistanceToBoundary(m, inside, pin, pout, n) == Norm(m, Scale((r.0 + r.1) / 2.0, Sub(pout, pin)))
  {
    LerpEnds(pin, pout);
    var r := BisectParams(inside, pin, pout, 0.0, 1.0, n);
    IterateIsBisectParams(inside, pin, pout, 0.0, 1.0, n);
    var t := (r.0 + r.1) / 2.0;
    MidOfLerp(pin, pout, r.0, r.1);
    assert Sub(Lerp(pin, pout, t), pin) == Scale(t, Sub(pout, pin));
  }

  /** `find_distance_to_boundary` as the loop it is: exactly n rounds, no tolerance stop. */
  method FindDistanceToBoundary(m: Analytic, inside: Vec -> bool, pin: Vec, pout: Vec, n: nat) returns (d: real)
    requires inside(pin) && !inside(pout)
    ensures d == DistanceToBoundary(m, inside, pin, pout, n)
    ensures Lawful(m) ==> 0.0 < d < Dist(m, pin, pout)
  {
    var a, b := pin, pout;
    var k := 0;
    while k < n
      invariant k <= n
      invariant inside(a) && !inside(b)
      invariant (a, b) == Iterate(inside, pin, pout, k)
    {
      IterateSnoc(inside, pin, pout, k);
      var s := SingleIteration(inside, a, b);
      a, b := s.0, s.1;
      k := k + 1;
    }
    d := Norm(m, Sub(Mid(a, b), pin));
    if Lawful(m) {
      DistanceToBoundaryBetween(m, inside, pin, pout, n);
    }
  }

  /** The bisection distance lies strictly between 0 and the segment length. */
  lemma DistanceToBoundaryBetween(m: Analytic, inside: Vec -> bool, pin: Vec, pout: Vec, n: nat)
    requires Lawful(m) && inside(pin) && !inside(pout)
    ensures 0.0 < DistanceToBoundary(m, inside, pin, pout, n) < Dist(m, pin, pout)
  {
    DistanceToBoundaryBracket(m, inside, pin, pout, n);
    var r := BisectParams(inside, pin, pout, 0.0, 1.0, n);
    assert FractionOf(DistanceToBoundary(m, inside, pin, pout, n), (r.0 + r.1) / 2.0, Dist(m, pin, pout));
  }

  /** If membership along the segment is a threshold, t inside iff t <= ts, the
      bisection midpoint is within 2^-(n+1) of the crossing parameter ts. */
  lemma BisectionAccuracy(inside: Vec -> bool, p: Vec, q: Vec, ts: real, n: nat)
    requires 0.0 <= ts < 1.0
    requires forall t :: 0.0 <= t <= 1.0 ==> (inside(Lerp(p, q, t)) <==> t <= ts)
    ensures inside(Lerp(p, q, 0.0)) && !inside(Lerp(p, q, 1.0))
    ensures var r := BisectParams(inside, p, q, 0.0, 1.0, n);
      Within((r.0 + r.1) / 2.0, ts, 1.0 / Pow2(n + 1))
  {
    LerpEnds(p, q);
    var r := BisectParams(inside, p, q, 0.0, 1.0, n);
    assert r.0 <= ts by {
      assert inside(Lerp(p, q, r.0));
    }
    assert ts < r.1 by {
      assert !inside(Lerp(p, q, r.1));
    }
    HalfOverPow2(1.0, n);
    MidpointError(r.0, r.1, ts, 1.0 / Pow2(n + 1));
  }

  lemma MidpointError(a: real, b: real, s: real, h: real)
    requires a <= s < b && b - a == 2.0 * h
    ensures Within((a + b) / 2.0, s, h)
  {
  }

  /** The length of the extended curve from point 0 to point j. */
  function ArcLength(m: Analytic, ps: seq<Vec>, j: nat): real
    requires |ps| >= 2
    decreases j
  {
    if j == 0 then 0.0 else ArcLength(m, ps, j - 1) + Dist(m, PointAt(ps, j - 1), PointAt(ps, j))
  }

  lemma {:induction false} ArcLengthNonNegative(m: Analytic, ps: seq<Vec>, j: nat)
    requires Lawful(m) && |ps| >= 2
    ensures 0.0 <= ArcLength(m, ps, j)
    decreases j
  {
    if j > 0 {
      ArcLengthNonNegative(m, ps, j - 1);
      NormNonNegative(m, Sub(PointAt(ps, j), PointAt(ps, j - 1)));
    }
  }

  /** Lengths are not negative, so the cumulative length never decreases. */
  lemma {:induction false} ArcLengthMonotone(m: Analytic, ps: seq<Vec>, i: nat, j: nat)
    requires Lawful(m) && |ps| >= 2 && i <= j
    ensures ArcLength(m, ps, i) <= ArcLength(m, ps, j)
    decreases j - i
  {
    if i < j {
      ArcLengthMonotone(m, ps, i, j - 1);
      NormNonNegative(m, Sub(PointAt(ps, j), PointAt(ps, j - 1)));
    }
  }

  /** The cumulative length list of a polyline: entry i is the length from point 0 to point i. */
  function DistList(m: Analytic, ps: seq<Vec>): (r: seq<real>)
    ensures |r| == |ps|
    ensures |ps| > 0 ==> r[0] == 0.0
    ensures forall i :: 0 <= i < |ps| - 1 ==> AddsSegment(m, ps, r, i)
    decreases |ps|
  {
    if |ps| <= 1 then seq(|ps|, i => 0.0)
    else
      var pre := DistList(m, ps[..|ps| - 1]);
      var r := pre + [pre[|pre| - 1] + Dist(m, ps[|ps| - 2], ps[|ps| - 1])];
      assert forall i :: 0 <= i < |ps| - 1 ==> AddsSegment(m, ps, r, i) by {
        forall i | 0 <= i < |ps| - 1
          ensures AddsSegment(m, ps, r, i)
        {
          if i < |ps| - 2 {
            assert AddsSegment(m, ps[..|ps| - 1], pre, i);
          }
        }
      }
      r
  }

  /** Entry i + 1 of a cumulative list adds the length of segment i to entry i. */
  predicate AddsSegment(m: Analytic, ps: seq<Vec>, r: seq<real>, i: nat)
    requires i + 1 < |ps| && |r| == |ps|
  {
    r[i + 1] == r[i] + Dist(m, ps[i], ps[i + 1])
  }

  /** The cumulative list agrees with the arc length of the curve. */
  lemma {:induction false} DistListIsArcLength(m: Analytic, ps: seq<Vec>, i: nat)
    requires |ps| >= 2 && i < |ps|
    ensures DistList(m, ps)[i] == ArcLength(m, ps, i)
    decreases i
  {
    if i > 0 {
      DistListIsArcLength(m, ps, i - 1);
      assert AddsSegment(m, ps, DistList(m, ps), i - 1);
    }
  }

  /** Points (0,0), (0,1), (1,1), (2,1), (2,10) have cumulative lengths 0, 1, 2, 3, 12. */
  lemma DistListExample(m: Analytic)
    requires Lawful(m)
    ensures DistList(m, [Vec(0.0, 0.0), Vec(0.0, 1.0), Vec(1.0, 1.0), Vec(2.0, 1.0), Vec(2.0, 10.0)])
         == [0.0, 1.0, 2.0, 3.0, 12.0]
  {
    var ps := [Vec(0.0, 0.0), Vec(0.0, 1.0), Vec(1.0, 1.0), Vec(2.0, 1.0), Vec(2.0, 10.0)];
    AxisDist(m, Vec(0.0, 0.0), Vec(0.0, 1.0), 1.0);
    AxisDist(m, Vec(0.0, 1.0), Vec(1.0, 1.0), 1.0);
    AxisDist(m, Vec(1.0, 1.0), Vec(2.0, 1.0), 1.0);
    AxisDist(m, Vec(2.0, 1.0), Vec(2.0, 10.0), 9.0);
    DistListOfSteps(m, ps);
  }

  /** A step of length d >= 0 along an axis has length d. */
  lemma AxisDist(m: Analytic, a: Vec, b: Vec, d: real)
    requires Lawful(m) && 0.0 <= d
    requires b == Vec(a.x + d, a.y) || b == Vec(a.x, a.y + d)
    ensures Dist(m, a, b) == d
  {
    assert NormSq(Sub(b, a)) == d * d;
    SqrtOfSquare(m, d);
  }

  lemma DistListOfSteps(m: Analytic, ps: seq<Vec>)
    requires |ps| == 5
    requires Dist(m, ps[0], ps[1]) == 1.0 && Dist(m, ps[1], ps[2]) == 1.0
    requires Dist(m, ps[2], ps[3]) == 1.0 && Dist(m, ps[3], ps[4]) == 9.0
    ensures DistList(m, ps) == [0.0, 1.0, 2.0, 3.0, 12.0]
  {
    var r := DistList(m, ps);
    assert AddsSegment(m, ps, r, 0) && AddsSegment(m, ps, r, 1);
    assert AddsSegment(m, ps, r, 2) && AddsSegment(m, ps, r, 3);
    assert r[0] == 0.0 && r[1] == 1.0 && r[2] == 2.0 && r[3] == 3.0 && r[4] == 12.0;
  }

  /** Every explicit segment has length `seg` (the segment_size of an angle curve). */
  ghost predicate UniformSegments(m: Analytic, ps: seq<Vec>, seg: real)
  {
    |ps| >= 2 && forall i :: 0 <= i < |ps| - 1 ==> StepIs(m, ps, i, seg)
  }

  /** Segment i of the polyline has length `seg`. */
  predicate StepIs(m: Analytic, ps: seq<Vec>, i: nat, seg: real)
    requires i + 1 < |ps|
  {
    Dist(m, ps[i], ps[i + 1]) == seg
  }

  /** On a curve with uniform segments, the extension has the same segment
      length, so the arc length to point j is seg * j. */
  lemma {:induction false} UniformArcLength(m: Analytic, ps: seq<Vec>, seg: real, j: nat)
    requires UniformSegments(m, ps, seg)
    ensures ArcLength(m, ps, j) == seg * j as real
    decreases j
  {
    if j > 0 {
      UniformArcLength(m, ps, seg, j - 1);
      UniformStep(m, ps, seg, j - 1);
      MulSucc(seg, j - 1);
    }
  }

  /** Every step of the extended curve, explicit or not, has length `seg`. */
  lemma UniformStep(m: Analytic, ps: seq<Vec>, seg: real, i: nat)
    requires UniformSegments(m, ps, seg)
    ensures Dist(m, PointAt(ps, i), PointAt(ps, i + 1)) == seg
  {
    if i + 1 >= |ps| {
      ExtensionSteps(ps, i);
      assert Sub(PointAt(ps, i + 1), PointAt(ps, i)) == Sub(ps[|ps| - 1], ps[|ps| - 2]);
      assert StepIs(m, ps, |ps| - 2, seg);
    } else {
      assert StepIs(m, ps, i, seg);
    }
  }

  lemma MulSucc(s: real, k: nat)
    ensures s * k as real + s == s * (k + 1) as real
  {
  }

  /** Index k of the extended curve lies outside the set. */
  function OutsideAt(inside: Vec -> bool, ps: seq<Vec>): nat -> bool
  {
    (k: nat) => |ps| >= 2 && !inside(PointAt(ps, k))
  }

  /** The curve starts inside and its extension eventually leaves the set;
      this is exactly when the scan of `get_max_len_inside` stops. */
  ghost predicate Escapes(inside: Vec -> bool, ps: seq<Vec>)
  {
    |ps| >= 2 && inside(ps[0]) && exists k: nat :: !inside(PointAt(ps, k))
  }

  /** The first index of the extended curve outside the set. */
  ghost function FirstOutside(inside: Vec -> bool, ps: seq<Vec>): (k: nat)
    requires Escapes(inside, ps)
    ensures 1 <= k && !inside(PointAt(ps, k))
    ensures forall j: nat :: j < k ==> inside(PointAt(ps, j))
  {
    var w: nat :| !inside(PointAt(ps, w));
    assert OutsideAt(inside, ps)(w);
    var k := Least(OutsideAt(inside, ps));
    assert k != 0 by {
      assert !OutsideAt(inside, ps)(0);
    }
    assert forall j: nat :: j < k ==> inside(PointAt(ps, j)) by {
      forall j: nat | j < k
        ensures inside(PointAt(ps, j))
      {
        assert !OutsideAt(inside, ps)(j);
      }
    }
    k
  }

  /** The escape length: the arc length to the last inside point before the
      first outside one, plus the bisection distance on the crossing segment. */
  ghost function EscapeLength(m: Analytic, inside: Vec -> bool, ps: seq<Vec>, n: nat): real
    requires Escapes(inside, ps)
  {
    var k := FirstOutside(inside, ps);
    ArcLength(m, ps, k - 1) + DistanceToBoundary(m, inside, PointAt(ps, k - 1), PointAt(ps, k), n)
  }

  /** An escape curve: its point list, and the `segment_size` an angle curve
      stores (None for point and shift curves, which have none). */
  datatype EscapeCurve = EscapeCurve(points: seq<Vec>, segmentSize: Option<real>)

  /** The stored segment size, when there is one, is the length of every segment. */
  ghost predicate SizeConsistent(m: Analytic, c: EscapeCurve)
  {
    c.segmentSize.Some? ==> UniformSegments(m, c.points, c.segmentSize.value)
  }

  /** Two lists with the same extended curve. */
  ghost predicate SameExtension(ps: seq<Vec>, qs: seq<Vec>)
  {
    |ps| >= 2 && |qs| >= 2 && forall j: nat :: PointAt(ps, j) == PointAt(qs, j)
  }

  lemma GrownSameExtension(ps: seq<Vec>, grown: seq<Vec>)
    requires |ps| >= 2 && |ps| <= |grown| && grown[..|ps|] == ps
    requires forall k :: 0 <= k < |grown| ==> grown[k] == PointAt(ps, k)
    ensures SameExtension(ps, grown)
  {
    forall j: nat
      ensures PointAt(ps, j) == PointAt(grown, j)
    {
      ExtendedPointAt(ps, grown, j);
    }
  }

  /** Having the same extension is transitive: a curve grown twice still has the original's extension. */
  lemma SameExtensionTrans(ps: seq<Vec>, qs: seq<Vec>, rs: seq<Vec>)
    requires SameExtension(ps, qs) && SameExtension(qs, rs)
    ensures SameExtension(ps, rs)
  {
    forall j: nat
      ensures PointAt(ps, j) == PointAt(rs, j)
    {
      assert PointAt(ps, j) == PointAt(qs, j);
    }
  }

  /** Curves with the same extension have the same escape length. */
  lemma {:induction false} SameExtensionSameEscape(m: Analytic, inside: Vec -> bool, ps: seq<Vec>, qs: seq<Vec>, n: nat)
    requires SameExtension(ps, qs) && Escapes(inside, ps)
    ensures Escapes(inside, qs)
    ensures FirstOutside(inside, qs) == FirstOutside(inside, ps)
    ensures EscapeLength(m, inside, qs, n) == EscapeLength(m, inside, ps, n)
  {
    assert PointAt(qs, 0) == PointAt(ps, 0);
    var k := FirstOutside(inside, ps);
    assert !inside(PointAt(qs, k));
    var k' := FirstOutside(inside, qs);
    assert !inside(PointAt(ps, k'));
    assert k == k';
    SameExtensionArcLength(m, ps, qs, k - 1);
  }

  lemma {:induction false} SameExtensionArcLength(m: Analytic, ps: seq<Vec>, qs: seq<Vec>, j: nat)
    requires SameExtension(ps, qs)
    ensures ArcLength(m, ps, j) == ArcLength(m, qs, j)
    decreases j
  {
    if j > 0 {
      SameExtensionArcLength(m, ps, qs, j - 1);
      assert PointAt(ps, j) == PointAt(qs, j) && PointAt(ps, j - 1) == PointAt(qs, j - 1);
    }
  }

  /** The value line 45 of escape_curve.py computes: segment_size (k - 1) plus
      the bisection distance, for the first outside index k. */
  ghost function SegmentFormLength(m: Analytic, inside: Vec -> bool, ps: seq<Vec>, seg: real, n: nat): real
    requires Escapes(inside, ps)
  {
    var k := FirstOutside(inside, ps);
    seg * (k - 1) as real + DistanceToBoundary(m, inside, PointAt(ps, k - 1), PointAt(ps, k), n)
  }

  /** With uniform segments the segment-size form is the escape length. */
  lemma SegmentFormIsEscapeLength(m: Analytic, inside: Vec -> bool, ps: seq<Vec>, seg: real, n: nat)
    requires Escapes(inside, ps) && UniformSegments(m, ps, seg)
    ensures SegmentFormLength(m, inside, ps, seg, n) == EscapeLength(m, inside, ps, n)
  {
    UniformArcLength(m, ps, seg, FirstOutside(inside, ps) - 1);
  }

  lemma SegmentFormAt(m: Analytic, inside: Vec -> bool, ps: seq<Vec>, seg: real, n: nat, k: nat, d: real)
    requires Escapes(inside, ps) && k == FirstOutside(inside, ps)
    requires d == DistanceToBoundary(m, inside, PointAt(ps, k - 1), PointAt(ps, k), n)
    ensures SegmentFormLength(m, inside, ps, seg, n) == seg * (k - 1) as real + d
  {
  }

  lemma EscapeLengthAt(m: Analytic, inside: Vec -> bool, ps: seq<Vec>, n: nat, k: nat, d: real)
    requires Escapes(inside, ps) && k == FirstOutside(inside, ps)
    requires d == DistanceToBoundary(m, inside, PointAt(ps, k - 1), PointAt(ps, k), n)
    ensures EscapeLength(m, inside, ps, n) == ArcLength(m, ps, k - 1) + d
  {
  }

  /** What `get_max_len_inside` returns: the segment-size form for a curve
      that stores a segment size, the cumulative form otherwise. */
  ghost function CurveLength(m: Analytic, inside: Vec -> bool, c: EscapeCurve, n: nat): real
    requires Escapes(inside, c.points)
  {
    match c.segmentSize
    case Some(seg) => SegmentFormLength(m, inside, c.points, seg, n)
    case None => EscapeLength(m, inside, c.points, n)
  }

  /** When the stored segment size is truthful, the result is the escape length. */
  lemma CurveLengthIsEscapeLength(m: Analytic, inside: Vec -> bool, c: EscapeCurve, n: nat)
    requires Escapes(inside, c.points) && SizeConsistent(m, c)
    ensures CurveLength(m, inside, c, n) == EscapeLength(m, inside, c.points, n)
  {
    if c.segmentSize.Some? {
      SegmentFormIsEscapeLength(m, inside, c.points, c.segmentSize.value, n);
    }
  }

  /** With segments of length s and a truthful stored size, the result is
      s (k - 1) plus the bisection distance, k being the first outside index. */
  lemma UniformCurveLength(m: Analytic, inside: Vec -> bool, c: EscapeCurve, s: real, n: nat, k: nat, a: real, d: real)
    requires UniformSegments(m, c.points, s) && SizeConsistent(m, c)
    requires Escapes(inside, c.points) && k == FirstOutside(inside, c.points) && a == (k - 1) as real
    requires d == DistanceToBoundary(m, inside, PointAt(c.points, k - 1), PointAt(c.points, k), n)
    ensures CurveLength(m, inside, c, n) == s * a + d
  {
    UniformEscapeLength(m, inside, c.points, s, n, k, a, d);
    CurveLengthIsEscapeLength(m, inside, c, n);
  }

  /** The escape length of a curve with segments of length s. */
  lemma UniformEscapeLength(m: Analytic, inside: Vec -> bool, ps: seq<Vec>, s: real, n: nat, k: nat, a: real, d: real)
    requires UniformSegments(m, ps, s)
    requires Escapes(inside, ps) && k == FirstOutside(inside, ps) && a == (k - 1) as real
    requires d == DistanceToBoundary(m, inside, PointAt(ps, k - 1), PointAt(ps, k), n)
    ensures EscapeLength(m, inside, ps, n) == s * a + d
  {
    UniformArcLength(m, ps, s, k - 1);
    EscapeLengthAt(m, inside, ps, n, k, d);
  }

  /** The scan of `get_max_len_inside`: index the curve (growing it as needed)
      until the first point outside the set, which is at index k >= 1. */
  method ScanFirstOutside(inside: Vec -> bool, ps: seq<Vec>) returns (k: nat, grown: seq<Vec>)
    requires Escapes(inside, ps)
    ensures k == FirstOutside(inside, ps)
    ensures 1 <= k < |grown|
    ensures inside(grown[k - 1]) && !inside(grown[k])
    ensures SameExtension(ps, grown)
    ensures |ps| <= |grown| && grown[..|ps|] == ps
  {
    ghost var last := FirstOutside(inside, ps);
    var p;
    grown, p := GetItem(ps, 0);
    k := 0;
    while inside(p)
      invariant k <= last
      invariant |ps| <= |grown| && grown[..|ps|] == ps
      invariant forall j :: 0 <= j < |grown| ==> grown[j] == PointAt(ps, j)
      invariant k < |grown| && p == PointAt(ps, k)
      decreases last - k
    {
      assert k != last;
      k := k + 1;
      ghost var before := grown;
      grown, p := GetItem(grown, k);
      forall j | 0 <= j < |grown|
        ensures grown[j] == PointAt(ps, j)
      {
        ExtendedPointAt(ps, before, j);
      }
    }
    GrownSameExtension(ps, grown);
  }

  /** `get_max_len_inside`: scan for the first outside point k, then return
      segment_size (k - 1) plus the bisection distance on the segment from
      point k - 1 to point k. A curve without a segment size uses the cumulative
      length to point k - 1. The point list may grow; the extended curve does
      not change. */
  method GetMaxLenInside(m: Analytic, inside: Vec -> bool, c: EscapeCurve, n: nat) returns (len: real, grown: seq<Vec>)
    requires Escapes(inside, c.points)
    ensures SameExtension(c.points, grown)
    ensures |c.points| <= |grown| && grown[..|c.points|] == c.points
    ensures len == CurveLength(m, inside, c, n)
    ensures SizeConsistent(m, c) ==> len == EscapeLength(m, inside, c.points, n)
  {
    var ps := c.points;
    var k;
    k, grown := ScanFirstOutside(inside, ps);
    var d := FindDistanceToBoundary(m, inside, grown[k - 1], grown[k], n);
    assert grown[k - 1] == PointAt(ps, k - 1) && grown[k] == PointAt(ps, k);
    match c.segmentSize {
      case Some(seg) =>
        len := seg * (k - 1) as real + d;
        SegmentFormAt(m, inside, ps, seg, n, k, d);
      case None =>
        SameExtensionArcLength(m, ps, grown, k - 1);
        len := ArcLength(m, grown, k - 1) + d;
        EscapeLengthAt(m, inside, ps, n, k, d);
    }
    if SizeConsistent(m, c) {
      CurveLengthIsEscapeLength(m, inside, c, n);
    }
  }

  /** Calling `get_max_len_inside` again on the grown curve returns the same
      value, because the growth does not change the extended curve. */
  method GetMaxLenInsideTwice(m: Analytic, inside: Vec -> bool, c: EscapeCurve, n: nat)
    returns (first: real, second: real)
    requires Escapes(inside, c.points)
    ensures first == second
  {
    var grown;
    first, grown := GetMaxLenInside(m, inside, c, n);
    SameExtensionSameEscape(m, inside, c.points, grown, n);
    var c' := EscapeCurve(grown, c.segmentSize);
    SameExtensionSameCurveLength(m, inside, c, c', n);
    var g2;
    second, g2 := GetMaxLenInside(m, inside, c', n);
  }

  /** Curves with the same extension and the same stored segment size have the same result. */
  lemma SameExtensionSameCurveLength(m: Analytic, inside: Vec -> bool, c: EscapeCurve, c': EscapeCurve, n: nat)
    requires SameExtension(c.points, c'.points) && c.segmentSize == c'.segmentSize
    requires Escapes(inside, c.points)
    ensures Escapes(inside, c'.points)
    ensures CurveLength(m, inside, c, n) == CurveLength(m, inside, c', n)
  {
    SameExtensionSameEscape(m, inside, c.points, c'.points, n);
    if c.segmentSize.Some? {
      var k := FirstOutside(inside, c.points);
      var d := DistanceToBoundary(m, inside, PointAt(c.points, k - 1), PointAt(c.points, k), n);
      SegmentFormAt(m, inside, c.points, c.segmentSize.value, n, k, d);
      SegmentFormAt(m, inside, c'.points, c.segmentSize.value, n, k, d);
    }
  }

  /** Growing a curve with uniform segments keeps them uniform. */
  lemma GrownUniform(m: Analytic, ps: seq<Vec>, grown: seq<Vec>, seg: real)
    requires UniformSegments(m, ps, seg) && |ps| <= |grown|
    requires forall j :: 0 <= j < |grown| ==> grown[j] == PointAt(ps, j)
    ensures UniformSegments(m, grown, seg)
  {
    forall i | 0 <= i < |grown| - 1
      ensures StepIs(m, grown, i, seg)
    {
      if i + 1 >= |ps| {
        ExtensionSteps(ps, i);
        assert Sub(grown[i + 1], grown[i]) == Sub(ps[|ps| - 1], ps[|ps| - 2]);
        assert StepIs(m, ps, |ps| - 2, seg);
      } else {
        assert StepIs(m, ps, i, seg);
      }
    }
  }
}
