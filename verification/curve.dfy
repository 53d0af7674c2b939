/** Curves as polylines built from a flat list of parameters.

    A logo curve turns by each angle relative to the current heading before
    taking a step of fixed length; an azimuth curve takes each angle as the
    absolute heading of its step. Both start at a given position. */
module Curves {
  import opened Basics
  import opened Geometry

  datatype AngleKind = Logo | Azimuth

  /** The points reached by logo steps from `pos`, when the heading so far is `heading`. */
  function LogoFrom(m: Analytic, angles: seq<real>, seg: real, heading: real, pos: Vec): (r: seq<Vec>)
    ensures |r| == |angles|
    decreases |angles|
  {
    if |angles| == 0 then []
    else
      var h := heading + angles[0];
      var p := Add(pos, Scale(seg, Dir(m, h)));
      [p] + LogoFrom(m, angles[1..], seg, h, p)
  }

  /** The points reached by azimuth steps from `pos`. */
  function AzimuthFrom(m: Analytic, angles: seq<real>, seg: real, pos: Vec): (r: seq<Vec>)
    ensures |r| == |angles|
    decreases |angles|
  {
    if |angles| == 0 then []
    else
      var p := Add(pos, Scale(seg, Dir(m, angles[0])));
      [p] + AzimuthFrom(m, angles[1..], seg, p)
  }

  /** `angles_to_points_logo`: one point more than there are angles, the first being the start. */
  function AnglesToPointsLogo(m: Analytic, angles: seq<real>, seg: real, start: Vec): (r: seq<Vec>)
    ensures |r| == |angles| + 1 && r[0] == start
  {
    [start] + LogoFrom(m, angles, seg, 0.0, start)
  }

  /** `angles_to_points_azimuth`: one point more than there are angles, the first being the start. */
  function AnglesToPointsAzimuth(m: Analytic, angles: seq<real>, seg: real, start: Vec): (r: seq<Vec>)
    ensures |r| == |angles| + 1 && r[0] == start
  {
    [start] + AzimuthFrom(m, angles, seg, start)
  }

  /** Running totals of `angles`, each offset by `acc`. */
  function PrefixSumsFrom(angles: seq<real>, acc: real): (r: seq<real>)
    ensures |r| == |angles|
    ensures forall i :: 0 <= i < |r| ==> r[i] == acc + Sum(angles[..i + 1])
    decreases |angles|
  {
    if |angles| == 0 then []
    else
      var rest := PrefixSumsFrom(angles[1..], acc + angles[0]);
      var r := [acc + angles[0]] + rest;
      assert forall i :: 0 <= i < |r| ==> r[i] == acc + Sum(angles[..i + 1]) by {
        forall i | 0 <= i < |r|
          ensures r[i] == acc + Sum(angles[..i + 1])
        {
          SumPrefixHead(angles, i);
        }
      }
      r
  }

  /** `logo_agnles_to_azimuth_angles`: the heading after each turn, i.e. the prefix sums. */
  function LogoToAzimuthAngles(angles: seq<real>): (r: seq<real>)
    ensures |r| == |angles|
    ensures forall i :: 0 <= i < |r| ==> r[i] == Sum(angles[..i + 1])
  {
    PrefixSumsFrom(angles, 0.0)
  }

  /** The point list of an angle curve of the given kind, starting at the origin
      (the class produced by `get_angle_curve_class`). */
  function AngleCurve(m: Analytic, kind: AngleKind, angles: seq<real>, seg: real): (r: seq<Vec>)
    ensures |r| == |angles| + 1 && r[0] == Origin
  {
    match kind
    case Logo => AnglesToPointsLogo(m, angles, seg, Origin)
    case Azimuth => AnglesToPointsAzimuth(m, angles, seg, Origin)
  }

  /** `PointCurve`: the given points, preceded by the origin. */
  function PointCurve(pts: seq<Vec>): (r: seq<Vec>)
    ensures |r| == |pts| + 1 && r[0] == Origin && r[1..] == pts
  {
    [Origin] + pts
  }

  function XList(ps: seq<Vec>): (r: seq<real>)
    ensures |r| == |ps|
    ensures forall i :: 0 <= i < |ps| ==> r[i] == ps[i].x
  {
    seq(|ps|, i requires 0 <= i < |ps| => ps[i].x)
  }

  function YList(ps: seq<Vec>): (r: seq<real>)
    ensures |r| == |ps|
    ensures forall i :: 0 <= i < |ps| ==> r[i] == ps[i].y
  {
    seq(|ps|, i requires 0 <= i < |ps| => ps[i].y)
  }

  /** Pairs up two coordinate lists of equal length. */
  function Zip(xs: seq<real>, ys: seq<real>): (r: seq<Vec>)
    requires |xs| == |ys|
    ensures |r| == |xs|
  {
    seq(|xs|, i requires 0 <= i < |xs| => Vec(xs[i], ys[i]))
  }

  /** The two projections lose nothing: zipping them back gives the points. */
  lemma ProjectionsRoundTrip(ps: seq<Vec>)
    ensures Zip(XList(ps), YList(ps)) == ps
  {
  }

  /** Logo point list = azimuth point list over the prefix sums, from any heading. */
  lemma {:induction false} LogoFromIsAzimuthFrom(m: Analytic, angles: seq<real>, seg: real, heading: real, pos: Vec)
    ensures LogoFrom(m, angles, seg, heading, pos) == AzimuthFrom(m, PrefixSumsFrom(angles, heading), seg, pos)
    decreases |angles|
  {
    if |angles| > 0 {
      var h := heading + angles[0];
      var p := Add(pos, Scale(seg, Dir(m, h)));
      LogoFromIsAzimuthFrom(m, angles[1..], seg, h, p);
    }
  }

  /** A logo curve is the azimuth curve of its prefix sums, point for point. */
  lemma LogoIsAzimuthOfPrefixSums(m: Analytic, angles: seq<real>, seg: real, start: Vec)
    ensures AnglesToPointsLogo(m, angles, seg, start)
         == AnglesToPointsAzimuth(m, LogoToAzimuthAngles(angles), seg, start)
  {
    LogoFromIsAzimuthFrom(m, angles, seg, 0.0, start);
  }

  /** Azimuth step i moves by `seg` along the absolute heading angles[i]. */
  lemma {:induction false} AzimuthStep(m: Analytic, angles: seq<real>, seg: real, start: Vec, i: nat)
    requires i < |angles|
    ensures var r := AnglesToPointsAzimuth(m, angles, seg, start);
      r[i + 1] == Add(r[i], Scale(seg, Dir(m, angles[i])))
    decreases i
  {
    if i > 0 {
      var p := Add(start, Scale(seg, Dir(m, angles[0])));
      AzimuthStep(m, angles[1..], seg, p, i - 1);
    }
  }

  /** Logo step i moves by `seg` along the accumulated heading angles[0] + ... + angles[i]. */
  lemma LogoStep(m: Analytic, angles: seq<real>, seg: real, start: Vec, i: nat)
    requires i < |angles|
    ensures var r := AnglesToPointsLogo(m, angles, seg, start);
      r[i + 1] == Add(r[i], Scale(seg, Dir(m, Sum(angles[..i + 1]))))
  {
    LogoIsAzimuthOfPrefixSums(m, angles, seg, start);
    AzimuthStep(m, LogoToAzimuthAngles(angles), seg, start, i);
  }

  /** Every segment of an angle curve has length `seg`. */
  lemma SegmentLength(m: Analytic, kind: AngleKind, angles: seq<real>, seg: real, i: nat)
    requires Lawful(m) && 0.0 <= seg && i < |angles|
    ensures var r := AngleCurve(m, kind, angles, seg);
      Dist(m, r[i], r[i + 1]) == seg
  {
    var r := AngleCurve(m, kind, angles, seg);
    var h := if kind == Logo then Sum(angles[..i + 1]) else angles[i];
    if kind == Logo {
      LogoStep(m, angles, seg, Origin, i);
    } else {
      AzimuthStep(m, angles, seg, Origin, i);
    }
    assert Sub(r[i + 1], r[i]) == Scale(seg, Dir(m, h));
    NormOfStep(m, seg, h);
  }

  /** Turns of 0, 90, 90 and 90 degrees with unit steps trace the unit square
      counter-clockwise and return to the origin. */
  lemma UnitSquare(m: Analytic)
    requires Lawful(m)
    ensures var r := AngleCurve(m, Logo, [0.0, m.quarter, m.quarter, m.quarter], 1.0);
      && XList(r) == [0.0, 1.0, 1.0, 0.0, 0.0]
      && YList(r) == [0.0, 0.0, 1.0, 1.0, 0.0]
  {
    var q := m.quarter;
    RightAngles(m);
    assert q + q == 2.0 * q;
    assert q + q + q == 3.0 * q;
    SquareWalk(m, q);
  }

  /** The walk of the unit square, from the four headings it uses. */
  lemma SquareWalk(m: Analytic, q: real)
    requires Dir(m, 0.0) == Vec(1.0, 0.0) && Dir(m, q) == Vec(0.0, 1.0)
    requires Dir(m, q + q) == Vec(-1.0, 0.0) && Dir(m, q + q + q) == Vec(0.0, -1.0)
    ensures var r := AngleCurve(m, Logo, [0.0, q, q, q], 1.0);
      && XList(r) == [0.0, 1.0, 1.0, 0.0, 0.0]
      && YList(r) == [0.0, 0.0, 1.0, 1.0, 0.0]
  {
    SquareWalkTail(m, q);
    var p1 := Add(Origin, Scale(1.0, Dir(m, 0.0 + 0.0)));
    assert p1 == Vec(1.0, 0.0);
    assert [0.0, q, q, q][1..] == [q, q, q];
    var r := AngleCurve(m, Logo, [0.0, q, q, q], 1.0);
    assert r == [Vec(0.0, 0.0), Vec(1.0, 0.0), Vec(1.0, 1.0), Vec(0.0, 1.0), Vec(0.0, 0.0)];
  }

  lemma SquareWalkTail(m: Analytic, q: real)
    requires Dir(m, q) == Vec(0.0, 1.0)
    requires Dir(m, q + q) == Vec(-1.0, 0.0) && Dir(m, q + q + q) == Vec(0.0, -1.0)
    ensures LogoFrom(m, [q, q, q], 1.0, 0.0, Vec(1.0, 0.0)) == [Vec(1.0, 1.0), Vec(0.0, 1.0), Vec(0.0, 0.0)]
  {
    SquareWalkLastTwo(m, q);
    var p2 := Add(Vec(1.0, 0.0), Scale(1.0, Dir(m, 0.0 + q)));
    assert 0.0 + q == q;
    assert p2 == Vec(1.0, 1.0);
    assert [q, q, q][1..] == [q, q];
  }

  lemma SquareWalkLastTwo(m: Analytic, q: real)
    requires Dir(m, q + q) == Vec(-1.0, 0.0) && Dir(m, q + q + q) == Vec(0.0, -1.0)
    ensures LogoFrom(m, [q, q], 1.0, q, Vec(1.0, 1.0)) == [Vec(0.0, 1.0), Vec(0.0, 0.0)]
  {
    assert [q, q][1..] == [q];
    var p := Add(Vec(1.0, 1.0), Scale(1.0, Dir(m, q + q)));
    assert p == Vec(0.0, 1.0);
    var p2 := Add(p, Scale(1.0, Dir(m, q + q + q)));
    assert p2 == Vec(0.0, 0.0);
    assert LogoFrom(m, [q], 1.0, q + q, p) == [p2];
  }
}
