/** The comparison of logo and azimuth curves: one list of turning angles is
    drawn by both kinds (as headings, via prefix sums, for azimuth), angle 3 is
    perturbed frame by frame, the plot limits cover every frame, and the frame
    parameters run forward and back. */
module CurveComparison {
  import opened Basics
  import opened Geometry
  import opened Curves

  /** `_PERTURBED_IND`. */
  const PerturbedInd: nat := 3

  /** `_perturbe_angle_list`: a copy with entry 3 increased by the perturbation;
      a shorter list fails on the index. */
  function PerturbeAngleList(angles: seq<real>, p: real): (r: seq<real>)
    requires PerturbedInd < |angles|
    ensures |r| == |angles| && r[PerturbedInd] == angles[PerturbedInd] + p
    ensures forall i :: 0 <= i < |r| && i != PerturbedInd ==> r[i] == angles[i]
  {
    angles[PerturbedInd := angles[PerturbedInd] + p]
  }

  /** Perturbing back by -p restores the list. */
  lemma PerturbeInverse(angles: seq<real>, p: real)
    requires PerturbedInd < |angles|
    ensures PerturbeAngleList(PerturbeAngleList(angles, p), -p) == angles
  {
  }

  /** `_transform_angles`: turning angles as they are for a logo curve, their
      prefix sums (the headings) for an azimuth curve. */
  function TransformAngles(kind: AngleKind, angles: seq<real>): (r: seq<real>)
    ensures |r| == |angles|
  {
    match kind
    case Logo => angles
    case Azimuth => LogoToAzimuthAngles(angles)
  }

  /** Unperturbed, both kinds draw the same curve from the transformed angles. */
  lemma TransformSameCurve(m: Analytic, kind: AngleKind, angles: seq<real>, seg: real)
    ensures AngleCurve(m, kind, TransformAngles(kind, angles), seg) == AngleCurve(m, Logo, angles, seg)
  {
    LogoIsAzimuthOfPrefixSums(m, angles, seg, Origin);
  }

  /** Points 0..k of an angle curve depend only on its first k angles. */
  lemma PrefixDetermined(m: Analytic, kind: AngleKind, a: seq<real>, b: seq<real>, seg: real, k: nat)
    requires k <= |a| && k <= |b| && a[..k] == b[..k]
    ensures AngleCurve(m, kind, a, seg)[..k + 1] == AngleCurve(m, kind, b, seg)[..k + 1]
  {
    forall i | 0 <= i <= k
      ensures AngleCurve(m, kind, a, seg)[i] == AngleCurve(m, kind, b, seg)[i]
    {
      PointsAgree(m, kind, a, b, seg, k, i);
    }
  }

  lemma {:induction false} PointsAgree(m: Analytic, kind: AngleKind, a: seq<real>, b: seq<real>, seg: real, k: nat, i: nat)
    requires k <= |a| && k <= |b| && a[..k] == b[..k] && i <= k
    ensures AngleCurve(m, kind, a, seg)[i] == AngleCurve(m, kind, b, seg)[i]
    decreases i
  {
    if i > 0 {
      PointsAgree(m, kind, a, b, seg, k, i - 1);
      if kind == Logo {
        LogoStep(m, a, seg, Origin, i - 1);
        LogoStep(m, b, seg, Origin, i - 1);
        assert a[..i] == a[..k][..i] == b[..k][..i] == b[..i];
      } else {
        AzimuthStep(m, a, seg, Origin, i - 1);
        AzimuthStep(m, b, seg, Origin, i - 1);
        assert a[i - 1] == a[..k][i - 1] == b[..k][i - 1] == b[i - 1];
      }
    }
  }

  /** The perturbation of angle 3 never moves points 0..3 (for either kind);
      it shows from point 4 on, the marked point of the animation. */
  lemma PerturbationKeepsStart(m: Analytic, kind: AngleKind, angles: seq<real>, p: real, seg: real)
    requires PerturbedInd < |angles|
    ensures AngleCurve(m, kind, PerturbeAngleList(angles, p), seg)[..PerturbedInd + 1]
         == AngleCurve(m, kind, angles, seg)[..PerturbedInd + 1]
  {
    var q := PerturbeAngleList(angles, p);
    assert q[..PerturbedInd] == angles[..PerturbedInd];
    PrefixDetermined(m, kind, q, angles, seg, PerturbedInd);
  }

  /** The curve of one frame: `_to_curve(cls, _perturbe_angle_list(_transform_angles(cls, angles), p))`, unit segments. */
  function FrameCurve(m: Analytic, kind: AngleKind, angles: seq<real>, p: real): (r: seq<Vec>)
    requires PerturbedInd < |angles|
    ensures |r| == |angles| + 1
  {
    AngleCurve(m, kind, PerturbeAngleList(TransformAngles(kind, angles), p), 1.0)
  }

  /** The curves of `itertools.product(classes, perturbations)`, kinds outermost. */
  function AllFrameCurves(m: Analytic, kinds: seq<AngleKind>, angles: seq<real>, perts: seq<real>): (r: seq<seq<Vec>>)
    requires PerturbedInd < |angles|
    ensures |r| == |kinds| * |perts|
    ensures forall i :: 0 <= i < |r| ==> |r[i]| == |angles| + 1
    decreases |kinds|
  {
    if |kinds| == 0 then []
    else
      var rest := AllFrameCurves(m, kinds[1..], angles, perts);
      assert |kinds| * |perts| == |perts| + |kinds[1..]| * |perts| by {
        assert |kinds| == |kinds[1..]| + 1;
      }
      KindFrames(m, kinds[0], angles, perts) + rest
  }

  /** The frames of one kind, one per perturbation. */
  function KindFrames(m: Analytic, kind: AngleKind, angles: seq<real>, perts: seq<real>): (r: seq<seq<Vec>>)
    requires PerturbedInd < |angles|
    ensures |r| == |perts|
    ensures forall j :: 0 <= j < |perts| ==> r[j] == FrameCurve(m, kind, angles, perts[j])
  {
    seq(|perts|, j requires 0 <= j < |perts| => FrameCurve(m, kind, angles, perts[j]))
  }

  /** Every (kind, perturbation) pair has its curve in the product. */
  lemma {:induction false} FrameCurvesPresent(m: Analytic, kinds: seq<AngleKind>, angles: seq<real>, perts: seq<real>, i: nat, j: nat)
    requires PerturbedInd < |angles| && i < |kinds| && j < |perts|
    ensures FrameCurve(m, kinds[i], angles, perts[j]) in AllFrameCurves(m, kinds, angles, perts)
    decreases i
  {
    var first := KindFrames(m, kinds[0], angles, perts);
    var rest := AllFrameCurves(m, kinds[1..], angles, perts);
    assert AllFrameCurves(m, kinds, angles, perts) == first + rest;
    if i == 0 {
      assert first[j] in first + rest;
    } else {
      FrameCurvesPresent(m, kinds[1..], angles, perts, i - 1, j);
      assert kinds[1..][i - 1] == kinds[i];
    }
  }

  /** Plot limits: `[inf, -inf]` before any value is seen, then a range. */
  datatype Limits = Unset | Range(lo: real, hi: real)

  /** lo is the least and hi the greatest value over all lists, each attained. */
  predicate IsHull(lists: seq<seq<real>>, lo: real, hi: real)
  {
    && (forall i, j :: 0 <= i < |lists| && 0 <= j < |lists[i]| ==> lo <= lists[i][j] <= hi)
    && (exists i, j :: 0 <= i < |lists| && 0 <= j < |lists[i]| && lists[i][j] == lo)
    && (exists i, j :: 0 <= i < |lists| && 0 <= j < |lists[i]| && hi == lists[i][j])
  }

  /** One axis of `_find_limits`: `update_limits` over every value list, then
      `add_margin` of 0.3 on both sides. Python's `min` needs non-empty lists,
      which curve coordinate lists are. */
  method AxisLimits(lists: seq<seq<real>>) returns (r: Limits)
    requires forall i :: 0 <= i < |lists| ==> |lists[i]| > 0
    ensures r.Unset? <==> |lists| == 0
    ensures r.Range? ==> IsHull(lists, r.lo + 0.3, r.hi - 0.3)
  {
    var cur := Unset;
    for k := 0 to |lists|
      invariant cur.Unset? <==> k == 0
      invariant cur.Range? ==> IsHull(lists[..k], cur.lo, cur.hi)
    {
      var lo := MinOf(lists[k]);
      var hi := MaxOf(lists[k]);
      if cur.Range? {
        lo := Min(cur.lo, lo);
        hi := Max(cur.hi, hi);
      }
      HullStep(lists, k, cur, lo, hi);
      cur := Range(lo, hi);
    }
    assert lists[..|lists|] == lists;
    r := if cur.Unset? then Unset else Range(cur.lo - 0.3, cur.hi + 0.3);
  }

  /** Folding list k into the limits of lists 0..k-1 gives the limits of lists 0..k. */
  lemma HullStep(lists: seq<seq<real>>, k: nat, cur: Limits, lo: real, hi: real)
    requires k < |lists| && |lists[k]| > 0
    requires cur.Unset? <==> k == 0
    requires cur.Range? ==> IsHull(lists[..k], cur.lo, cur.hi)
    requires lo == if cur.Range? then Min(cur.lo, MinOf(lists[k])) else MinOf(lists[k])
    requires hi == if cur.Range? then Max(cur.hi, MaxOf(lists[k])) else MaxOf(lists[k])
    ensures IsHull(lists[..k + 1], lo, hi)
  {
    var pre := lists[..k + 1];
    assert pre[k] == lists[k];
    assert forall i :: 0 <= i < k ==> pre[i] == lists[..k][i];
    LowAttained(lists, k, cur, lo);
    HighAttained(lists, k, cur, hi);
  }

  /** The new lower limit is a value of lists 0..k. */
  lemma LowAttained(lists: seq<seq<real>>, k: nat, cur: Limits, lo: real)
    requires k < |lists| && |lists[k]| > 0
    requires cur.Range? ==> k > 0 && IsHull(lists[..k], cur.lo, cur.hi)
    requires lo == if cur.Range? then Min(cur.lo, MinOf(lists[k])) else MinOf(lists[k])
    ensures exists i, j :: 0 <= i < k + 1 && 0 <= j < |lists[i]| && lists[i][j] == lo
  {
    if cur.Range? && cur.lo < MinOf(lists[k]) {
      var i, j :| 0 <= i < |lists[..k]| && 0 <= j < |lists[..k][i]| && lists[..k][i][j] == cur.lo;
      assert lists[i][j] == lo;
    } else {
      var j :| 0 <= j < |lists[k]| && lists[k][j] == MinOf(lists[k]);
      assert lists[k][j] == lo;
    }
  }

  /** The new upper limit is a value of lists 0..k. */
  lemma HighAttained(lists: seq<seq<real>>, k: nat, cur: Limits, hi: real)
    requires k < |lists| && |lists[k]| > 0
    requires cur.Range? ==> k > 0 && IsHull(lists[..k], cur.lo, cur.hi)
    requires hi == if cur.Range? then Max(cur.hi, MaxOf(lists[k])) else MaxOf(lists[k])
    ensures exists i, j :: 0 <= i < k + 1 && 0 <= j < |lists[i]| && hi == lists[i][j]
  {
    if cur.Range? && cur.hi > MaxOf(lists[k]) {
      var i, j :| 0 <= i < |lists[..k]| && 0 <= j < |lists[..k][i]| && cur.hi == lists[..k][i][j];
      assert hi == lists[i][j];
    } else {
      var j :| 0 <= j < |lists[k]| && lists[k][j] == MaxOf(lists[k]);
      assert hi == lists[k][j];
    }
  }

  /** `_find_limits`: x and y limits over every frame curve of both animations. */
  method FindLimits(m: Analytic, kinds: seq<AngleKind>, angles: seq<real>, perts: seq<real>)
    returns (xs: Limits, ys: Limits)
    requires PerturbedInd < |angles|
    ensures xs.Unset? <==> |kinds| * |perts| == 0
    ensures ys.Unset? <==> |kinds| * |perts| == 0
    ensures xs.Range? ==> IsHull(CoordLists(AllFrameCurves(m, kinds, angles, perts), true), xs.lo + 0.3, xs.hi - 0.3)
    ensures ys.Range? ==> IsHull(CoordLists(AllFrameCurves(m, kinds, angles, perts), false), ys.lo + 0.3, ys.hi - 0.3)
  {
    var curves := AllFrameCurves(m, kinds, angles, perts);
    xs := AxisLimits(CoordLists(curves, true));
    ys := AxisLimits(CoordLists(curves, false));
  }

  /** The `x_list` (or `y_list`) of every curve. */
  function CoordLists(curves: seq<seq<Vec>>, xAxis: bool): (r: seq<seq<real>>)
    requires forall i :: 0 <= i < |curves| ==> |curves[i]| > 0
    ensures |r| == |curves|
    ensures forall i :: 0 <= i < |r| ==> r[i] == if xAxis then XList(curves[i]) else YList(curves[i])
    ensures forall i :: 0 <= i < |r| ==> |r[i]| > 0
  {
    seq(|curves|, i requires 0 <= i < |curves| => if xAxis then XList(curves[i]) else YList(curves[i]))
  }

  function Reverse<T>(s: seq<T>): (r: seq<T>)
    ensures |r| == |s| && forall i :: 0 <= i < |s| ==> r[i] == s[|s| - 1 - i]
  {
    seq(|s|, i requires 0 <= i < |s| => s[|s| - 1 - i])
  }

  /** `frame_params + frame_params[1:-1][::-1]`: forward through the
      perturbations, then back without repeating either end. */
  function FrameParams(p: seq<real>): (r: seq<real>)
    ensures |p| >= 2 ==> |r| == 2 * |p| - 2
    ensures |p| < 2 ==> r == p
    ensures r[..|p|] == p
  {
    if |p| >= 2 then p + Reverse(p[1..|p| - 1]) else p
  }

  /** The animation is a loop: frame i and frame 2n - 2 - i show the same perturbation. */
  lemma FrameParamsPalindrome(p: seq<real>)
    requires |p| >= 2
    ensures forall i :: 1 <= i <= 2 * |p| - 3 ==> FrameParams(p)[i] == FrameParams(p)[2 * |p| - 2 - i]
  {
    var r := FrameParams(p);
    var n := |p|;
    forall i | 1 <= i <= 2 * n - 3
      ensures r[i] == r[2 * n - 2 - i]
    {
      var j := 2 * n - 2 - i;
      if i < n {
        if j >= n {
          assert r[j] == p[1..n - 1][(n - 2) - 1 - (j - n)];
        }
      } else {
        assert r[i] == p[1..n - 1][(n - 2) - 1 - (i - n)];
      }
    }
  }
}
