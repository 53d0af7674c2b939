/** The cut of a curve at a given length, as the optimisation animations
    draw it: find the segment on which the cumulative length reaches the
    length, then the point on that segment where it is reached exactly.
    The curve is read through its straight extension, as indexing the
    curve object does. */
module AnimationUtils {
  import opened Basics
  import opened Geometry
  import opened Extendable
  import opened Escape
  import opened RayEscape

  /** Node `node` is where the length is reached: the cumulative length to it
      is `prev`, the next segment has length `last`, and prev < len <= prev + last. */
  predicate IsLastNode(m: Analytic, ps: seq<Vec>, len: real, node: nat, prev: real, last: real)
    requires |ps| >= 2
  {
    && prev == ArcLength(m, ps, node)
    && last == Dist(m, PointAt(ps, node), PointAt(ps, node + 1))
    && prev < len <= prev + last
  }

  /** `_find_last_node_num(curve_data, in_len)`. The loop ends only when the
      cumulative length reaches `in_len`; `bound` is an index where it does. */
  method FindLastNodeNum(m: Analytic, ps: seq<Vec>, inLen: real, ghost bound: nat)
    returns (node: nat, prevLen: real, lastLen: real)
    requires Lawful(m) && |ps| >= 2 && 0.0 < inLen && inLen <= ArcLength(m, ps, bound)
    ensures IsLastNode(m, ps, inLen, node, prevLen, lastLen)
  {
    var curLen := 0.0;
    prevLen := -1.0;
    lastLen := 0.0;
    var k: nat := 0;
    while curLen < inLen
      invariant k <= bound && Scanned(m, ps, inLen, k, curLen, prevLen, lastLen)
      decreases bound - k
    {
      ShortOfBound(m, ps, k, bound);
      var shift := Sub(PointAt(ps, k + 1), PointAt(ps, k));
      ScanStep(m, ps, inLen, k, curLen, prevLen, lastLen);
      prevLen := curLen;
      lastLen := Norm(m, shift);
      curLen := curLen + lastLen;
      k := k + 1;
    }
    ScanDone(m, ps, inLen, k, curLen, prevLen, lastLen);
    node := k - 1;
  }

  /** The loop state after k rounds: the cumulative length to node k, and for
      k > 0 the one to node k - 1, still short of the length, and the segment between. */
  predicate Scanned(m: Analytic, ps: seq<Vec>, len: real, k: nat, cur: real, prev: real, last: real)
    requires |ps| >= 2
  {
    && cur == ArcLength(m, ps, k)
    && (k > 0 ==> prev == ArcLength(m, ps, k - 1) && prev < len
                  && last == Dist(m, PointAt(ps, k - 1), PointAt(ps, k)))
  }

  /** A node whose cumulative length is below the one of node `bound` comes before it. */
  lemma ShortOfBound(m: Analytic, ps: seq<Vec>, k: nat, bound: nat)
    requires Lawful(m) && |ps| >= 2 && ArcLength(m, ps, k) < ArcLength(m, ps, bound)
    ensures k < bound
  {
    if bound <= k {
      ArcLengthMonotone(m, ps, bound, k);
    }
  }

  /** When the loop stops, node k - 1 is where the length is reached. */
  lemma ScanDone(m: Analytic, ps: seq<Vec>, len: real, k: nat, cur: real, prev: real, last: real)
    requires |ps| >= 2 && Scanned(m, ps, len, k, cur, prev, last) && 0.0 < len <= cur
    ensures k > 0 && IsLastNode(m, ps, len, k - 1, prev, last)
  {
    assert k > 0;
    assert ArcLength(m, ps, k) == prev + last;
  }

  /** One round of the loop, taken while the length is not reached. */
  lemma ScanStep(m: Analytic, ps: seq<Vec>, len: real, k: nat, cur: real, prev: real, last: real)
    requires |ps| >= 2 && Scanned(m, ps, len, k, cur, prev, last) && cur < len
    ensures var d := Dist(m, PointAt(ps, k), PointAt(ps, k + 1));
      Scanned(m, ps, len, k + 1, cur + d, cur, d)
  {
    var d := Dist(m, PointAt(ps, k), PointAt(ps, k + 1));
    assert ArcLength(m, ps, k + 1) == cur + d;
  }

  /** At most one node satisfies the condition: the result is determined by the curve and the length. */
  lemma LastNodeUnique(m: Analytic, ps: seq<Vec>, len: real, n1: nat, p1: real, l1: real, n2: nat, p2: real, l2: real)
    requires Lawful(m) && |ps| >= 2
    requires IsLastNode(m, ps, len, n1, p1, l1) && IsLastNode(m, ps, len, n2, p2, l2)
    ensures n1 == n2 && p1 == p2 && l1 == l2
  {
    if n1 < n2 {
      ArcLengthMonotone(m, ps, n1 + 1, n2);
    } else if n2 < n1 {
      ArcLengthMonotone(m, ps, n2 + 1, n1);
    }
  }

  /** The remainder in_len - prev_len lies in (0, last_segment_len]. */
  lemma RemainderBounds(m: Analytic, ps: seq<Vec>, len: real, node: nat, prev: real, last: real)
    requires |ps| >= 2 && IsLastNode(m, ps, len, node, prev, last)
    ensures 0.0 < len - prev <= last && 0.0 < last
  {
  }

  /** The assertion `_plot_curve` makes about the remainder, as written. */
  predicate PlotCurveAssert(rem: real, last: real)
  {
    0.0 <= rem < last
  }

  /** The written assertion holds exactly when the length does not fall on a node. */
  lemma PlotCurveAssertAtNodes(m: Analytic, ps: seq<Vec>, len: real, node: nat, prev: real, last: real)
    requires |ps| >= 2 && IsLastNode(m, ps, len, node, prev, last)
    ensures PlotCurveAssert(len - prev, last) <==> len != ArcLength(m, ps, node + 1)
  {
  }

  /** A length that falls on a node fails the written assertion: the curve
      (0, 0), (1, 0) cut at length 1 has remainder 1 on a segment of length 1. */
  lemma PlotCurveAssertFails(m: Analytic)
    requires m.sqrt(1.0) == 1.0
    ensures IsLastNode(m, [Origin, Vec(1.0, 0.0)], 1.0, 0, 0.0, 1.0)
    ensures !PlotCurveAssert(1.0 - 0.0, 1.0)
  {
    var ps := [Origin, Vec(1.0, 0.0)];
    assert PointAt(ps, 0) == Origin && PointAt(ps, 1) == Vec(1.0, 0.0);
    assert NormSq(Sub(Vec(1.0, 0.0), Origin)) == 1.0;
  }

  /** The lengths `plot_data` passes never fall on a node: for an angle curve
      whose segments all have its stored size, and for a point or shift
      curve, the escape length lies strictly between the arc lengths of two
      consecutive nodes, so the written assertion of `_plot_curve` holds for them. */
  lemma EscapeLengthOffNodes(m: Analytic, inside: Vec -> bool, c: EscapeCurve, n: nat, j: nat)
    requires Lawful(m) && SizeConsistent(m, c) && Escapes(inside, c.points)
    ensures CurveLength(m, inside, c, n) != ArcLength(m, c.points, j)
  {
    CurveLengthIsEscapeLength(m, inside, c, n);
    EscapeLengthBetweenNodes(m, inside, c.points, n);
    var k := FirstOutside(inside, c.points);
    if j <= k - 1 {
      ArcLengthMonotone(m, c.points, j, k - 1);
    } else {
      ArcLengthMonotone(m, c.points, k, j);
    }
  }

  /** The escape length lies strictly between the arc lengths of the last
      point inside and the first point outside. */
  lemma EscapeLengthBetweenNodes(m: Analytic, inside: Vec -> bool, ps: seq<Vec>, n: nat)
    requires Lawful(m) && Escapes(inside, ps)
    ensures ArcLength(m, ps, FirstOutside(inside, ps) - 1) < EscapeLength(m, inside, ps, n)
    ensures EscapeLength(m, inside, ps, n) < ArcLength(m, ps, FirstOutside(inside, ps))
  {
    var k := FirstOutside(inside, ps);
    DistanceToBoundaryBetween(m, inside, PointAt(ps, k - 1), PointAt(ps, k), n);
  }

  /** The arithmetic of `_plot_curve` with the remainder bound it actually has,
      0 < rem <= last: the cut point lies on the segment after the returned
      node, at the parameter rem / last, and the curve up to it has length in_len. */
  method PlotCurveCut(m: Analytic, ps: seq<Vec>, inLen: real, ghost bound: nat)
    returns (node: nat, t: real, cut: Vec)
    requires Lawful(m) && |ps| >= 2 && 0.0 < inLen && inLen <= ArcLength(m, ps, bound)
    ensures 0.0 < t <= 1.0 && cut == Lerp(PointAt(ps, node), PointAt(ps, node + 1), t)
    ensures ArcLength(m, ps, node) < inLen
    ensures ArcLength(m, ps, node) + Dist(m, PointAt(ps, node), cut) == inLen
  {
    var lower, last;
    node, lower, last := FindLastNodeNum(m, ps, inLen, bound);
    var rem := inLen - lower;
    RemainderBounds(m, ps, inLen, node, lower, last);
    var a := PointAt(ps, node);
    var b := PointAt(ps, node + 1);
    t := rem / last;
    cut := Add(a, Scale(t, Sub(b, a)));
    CutDistance(m, a, b, rem, last, t);
  }

  lemma CutDistance(m: Analytic, a: Vec, b: Vec, rem: real, last: real, t: real)
    requires Lawful(m) && 0.0 < rem <= last && last == Dist(m, a, b) && t == rem / last
    ensures 0.0 < t <= 1.0
    ensures Dist(m, a, Lerp(a, b, t)) == rem
  {
    assert Sub(Lerp(a, b, t), a) == Scale(t, Sub(b, a));
    NormScale(m, t, Sub(b, a));
    assert t * last == rem;
  }

  /** A curve whose last step is not zero reaches every length, so the scan
      of `_find_last_node_num` ends for every in_len > 0. */
  lemma ReachesEveryLength(m: Analytic, ps: seq<Vec>, len: real) returns (bound: nat)
    requires Lawful(m) && |ps| >= 2 && LastDiff(ps) != Origin && 0.0 < len
    ensures len <= ArcLength(m, ps, bound)
  {
    var d := Norm(m, LastDiff(ps));
    NormPositive(m, LastDiff(ps));
    var j := Beyond(len, d);
    bound := |ps| - 1 + j;
    ArcLengthBeyond(m, ps, j);
    ArcLengthNonNegative(m, ps, |ps| - 1);
    BelowSum(len, ArcLength(m, ps, |ps| - 1), j as real * d, ArcLength(m, ps, bound));
  }

  lemma BelowSum(len: real, base: real, extra: real, total: real)
    requires 0.0 <= base && len < extra && total == base + extra
    ensures len <= total
  {
  }

  /** Past the end every step of the extension has the length of the last one. */
  lemma {:induction false} ArcLengthBeyond(m: Analytic, ps: seq<Vec>, j: nat)
    requires |ps| >= 2
    ensures ArcLength(m, ps, |ps| - 1 + j) == ArcLength(m, ps, |ps| - 1) + j as real * Norm(m, LastDiff(ps))
    decreases j
  {
    if j > 0 {
      ArcLengthBeyond(m, ps, j - 1);
      ExtensionSteps(ps, |ps| - 1 + (j - 1));
      assert (j - 1) as real * Norm(m, LastDiff(ps)) + Norm(m, LastDiff(ps)) == j as real * Norm(m, LastDiff(ps));
    }
  }

  /** A curve whose last step has length zero never gets longer than its
      explicit part, so for a larger in_len the scan does not end. */
  lemma ZeroLastStepBounded(m: Analytic, ps: seq<Vec>, j: nat)
    requires Lawful(m) && |ps| >= 2 && Norm(m, LastDiff(ps)) == 0.0
    ensures ArcLength(m, ps, j) <= ArcLength(m, ps, |ps| - 1)
  {
    if j >= |ps| - 1 {
      NoLongerThanExplicit(m, ps, j - (|ps| - 1));
    } else {
      ArcLengthMonotone(m, ps, j, |ps| - 1);
    }
  }

  /** Some node's arc length reaches `len`: the scan of `_find_last_node_num` ends. */
  ghost predicate ReachesLength(m: Analytic, ps: seq<Vec>, len: real)
    requires |ps| >= 2
  {
    exists b: nat :: len <= ArcLength(m, ps, b)
  }

  /** The scan of `_find_last_node_num` ends for every in_len > 0 exactly when
      the last explicit step of the curve is not the zero vector. */
  lemma ScanEndsIffLastStepMoves(m: Analytic, ps: seq<Vec>)
    requires Lawful(m) && |ps| >= 2
    ensures (forall len: real :: 0.0 < len ==> ReachesLength(m, ps, len)) <==> LastDiff(ps) != Origin
  {
    ZeroStepIsZeroVector(m, LastDiff(ps));
    if Norm(m, LastDiff(ps)) == 0.0 {
      ZeroLastStepStuck(m, ps);
    } else {
      MovingLastStepReaches(m, ps);
    }
  }

  lemma MovingLastStepReaches(m: Analytic, ps: seq<Vec>)
    requires Lawful(m) && |ps| >= 2 && LastDiff(ps) != Origin
    ensures forall len: real :: 0.0 < len ==> ReachesLength(m, ps, len)
  {
    forall len: real | 0.0 < len
      ensures ReachesLength(m, ps, len)
    {
      var b := ReachesEveryLength(m, ps, len);
    }
  }

  /** With a last step of length zero, one unit past the explicit part is never reached. */
  lemma ZeroLastStepStuck(m: Analytic, ps: seq<Vec>)
    requires Lawful(m) && |ps| >= 2 && Norm(m, LastDiff(ps)) == 0.0
    ensures 0.0 < ArcLength(m, ps, |ps| - 1) + 1.0
    ensures !ReachesLength(m, ps, ArcLength(m, ps, |ps| - 1) + 1.0)
  {
    ArcLengthNonNegative(m, ps, |ps| - 1);
    forall b: nat
      ensures ArcLength(m, ps, b) <= ArcLength(m, ps, |ps| - 1)
    {
      ZeroLastStepBounded(m, ps, b);
    }
    BoundedNotReached(m, ps, ArcLength(m, ps, |ps| - 1));
  }

  /** A curve all of whose arc lengths stay at most top never reaches top + 1. */
  lemma BoundedNotReached(m: Analytic, ps: seq<Vec>, top: real)
    requires |ps| >= 2 && forall b: nat :: ArcLength(m, ps, b) <= top
    ensures !ReachesLength(m, ps, top + 1.0)
  {
  }

  /** The last step has length zero exactly when it is the zero vector. */
  lemma ZeroStepIsZeroVector(m: Analytic, v: Vec)
    requires Lawful(m)
    ensures Norm(m, v) == 0.0 <==> v == Origin
  {
    if v == Origin {
      NormZero(m);
    } else {
      NormPositive(m, v);
    }
  }

  lemma NoLongerThanExplicit(m: Analytic, ps: seq<Vec>, k: nat)
    requires |ps| >= 2 && Norm(m, LastDiff(ps)) == 0.0
    ensures ArcLength(m, ps, |ps| - 1 + k) == ArcLength(m, ps, |ps| - 1)
  {
    ArcLengthBeyond(m, ps, k);
  }
}
