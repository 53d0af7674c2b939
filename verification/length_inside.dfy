/** The illustration of the escape length: the last explicit point of a
    curve that is still inside a set, and the bisection drawn on the
    crossing segment. The set is a membership predicate. */
module LengthInside {
  import opened Basics
  import opened Geometry
  import opened Escape

  /** r is what `find_last_inside` returns: None when the list is empty or
      starts outside; otherwise points 0..r are inside and point r + 1, if
      there is one, is outside. */
  predicate IsLastInside(inside: Vec -> bool, ps: seq<Vec>, r: Option<nat>)
  {
    match r
    case None => |ps| == 0 || !inside(ps[0])
    case Some(k) =>
      && k < |ps|
      && (forall j :: 0 <= j <= k ==> inside(ps[j]))
      && (k + 1 < |ps| ==> !inside(ps[k + 1]))
  }

  /** `find_last_inside(in_set, in_curve)`: scan the explicit points, stop at the first outside one. */
  method FindLastInside(inside: Vec -> bool, ps: seq<Vec>) returns (res: Option<nat>)
    ensures IsLastInside(inside, ps, res)
  {
    res := None;
    var i := 0;
    while i < |ps|
      invariant 0 <= i <= |ps|
      invariant res == if i == 0 then None else Some(i - 1)
      invariant forall j :: 0 <= j < i ==> inside(ps[j])
    {
      if inside(ps[i]) {
        res := Some(i);
      } else {
        break;
      }
      i := i + 1;
    }
  }

  /** At most one value meets the description, so it fixes the result. */
  lemma LastInsideUnique(inside: Vec -> bool, ps: seq<Vec>, r1: Option<nat>, r2: Option<nat>)
    requires IsLastInside(inside, ps, r1) && IsLastInside(inside, ps, r2)
    ensures r1 == r2
  {
  }

  /** None exactly when the list is empty or its first point is outside. */
  lemma LastInsideNone(inside: Vec -> bool, ps: seq<Vec>, r: Option<nat>)
    requires IsLastInside(inside, ps, r)
    ensures r.None? <==> |ps| == 0 || !inside(ps[0])
  {
  }

  /** Points after an outside point do not affect the result. */
  lemma TailIrrelevant(inside: Vec -> bool, ps: seq<Vec>, qs: seq<Vec>, j: nat, r: Option<nat>)
    requires j < |ps| && j < |qs| && ps[..j + 1] == qs[..j + 1] && !inside(ps[j])
    requires IsLastInside(inside, ps, r)
    ensures IsLastInside(inside, qs, r)
  {
    assert forall i :: 0 <= i <= j ==> ps[i] == ps[..j + 1][i] && qs[i] == qs[..j + 1][i];
    if r.Some? {
      assert r.value < j;
    }
  }

  /** Under the drawing's assertions (first point inside, last point outside)
      the result is an index r whose successor is still a point of the list. */
  lemma LastInsideBetween(inside: Vec -> bool, ps: seq<Vec>, r: Option<nat>)
    requires |ps| > 0 && inside(ps[0]) && !inside(ps[|ps| - 1])
    requires IsLastInside(inside, ps, r)
    ensures r.Some? && r.value + 1 < |ps|
  {
  }

  /** `plot_bisection`: n rounds of moving one end to the midpoint. The
      inside end only moves to inside midpoints and the outside end only to
      outside ones; the bracket shrinks to 2^-n of the original, and when the
      ends start inside and outside it is the bracket of `find_distance_to_boundary`. */
  method PlotBisection(inside: Vec -> bool, pin: Vec, pout: Vec, n: nat) returns (a: Vec, b: Vec)
    ensures a == pin || inside(a)
    ensures b == pout || !inside(b)
    ensures Sub(b, a) == Scale(1.0 / Pow2(n), Sub(pout, pin))
    ensures inside(pin) && !inside(pout) ==> (a, b) == Iterate(inside, pin, pout, n)
  {
    a, b := pin, pout;
    for i := 0 to n
      invariant a == pin || inside(a)
      invariant b == pout || !inside(b)
      invariant Sub(b, a) == Scale(1.0 / Pow2(i), Sub(pout, pin))
      invariant inside(pin) && !inside(pout) ==> (a, b) == Iterate(inside, pin, pout, i)
    {
      if inside(pin) && !inside(pout) {
        IterateSnoc(inside, pin, pout, i);
      }
      var mid := Mid(a, b);
      HalfStep(a, b, Sub(pout, pin), Pow2(i));
      if inside(mid) {
        a := mid;
      } else {
        b := mid;
      }
    }
  }

  /** Each half of a bracket b - a = d / p is d / (2 p). */
  lemma HalfStep(a: Vec, b: Vec, d: Vec, p: real)
    requires 1.0 <= p && Sub(b, a) == Scale(1.0 / p, d)
    ensures Sub(b, Mid(a, b)) == Scale(1.0 / (2.0 * p), d)
    ensures Sub(Mid(a, b), a) == Scale(1.0 / (2.0 * p), d)
  {
    assert (1.0 / p) / 2.0 == 1.0 / (2.0 * p);
    assert (1.0 / p) * d.x / 2.0 == (1.0 / (2.0 * p)) * d.x;
    assert (1.0 / p) * d.y / 2.0 == (1.0 / (2.0 * p)) * d.y;
  }
}
