/** A polyline that is extended on demand in the direction of its last
    segment: asking for a point beyond the end appends copies of the last
    step until the index exists. */
module Extendable {
  import opened Basics
  import opened Geometry

  /** The last step of the polyline, which every appended point repeats. */
  function LastDiff(ps: seq<Vec>): Vec
    requires |ps| >= 2
  {
    Sub(ps[|ps| - 1], ps[|ps| - 2])
  }

  /** `_add_single_point`: append last + (last - second to last). */
  function AddSinglePoint(ps: seq<Vec>): (r: seq<Vec>)
    requires |ps| >= 2
    ensures |r| == |ps| + 1 && r[..|ps|] == ps
    ensures LastDiff(r) == LastDiff(ps)
  {
    ps + [Add(ps[|ps| - 1], LastDiff(ps))]
  }

  /** Point i of the curve extended as far as needed, in closed form: beyond
      the stored points, the extension is the straight line through the last
      two of them, with equally spaced points. */
  function PointAt(ps: seq<Vec>, i: nat): Vec
    requires i < |ps| || |ps| >= 2
  {
    if i < |ps| then ps[i]
    else Add(ps[|ps| - 1], Scale((i - (|ps| - 1)) as real, LastDiff(ps)))
  }

  /** Appending a point changes no point of the extended curve. */
  lemma ExtensionKeepsPointAt(ps: seq<Vec>, i: nat)
    requires |ps| >= 2
    ensures PointAt(AddSinglePoint(ps), i) == PointAt(ps, i)
  {
    var r := AddSinglePoint(ps);
    var d := LastDiff(ps);
    if i >= |r| {
      var k := (i - |ps|) as real;
      assert (i - (|r| - 1)) as real == k;
      assert (i - (|ps| - 1)) as real == k + 1.0;
      ScaleSucc(k, d);
    }
  }

  lemma ScaleSucc(k: real, d: Vec)
    ensures Scale(k + 1.0, d) == Add(Scale(k, d), d)
  {
    assert (k + 1.0) * d.x == k * d.x + d.x;
    assert (k + 1.0) * d.y == k * d.y + d.y;
  }

  /** Every step of the extension repeats the last stored step. */
  lemma ExtensionSteps(ps: seq<Vec>, i: nat)
    requires |ps| >= 2 && |ps| - 1 <= i
    ensures Sub(PointAt(ps, i + 1), PointAt(ps, i)) == LastDiff(ps)
  {
    var d := LastDiff(ps);
    var k := (i - (|ps| - 1)) as real;
    assert (i + 1 - (|ps| - 1)) as real == k + 1.0;
    ScaleSucc(k, d);
  }

  /** `__getitem__`: grows the list until index i exists and returns that point.
      The returned list only gains points at its end, never more than needed,
      and each new point is the closed-form extension. */
  method GetItem(ps: seq<Vec>, i: nat) returns (grown: seq<Vec>, p: Vec)
    requires i < |ps| || |ps| >= 2
    ensures |grown| == if i < |ps| then |ps| else i + 1
    ensures grown[..|ps|] == ps
    ensures forall j :: 0 <= j < |grown| ==> grown[j] == PointAt(ps, j)
    ensures p == grown[i] && p == PointAt(ps, i)
  {
    grown := ps;
    while i >= |grown|
      invariant |ps| <= |grown| <= if i < |ps| then |ps| else i + 1
      invariant |grown| >= 2 || i < |ps|
      invariant grown[..|ps|] == ps
      invariant forall j :: 0 <= j < |grown| ==> grown[j] == PointAt(ps, j)
      decreases i + 1 - |grown|
    {
      ghost var before := grown;
      grown := AddSinglePoint(grown);
      forall j | 0 <= j < |grown|
        ensures grown[j] == PointAt(ps, j)
      {
        if j < |before| {
          assert grown[j] == before[j];
        } else {
          assert grown[j] == PointAt(before, j);
          ExtendedPointAt(ps, before, j);
        }
      }
    }
    p := grown[i];
  }

  /** A list grown from `ps` by the extension has the same extended curve. */
  lemma ExtendedPointAt(ps: seq<Vec>, grown: seq<Vec>, j: nat)
    requires |ps| >= 2 && |ps| <= |grown| && grown[..|ps|] == ps
    requires forall k :: 0 <= k < |grown| ==> grown[k] == PointAt(ps, k)
    ensures PointAt(grown, j) == PointAt(ps, j)
    decreases j
  {
    if j >= |grown| {
      ExtendedPointAt(ps, grown, j - 1);
      ExtensionSteps(grown, j - 1);
      if j - 1 >= |ps| - 1 {
        ExtensionSteps(ps, j - 1);
      }
      assert LastDiff(grown) == LastDiff(ps) by {
        if |grown| > |ps| {
          ExtensionSteps(ps, |grown| - 2);
        }
      }
      assert PointAt(grown, j) == Add(PointAt(grown, j - 1), LastDiff(grown));
      assert PointAt(ps, j) == Add(PointAt(ps, j - 1), LastDiff(ps));
    }
  }

  /** Indexing twice with the same index: the second call does not grow the
      list and returns the same point. */
  method GetItemTwice(ps: seq<Vec>, i: nat) returns (first: Vec, second: Vec, grownOnce: seq<Vec>, grownTwice: seq<Vec>)
    requires i < |ps| || |ps| >= 2
    ensures grownTwice == grownOnce && second == first
  {
    grownOnce, first := GetItem(ps, i);
    grownTwice, second := GetItem(grownOnce, i);
  }
}
