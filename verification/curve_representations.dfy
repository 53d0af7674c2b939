/** Representations: how a flat list of numbers (the optimiser's search
    vector) becomes an escape curve, and the box bounds of that vector.

    Point and shift representations read the list as consecutive (x, y)
    pairs; angle representations read it as the turning or absolute angles
    of a curve whose segment size is fixed when the representation is built. */
module Representations {
  import opened Basics
  import opened Geometry
  import opened Curves
  import opened Escape
  import opened Extendable

  datatype Representation =
    | PointRep(size: nat, minVal: real, maxVal: real)
      /** The constructor of shift curves is not part of this model; it is a parameter. */
    | ShiftRep(size: nat, minVal: real, maxVal: real, shiftCurve: seq<Vec> -> EscapeCurve)
    | AngleRep(kind: AngleKind, size: nat, segment: real)
    | AngleFixedRep(kind: AngleKind, size: nat, segment: real)

  /** What the constructors guarantee: an even size for pair representations,
      a positive one for the plain angle representation (its constructor divides by it). */
  predicate Valid(rep: Representation)
  {
    match rep
    case PointRep(size, _, _) => size % 2 == 0
    case ShiftRep(size, _, _, _) => size % 2 == 0
    case AngleRep(_, size, _) => size > 0
    case AngleFixedRep(_, _, _) => true
  }

  /** `PointCurveRepresentation(in_data_size, min_val, max_val)`. */
  function NewPointRep(size: nat, minVal: real, maxVal: real): (r: Representation)
    requires size % 2 == 0
    ensures Valid(r) && r.size == size
  {
    PointRep(size, minVal, maxVal)
  }

  /** `ShiftCurveRepresentation(in_data_size, min_val, max_val)`. */
  function NewShiftRep(size: nat, minVal: real, maxVal: real, shiftCurve: seq<Vec> -> EscapeCurve): (r: Representation)
    requires size % 2 == 0
    ensures Valid(r) && r.size == size
  {
    ShiftRep(size, minVal, maxVal, shiftCurve)
  }

  /** `AngleCurveRepresentation(data_size, max_curve_len)`: `size` segments share the length. */
  function NewAngleRep(kind: AngleKind, size: nat, maxLen: real): (r: Representation)
    requires size > 0
    ensures Valid(r) && r.AngleRep? && r.kind == kind && r.size == size
    ensures r.segment * size as real == maxLen
  {
    AngleRep(kind, size, maxLen / size as real)
  }

  /** `AngleCurveFixedRepresentation(data_size, max_curve_len)`: one more
      segment than there are angles, the first at heading 0. */
  function NewAngleFixedRep(kind: AngleKind, size: nat, maxLen: real): (r: Representation)
    ensures Valid(r) && r.AngleFixedRep? && r.kind == kind && r.size == size
    ensures r.segment * (size + 1) as real == maxLen
  {
    AngleFixedRep(kind, size, maxLen / (size + 1) as real)
  }

  /** The box bounds of the search vector: one interval per entry, the given
      limits for pair representations and radians(-180) .. radians(180) for angles. */
  function Bounds(m: Analytic, rep: Representation): (r: seq<(real, real)>)
    ensures |r| == rep.size
    ensures forall i :: 0 <= i < |r| ==>
      r[i] == if rep.PointRep? || rep.ShiftRep? then (rep.minVal, rep.maxVal)
              else (-2.0 * m.quarter, 2.0 * m.quarter)
  {
    match rep
    case PointRep(size, lo, hi) => seq(size, _ => (lo, hi))
    case ShiftRep(size, lo, hi, _) => seq(size, _ => (lo, hi))
    case AngleRep(_, size, _) => seq(size, _ => (-2.0 * m.quarter, 2.0 * m.quarter))
    case AngleFixedRep(_, size, _) => seq(size, _ => (-2.0 * m.quarter, 2.0 * m.quarter))
  }

  /** `[in_data[_:_+2] for _ in range(0, size, 2)]`: consecutive pairs as points. */
  function ChunkPairs(data: seq<real>): (r: seq<Vec>)
    requires |data| % 2 == 0
    ensures |r| == |data| / 2
    ensures forall j :: 0 <= j < |r| ==> r[j] == Vec(data[2 * j], data[2 * j + 1])
    decreases |data|
  {
    if |data| == 0 then []
    else
      var rest := ChunkPairs(data[2..]);
      [Vec(data[0], data[1])] + rest
  }

  /** The coordinates of the points, in order: x0, y0, x1, y1, ... */
  function Flatten(ps: seq<Vec>): (r: seq<real>)
    ensures |r| == 2 * |ps|
    ensures forall j :: 0 <= j < |ps| ==> r[2 * j] == ps[j].x && r[2 * j + 1] == ps[j].y
    decreases |ps|
  {
    if |ps| == 0 then []
    else [ps[0].x, ps[0].y] + Flatten(ps[1..])
  }

  /** Chunking undoes flattening. */
  lemma ChunkFlatten(ps: seq<Vec>)
    ensures ChunkPairs(Flatten(ps)) == ps
  {
  }

  /** Flattening undoes chunking. */
  lemma FlattenChunk(data: seq<real>)
    requires |data| % 2 == 0
    ensures Flatten(ChunkPairs(data)) == data
  {
    var r := Flatten(ChunkPairs(data));
    forall i | 0 <= i < |data|
      ensures r[i] == data[i]
    {
      var j := i / 2;
      if i % 2 == 0 {
        assert i == 2 * j;
      } else {
        assert i == 2 * j + 1;
      }
    }
  }

  /** `to_curve`: the escape curve the search vector stands for. */
  function ToCurve(m: Analytic, rep: Representation, data: seq<real>): (r: EscapeCurve)
    requires Valid(rep) && |data| == rep.size
    ensures |r.points| >= 1 || rep.ShiftRep?
    ensures rep.PointRep? ==>
      && r.segmentSize == None && r.points[0] == Origin && |r.points| == rep.size / 2 + 1
      && forall j :: 0 <= j < rep.size / 2 ==> r.points[j + 1] == Vec(data[2 * j], data[2 * j + 1])
    ensures rep.AngleRep? ==>
      r.segmentSize == Some(rep.segment) && r.points[0] == Origin && |r.points| == rep.size + 1
    ensures rep.AngleFixedRep? ==>
      r.segmentSize == Some(rep.segment) && r.points[0] == Origin && |r.points| == rep.size + 2
  {
    match rep
    case PointRep(_, _, _) => EscapeCurve(PointCurve(ChunkPairs(data)), None)
    case ShiftRep(_, _, _, shiftCurve) => shiftCurve(ChunkPairs(data))
    case AngleRep(kind, _, seg) => EscapeCurve(AngleCurve(m, kind, data, seg), Some(seg))
    case AngleFixedRep(kind, _, seg) => EscapeCurve(AngleCurve(m, kind, [0.0] + data, seg), Some(seg))
  }

  /** A point representation loses nothing: the data is the flattened list of
      the curve's points after the prepended origin. */
  lemma PointRepRoundTrip(m: Analytic, rep: Representation, data: seq<real>)
    requires rep.PointRep? && Valid(rep) && |data| == rep.size
    ensures Flatten(ToCurve(m, rep, data).points[1..]) == data
  {
    assert ToCurve(m, rep, data).points[1..] == ChunkPairs(data);
    FlattenChunk(data);
  }

  /** Every segment of an angle curve has the length given to it. */
  lemma AngleCurveUniform(m: Analytic, kind: AngleKind, angles: seq<real>, seg: real)
    requires Lawful(m) && 0.0 <= seg && |angles| >= 1
    ensures UniformSegments(m, AngleCurve(m, kind, angles, seg), seg)
  {
    var ps := AngleCurve(m, kind, angles, seg);
    forall i | 0 <= i < |ps| - 1
      ensures Dist(m, ps[i], ps[i + 1]) == seg
    {
      SegmentLength(m, kind, angles, seg, i);
    }
  }

  /** Angle representations store the true segment length, so the result of
      the escape scan is the escape length. */
  lemma AngleRepSizeConsistent(m: Analytic, rep: Representation, data: seq<real>)
    requires Lawful(m) && (rep.AngleRep? || rep.AngleFixedRep?) && 0.0 <= rep.segment
    requires Valid(rep) && |data| == rep.size
    ensures SizeConsistent(m, ToCurve(m, rep, data))
  {
    if rep.AngleRep? {
      AngleCurveUniform(m, rep.kind, data, rep.segment);
    } else {
      AngleCurveUniform(m, rep.kind, [0.0] + data, rep.segment);
    }
  }

  /** The curve of an angle representation built for max_curve_len >= 0 has
      exactly that total length, measured by the cumulative length list. */
  lemma AngleRepTotalLength(m: Analytic, kind: AngleKind, size: nat, maxLen: real, data: seq<real>)
    requires Lawful(m) && size > 0 && 0.0 <= maxLen && |data| == size
    ensures var ps := ToCurve(m, NewAngleRep(kind, size, maxLen), data).points;
      DistList(m, ps)[|ps| - 1] == maxLen
  {
    var rep := NewAngleRep(kind, size, maxLen);
    NonNegativeQuotient(maxLen, size as real);
    AngleCurveUniform(m, kind, data, rep.segment);
    UniformTotal(m, ToCurve(m, rep, data).points, rep.segment, maxLen);
  }

  /** The same for the fixed representation, whose curve has size + 1 segments. */
  lemma AngleFixedRepTotalLength(m: Analytic, kind: AngleKind, size: nat, maxLen: real, data: seq<real>)
    requires Lawful(m) && 0.0 <= maxLen && |data| == size
    ensures var ps := ToCurve(m, NewAngleFixedRep(kind, size, maxLen), data).points;
      DistList(m, ps)[|ps| - 1] == maxLen
  {
    var rep := NewAngleFixedRep(kind, size, maxLen);
    var angles := [0.0] + data;
    var ps := ToCurve(m, rep, data).points;
    assert ps == AngleCurve(m, kind, angles, rep.segment);
    assert |ps| - 1 == size + 1;
    NonNegativeQuotient(maxLen, (size + 1) as real);
    AngleCurveUniform(m, kind, angles, rep.segment);
    UniformTotal(m, ps, rep.segment, maxLen);
  }

  /** A polyline of n segments, each of length seg, is seg * n long. */
  lemma UniformTotal(m: Analytic, ps: seq<Vec>, seg: real, total: real)
    requires UniformSegments(m, ps, seg) && seg * (|ps| - 1) as real == total
    ensures DistList(m, ps)[|ps| - 1] == total
  {
    var n: nat := |ps| - 1;
    DistListIsArcLength(m, ps, n);
    UniformArcLength(m, ps, seg, n);
    assert ArcLength(m, ps, n) == seg * n as real;
  }

  lemma NonNegativeQuotient(a: real, b: real)
    requires 0.0 <= a && 0.0 < b
    ensures 0.0 <= a / b
  {
  }

  /** The fixed representation's first step is along heading 0. */
  lemma AngleFixedFirstStep(m: Analytic, rep: Representation, data: seq<real>)
    requires Lawful(m) && rep.AngleFixedRep? && |data| == rep.size
    ensures ToCurve(m, rep, data).points[1] == Vec(rep.segment, 0.0)
  {
    var angles := [0.0] + data;
    var seg := rep.segment;
    if rep.kind == Logo {
      LogoStep(m, angles, seg, Origin, 0);
      assert angles[..1] == [0.0];
      assert Sum([0.0]) == 0.0;
    } else {
      AzimuthStep(m, angles, seg, Origin, 0);
    }
  }

  /** A point curve whose data is all zeros never leaves any set: all its
      points, and so all points of its extension, are the origin. */
  lemma ZeroPointDataNeverEscapes(m: Analytic, rep: Representation, data: seq<real>, inside: Vec -> bool)
    requires rep.PointRep? && Valid(rep) && |data| == rep.size
    requires forall i :: 0 <= i < |data| ==> data[i] == 0.0
    ensures !Escapes(inside, ToCurve(m, rep, data).points)
  {
    var ps := ToCurve(m, rep, data).points;
    if |ps| >= 2 {
      assert forall i :: 0 <= i < |ps| ==> ps[i] == Origin by {
        forall i | 0 <= i < |ps|
          ensures ps[i] == Origin
        {
          if i > 0 {
            assert ps[i] == Vec(data[2 * (i - 1)], data[2 * (i - 1) + 1]);
          }
        }
      }
      forall k: nat
        ensures PointAt(ps, k) == Origin
      {
        if k >= |ps| {
          assert LastDiff(ps) == Origin;
        }
      }
    }
  }
}
