/** Helpers of the escape-curve animations: the label and colour lookup by
    TeX name, the seed of the second step of the two-step scheme (the first
    step's curve, flattened, for a point representation), and the time shift
    that appends the second step's trace to the first. */
module EscapeAnimations {
  import opened Basics
  import opened Geometry
  import opened Curves
  import opened Escape
  import opened Representations

  /** A Python dict as its list of items, in insertion order; keys are distinct. */
  predicate DistinctKeys<V>(dict: seq<(string, V)>)
  {
    forall i, j :: 0 <= i < j < |dict| ==> dict[i].0 != dict[j].0
  }

  /** Item i's key occurs in the name and no other key does. */
  predicate UniqueMatch<V>(name: string, dict: seq<(string, V)>, i: int)
  {
    && 0 <= i < |dict|
    && IsSubstring(dict[i].0, name)
    && forall j :: 0 <= j < |dict| && j != i ==> !IsSubstring(dict[j].0, name)
  }

  /** The index of the first item whose key occurs in the name. */
  function FirstMatch<V>(name: string, dict: seq<(string, V)>): (r: Option<nat>)
    ensures r.None? ==> forall j :: 0 <= j < |dict| ==> !IsSubstring(dict[j].0, name)
    ensures r.Some? ==>
      && r.value < |dict| && IsSubstring(dict[r.value].0, name)
      && forall j :: 0 <= j < r.value ==> !IsSubstring(dict[j].0, name)
    decreases |dict|
  {
    if |dict| == 0 then None
    else if IsSubstring(dict[0].0, name) then Some(0)
    else match FirstMatch(name, dict[1..])
      case None => None
      case Some(k) => Some(k + 1)
  }

  /** `_apply_dict(in_tex_name, in_dict)`: the value of the first key found in
      the name, after checking that no other key is found in it; None stands
      for the failing assertions (an ambiguous name or no key at all). */
  function ApplyDict<V>(name: string, dict: seq<(string, V)>): (r: Option<V>)
    requires DistinctKeys(dict)
    ensures r.Some? <==> exists i :: UniqueMatch(name, dict, i)
    ensures forall i :: UniqueMatch(name, dict, i) ==> r == Some(dict[i].1)
  {
    match FirstMatch(name, dict)
    case None => None
    case Some(i) =>
      if forall j :: 0 <= j < |dict| && dict[j].0 != dict[i].0 ==> !IsSubstring(dict[j].0, name)
      then assert UniqueMatch(name, dict, i); Some(dict[i].1)
      else None
  }

  /** The four keys shared by the name and colour dictionaries. */
  function CurveKeys(): seq<string>
  {
    ["Logo", "Azimuth", "Point", "Shift"]
  }

  /** The colours of the four curve kinds; the style values are not part of this model. */
  datatype Palette<C> = Palette(logo: C, azimuth: C, point: C, shift: C)

  /** `get_curve_color(in_tex_name)`. */
  function CurveColor<C>(name: string, colors: Palette<C>): (r: Option<C>)
    ensures forall i :: 0 <= i < 4 && UniqueMatch(name, ColorDict(colors), i) ==>
      r == Some([colors.logo, colors.azimuth, colors.point, colors.shift][i])
  {
    ApplyDict(name, ColorDict(colors))
  }

  function ColorDict<C>(colors: Palette<C>): (r: seq<(string, C)>)
    ensures |r| == 4 && DistinctKeys(r)
    ensures forall i :: 0 <= i < 4 ==> r[i].0 == CurveKeys()[i]
  {
    [("Logo", colors.logo), ("Azimuth", colors.azimuth), ("Point", colors.point), ("Shift", colors.shift)]
  }

  /** The label dictionary of `get_curve_name`. */
  function NameDict(): (r: seq<(string, string)>)
    ensures |r| == 4 && DistinctKeys(r)
    ensures forall i :: 0 <= i < 4 ==> r[i].0 == CurveKeys()[i]
  {
    [("Logo", "LOGO"), ("Azimuth", "azymut"), ("Point", "naiwny"), ("Shift", "SHIFT")]
  }

  /** `get_curve_name(in_tex_name)`. */
  function CurveName(name: string): (r: Option<string>)
    ensures forall i :: UniqueMatch(name, NameDict(), i) ==> r == Some(NameDict()[i].1)
  {
    ApplyDict(name, NameDict())
  }

  /** The second step of the half-plane example is labelled as the naive
      (point) representation. */
  lemma HalfplanePointName()
    ensures CurveName("escapeFromHalfplanePointTex") == Some("naiwny")
  {
    var name := "escapeFromHalfplanePointTex";
    assert OccursAt("Point", name, 19);
    OnlyPointKey(name);
    assert UniqueMatch(name, NameDict(), 2);
  }

  /** No curve key other than "Point" occurs in the name: none of their first letters does. */
  lemma OnlyPointKey(name: string)
    requires name == "escapeFromHalfplanePointTex"
    ensures !IsSubstring("Logo", name) && !IsSubstring("Azimuth", name) && !IsSubstring("Shift", name)
  {
    NotSubstringByFirstChar("Logo", name);
    NotSubstringByFirstChar("Azimuth", name);
    NotSubstringByFirstChar("Shift", name);
  }

  /** A name holding two keys is rejected, whatever the order of the keys. */
  lemma AmbiguousNameRejected<V>(name: string, dict: seq<(string, V)>, i: nat, j: nat)
    requires DistinctKeys(dict) && i < j < |dict|
    requires IsSubstring(dict[i].0, name) && IsSubstring(dict[j].0, name)
    ensures ApplyDict(name, dict) == None
  {
  }

  /** The seed of the second step and its representation. */
  datatype SecondStep = SecondStep(seed: seq<real>, rep: Representation)

  /** `_get_initial_data_for_second_step`: the coordinates of the first-step
      curve's points after the first, and a point representation of that size
      bounded by 1.05 times their minimum and maximum. Python's `min` of an
      empty list fails, hence at least two points. */
  function InitialDataForSecondStep(m: Analytic, rep: Representation, data: seq<real>): (r: SecondStep)
    requires Valid(rep) && |data| == rep.size && |ToCurve(m, rep, data).points| >= 2
    ensures var ps := ToCurve(m, rep, data).points;
      && |r.seed| == 2 * (|ps| - 1)
      && r.rep.PointRep? && Valid(r.rep) && r.rep.size == |r.seed|
      && r.rep.minVal == 1.05 * MinOf(r.seed) && r.rep.maxVal == 1.05 * MaxOf(r.seed)
  {
    var ps := ToCurve(m, rep, data).points;
    var seed := Flatten(ps[1..]);
    SecondStep(seed, NewPointRep(|seed|, 1.05 * MinOf(seed), 1.05 * MaxOf(seed)))
  }

  /** The seed read back by the second representation is the first-step curve,
      whose point 0 is the origin (as every point and angle curve's is). */
  lemma SecondStepRoundTrip(m: Analytic, rep: Representation, data: seq<real>)
    requires Valid(rep) && |data| == rep.size && |ToCurve(m, rep, data).points| >= 2
    requires ToCurve(m, rep, data).points[0] == Origin
    ensures var s := InitialDataForSecondStep(m, rep, data);
      ToCurve(m, s.rep, s.seed).points == ToCurve(m, rep, data).points
  {
    var ps := ToCurve(m, rep, data).points;
    var s := InitialDataForSecondStep(m, rep, data);
    ChunkFlatten(ps[1..]);
    assert ToCurve(m, s.rep, s.seed).points == [Origin] + ps[1..];
  }

  /** The bounds contain every seed coordinate exactly when the coordinates'
      minimum is at most 0 and their maximum at least 0: scaling by 1.05 moves
      a positive minimum or a negative maximum inwards. */
  lemma SecondStepBounds(m: Analytic, rep: Representation, data: seq<real>)
    requires Valid(rep) && |data| == rep.size && |ToCurve(m, rep, data).points| >= 2
    ensures var s := InitialDataForSecondStep(m, rep, data);
      (forall i :: 0 <= i < |s.seed| ==> s.rep.minVal <= s.seed[i] <= s.rep.maxVal)
      <==> MinOf(s.seed) <= 0.0 <= MaxOf(s.seed)
  {
    var s := InitialDataForSecondStep(m, rep, data);
    ScaledBounds(s.seed);
  }

  lemma ScaledBounds(seed: seq<real>)
    requires |seed| > 0
    ensures (forall i :: 0 <= i < |seed| ==> 1.05 * MinOf(seed) <= seed[i] <= 1.05 * MaxOf(seed))
      <==> MinOf(seed) <= 0.0 <= MaxOf(seed)
  {
    var lo, hi := MinOf(seed), MaxOf(seed);
    var i :| 0 <= i < |seed| && seed[i] == lo;
    var j :| 0 <= j < |seed| && seed[j] == hi;
    if lo > 0.0 {
      assert seed[i] < 1.05 * lo;
    }
    if hi < 0.0 {
      assert 1.05 * hi < seed[j];
    }
  }

  /** A row of an optimisation trace: a search vector and the time it was reached. */
  datatype Row = Row(data: seq<real>, time: real)

  /** `shift_second_step_time`: the second trace with the first trace's final
      time added to every time, data unchanged. */
  function ShiftSecondStepTime(first: seq<Row>, second: seq<Row>): (r: seq<Row>)
    requires |first| > 0
    ensures |r| == |second|
    ensures forall i :: 0 <= i < |r| ==>
      r[i].data == second[i].data && r[i].time == second[i].time + first[|first| - 1].time
  {
    seq(|second|, i requires 0 <= i < |second| => Row(second[i].data, second[i].time + first[|first| - 1].time))
  }

  /** Times that never decrease. */
  predicate Chronological(rows: seq<Row>)
  {
    forall i, j :: 0 <= i < j < |rows| ==> rows[i].time <= rows[j].time
  }

  /** Both traces in time order and the second starting at a non-negative
      time: the first trace followed by the shifted second is in time order. */
  lemma ShiftedTraceChronological(first: seq<Row>, second: seq<Row>)
    requires |first| > 0 && Chronological(first) && Chronological(second)
    requires forall i :: 0 <= i < |second| ==> 0.0 <= second[i].time
    ensures Chronological(first + ShiftSecondStepTime(first, second))
  {
    var all := first + ShiftSecondStepTime(first, second);
    var t := first[|first| - 1].time;
    forall i, j | 0 <= i < j < |all|
      ensures all[i].time <= all[j].time
    {
      if j >= |first| {
        assert all[j].time == second[j - |first|].time + t;
        if i < |first| {
          assert all[i].time <= t;
        }
      }
    }
  }

  /** Subtracting the final time of the first trace restores the second. */
  lemma ShiftSecondStepTimeInverse(first: seq<Row>, second: seq<Row>)
    requires |first| > 0
    ensures var t := first[|first| - 1].time;
      var r := ShiftSecondStepTime(first, second);
      forall i :: 0 <= i < |r| ==> Row(r[i].data, r[i].time - t) == second[i]
  {
  }
}
