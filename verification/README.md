# Escape curves: a Dafny model of pi2022

The pi2022 project searches for plane curves that escape from convex
shapes: a curve leaves from the origin, and its escape length from a shape
is the arc length it travels before it first crosses the shape's boundary.
The optimiser minimises the worst (or the summed) escape length over a set
of shapes. This project models the computational core and proves
properties of it.

- **Curves.** A curve is built from turn angles (logo) or absolute
  headings (azimuth), one segment per angle and every segment of the same
  length. It can also be built from explicit points.
- **Extendable curves.** A curve is grown without end by repeating its
  last step. Growth only appends, and an appended point never changes
  afterwards.
- **Escape lengths.**
  - The scan finds the first point outside a shape.
  - The fixed-budget bisection locates the crossing on the segment before
    that point.
  - The resulting length is `segment_size * (k - 1) + d`. Here k is the
    index of the first outside point and d is the distance from point
    k - 1 to the crossing.
- **Shapes.** The wheel (a closed disk) is convex.
- **Representations.** They map a bounded search vector to a curve:
  point pairs, shifted points, angles, and angles behind a fixed first
  step.
- **Cost functions.** These are the single, maximum and summed escape
  lengths.
- **Helpers of the pictures and animations.** They cover:
  - the walk along a curve to a given length;
  - the last point inside a shape;
  - the name and colour lookups;
  - seeding the second optimisation step, and shifting its timing trace;
  - the angle perturbation and axis limits of the curve comparison;
  - 2-d rotations;
  - the crystal lattice;
  - output file naming and the TeX snippets that include the pictures.

## Modelling conventions

- **Reals stand in for floats.** cos, sin and sqrt are the fields of an
  `Analytic` value. The ghost predicate `Geometry.Lawful` states the laws
  the proofs use:
  - cos² + sin² = 1;
  - the addition formulas;
  - the values at 0 and at a right angle (`quarter`, numpy's
    `radians(90)`);
  - sqrt is the non-negative square root.
- **Shapes are membership predicates** of type `Vec -> bool`.
- **Extended points.** `Extendable.PointAt(ps, i)` is point i of the curve
  extended without end. The Python class caches these points in a list
  that it grows. `Extendable.GetItem` models that growth and is proved to
  agree with `PointAt`.
- **The escape scan terminates only if the curve escapes.** Its
  termination is the precondition `Escape.Escapes`. `Escape.FirstOutside`
  is the index the scan stops at.
- **Cumulative length versus segment form.** The escape length is the
  cumulative arc length up to point k - 1, plus d. `escape_curve.py:45`
  computes `segment_size * (k - 1) + d` instead. The model follows the code:
  - `Escape.CurveLength` is the code's segment form when the curve carries
    a segment size.
  - `Escape.CurveLengthIsEscapeLength` proves that the two forms agree
    whenever every explicit segment has that size.
  - Point curves carry no segment size. `curve.py` shows no length
    computation for them, so the cumulative form is used (`EscapeLength`).

## Model

| member | source | states |
|---|---|---|
| Curves.AnglesToPointsLogo | python/curve.py:10-23 | a logo curve from n turn angles has n + 1 points and starts at the given start point |
| Curves.AnglesToPointsAzimuth | python/curve.py:26-37 | an azimuth curve from n headings has n + 1 points and starts at the given start point |
| Curves.LogoToAzimuthAngles | python/curve.py:40-49 | heading i is the sum of turn angles 0..i |
| Curves.LogoIsAzimuthOfPrefixSums | python/curve.py:10-49 | a logo curve is the azimuth curve of the prefix sums of its turn angles: the two representations give identical points |
| Curves.AzimuthStep | python/curve.py:31-36 | step i of an azimuth curve moves by the segment length along heading i |
| Curves.LogoStep | python/curve.py:15-22 | step i of a logo curve moves by the segment length along the accumulated heading of turns 0..i |
| Curves.SegmentLength | python/curve.py:18-36 | every segment of an angle curve, of either kind, has exactly the requested length |
| Curves.AngleCurve | python/curve.py:74-85 | the curve class for either kind has one point more than it has angles and starts at the origin |
| Curves.PointCurve | python/curve.py:88-91 | the origin followed by exactly the given points |
| Curves.XList | python/curve.py:58-61 | one x coordinate per point, in order |
| Curves.YList | python/curve.py:63-66 | one y coordinate per point, in order |
| Curves.ProjectionsRoundTrip | python/curve.py:58-66 | zipping the x list with the y list gives the points back |
| Curves.UnitSquare | python/test_curve.py:9-26 | turns of 0, 90, 90 and 90 degrees with unit segments give x list [0, 1, 1, 0, 0] and y list [0, 0, 1, 1, 0] |
| Extendable.AddSinglePoint | python/extendable_curve.py:15-17 | appending a point keeps every existing point and keeps the last step unchanged |
| Extendable.ExtensionKeepsPointAt | python/extendable_curve.py:15-17 | appending a point changes no point of the extended curve |
| Extendable.ExtensionSteps | python/extendable_curve.py:11-17 | beyond the explicit points, every step of the extended curve equals the last explicit step, so extra points are collinear and equally spaced |
| Extendable.GetItem | python/extendable_curve.py:10-13 | indexing grows the cache to exactly i + 1 points when needed, keeps the old points as a prefix, and returns point i of the extended curve |
| Extendable.ExtendedPointAt | python/extendable_curve.py:11-17 | a grown cache extends to the same infinite curve as the original points |
| Extendable.GetItemTwice | python/extendable_curve.py:10-13 | asking for the same index twice returns the same point and does not grow the cache again |
| Escape.SingleIteration | python/escape_curve.py:20-24 | one bisection round keeps an inside endpoint and an outside endpoint, replacing one of them with the midpoint |
| Escape.Iterate | python/escape_curve.py:25-28 | after any number of rounds the first endpoint is inside and the second outside |
| Escape.IterateSnoc | python/escape_curve.py:27-28 | n + 1 rounds are one round applied after n rounds |
| Escape.BisectParams | python/escape_curve.py:17-28 | in parameter terms, the bracket stays within the original one, has width (tb - ta) / 2^n, and still separates inside from outside |
| Escape.IterateIsBisectParams | python/escape_curve.py:17-28 | the bisected points are the segment's points at the bisected parameters |
| Escape.DistanceToBoundaryBracket | python/escape_curve.py:29-30 | the distance returned is a fraction of the segment length, strictly between 0 and the segment length |
| Escape.DistanceAtParameter | python/escape_curve.py:29-30 | the final midpoint lies on the segment at the midpoint of the bisected parameter bracket |
| Escape.FindDistanceToBoundary | python/escape_curve.py:9-30 | the loop computes the n-round bisection, and the distance it returns is strictly between 0 and the distance between the two points |
| Escape.BisectionAccuracy | python/escape_curve.py:17-29 | if the segment crosses the boundary once at parameter ts, the final midpoint parameter is within 2^-(n+1) of ts |
| Escape.DistList | python/test_escape_curve.py:38-47 | the cumulative distance list starts at 0 and each entry adds the length of the next segment |
| Escape.DistListIsArcLength | python/test_escape_curve.py:38-47 | entry i of the distance list is the arc length up to point i |
| Escape.DistListExample | python/test_escape_curve.py:38-47 | the path (0,0), (0,1), (1,1), (2,1), (2,10) has distance list [0, 1, 2, 3, 12] |
| Escape.UniformArcLength | python/escape_curve.py:45-47 | on a curve whose segments all have length s, the arc length to point j is s * j, also beyond the explicit points |
| Escape.FirstOutside | python/escape_curve.py:42-44 | the scan stops at index k >= 1: point k is outside and every earlier point is inside |
| Escape.ScanFirstOutside | python/escape_curve.py:41-44 | the scan finds exactly that first outside index, and the cache it grows extends to the same curve |
| Escape.GetMaxLenInside | python/escape_curve.py:37-47 | the escape length computed equals the curve's escape length; for a curve whose segments have its segment size, this is the arc length to the crossing |
| Escape.GetMaxLenInsideTwice | python/escape_curve.py:37-47 | evaluating again on the grown curve gives the same length |
| Escape.SameExtensionSameEscape | python/escape_curve.py:37-47 | two point lists with the same extension have the same first outside index and the same escape length |
| Escape.SameExtensionSameCurveLength | python/escape_curve.py:37-47 | growing the cache does not change the escape length |
| Escape.SegmentFormIsEscapeLength | python/escape_curve.py:45-47 | when every segment has length s, the code's form s * (k - 1) + d equals the arc length to the crossing |
| Escape.CurveLengthIsEscapeLength | python/escape_curve.py:45-47 | the code's escape length of a size-consistent curve is the arc length to the crossing |
| Escape.GrownUniform | python/extendable_curve.py:15-17 | growing a curve whose segments all have length s keeps all segments at length s |
| ConvexShapes.MakeWheel | python/convex_shapes.py:14-16 | the wheel keeps its centre and the square of its radius |
| ConvexShapes.Contains | python/convex_shapes.py:18-19 | membership test of the wheel; what it means, the closed disk around the centre whose radius is the absolute value of the given one, is stated by `ContainsIsClosedDisk` |
| ConvexShapes.MemberInBoundingSquare | python/convex_shapes.py:18-19 | every member lies in the axis-aligned square of half-side radius around the centre |
| ConvexShapes.ContainsIsClosedDisk | python/convex_shapes.py:7-19 | a point is in the wheel exactly when its distance from the centre is at most the radius's absolute value |
| ConvexShapes.NegatedRadius | python/convex_shapes.py:15 | a negative radius gives the same wheel as its absolute value |
| ConvexShapes.CenterInside | python/test_convex_shapes.py:14-18 | every wheel contains its centre |
| ConvexShapes.WheelExamples | python/test_convex_shapes.py:11-40 | (1,0) and (0,1) are in the unit wheel; (4,3) is in the wheel centred at (4,3); (1.1,0) and (0,-1.1) are not in the unit wheel |
| ConvexShapes.WheelConvex | python/convex_shapes.py:1-19 | the wheel is convex: every point between two of its points is in it |
| ConvexShapes.MidpointInside | python/convex_shapes.py:18-19 | the midpoint of two points of a wheel is in it, as bisection needs |
| RayEscape.RayPointAt | python/extendable_curve.py:11-17 | the extension of a straight curve through the origin is the ray of equally spaced points k * u |
| RayEscape.RayLeaves | python/escape_curve.py:43-44 | such a ray leaves every wheel centred at the origin, so the scan terminates |
| RayEscape.RayCrossing | python/escape_curve.py:41-44 | the first outside index of a ray from the wheel's centre is the one whose segment contains the radius |
| RayEscape.RayEscapeAccuracy | python/escape_curve.py:37-47 | the escape length of a ray from a wheel's centre is within step / 2^(n+1) of the radius |
| RayEscape.SingleAngleEscape | python/test_escape_curve.py:10-35 | a one-angle curve of either kind escapes a wheel of radius r at the origin with length within s / 2^(n+1) of r |
| RayEscape.SinglePointEscape | python/test_escape_curve.py:20-35 | a one-point curve escapes a wheel of radius r at the origin with length within that point's norm / 2^(n+1) of r |
| RayEscape.SingleAngleEscapeTolerance | python/test_escape_curve.py:27-35 | with 20 rounds and segments up to 5, the error is below 0.00001, the tolerance of the wheel test |
| RayEscape.ZeroAnglesRay | python/test_evaluators.py:22-33 | all-zero angle data give the ray along the x axis, for either kind |
| Representations.NewPointRep | python/curve_representations.py:10-13 | a point representation needs an even size |
| Representations.NewShiftRep | python/curve_representations.py:30-33 | a shift representation needs an even size |
| Representations.NewAngleRep | python/curve_representations.py:52-56 | the segment length times the number of angles is the maximal length |
| Representations.NewAngleFixedRep | python/curve_representations.py:81-85 | the segment length times the number of angles plus one is the maximal length |
| Representations.Bounds | python/curve_representations.py:8-90 | one bound per parameter: (min, max) for point data, (-180, 180) degrees for angles |
| Representations.ChunkPairs | python/curve_representations.py:23-24 | an even list becomes the points (data[2j], data[2j+1]) |
| Representations.Flatten | python/make_escape_curve_animations.py:196 | points become the list x0, y0, x1, y1, ... |
| Representations.ChunkFlatten | python/make_escape_curve_animations.py:194-201 | chunking a flattened point list gives the points back |
| Representations.FlattenChunk | python/curve_representations.py:20-25 | flattening a chunked even list gives the list back |
| Representations.ToCurve | python/curve_representations.py:20-96 | point data give the origin then the chunked points; angle data give the angle curve with the representation's segment; the fixed variant puts a step along the x axis first |
| Representations.PointRepRoundTrip | python/curve_representations.py:20-25 | the points after the origin flatten back to the search vector |
| Representations.AngleCurveUniform | python/curve_representations.py:63-66 | every segment of an angle representation's curve has its segment length |
| Representations.AngleRepSizeConsistent | python/curve_representations.py:52-66 | angle curves carry a segment size that all their segments have |
| Representations.AngleRepTotalLength | python/curve_representations.py:52-66 | the explicit angle curve is exactly the maximal length long |
| Representations.AngleFixedRepTotalLength | python/curve_representations.py:81-96 | the explicit fixed-angle curve, fixed step included, is exactly the maximal length long |
| Representations.AngleFixedFirstStep | python/curve_representations.py:92-96 | the first step of a fixed-angle curve goes to (segment, 0) whatever the data |
| Representations.ZeroPointDataNeverEscapes | python/curve_representations.py:20-25 | all-zero point data give a curve at the origin that never leaves any shape, so the scan does not end |
| Evaluators.Results | python/evaluators.py:40-43 | one escape length per shape, in the shapes' order |
| Evaluators.EvaluateCurve | python/evaluators.py:13-16 | the single evaluator returns the curve's escape length |
| Evaluators.EvaluateData | python/evaluators.py:18-24 | evaluating data is evaluating their curve; for angle data it is the arc length to the crossing |
| Evaluators.ResultList | python/evaluators.py:40-43 | the loop collects the escape length for every shape, and its shared cache extends to the same curve |
| Evaluators.EvaluateCurveMax | python/evaluators.py:45-50 | the result is at least every shape's escape length and equals one of them |
| Evaluators.EvaluateCurveSum | python/evaluators.py:52-57 | the result is the sum of the escape lengths, 0 for no shapes |
| Evaluators.EvaluateDataMax | python/evaluators.py:59-64 | the maximum over the shapes for the data's curve |
| Evaluators.EvaluateDataSum | python/evaluators.py:66-71 | the sum over the shapes for the data's curve |
| Evaluators.CurveLengthPositive | python/escape_curve.py:45-47 | every escape length is positive |
| Evaluators.SumResultAtLeastMax | python/evaluators.py:45-57 | the summed cost is at least the maximal cost |
| CostFunctions.GetSingleShapeCost | python/cost_functions.py:4-9 | the cost is the escape length of the data's curve |
| CostFunctions.GetCostMax | python/cost_functions.py:12-19 | the cost is at least every shape's escape length and equals one of them |
| CostFunctions.RunningMax | python/cost_functions.py:16-18 | the running maximum over the shapes is their maximal escape length |
| CostFunctions.GetCostSum | python/cost_functions.py:22-29 | the cost is the sum of the shapes' escape lengths |
| CostFunctions.RunningSum | python/cost_functions.py:26-28 | the running sum over the shapes is the sum of their escape lengths |
| CostFunctions.CostsMatchEvaluators | python/cost_functions.py:12-29 | the cost functions agree with the multiple evaluators' maximum and sum |
| CostFunctions.SingleCostMatchesEvaluator | python/cost_functions.py:4-9 | the single cost agrees with the single evaluator |
| ZeroDataExamples.ZeroAngleDataLength | python/test_evaluators.py:9-33 | for all-zero angle data, the escape length from a wheel of radius r at the origin is within segment / 2^21 of r |
| ZeroDataExamples.TestRep | python/test_evaluators.py:9-19 | the four angle representations of the tests have one parameter, segment 0.31, or 0.155 for the fixed ones |
| ZeroDataExamples.ZeroDataUnitWheel | python/test_evaluators.py:26-33 | these representations with zero data escape the unit wheel with length within 1e-6 of 1 |
| ZeroDataExamples.ZeroDataTwoWheels | python/test_evaluators.py:36-57 | for the wheels of radius 1 and 2, the maximum is 2 and the sum 3, within 1e-6, as the evaluator and cost tests expect |
| AnimationUtils.FindLastNodeNum | python/optimisation_animations_utils.py:10-21 | the walk stops at the node whose segment contains the given length: the arc length to the node is below it and adding the segment reaches it |
| AnimationUtils.LastNodeUnique | python/optimisation_animations_utils.py:10-21 | that node, its length and its segment length are unique |
| AnimationUtils.RemainderBounds | python/optimisation_animations_utils.py:25-27 | the remaining length is positive and at most the last segment's length |
| AnimationUtils.PlotCurveAssertAtNodes | python/optimisation_animations_utils.py:27-28 | the assertion holds exactly when the length is not the arc length of a node |
| AnimationUtils.PlotCurveAssertFails | python/optimisation_animations_utils.py:27-28 | on the segment (0,0)-(1,0) with length 1, the walk's result violates the assertion |
| AnimationUtils.EscapeLengthOffNodes | python/optimisation_animations_utils.py:44-49 | on an angle curve whose segments all have its stored size, and on any point or shift curve, the escape length that `plot_data` passes is never the arc length to a node, which by `PlotCurveAssertAtNodes` is when the written assertion holds |
| AnimationUtils.EscapeLengthBetweenNodes | python/escape_curve.py:41-47 | the escape length lies strictly between the arc lengths of the last point inside and the first point outside |
| AnimationUtils.PlotCurveCut | python/optimisation_animations_utils.py:24-36 | the cut point lies on the last segment, and the arc length to it is exactly the given length |
| AnimationUtils.ReachesEveryLength | python/optimisation_animations_utils.py:15-20 | if the last step is non-zero, the extended curve reaches every length, so the walk ends |
| AnimationUtils.ArcLengthBeyond | python/optimisation_animations_utils.py:15-20 | beyond the explicit points, each step adds the last step's length |
| AnimationUtils.ZeroLastStepBounded | python/optimisation_animations_utils.py:15-20 | if the last step is zero, no length beyond the explicit curve's is reached, so the walk does not end |
| AnimationUtils.ScanEndsIffLastStepMoves | python/optimisation_animations_utils.py:15-20 | the walk ends for every positive length exactly when the last explicit step is not the zero vector |
| AnimationUtils.MovingLastStepReaches | python/optimisation_animations_utils.py:15-20 | with a non-zero last step, some node's arc length reaches every positive length |
| AnimationUtils.ZeroLastStepStuck | python/optimisation_animations_utils.py:15-20 | with a last step of length zero, the length one unit past the explicit curve is positive and no node reaches it |
| AnimationUtils.ZeroStepIsZeroVector | python/optimisation_animations_utils.py:16-18 | a step has length zero exactly when it is the zero vector |
| LengthInside.FindLastInside | python/make_length_inside_example.py:56-63 | the result is the index before the first outside point, or none if the first point is outside |
| LengthInside.LastInsideUnique | python/make_length_inside_example.py:56-63 | that index is unique |
| LengthInside.LastInsideNone | python/make_length_inside_example.py:56-63 | there is no index exactly when the list is empty or starts outside |
| LengthInside.TailIrrelevant | python/make_length_inside_example.py:61-62 | points after the first outside point do not matter |
| LengthInside.LastInsideBetween | python/make_length_inside_example.py:84-94 | if the list starts inside and ends outside, the index exists and the point after it is in the list |
| LengthInside.PlotBisection | python/make_length_inside_example.py:105-113 | the pair after n rounds is n rounds of the escape bisection, and the segment between them is the original scaled by 1 / 2^n |
| EscapeAnimations.FirstMatch | python/make_escape_curve_animations.py:23-24 | the first key contained in the name, or none if no key is |
| EscapeAnimations.ApplyDict | python/make_escape_curve_animations.py:21-31 | a value is found exactly when one key alone is contained in the name, and it is that key's value |
| EscapeAnimations.AmbiguousNameRejected | python/make_escape_curve_animations.py:25-27 | a name containing two keys gets no value |
| EscapeAnimations.ColorDict | python/make_escape_curve_animations.py:36-40 | the four curve keys, distinct, in order |
| EscapeAnimations.CurveColor | python/make_escape_curve_animations.py:34-42 | a name containing exactly one curve key gets that key's colour |
| EscapeAnimations.NameDict | python/make_escape_curve_animations.py:47-51 | the four curve keys, distinct, in order |
| EscapeAnimations.CurveName | python/make_escape_curve_animations.py:45-53 | a name containing exactly one curve key gets that key's display name |
| EscapeAnimations.HalfplanePointName | python/make_escape_curve_animations.py:374-380 | the half-plane point curve's TeX name maps to the name 'naiwny' |
| EscapeAnimations.InitialDataForSecondStep | python/make_escape_curve_animations.py:192-202 | the seed holds the coordinates of the points after the first; the point representation has the seed's size and 1.05 times its minimum and maximum as bounds |
| EscapeAnimations.SecondStepRoundTrip | python/make_escape_curve_animations.py:192-202 | the second representation reads the seed back as the first step's curve |
| EscapeAnimations.SecondStepBounds | python/make_escape_curve_animations.py:197-201 | the bounds contain the seed exactly when its minimum is at most 0 and its maximum at least 0 |
| EscapeAnimations.ShiftSecondStepTime | python/make_escape_curve_animations.py:212-218 | each row keeps its data, and its time is moved by the first trace's final time |
| EscapeAnimations.ShiftedTraceChronological | python/make_escape_curve_animations.py:212-238 | the first trace followed by the shifted second trace is in time order |
| EscapeAnimations.ShiftSecondStepTimeInverse | python/make_escape_curve_animations.py:212-218 | subtracting that time gives the second trace back |
| CurveComparison.PerturbeAngleList | python/make_curve_comparison.py:35-38 | only the angle at index 3 changes, by the perturbation |
| CurveComparison.PerturbeInverse | python/make_curve_comparison.py:35-38 | perturbing by -p undoes perturbing by p |
| CurveComparison.TransformAngles | python/make_curve_comparison.py:66-70 | one angle per angle |
| CurveComparison.TransformSameCurve | python/make_curve_comparison.py:66-70 | the transformed angles give the same curve in either kind as the logo angles do |
| CurveComparison.PrefixDetermined | python/curve.py:15-36 | the first k + 1 points of an angle curve depend only on the first k angles |
| CurveComparison.PerturbationKeepsStart | python/make_curve_comparison.py:15-38 | a perturbation leaves the first four points of every curve unchanged |
| CurveComparison.FrameCurve | python/make_curve_comparison.py:52-58 | a frame's curve has one point more than there are angles |
| CurveComparison.AllFrameCurves | python/make_curve_comparison.py:52-58 | one curve per kind and perturbation |
| CurveComparison.KindFrames | python/make_curve_comparison.py:52-58 | the frames of one kind, one per perturbation, in order |
| CurveComparison.FrameCurvesPresent | python/make_curve_comparison.py:52-58 | every kind's curve for every perturbation is among the frame curves |
| CurveComparison.AxisLimits | python/make_curve_comparison.py:41-63 | no limits exactly when there are no lists; otherwise the limits, less the margin of 0.3, are the hull of all values |
| CurveComparison.HullStep | python/make_curve_comparison.py:42-44 | updating the limits with one more list gives the hull of one more list |
| CurveComparison.FindLimits | python/make_curve_comparison.py:41-63 | the x and y limits are the hulls of all frame curves' coordinates, widened by 0.3 |
| CurveComparison.CoordLists | python/make_curve_comparison.py:59-60 | the x or y list of each curve |
| CurveComparison.Reverse | python/make_curve_comparison.py:88 | element i of the reversal is element n - 1 - i |
| CurveComparison.FrameParams | python/make_curve_comparison.py:87-88 | the parameter list runs forward then back, of length 2n - 2, starting with the parameters |
| CurveComparison.FrameParamsPalindrome | python/make_curve_comparison.py:87-88 | the frame parameters after the first read the same backwards |
| Rotations.RotationMatrix | python/rotations.py:5-13 | the matrix has equal diagonal entries and opposite off-diagonal entries |
| Rotations.ZeroRotationIsIdentity | python/test_rotations.py:7-11 | rotation by 0 is the identity |
| Rotations.RotationDeterminant | python/test_rotations.py:17-24 | every rotation matrix has determinant 1 |
| Rotations.CompositionOfRotations | python/test_rotations.py:27-37 | the product of rotations by x and y is the rotation by x + y |
| Rotations.RotateByNegativeAngle | python/test_rotations.py:40-48 | rotation by -x equals rotation by 360 degrees - x |
| Rotations.RightAngleMatrix | python/test_rotations.py:51-57 | rotation by 90 degrees is [[0, -1], [1, 0]] |
| Rotations.Rotate2d | python/rotations.py:16-21 | a 2-vector is rotated to a 2-vector of the same length |
| Rotations.RotateUnitX | python/test_rotations.py:60-62 | [1, 0] rotated by 90 degrees is [0, 1] |
| Rotations.RotateBack | python/rotations.py:16-21 | rotating back by the opposite angle gives the vector back |
| Crystals.Canonical | python/make_crystals.py:27-30 | the stored edge is the two endpoints, the smaller first |
| Crystals.CanonicalSymmetric | python/make_crystals.py:27-30 | the stored edge does not depend on the endpoints' order |
| Crystals.AddNode | python/make_crystals.py:41-43 | adds the node and changes nothing else |
| Crystals.AddEdge | python/make_crystals.py:23-30 | needs both endpoints as nodes; adds the stored edge and changes nothing else |
| Crystals.AddEdgeSymmetricIdempotent | python/make_crystals.py:23-30 | adding an edge either way round gives the same crystal, and adding it twice is the same as adding it once |
| Crystals.RemoveEdge | python/make_crystals.py:32-39 | needs the endpoints as nodes and the edge present; removes it and changes nothing else |
| Crystals.RemoveUndoesAdd | python/make_crystals.py:23-39 | removing undoes adding a new edge, and adding undoes removing one |
| Crystals.ShiftOf | python/make_crystals.py:50 | the shift accumulated for a node, zero for a node never shifted |
| Crystals.AddShift | python/make_crystals.py:45-52 | the node's shift grows by the given shift; other nodes' shifts stay |
| Crystals.ShiftsCommute | python/make_crystals.py:45-52 | shifts can be added in either order |
| Crystals.TryAddShift | python/make_crystals.py:58-61 | adds the shift for a node of the crystal, and otherwise changes nothing |
| Crystals.NodePos | python/make_crystals.py:63-65 | the drawn position differs from the grid position by exactly the node's accumulated shift; a node never shifted is drawn at its grid position |
| Crystals.AddShiftMovesNode | python/make_crystals.py:63-65 | a shift moves its node's drawn position by exactly the shift, and no other node moves |
| Crystals.KeepInGrid | python/make_crystals.py:87 | exactly the candidates that lie in the grid |
| Crystals.AllNeighbours | python/make_crystals.py:81-87 | exactly the grid nodes at distance 1 along an axis, at most four |
| Crystals.GridNodes | python/make_crystals.py:101-103 | exactly the nodes of the grid |
| Crystals.RegularCrystal | python/make_crystals.py:100-110 | every grid node; an edge between every two adjacent nodes and no other edge; no shifts |
| CommonFunctions.ToCoreName | python/common_functions.py:6-11 | the name without its `.tex` suffix |
| CommonFunctions.ToCoreNameUnique | python/common_functions.py:6-11 | that is the only string that gives the name back when `.tex` is appended |
| OutputPaths.CoreName | python/output_paths.py:10-13 | the configured file name without `.tex` |
| OutputPaths.CoreNamesAgree | python/output_paths.py:10-13 | agrees with the common core-name function |
| OutputPaths.NewPaths | python/output_paths.py:20-22 | keeps the TeX name and its core name |
| OutputPaths.FileNameWith | python/output_paths.py:29-30 | the core name, an underscore, then the postfix unchanged |
| OutputPaths.FileName | python/output_paths.py:32-34 | the picture's name starts with the core name and an underscore and ends with `.pdf` |
| OutputPaths.FileNamesDistinct | python/output_paths.py:32-34 | different picture numbers give different file names |
| OutputPaths.PathString | python/tex_string_utils.py:39 | the rendering of a path starts with its first component and ends with a slash and its last component |
| OutputPaths.PathStringConcat | python/output_paths.py:46 | rendering two paths joined with `/` gives their renderings joined by a slash |
| OutputPaths.PdfFilePath | python/output_paths.py:42-46 | the path is the data directory, then the core name, then one file whose name is the core name and an underscore followed by `n.pdf` |
| OutputPaths.RelativeTo | python/output_paths.py:40 | the base followed by the relative path is the path |
| OutputPaths.ShortPdfPath | python/output_paths.py:36-40 | the short path is the core-name directory and the file name, whatever the data directory |
| OutputPaths.ShortPdfPathString | python/output_paths.py:36-40 | as a string, the short path is `core/core_` followed by the number and `.pdf` |
| OutputPaths.GeneralFilePath | python/output_paths.py:55-57 | the path is the data directory, then the core name, then one file whose name is the core name and an underscore followed by the postfix, as for the pictures |
| OutputPaths.PdfIsGeneralFile | python/output_paths.py:55-57 | a picture's path is the general path with postfix `n.pdf` |
| OutputPaths.TexFilePath | python/output_paths.py:48-53 | the configured TeX file directly in the data directory |
| TexStrings.IncludeGraphicsStr | python/tex_string_utils.py:4-10 | the `includegraphics` command at the given width, for the picture's short path |
| TexStrings.SimpleOverprintFrame | python/tex_string_utils.py:13-31 | a beamer frame around the overprint lines of pictures 0..n-1 |
| TexStrings.OverprintLineAt | python/tex_string_utils.py:22-26 | slide k + 1's line comes right after the lines of pictures 0..k-1 |
| TexStrings.AnimateGraphicsStr | python/tex_string_utils.py:34-45 | the `animategraphics` command with the frame prefix `core/core_` that the pictures share |
| TexStrings.StripFrameSuffix | python/make_curve_comparison.py:98-100 | dropping `-1.pdf` leaves a prefix that ends in an underscore |
| TexStrings.MinusOnePath | python/tex_string_utils.py:39 | the short path of picture -1 is the frame prefix followed by `-1.pdf` |
| TexStrings.MinusOnePathSuffix | python/tex_string_utils.py:39-40 | the suffix assertion of the animation always holds |
| TexStrings.StrippedIsFramePrefix | python/tex_string_utils.py:39-41 | stripping the suffix leaves exactly the frame prefix |
| TexStrings.FramePrefixNamesFrames | python/tex_string_utils.py:39-45 | the prefix followed by `k.pdf` is picture k's short path, so the animation finds exactly the saved pictures |
| Basics.IntToStringInjective | python/output_paths.py:32-34 | different integers print differently |
| Basics.NatToStringInjective | python/output_paths.py:32-34 | different naturals print differently |

## Left out

- Plotting with matplotlib, saving figures, writing TeX files (the `save_*`
  functions) and the module-level `make_*` drivers are left out. They are
  I/O with no logic beyond the functions modelled here.
- The global optimiser (`scipy.optimize.dual_annealing`), the timing of
  its callbacks and the data generators that call it are left out. These
  are foreign calls and wall-clock readings. The trace it produces is
  modelled as `Row` values.
- The rectangle, strip and half-plane shapes are left out. Their
  membership is matplotlib's `Polygon.contains_point`, a foreign call, and
  so is the rotation of their corners. Only the wheel is modelled.
- Floating point is left out. The model works over reals:
  - cos, sin and sqrt are parameters satisfying `Geometry.Lawful`;
  - `radians(90)` is the parameter `quarter`, and 360 degrees is four of
    it;
  - the rotation test's determinant of 1 holds exactly over reals.
- The bisection tolerances of the tests are proved as bounds over reals.
  Float rounding is not modelled.
- The project configuration is a map from TeX names to file names. The
  data directory is a path parameter. Creating the directory (`mkdir`) is
  left out.
- The shift curve's constructor is not part of this model.
  `Representations.ShiftRep` carries it as a function parameter.
- The colour values are a `Palette` parameter.
- The width of `includegraphics` is a string parameter, because Python's
  rendering of a float is not modelled.
- `curve.Curve`, `escape_curve.LogoCurve`, `AzimuthCurve`, `PointCurve` and
  `calculate_dist_list` are used but not defined in `curve.py`,
  `extendable_curve.py` or `escape_curve.py`. They are modelled as their
  uses and tests describe.
- The default `inter_limit=10` of `get_max_len_inside` is not modelled:
  the round count `n` is always a parameter, and every caller in
  `evaluators.py` and `cost_functions.py` passes its own limit.
- ConvexShapes.Contains: carries no contract of its own. Its closed-disk
  meaning is stated on `ContainsIsClosedDisk`, and its bounding square on
  `MemberInBoundingSquare`. A postcondition on the predicate itself would
  make every proof that uses membership far more expensive.
- Escape.ScanFirstOutside: the Python scan loops forever on a curve that
  never leaves the shape. The model requires `Escapes` instead.
  `RayEscape.RayLeaves` discharges that requirement for straight curves.
- AnimationUtils.FindLastNodeNum: the model takes a ghost bound, an index
  whose arc length reaches the requested length.
  `AnimationUtils.ReachesEveryLength` supplies that bound whenever the last
  explicit step is non-zero. The Python loop runs forever without one
  (`AnimationUtils.ZeroLastStepBounded`).
  `AnimationUtils.ScanEndsIffLastStepMoves` states both directions.
- The evaluator tests with point and shift representations and all-zero
  data are not proved. With `curve.py`'s point curve such data give a
  curve that stays at the origin, and the scan never ends
  (`Representations.ZeroPointDataNeverEscapes`).
- Representations.ToCurve: says nothing about shift curves, whose
  constructor is not part of this model.
- EscapeAnimations.CurveColor: states the colour only for a name that
  contains exactly one key. The failure cases are stated once, on
  `ApplyDict`.
- EscapeAnimations.CurveName: the same, for the display names.
- CurveComparison.AllFrameCurves: its contract states the count and the
  length of the curves. That each kind's curve for each perturbation is
  present is `FrameCurvesPresent`. The kinds-outermost order is not stated.
- Crystals.RegularCrystal: stated for any sx by sy grid. The pictures use
  23 by 12.
- The defected crystal is left out. It places nodes at half-integer
  positions such as (1.5, 1.5), while the nodes here are integer grid
  points.
- The random jitter of the crystal frames and the node styles and plotting
  are left out. They are randomness and drawing.
- The interpolation and convex hulls of `plotable_convex_shapes` are left
  out. They are scipy calls used for drawing only.

## Findings

| source | as written | input that shows it | evidently intended | confidence | as-written member | corrected member |
|---|---|---|---|---|---|---|
| python/optimisation_animations_utils.py:27-28 | the remaining length must satisfy `0 <= rem_len < last_segment_len` | the curve (0,0), (1,0) cut at length 1: the walk stops at node 0 with previous length 0 and last segment 1, so the remainder 1 equals the segment length and the assertion fails | `0 < rem_len <= last_segment_len`: a length that ends exactly on a node cuts at the end of that node's segment | not executed; latent in the program: a direct call with a length equal to a node's arc length reaches it, but the only caller, `plot_data` (lines 44-49, called at make_escape_curve_animations.py:76), passes an escape length. For single shapes that is `evaluate_curve` (make_escape_curve_animations.py:135-136) on angle curves. For several shapes it is `evaluate_curve_max` (lines 173-174 and 240-248), which equals one of the shapes' escape lengths (`Evaluators.EvaluateCurveMax`). The two-step scheme draws an angle curve and then a point curve (line 200). On an angle curve the length is segment_size * (k - 1) + d, on a point curve the arc length to point k - 1 plus d, with d strictly inside the crossing segment. Over reals neither form equals a node's arc length (`AnimationUtils.EscapeLengthOffNodes`); float rounding could still produce one | AnimationUtils.PlotCurveAssertFails | AnimationUtils.PlotCurveCut |
