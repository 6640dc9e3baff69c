# Bezier polygonisation and annotation helpers, in Dafny

This project models the geometry core of an annotation converter. The
converter turns a few anchor points drawn by a user into a dense polygon.
It also models the helpers that turn polygons into Pascal VOC boxes and
integer polygons, and the readers that take image sizes from PNG and JPEG
headers.

- `vectors.dfy` (module `Vectors`): plane vectors and the Euclidean norm.
  The norm is a function parameter `norm` constrained by `IsEuclideanNorm`.
  That predicate requires the norm to be non-negative and its square to
  equal x² + y². The norm laws the code relies on are lemmas: zero exactly
  on the zero vector, `|k|` homogeneity, and invariance under rotation by
  90 degrees. The module also defines the `Result` and `Option` types.
- `control_points.dfy` (module `BezierControlPoint`): the synthesis of a
  piecewise cubic control polygon from anchors.
  - The pure parts are functions: the overshoot-limited control point, the
    control pair of a segment, and the open and closed control polygons.
  - The two builders are methods. Each fills a preallocated array, writing
    the anchors into every third slot and the pairs in a loop.
- `interpolation.dfy` (module `BezierInterpolation`): the cubic Bezier
  polynomial in Bernstein form and the sampler.
  - The sampler is a method with the source's nested loops, proved equal to
    the function `SampledCurve`.
  - Lemmas give its shape: `k * s + 1` samples, with sample `k * s` being
    anchor `cps[3k]`.
  - The open and closed interpolators are synthesis followed by sampling.
- `region.dfy` (module `BezierRegion`): normalisation and the tangent pass.
  - The tangent pass has its array, its estimate loop and its left-to-right
    fix-up loop. It is proved equal to `Tangents`, whose tangents are all
    unit vectors.
  - The closed region drops the seam point.
  - The open stroke is the band of `2m` vertices: the left rail, then the
    reversed right rail.
- `bbox.dfy` (module `PolygonBbox`): the N x 2 check, the bounding box and
  the VOC polygon.
  - The box's clamp-and-repair steps are an imperative method run once per
    axis.
  - The polygon's columns are clipped in place in an array, then rounded
    half to even as numpy's `rint` does.
- `image_size.dfy` (module `ImageSize`): the image header readers.
  - The PNG reader follows section 11.2.2 of the PNG specification (ISO/IEC
    15948): signature, then the big-endian IHDR width and height.
  - The JPEG marker scan is a cursor loop over the bytes. It skips fill
    bytes, steps over standalone markers and length-prefixed segments, and
    reads the frame header (ITU-T T.81, B.1.1.3 and B.2.2).
  - The dispatcher chooses a reader from the file suffix, ignoring letter
    case.

Numbers are exact reals, not IEEE doubles. File contents are a byte
sequence given as a parameter.

## Behaviour a caller might not expect

The model follows the code in each of these cases:

- **Closed polygon of one anchor.** One might expect 3n + 1 control points
  for every n >= 1. For n = 1 the code returns the single anchor. See
  `BezierControlPoint.ClosedShape`.
- **Seam removal.** One might expect a closed region never to end where it
  starts. The code drops only one seam point, so two equal anchors give
  2s copies of one point. See `BezierRegion.ClosedSeamCanRepeat`.
- **Sampler checks.** The 3k + 1 count and `samples_per_segment >= 1` are
  checked only when there are at least four control points. See
  `BezierInterpolation.SamplingChecks`.
- **Overshoot bound.** A negative tension gives a negative weight, so the
  control-point offset is bounded by `|weight| * 2 * interval`, not by
  `weight * 2 * interval`. See `BezierControlPoint.OvershootBound`.

## Model

| member | source | states |
|---|---|---|
| Vectors.NormZeroIff | Utility/bezier_control_point.py:63-66 | the norm is non-negative and zero exactly on the zero vector, which is what the degenerate-segment test relies on |
| Vectors.NormScale | Utility/bezier_control_point.py:79-83 | scaling a vector by k scales its norm by \|k\| |
| Vectors.NormPerp | Utility/bezier_region.py:81 | turning a vector by 90 degrees, as the normals are built, keeps its norm |
| Vectors.NormUnitX | Utility/bezier_region.py:27 | the default tangent (1, 0) has norm 1 |
| BezierControlPoint.LimitedOvershoot | Utility/bezier_control_point.py:78-85 | a zero direction or a zero weight returns the anchor itself; OvershootExact gives exactly how far and which way it moves otherwise |
| BezierControlPoint.OvershootExact | Utility/bezier_control_point.py:78-85 | the anchor moves by exactly \|weight\| times the shorter of the direction's length and twice the interval, along weight * k * direction for some k in [0, 1], with k = 1 when the direction is no longer than twice the interval |
| BezierControlPoint.OvershootBound | Utility/bezier_control_point.py:78-85 | the offset from the anchor is at most \|weight\| times twice the interval, and at most \|weight\| times the direction's norm |
| BezierControlPoint.OvershootDirection | Utility/bezier_control_point.py:81-83 | the offset is parallel to the direction (zero cross product) |
| BezierControlPoint.ControlPoint | Utility/bezier_control_point.py:62-75 | pt1 == pt2 returns (pt1, pt2); weight 0 keeps that control point on its anchor; ControlPointExact gives the exact distance and direction of the pull |
| BezierControlPoint.ControlPointExact | Utility/bezier_control_point.py:62-85 | for pt1 != pt2 the first control point lies exactly \|weight1\| * min(\|pt2 - pt0\|, 2\|pt2 - pt1\|) from pt1, along weight1 times a fraction in [0, 1] of pt2 - pt0; the second likewise from pt2 along pt1 - pt3 |
| BezierControlPoint.ControlPointBound | Utility/bezier_control_point.py:62-75 | each control point stays within \|weight\| times twice the segment length of its anchor |
| BezierControlPoint.ControlPointDirection | Utility/bezier_control_point.py:69-73 | the first control point moves along pt2 - pt0, the second along pt1 - pt3 |
| BezierControlPoint.PullWeightBound | Utility/bezier_control_point.py:11 | for the weights the builders use (0 and tension / 2), twice the weight is at most \|tension\| |
| BezierControlPoint.PulledPairBound | Utility/bezier_control_point.py:17-26 | a pair pulled with weights of at most half the tension lies within \|tension\| times its segment length of its anchors |
| BezierControlPoint.OpenLayout | Utility/bezier_control_point.py:13-26 | the open polygon has 3n - 2 entries: anchor i at 3i, and the pair of segment j at 3j + 1, 3j + 2 |
| BezierControlPoint.OpenShape | Utility/bezier_control_point.py:3-28 | n <= 1 returns the input; otherwise the length is 3n - 2, anchor i is at 3i, and the free end control points sit on the first and last anchors |
| BezierControlPoint.OpenTwoAnchors | Utility/bezier_control_point.py:16-17 | two anchors give [p0, p0, p1, p1] whatever the tension |
| BezierControlPoint.OpenZeroTension | Utility/bezier_control_point.py:10-28 | tension 0 puts every control point on its anchor |
| BezierControlPoint.OpenPairBound | Utility/bezier_control_point.py:19-26 | each pair of the open curve lies within \|tension\| times its segment length of its anchors |
| BezierControlPoint.OpenOvershootBound | Utility/bezier_control_point.py:10-28 | no control point of the open polygon lies further than \|tension\| times its segment length from its anchor |
| BezierControlPoint.ClosedLayout | Utility/bezier_control_point.py:41-57 | the closed polygon has 3n + 1 entries: anchor i at 3i, anchor 0 again at 3n, and the pair of segment j at 3j + 1, 3j + 2 |
| BezierControlPoint.ClosedShape | Utility/bezier_control_point.py:31-59 | n <= 1 returns the input; otherwise the length is 3n + 1, anchor i is at 3i, and the last entry equals the first anchor |
| BezierControlPoint.ClosedTwoAnchors | Utility/bezier_control_point.py:45-47 | two anchors give [p0, p0, p1, p1, p1, p0, p0]: the second pair mirrors the first |
| BezierControlPoint.ClosedCallCyclic | Utility/bezier_control_point.py:49-57 | for n >= 3 the arguments of segment i are anchors i - 1, i, i + 1, i + 2 modulo n, with equal weights |
| BezierControlPoint.ClosedCyclic | Utility/bezier_control_point.py:48-57 | for n >= 3 every pair of the closed polygon is ControlPoint of its neighbours modulo n |
| BezierControlPoint.ClosedPairBound | Utility/bezier_control_point.py:45-57 | each closed pair lies within \|tension\| times its segment length of its anchors, and on them at tension 0 |
| BezierControlPoint.ClosedOvershootBound | Utility/bezier_control_point.py:38-57 | no control point of the closed polygon lies further than \|tension\| times its segment length from its anchor |
| BezierControlPoint.ClosedZeroTension | Utility/bezier_control_point.py:38-57 | tension 0 gives the closed polyline: control points on their anchors |
| BezierControlPoint.StorePairs | Utility/bezier_control_point.py:21-24 | the loop writes pair j into slots 3j + 1 and 3j + 2 and leaves the anchor slots and the slots outside its range unchanged |
| BezierControlPoint.BezierOpenCurve | Utility/bezier_control_point.py:3-28 | the array-filling builder returns exactly OpenControlPolygon |
| BezierControlPoint.BezierClosedCurve | Utility/bezier_control_point.py:31-59 | the array-filling builder returns exactly ClosedControlPolygon |
| BezierInterpolation.CubicBezier | Utility/bezier_interpolation.py:6-8 | the curve starts at p0 (t = 0) and ends at p1 (t = 1) |
| BezierInterpolation.BernsteinSum | Utility/bezier_interpolation.py:6-8 | the four weights add up to one |
| BezierInterpolation.CubicTranslation | Utility/bezier_interpolation.py:6-8 | moving all four points by d moves every curve point by d |
| BezierInterpolation.CubicConstant | Utility/bezier_interpolation.py:6-8 | four equal points give that point for every t |
| BezierInterpolation.CubicStraightMidpoint | Utility/bezier_interpolation.py:6-8 | with c1 = p0 and c2 = p1, t = 0.5 gives the midpoint of p0 and p1 |
| BezierInterpolation.Param | Utility/bezier_interpolation.py:32 | linspace(0, 1, s + 1): parameter 0 at j = 0, 1 at j = s, within [0, 1] between |
| BezierInterpolation.SamplingChecks | Utility/bezier_interpolation.py:16-21 | fewer than four points come back unchanged; otherwise a count other than 3k + 1 is refused, then s < 1 is refused; success exactly in the remaining cases |
| BezierInterpolation.SampleAtSegment | Utility/bezier_interpolation.py:26-37 | sample j of segment i sits at index i * s + j |
| BezierInterpolation.AppendSegmentSamples | Utility/bezier_interpolation.py:27-37 | the inner loop extends the first i * s + 1 samples to the first (i + 1) * s + 1 |
| BezierInterpolation.InterpolateFromControlPoints | Utility/bezier_interpolation.py:11-39 | the nested loops return exactly SampledCurve, errors included |
| BezierInterpolation.AnchorSample | Utility/bezier_interpolation.py:26-37 | sample k * s is control point 3k, so the dropped joint sample loses nothing |
| BezierInterpolation.SampledAnchors | Utility/bezier_interpolation.py:23-39 | count * s + 1 samples; the first is cps[0], the last cps[-1], and sample k * s is cps[3k] |
| BezierInterpolation.ConstantPolygonSamples | Utility/bezier_interpolation.py:26-37 | a control polygon standing on one point samples to that point only |
| BezierInterpolation.SampledPassesThrough | Utility/bezier_interpolation.py:26-37 | anchors stored at every third control point appear every s samples |
| BezierInterpolation.AnchoredSampling | Utility/bezier_interpolation.py:23-39 | a polygon of k segments carrying the anchors yields k * s + 1 samples through them, ending at its last control point |
| BezierInterpolation.AnchoredOutcomes | Utility/bezier_interpolation.py:16-39 | the three outcomes for a polygon built from anchors: unchanged, refused for s < 1, or sampled through the anchors |
| BezierInterpolation.InterpolateOpenCurve | Utility/bezier_interpolation.py:42-44 | open interpolation is synthesis followed by sampling |
| BezierInterpolation.InterpolateClosedCurve | Utility/bezier_interpolation.py:47-49 | closed interpolation is synthesis followed by sampling |
| BezierInterpolation.OpenCurveSamples | Utility/bezier_interpolation.py:42-44 | n <= 1 anchors come back unchanged; n >= 2 with s < 1 is refused; otherwise (n - 1) * s + 1 samples with anchor i at i * s |
| BezierInterpolation.ClosedCurveSamples | Utility/bezier_interpolation.py:47-49 | n <= 1 unchanged; s < 1 refused; otherwise n * s + 1 samples, anchor i at i * s, ending on the first anchor |
| BezierRegion.Normalize | Utility/bezier_region.py:13-17 | a vector with length comes back as the vector that, scaled by that length, gives it again; a vector without length gives zero; NormalizeUnit shows the result is a unit vector |
| BezierRegion.NormalizeUnit | Utility/bezier_region.py:13-17 | zero maps to zero; any other vector maps to a unit vector that is a positive multiple of it |
| BezierRegion.Tangents | Utility/bezier_region.py:20-28 | one tangent per point; a single point gets (1, 0) |
| BezierRegion.FilledNonzero | Utility/bezier_region.py:36-41 | a fixed tangent is never zero |
| BezierRegion.FilledFromLeft | Utility/bezier_region.py:36-41 | a fixed tangent is the nearest nonzero estimate at or left of it |
| BezierRegion.FilledAllZero | Utility/bezier_region.py:36-41 | with no nonzero estimate at or left of i, the tangent is (1, 0) |
| BezierRegion.FilledUnit | Utility/bezier_region.py:36-41 | fixed tangents built from zero-or-unit estimates are unit vectors |
| BezierRegion.TangentsUnit | Utility/bezier_region.py:20-43 | every tangent has norm 1 and so is nonzero |
| BezierRegion.TangentsFixup | Utility/bezier_region.py:36-41 | nonzero estimates stay; a zero one at i > 0 copies the fixed tangent i - 1, and at 0 becomes (1, 0) |
| BezierRegion.EstimateTangents | Utility/bezier_region.py:30-34 | the array holds one-sided differences at the ends and central ones inside, normalised |
| BezierRegion.FixTangents | Utility/bezier_region.py:36-41 | the in-place pass turns the estimates into their left-filled tangents, reading the already updated i - 1 |
| BezierRegion.ComputeTangents | Utility/bezier_region.py:20-43 | the array method returns exactly Tangents |
| BezierRegion.DropSeam | Utility/bezier_region.py:55-57 | the curve loses its last point exactly when it has two or more points and the last is close to the first |
| BezierRegion.SeamTrimmed | Utility/bezier_region.py:53-58 | a sampling error comes through as an error, and only then |
| BezierRegion.BezierClosedRegion | Utility/bezier_region.py:46-58 | the builder returns exactly ClosedRegion |
| BezierRegion.SeamDropped | Utility/bezier_region.py:55-57 | on a closed sampled curve the last point goes and every anchor sample stays |
| BezierRegion.TrimmedOutcomes | Utility/bezier_region.py:53-58 | the seam step keeps a single anchor, passes a refusal on, and turns n * s + 1 samples into n * s |
| BezierRegion.ClosedRegionShape | Utility/bezier_region.py:46-58 | no anchors give no region; one anchor comes back; s < 1 is refused; otherwise n * s points with anchor i at i * s |
| BezierRegion.ClosedSeamCanRepeat | Utility/bezier_region.py:55-58 | two equal anchors give 2s points whose first and last are equal |
| BezierRegion.StrokeBand | Utility/bezier_region.py:83-87 | the band has 2m vertices |
| BezierRegion.StrokeBandVertices | Utility/bezier_region.py:80-87 | vertex i is c[i] + (w/2) n[i] and vertex 2m - 1 - i is c[i] - (w/2) n[i]; their midpoint is c[i]; with unit tangents each lies w/2 from c[i] and they are w apart |
| BezierRegion.BezierOpenStrokeRegion | Utility/bezier_region.py:61-89 | the builder returns exactly OpenStrokeRegion |
| BezierRegion.BandAroundAnchor | Utility/bezier_region.py:75-87 | around a centerline through the anchors, vertices k * s and 2m - 1 - k * s straddle anchor k at distance w/2 |
| BezierRegion.OpenStrokeShape | Utility/bezier_region.py:61-89 | n >= 2, w > 0, s >= 1 give 2m vertices for m = (n - 1) * s + 1, straddling every anchor at distance w/2 |
| BezierRegion.OpenStrokeDegenerate | Utility/bezier_region.py:67-78 | no anchors give no region; a negative width is refused only after that; a sample count below 1 with two or more anchors is the sampler's refusal; one anchor or width 0 gives the centerline |
| PolygonBbox.EnsurePolygonArray | Utility/polygon_to_bbox_util.py:11-17 | accepted exactly when N x 2 with N >= 1, coordinates kept; otherwise an error |
| PolygonBbox.MinOf | Utility/polygon_to_bbox_util.py:29-30 | the minimum is a lower bound attained by some entry |
| PolygonBbox.MaxOf | Utility/polygon_to_bbox_util.py:31-32 | the maximum is an upper bound attained by some entry |
| PolygonBbox.Ceil | Utility/polygon_to_bbox_util.py:43-44 | the least integer at or above r |
| PolygonBbox.Rint | Utility/polygon_to_bbox_util.py:81 | the result is within 1/2 of r |
| PolygonBbox.RintOfInteger | Utility/polygon_to_bbox_util.py:81 | integers round to themselves |
| PolygonBbox.RintHalfToEven | Utility/polygon_to_bbox_util.py:81 | k + 1/2 rounds to the even one of k and k + 1 |
| PolygonBbox.RintMonotone | Utility/polygon_to_bbox_util.py:81 | rounding keeps the order |
| PolygonBbox.ClampToImage | Utility/polygon_to_bbox_util.py:34-39 | with a size of at least one, the clamped coordinate lies in [0, size - 1] |
| PolygonBbox.ClipToImage | Utility/polygon_to_bbox_util.py:76-79 | with a size of at least one, in [0, size - 1]; with a smaller size, size - 1 |
| PolygonBbox.ClampKeepsIntervalNonempty | Utility/polygon_to_bbox_util.py:51-63 | the integer clamp keeps a nonempty interval nonempty, so the repair branches at lines 54-56 and 61-63 never run |
| PolygonBbox.AxisBounds | Utility/polygon_to_bbox_util.py:29-63 | along one axis the box is never empty. Without a size it starts at floor(min) and reaches ceil(max), widened to max(1, min_size) when empty. With a size >= 1 it lies in [0, size] and is exactly floor(clamped min) to ceil(clamped max), or, when those meet, widened to max(1, min_size) and cut at size. With a smaller size it is [0, 1] |
| PolygonBbox.AxisBoxUnique | Utility/polygon_to_bbox_util.py:29-63 | the per-axis box property admits exactly one interval for a given span, image size and min_size |
| PolygonBbox.AxisBoxTightOnImage | Utility/polygon_to_bbox_util.py:29-63 | a span inside an image of known size whose floor and ceiling differ gets exactly that floor and ceiling, so the whole image is not a box of a small polygon |
| PolygonBbox.PolygonToBbox | Utility/polygon_to_bbox_util.py:20-65 | the polygon check's error is passed on; otherwise each axis is the one interval the per-axis box property admits (AxisBoxUnique), the exact clamped floor and ceiling when an image size is given |
| PolygonBbox.VocPolygon | Utility/polygon_to_bbox_util.py:74-81 | the integer polygon keeps the number of points |
| PolygonBbox.ClipColumn | Utility/polygon_to_bbox_util.py:76-79 | the in-place clip changes one column of every point and leaves the other |
| PolygonBbox.PolygonToVocPolygon | Utility/polygon_to_bbox_util.py:68-81 | the copy-clip-round method returns the check's error or exactly VocPolygon |
| PolygonBbox.VocPolygonBounds | Utility/polygon_to_bbox_util.py:74-81 | same number of points; with a size >= 1 every coordinate lies in [0, size - 1]; without one every coordinate is the rounded input |
| PolygonBbox.RoundedClipOnImage | Utility/polygon_to_bbox_util.py:76-81 | a clipped and rounded coordinate lies in [0, size - 1] |
| ImageSize.BigEndian16 | Utility/get_image_size.py:82-83 | a two-byte unsigned big-endian value lies in [0, 2^16) |
| ImageSize.BigEndian32 | Utility/get_image_size.py:23-24 | a four-byte unsigned big-endian value lies in [0, 2^32) |
| ImageSize.BigEndian32RoundTrip | Utility/get_image_size.py:23-24 | decoding the big-endian bytes of a 32-bit value gives it back |
| ImageSize.BigEndianBytes32RoundTrip | Utility/get_image_size.py:23-24 | encoding the value of any four bytes gives those bytes back, so every header word is the encoding of its value |
| ImageSize.ReadPngSize | Utility/get_image_size.py:14-26 | an error exactly when the header is shorter than 24 bytes or lacks the signature; sizes are 32-bit unsigned |
| ImageSize.PngRoundTrip | Utility/get_image_size.py:20-24 | a header written with a width and a height reads back as them |
| ImageSize.SkipFill | Utility/get_image_size.py:43-45 | skips exactly the run of FF fill bytes |
| ImageSize.JpegScanSteps | Utility/get_image_size.py:36-88 | the scan passes over non-FF bytes and fill bytes, ends at EOI and steps over other standalone markers. A length below 2 is an error, and other non-frame segments are skipped by their length. Any of the thirteen frame markers gives the height at offsets 5-6 and the width at offsets 7-8 from its FF byte. A frame header cut short, or the end of the data, gives no size |
| ImageSize.JpegNeedsSoi | Utility/get_image_size.py:33-36 | a stream not opening with FF D8 is refused; otherwise the scan starts right after those two bytes |
| ImageSize.JpegSizeFromFrame | Utility/get_image_size.py:36-88 | every size the scan reports was read from a frame header in the data: an FF, a frame marker, then the height and the width |
| ImageSize.ReadJpegSize | Utility/get_image_size.py:29-88 | the cursor loop returns exactly JpegSize, errors included |
| ImageSize.JpegRoundTrip | Utility/get_image_size.py:64-84 | a minimal SOF0 header with a width and a height reads back as them |
| ImageSize.Lower | Utility/get_image_size.py:93 | lower-casing keeps the length, leaves no ASCII capital, maps each capital to the small letter at the same alphabet position, and keeps every other character |
| ImageSize.LastIndexOf | Utility/get_image_size.py:93 | the last occurrence of c, or -1 |
| ImageSize.Suffix | Utility/get_image_size.py:93 | the suffix is empty or a dot followed by at least one character |
| ImageSize.SuffixOfExtension | Utility/get_image_size.py:93 | a name ending in a dot-free extension has that suffix, whatever the directories and other dots |
| ImageSize.ReadImageSize | Utility/get_image_size.py:91-100 | the dispatcher returns exactly ImageSizeOf |
| ImageSize.NoSuffixRefused | Utility/get_image_size.py:91-100 | a name without a suffix is refused as an unsupported extension with the empty suffix |
| ImageSize.SuffixlessNames | Utility/get_image_size.py:93 | "photo", "dir/.png" and "x.png." have no suffix: no dot, a leading dot only, a trailing dot only |
| ImageSize.DispatchByExtension | Utility/get_image_size.py:91-100 | .png in any case goes to the PNG reader, .jpg or .jpeg to the JPEG reader, and any other extension is an error |

## Left out

- Floating point: coordinates, tension and widths are exact reals. Rounding, NaN and infinities are not modelled. numpy's `allclose` is a parameter `close` that the seam lemmas take to be reflexive.
- `np.linalg.norm` is a parameter constrained to be the Euclidean norm. The model does not compute a square root.
- The `ndim`/`shape[1] == 2` checks of the sampler and the region builders cannot fail here, because points are `Vec` values. The polygon helpers keep their check: a nested-sequence input can fail the N x 2 test.
- ClosedRegionShape, OpenStrokeDegenerate: their `Ok([])` for no anchors models only an empty (0, 2) array. An empty Python list becomes an array of shape (0,), which fails the shape check (Utility/bezier_region.py:48-49 and 68-69) before the empty-input return is reached; the model has no way to tell the two empty inputs apart.
- Default arguments (tension 0.5, 20 or 16 samples per segment) are not modelled; callers pass every argument. The constant 16 appears as `DefaultSamplesPerSegment`.
- `samples_per_segment`, `min_size` and image sizes are integers. Non-integer Python values are not modelled.
- File I/O in Utility/get_image_size.py is replaced by a byte-sequence parameter. A seek past the end ends the scan with nothing more to read. The path in the error messages is not kept.
- Paths use `/` as their only separator. Lower-casing covers ASCII letters only. A path ending in a separator is not modelled.
- The control polygon is specified through the recursive `Interleave` of anchors and pairs. The builders still fill an array with strided writes, as the code does.
- PolygonBbox.AxisBounds: one method serves both axes. The source repeats the same steps for x and y.
