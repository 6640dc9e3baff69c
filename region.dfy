/** Turning sampled Bezier curves into polygons (Utility/bezier_region.py):
    a closed region is the sampled closed curve without its repeated seam
    point; an open stroke is the band of a given width around the sampled
    open curve, built from unit tangents and their normals. */
module BezierRegion {
  import opened Vectors
  import opened BezierControlPoint
  import opened BezierInterpolation

  /** The samples per segment the region builders use by default. */
  const DefaultSamplesPerSegment := 16

  /** The unit vector along v, or the zero vector when v has no length:
      scaling the result back by the length of v gives v. */
  function Normalize(norm: Vec -> real, v: Vec): (u: Vec)
    ensures norm(v) > 0.0 ==> Scale(norm(v), u) == v
    ensures !(norm(v) > 0.0) ==> u == Zero
  {
    var n := norm(v);
    if n > 0.0 then Div(v, n) else Zero
  }

  /** Normalize maps zero to zero and every other vector to the unit vector
      pointing the same way (a positive multiple of it). */
  lemma NormalizeUnit(norm: Vec -> real, v: Vec)
    requires IsEuclideanNorm(norm)
    ensures v == Zero ==> Normalize(norm, v) == Zero
    ensures v != Zero ==> norm(Normalize(norm, v)) == 1.0
    ensures v != Zero ==> norm(v) > 0.0 && Normalize(norm, v) == Scale(1.0 / norm(v), v)
  {
    NormZeroIff(norm, v);
    if v != Zero {
      var n := norm(v);
      assert Div(v, n) == Scale(1.0 / n, v);
      NormScale(norm, 1.0 / n, v);
      assert Abs(1.0 / n) * n == 1.0;
    }
  }

  /** A tangent estimate is acceptable to the fix-up pass when it is zero or
      a unit vector. */
  ghost predicate ZeroOrUnit(norm: Vec -> real, raw: seq<Vec>)
  {
    forall k :: 0 <= k < |raw| ==> raw[k] == Zero || norm(raw[k]) == 1.0
  }

  /** The tangent estimate at i before the fix-up pass: a one-sided
      difference at the two ends, a central difference inside. */
  function RawTangent(norm: Vec -> real, p: seq<Vec>, i: nat): Vec
    requires 2 <= |p| && i < |p|
  {
    if i == 0 then Normalize(norm, Sub(p[1], p[0]))
    else if i == |p| - 1 then Normalize(norm, Sub(p[|p| - 1], p[|p| - 2]))
    else Normalize(norm, Sub(p[i + 1], p[i - 1]))
  }

  function RawTangents(norm: Vec -> real, p: seq<Vec>): (raw: seq<Vec>)
    requires 2 <= |p|
    ensures |raw| == |p|
  {
    seq(|p|, i requires 0 <= i < |p| => RawTangent(norm, p, i))
  }

  /** The fixed tangent at i: the estimate itself when nonzero; a zero
      estimate takes the fixed tangent to its left, or (1, 0) at the start. */
  function Filled(raw: seq<Vec>, i: nat): Vec
    requires i < |raw|
    decreases i
  {
    if raw[i] != Zero then raw[i]
    else if i == 0 then UnitX
    else Filled(raw, i - 1)
  }

  /** The tangents of a polyline after the fix-up pass, one per point. */
  function Tangents(norm: Vec -> real, p: seq<Vec>): (t: seq<Vec>)
    ensures |t| == |p|
    ensures |p| == 1 ==> t == [UnitX]
  {
    if |p| == 0 then []
    else if |p| == 1 then [UnitX]
    else
      var raw := RawTangents(norm, p);
      seq(|p|, i requires 0 <= i < |p| => Filled(raw, i))
  }

  /** A fixed tangent is never zero. */
  lemma {:induction false} FilledNonzero(raw: seq<Vec>, i: nat)
    requires i < |raw|
    ensures Filled(raw, i) != Zero
  {
    if raw[i] == Zero && i > 0 {
      FilledNonzero(raw, i - 1);
    }
  }

  /** The fixed tangent at i is the nearest nonzero estimate at or to the
      left of i. */
  lemma {:induction false} FilledFromLeft(raw: seq<Vec>, i: nat, j: nat)
    requires j <= i < |raw| && raw[j] != Zero
    requires forall k :: j < k <= i ==> raw[k] == Zero
    ensures Filled(raw, i) == raw[j]
    decreases i
  {
    if i > j {
      FilledFromLeft(raw, i - 1, j);
    }
  }

  /** With no nonzero estimate at or left of i, the fixed tangent is (1, 0). */
  lemma {:induction false} FilledAllZero(raw: seq<Vec>, i: nat)
    requires i < |raw|
    requires forall k :: 0 <= k <= i ==> raw[k] == Zero
    ensures Filled(raw, i) == UnitX
  {
    if i > 0 {
      FilledAllZero(raw, i - 1);
    }
  }

  /** Fixed tangents built from zero-or-unit estimates are unit vectors. */
  lemma {:induction false} FilledUnit(norm: Vec -> real, raw: seq<Vec>, i: nat)
    requires IsEuclideanNorm(norm) && ZeroOrUnit(norm, raw)
    requires i < |raw|
    ensures norm(Filled(raw, i)) == 1.0
  {
    if raw[i] == Zero {
      if i == 0 {
        NormUnitX(norm);
      } else {
        FilledUnit(norm, raw, i - 1);
      }
    }
  }

  /** Every tangent of a polyline is a unit vector, hence nonzero. */
  lemma TangentsUnit(norm: Vec -> real, p: seq<Vec>)
    requires IsEuclideanNorm(norm)
    ensures forall i :: 0 <= i < |p| ==> norm(Tangents(norm, p)[i]) == 1.0 && Tangents(norm, p)[i] != Zero
  {
    NormUnitX(norm);
    if |p| >= 2 {
      var raw := RawTangents(norm, p);
      forall k | 0 <= k < |raw|
        ensures raw[k] == Zero || norm(raw[k]) == 1.0
      {
        if k == 0 {
          NormalizeUnit(norm, Sub(p[1], p[0]));
        } else if k == |p| - 1 {
          NormalizeUnit(norm, Sub(p[|p| - 1], p[|p| - 2]));
        } else {
          NormalizeUnit(norm, Sub(p[k + 1], p[k - 1]));
        }
      }
      forall i | 0 <= i < |p|
        ensures norm(Tangents(norm, p)[i]) == 1.0 && Tangents(norm, p)[i] != Zero
      {
        FilledUnit(norm, raw, i);
        FilledNonzero(raw, i);
      }
    }
  }

  /** The fix-up pass keeps nonzero estimates, turns a zero estimate at i > 0
      into a copy of the fixed tangent at i - 1, and one at 0 into (1, 0). */
  lemma TangentsFixup(norm: Vec -> real, p: seq<Vec>, i: nat)
    requires 2 <= |p| && i < |p|
    ensures RawTangent(norm, p, i) != Zero ==> Tangents(norm, p)[i] == RawTangent(norm, p, i)
    ensures RawTangent(norm, p, i) == Zero && i > 0 ==> Tangents(norm, p)[i] == Tangents(norm, p)[i - 1]
    ensures RawTangent(norm, p, i) == Zero && i == 0 ==> Tangents(norm, p)[i] == UnitX
  {
  }

  /** Estimates the tangents into a zero-initialised array, then repairs the
      zero ones from left to right. */
  method ComputeTangents(norm: Vec -> real, polyline: seq<Vec>) returns (tangents: seq<Vec>)
    requires IsEuclideanNorm(norm)
    ensures tangents == Tangents(norm, polyline)
  {
    var n := |polyline|;
    var a := new Vec[n](_ => Zero);
    if n == 0 {
      return a[..];
    }
    if n == 1 {
      a[0] := UnitX;
      return a[..];
    }
    EstimateTangents(norm, polyline, a);
    FixTangents(norm, a);
    tangents := a[..];
  }

  /** Writes the one-sided estimates at both ends, then the central ones. */
  method EstimateTangents(norm: Vec -> real, polyline: seq<Vec>, a: array<Vec>)
    requires 2 <= |polyline| && a.Length == |polyline|
    modifies a
    ensures a[..] == RawTangents(norm, polyline)
  {
    var n := |polyline|;
    a[0] := Normalize(norm, Sub(polyline[1], polyline[0]));
    a[n - 1] := Normalize(norm, Sub(polyline[n - 1], polyline[n - 2]));
    for i := 1 to n - 1
      invariant a[0] == RawTangent(norm, polyline, 0) && a[n - 1] == RawTangent(norm, polyline, n - 1)
      invariant forall k :: 1 <= k < i ==> a[k] == RawTangent(norm, polyline, k)
    {
      a[i] := Normalize(norm, Sub(polyline[i + 1], polyline[i - 1]));
    }
    assert a[..] == RawTangents(norm, polyline);
  }

  /** Replaces every zero estimate, left to right, by the already fixed
      tangent before it, or by (1, 0) when there is none. */
  method FixTangents(norm: Vec -> real, a: array<Vec>)
    requires IsEuclideanNorm(norm)
    modifies a
    ensures a[..] == seq(a.Length, i requires 0 <= i < a.Length => Filled(old(a[..]), i))
  {
    ghost var raw := a[..];
    var n := a.Length;
    for i := 0 to n
      invariant forall k :: 0 <= k < i ==> a[k] == Filled(raw, k)
      invariant forall k :: i <= k < n ==> a[k] == raw[k]
    {
      NormZeroIff(norm, a[i]);
      if i > 0 {
        FilledNonzero(raw, i - 1);
        NormZeroIff(norm, a[i - 1]);
      }
      if norm(a[i]) == 0.0 {
        if i > 0 && norm(a[i - 1]) > 0.0 {
          a[i] := a[i - 1];
        } else {
          a[i] := UnitX;
        }
      }
    }
  }

  /** Why a region builder refuses its input. */
  datatype RegionError = SamplingFailed(cause: SamplingError) | NegativeStrokeWidth

  /** `close` holds between a point and itself, as allclose does. */
  ghost predicate IsReflexive(close: (Vec, Vec) -> bool)
  {
    forall v :: close(v, v)
  }

  /** A curve of at least two points whose last point is close to its first
      loses the last point; any other curve is kept as it is. `close` stands
      for numpy's allclose. */
  function DropSeam(close: (Vec, Vec) -> bool, curve: seq<Vec>): (r: seq<Vec>)
    ensures r == curve || (|curve| >= 2 && r == curve[..|curve| - 1])
    ensures |curve| >= 2 && close(curve[0], curve[|curve| - 1]) <==> |r| == |curve| - 1
  {
    if |curve| >= 2 && close(curve[0], curve[|curve| - 1]) then curve[..|curve| - 1] else curve
  }

  /** The region of a sampled closed curve: its seam point dropped, or the
      sampling error passed on. */
  function SeamTrimmed(close: (Vec, Vec) -> bool, sampled: Result<seq<Vec>, SamplingError>): (r: Result<seq<Vec>, RegionError>)
    ensures sampled.Err? <==> r.Err?
  {
    match sampled
    case Err(e) => Err(SamplingFailed(e))
    case Ok(curve) => Ok(DropSeam(close, curve))
  }

  /** The closed region: nothing for no anchors, otherwise the sampled
      closed curve without its seam point. */
  function ClosedRegion(norm: Vec -> real, close: (Vec, Vec) -> bool, points: seq<Vec>, tension: real, s: int)
    : Result<seq<Vec>, RegionError>
    requires IsEuclideanNorm(norm)
  {
    if |points| == 0 then Ok([])
    else SeamTrimmed(close, SampledCurve(ClosedControlPolygon(norm, points, tension), s))
  }

  method BezierClosedRegion(norm: Vec -> real, close: (Vec, Vec) -> bool, points: seq<Vec>, tension: real, s: int)
    returns (r: Result<seq<Vec>, RegionError>)
    requires IsEuclideanNorm(norm)
    ensures r == ClosedRegion(norm, close, points, tension, s)
  {
    if |points| == 0 {
      return Ok([]);
    }
    var sampled := InterpolateClosedCurve(norm, points, tension, s);
    r := TrimSeam(close, sampled);
  }

  /** Drops the last point of a sampled closed curve when it is close to the
      first one. */
  method TrimSeam(close: (Vec, Vec) -> bool, sampled: Result<seq<Vec>, SamplingError>) returns (r: Result<seq<Vec>, RegionError>)
    ensures r == SeamTrimmed(close, sampled)
  {
    if sampled.Err? {
      return Err(SamplingFailed(sampled.error));
    }
    var curve := sampled.value;
    if |curve| >= 2 && close(curve[0], curve[|curve| - 1]) {
      curve := curve[..|curve| - 1];
    }
    return Ok(curve);
  }

  /** The seam step on a closed sampled curve whose last point repeats its
      first: the last point goes, every anchor sample stays. */
  lemma SeamDropped(close: (Vec, Vec) -> bool, curve: seq<Vec>, points: seq<Vec>, s: int)
    requires IsReflexive(close) && s >= 1
    requires |curve| == |points| * s + 1 && |points| >= 1 && curve[|curve| - 1] == curve[0]
    requires PassesThrough(curve, points, s)
    ensures |DropSeam(close, curve)| == |points| * s
    ensures PassesThrough(DropSeam(close, curve), points, s)
  {
    assert close(curve[0], curve[|curve| - 1]);
    forall i | 0 <= i < |points|
      ensures i * s < |points| * s
    {
      assert (i + 1) * s == i * s + s;
      MulMonotone(i + 1, |points|, s);
    }
  }

  /** The closed region of n >= 2 anchors sampled s >= 1 times per segment:
      n * s points, the seam point dropped, anchor i at point i * s. A single
      anchor comes back as it is, no anchors give no region, and s < 1 is
      refused. */
  lemma ClosedRegionShape(norm: Vec -> real, close: (Vec, Vec) -> bool, points: seq<Vec>, tension: real, s: int)
    requires IsEuclideanNorm(norm) && IsReflexive(close)
    ensures |points| == 0 ==> ClosedRegion(norm, close, points, tension, s) == Ok([])
    ensures |points| == 1 ==> ClosedRegion(norm, close, points, tension, s) == Ok(points)
    ensures |points| >= 2 && s < 1 ==> ClosedRegion(norm, close, points, tension, s) == Err(SamplingFailed(SampleCountBelowOne))
    ensures |points| >= 2 && s >= 1 ==> RegionThrough(ClosedRegion(norm, close, points, tension, s), points, s)
  {
    ClosedCurveSamples(norm, points, tension, s);
    TrimmedOutcomes(close, SampledCurve(ClosedControlPolygon(norm, points, tension), s), points, s);
  }

  /** A closed region of n * s points passing through the anchors. */
  ghost predicate RegionThrough(r: Result<seq<Vec>, RegionError>, points: seq<Vec>, s: int)
  {
    r.Ok? && |r.value| == |points| * s && PassesThrough(r.value, points, s)
  }

  /** The seam step on each outcome of sampling a closed curve. */
  lemma TrimmedOutcomes(close: (Vec, Vec) -> bool, sampled: Result<seq<Vec>, SamplingError>, points: seq<Vec>, s: int)
    requires IsReflexive(close)
    requires |points| == 1 ==> sampled == Ok(points)
    requires |points| >= 2 && s < 1 ==> sampled == Err(SampleCountBelowOne)
    requires |points| >= 2 && s >= 1 ==>
      SampledThrough(sampled, points, s, |points|) && sampled.value[|points| * s] == points[0]
    ensures |points| == 1 ==> SeamTrimmed(close, sampled) == Ok(points)
    ensures |points| >= 2 && s < 1 ==> SeamTrimmed(close, sampled) == Err(SamplingFailed(SampleCountBelowOne))
    ensures |points| >= 2 && s >= 1 ==> RegionThrough(SeamTrimmed(close, sampled), points, s)
  {
    if |points| >= 2 && s >= 1 {
      var curve := sampled.value;
      assert curve[0 * s] == points[0];
      SeamDropped(close, curve, points, s);
    }
  }

  /** Dropping one seam point does not always leave distinct end points:
      two equal anchors give a closed curve that stays on that point, and the
      region keeps 2s copies of it, first and last alike. */
  lemma ClosedSeamCanRepeat(norm: Vec -> real, close: (Vec, Vec) -> bool, p: Vec, tension: real, s: int)
    requires IsEuclideanNorm(norm) && IsReflexive(close) && s >= 1
    ensures var r := ClosedRegion(norm, close, [p, p], tension, s);
      && r.Ok?
      && |r.value| == 2 * s
      && r.value[0] == p
      && r.value[|r.value| - 1] == p
  {
    ClosedTwoAnchors(norm, p, p, tension);
    var cps := ClosedControlPolygon(norm, [p, p], tension);
    assert IsCubicPolygon(cps) && SegmentCount(cps) == 2;
    ConstantPolygonSamples(cps, p, s);
    var curve := SampledCurve(cps, s).value;
    assert close(curve[0], curve[|curve| - 1]);
    assert curve[2 * s - 1] == p;
  }

  /** The band around a centerline: the left rail c[i] + (w/2) n[i] in
      order, then the right rail c[i] - (w/2) n[i] in reverse order, where
      n[i] is the tangent turned by 90 degrees. */
  function StrokeBand(c: seq<Vec>, t: seq<Vec>, w: real): (band: seq<Vec>)
    requires |c| == |t|
    ensures |band| == 2 * |c|
  {
    var half := w * 0.5;
    var left := seq(|c|, i requires 0 <= i < |c| => Add(c[i], Scale(half, Perp(t[i]))));
    var right := seq(|c|, i requires 0 <= i < |c| => Sub(c[i], Scale(half, Perp(t[i]))));
    left + seq(|c|, i requires 0 <= i < |c| => right[|c| - 1 - i])
  }

  /** Vertex i of the band and its partner 2m - 1 - i lie on either side of
      c[i] along the normal: their midpoint is c[i], and with unit tangents
      each is w/2 from c[i] and they are w apart. */
  lemma StrokeBandVertices(norm: Vec -> real, c: seq<Vec>, t: seq<Vec>, w: real, i: nat)
    requires IsEuclideanNorm(norm)
    requires |c| == |t| && i < |c|
    ensures var band, m := StrokeBand(c, t, w), |c|;
      && band[i] == Add(c[i], Scale(w * 0.5, Perp(t[i])))
      && band[2 * m - 1 - i] == Sub(c[i], Scale(w * 0.5, Perp(t[i])))
      && Scale(0.5, Add(band[i], band[2 * m - 1 - i])) == c[i]
    ensures w >= 0.0 && norm(t[i]) == 1.0 ==>
      var band, m := StrokeBand(c, t, w), |c|;
      && norm(Sub(band[i], c[i])) == w * 0.5
      && norm(Sub(c[i], band[2 * m - 1 - i])) == w * 0.5
      && norm(Sub(band[i], band[2 * m - 1 - i])) == w
  {
    var band, m := StrokeBand(c, t, w), |c|;
    var off := Scale(w * 0.5, Perp(t[i]));
    assert band[2 * m - 1 - i] == Sub(c[i], off);
    if w >= 0.0 && norm(t[i]) == 1.0 {
      NormPerp(norm, t[i]);
      NormScale(norm, w * 0.5, Perp(t[i]));
      assert Sub(band[i], c[i]) == off;
      assert Sub(c[i], band[2 * m - 1 - i]) == off;
      assert Sub(band[i], band[2 * m - 1 - i]) == Scale(w, Perp(t[i]));
      NormScale(norm, w, Perp(t[i]));
    }
  }

  /** The open stroke: no anchors give no region; a negative width is
      refused after that; a centerline of one point or a zero width gives
      the centerline itself; otherwise the band around the centerline. */
  function OpenStrokeRegion(norm: Vec -> real, points: seq<Vec>, strokeWidth: real, tension: real, s: int)
    : Result<seq<Vec>, RegionError>
    requires IsEuclideanNorm(norm)
  {
    if |points| == 0 then Ok([])
    else if strokeWidth < 0.0 then Err(NegativeStrokeWidth)
    else
      match SampledCurve(OpenControlPolygon(norm, points, tension), s)
      case Err(e) => Err(SamplingFailed(e))
      case Ok(centerline) =>
        if |centerline| == 1 || strokeWidth == 0.0 then Ok(centerline)
        else Ok(StrokeBand(centerline, Tangents(norm, centerline), strokeWidth))
  }

  method BezierOpenStrokeRegion(norm: Vec -> real, points: seq<Vec>, strokeWidth: real, tension: real, s: int)
    returns (r: Result<seq<Vec>, RegionError>)
    requires IsEuclideanNorm(norm)
    ensures r == OpenStrokeRegion(norm, points, strokeWidth, tension, s)
  {
    if |points| == 0 {
      return Ok([]);
    }
    if strokeWidth < 0.0 {
      return Err(NegativeStrokeWidth);
    }
    var sampled := InterpolateOpenCurve(norm, points, tension, s);
    if sampled.Err? {
      return Err(SamplingFailed(sampled.error));
    }
    var centerline := sampled.value;
    if |centerline| == 1 || strokeWidth == 0.0 {
      return Ok(centerline);
    }
    var tangents := ComputeTangents(norm, centerline);
    return Ok(StrokeBand(centerline, tangents, strokeWidth));
  }

  /** Around a centerline of at least two samples passing through the
      anchors every s samples, the band straddles anchor k: its vertices
      k * s and 2m - 1 - k * s have anchor k as midpoint and lie w/2 from it. */
  lemma BandAroundAnchor(norm: Vec -> real, c: seq<Vec>, points: seq<Vec>, w: real, s: int, k: nat)
    requires IsEuclideanNorm(norm)
    requires PassesThrough(c, points, s) && w > 0.0 && k < |points|
    ensures var band, m := StrokeBand(c, Tangents(norm, c), w), |c|;
      && 0 <= k * s < m
      && Scale(0.5, Add(band[k * s], band[2 * m - 1 - k * s])) == points[k]
      && norm(Sub(band[k * s], points[k])) == w * 0.5
      && norm(Sub(points[k], band[2 * m - 1 - k * s])) == w * 0.5
  {
    TangentsUnit(norm, c);
    StrokeBandVertices(norm, c, Tangents(norm, c), w, k * s);
  }

  /** The open stroke of n >= 2 anchors with width w > 0 and s >= 1 samples
      per segment has 2m vertices for the m = (n - 1) * s + 1 centerline
      samples; vertices k * s and 2m - 1 - k * s straddle anchor k at distance
      w/2 each. */
  lemma OpenStrokeShape(norm: Vec -> real, points: seq<Vec>, w: real, tension: real, s: int, k: nat)
    requires IsEuclideanNorm(norm)
    requires |points| >= 2 && w > 0.0 && s >= 1 && k < |points|
    ensures var r := OpenStrokeRegion(norm, points, w, tension, s);
      var m := (|points| - 1) * s + 1;
      && r.Ok?
      && |r.value| == 2 * m
      && 0 <= k * s < m
      && Scale(0.5, Add(r.value[k * s], r.value[2 * m - 1 - k * s])) == points[k]
      && norm(Sub(r.value[k * s], points[k])) == w * 0.5
      && norm(Sub(points[k], r.value[2 * m - 1 - k * s])) == w * 0.5
  {
    OpenCurveSamples(norm, points, tension, s);
    var c := SampledCurve(OpenControlPolygon(norm, points, tension), s).value;
    assert OpenStrokeRegion(norm, points, w, tension, s) == Ok(StrokeBand(c, Tangents(norm, c), w));
    BandAroundAnchor(norm, c, points, w, s, k);
  }

  /** Stroke widths below zero are refused, but only for a nonempty input;
      a zero width or a single anchor gives the sampled centerline. */
  lemma OpenStrokeDegenerate(norm: Vec -> real, points: seq<Vec>, w: real, tension: real, s: int)
    requires IsEuclideanNorm(norm)
    ensures |points| == 0 ==> OpenStrokeRegion(norm, points, w, tension, s) == Ok([])
    ensures |points| > 0 && w < 0.0 ==> OpenStrokeRegion(norm, points, w, tension, s) == Err(NegativeStrokeWidth)
    ensures |points| == 1 && w >= 0.0 ==> OpenStrokeRegion(norm, points, w, tension, s) == Ok(points)
    ensures |points| >= 2 && w == 0.0 && s >= 1 ==>
      OpenStrokeRegion(norm, points, w, tension, s) == Ok(SampledCurve(OpenControlPolygon(norm, points, tension), s).value)
    ensures |points| >= 2 && w >= 0.0 && s < 1 ==>
      OpenStrokeRegion(norm, points, w, tension, s) == Err(SamplingFailed(SampleCountBelowOne))
  {
    OpenCurveSamples(norm, points, tension, s);
  }
}
