/** Dense sampling of a piecewise cubic-Bezier control polygon
    (Utility/bezier_interpolation.py): every segment is evaluated at
    samples_per_segment + 1 evenly spaced parameters, and the first sample of
    every segment after the first is dropped because it repeats the joint. */
module BezierInterpolation {
  import opened Vectors
  import opened BezierControlPoint

  /** The Bernstein weights of degree three at t, with u = 1 - t:
      u^3, 3 u^2 t, 3 u t^2 and t^3. */
  function Bernstein(t: real): (real, real, real, real)
  {
    var u := 1.0 - t;
    (u * u * u, 3.0 * (u * u) * t, 3.0 * u * (t * t), t * t * t)
  }

  /** The four points weighted by w and summed. */
  function Combine(w: (real, real, real, real), p0: Vec, c1: Vec, c2: Vec, p1: Vec): Vec
  {
    Add(Add(Add(Scale(w.0, p0), Scale(w.1, c1)), Scale(w.2, c2)), Scale(w.3, p1))
  }

  /** The cubic Bezier curve with end points p0, p1 and control points c1, c2,
      in Bernstein form; it starts at p0 and ends at p1. */
  function CubicBezier(p0: Vec, c1: Vec, c2: Vec, p1: Vec, t: real): (b: Vec)
    ensures t == 0.0 ==> b == p0
    ensures t == 1.0 ==> b == p1
  {
    Combine(Bernstein(t), p0, c1, c2, p1)
  }

  /** The weights are the terms of (u + t)^3 = 1. */
  lemma BernsteinSum(t: real)
    ensures var w := Bernstein(t); w.0 + w.1 + w.2 + w.3 == 1.0
  {
    var u := 1.0 - t;
    assert u + t == 1.0;
    assert u * u * u + 3.0 * (u * u) * t + 3.0 * u * (t * t) + t * t * t == (u + t) * (u + t) * (u + t);
  }

  /** Because the weights add up to one, moving all four points by d moves
      every point of the curve by d. */
  lemma CubicTranslation(p0: Vec, c1: Vec, c2: Vec, p1: Vec, d: Vec, t: real)
    ensures CubicBezier(Add(p0, d), Add(c1, d), Add(c2, d), Add(p1, d), t) == Add(CubicBezier(p0, c1, c2, p1, t), d)
  {
    var w := Bernstein(t);
    BernsteinSum(t);
    var w0, w1, w2, w3 := w.0, w.1, w.2, w.3;
    assert w0 * (p0.x + d.x) + w1 * (c1.x + d.x) + w2 * (c2.x + d.x) + w3 * (p1.x + d.x)
      == w0 * p0.x + w1 * c1.x + w2 * c2.x + w3 * p1.x + (w0 + w1 + w2 + w3) * d.x;
    assert w0 * (p0.y + d.y) + w1 * (c1.y + d.y) + w2 * (c2.y + d.y) + w3 * (p1.y + d.y)
      == w0 * p0.y + w1 * c1.y + w2 * c2.y + w3 * p1.y + (w0 + w1 + w2 + w3) * d.y;
  }

  /** A segment whose four points coincide is that single point. */
  lemma CubicConstant(p: Vec, t: real)
    ensures CubicBezier(p, p, p, p, t) == p
  {
    var w := Bernstein(t);
    BernsteinSum(t);
    assert w.0 * p.x + w.1 * p.x + w.2 * p.x + w.3 * p.x == (w.0 + w.1 + w.2 + w.3) * p.x;
    assert w.0 * p.y + w.1 * p.y + w.2 * p.y + w.3 * p.y == (w.0 + w.1 + w.2 + w.3) * p.y;
  }

  /** A segment whose control points sit on its end points is the straight
      line, and t = 1/2 gives the midpoint. */
  lemma CubicStraightMidpoint(p0: Vec, p1: Vec)
    ensures CubicBezier(p0, p0, p1, p1, 0.5) == Scale(0.5, Add(p0, p1))
  {
  }

  /** The parameter of sample j of a segment cut into s steps; numpy's
      linspace(0, 1, s + 1) in exact arithmetic. */
  function Param(j: int, s: int): (t: real)
    requires s >= 1
    ensures j == 0 ==> t == 0.0
    ensures j == s ==> t == 1.0
    ensures 0 <= j <= s ==> 0.0 <= t <= 1.0
  {
    j as real / s as real
  }

  /** A control polygon the sampler accepts: 3k + 1 entries for k >= 1 cubic
      segments. */
  predicate IsCubicPolygon(cps: seq<Vec>)
  {
    |cps| >= 4 && (|cps| - 1) % 3 == 0
  }

  function SegmentCount(cps: seq<Vec>): nat
    requires IsCubicPolygon(cps)
  {
    (|cps| - 1) / 3
  }

  /** Sample j of segment i. */
  function SegmentPoint(cps: seq<Vec>, s: int, i: nat, j: int): Vec
    requires s >= 1 && 3 * i + 3 < |cps|
  {
    CubicBezier(cps[3 * i], cps[3 * i + 1], cps[3 * i + 2], cps[3 * i + 3], Param(j, s))
  }

  /** Multiplying by a non-negative s keeps the order. */
  lemma MulMonotone(a: int, b: int, s: int)
    requires a <= b && s >= 0
    ensures a * s <= b * s
  {
    var d := b - a;
    assert d * s >= 0;
    assert b * s == a * s + d * s;
  }

  /** a < c * s makes a / s < c. */
  lemma QuotientBelow(a: int, s: int, c: int)
    requires 0 <= a < c * s && s >= 1
    ensures 0 <= a / s < c
  {
    var q, r := a / s, a % s;
    assert a == q * s + r && 0 <= r < s;
    if q >= c {
      MulMonotone(c, q, s);
    }
    if q < 0 {
      assert (q + 1) * s == q * s + s;
      MulMonotone(q + 1, 0, s);
    }
  }

  /** Division by s recovers i and j from i * s + j when 0 <= j < s. */
  lemma SplitIndex(a: int, s: int, i: int, j: int)
    requires s >= 1 && 0 <= j < s && a == i * s + j
    ensures a / s == i && a % s == j
  {
    var q, r := a / s, a % s;
    assert a == q * s + r && 0 <= r < s;
    if q > i {
      assert (i + 1) * s == i * s + s;
      MulMonotone(i + 1, q, s);
    } else if q < i {
      assert (q + 1) * s == q * s + s;
      MulMonotone(q + 1, i, s);
    }
  }

  /** Sample m of the whole curve: the start point for m = 0, otherwise
      sample (m - 1) % s + 1 of segment (m - 1) / s. */
  function SampleAt(cps: seq<Vec>, s: int, m: int): Vec
    requires IsCubicPolygon(cps) && s >= 1
    requires 0 <= m <= SegmentCount(cps) * s
  {
    if m == 0 then SegmentPoint(cps, s, 0, 0)
    else
      QuotientBelow(m - 1, s, SegmentCount(cps));
      SegmentPoint(cps, s, (m - 1) / s, (m - 1) % s + 1)
  }

  /** Why the sampler refuses a control polygon. */
  datatype SamplingError = ControlCountNotCubic | SampleCountBelowOne

  /** What sampling a control polygon yields: fewer than four control points
      come back unchanged without any further check; otherwise the count must
      be 3k + 1 and the sample count at least one, and the result is the
      k * s + 1 samples of the curve. */
  function SampledCurve(cps: seq<Vec>, s: int): Result<seq<Vec>, SamplingError>
  {
    if |cps| < 4 then Ok(cps)
    else if (|cps| - 1) % 3 != 0 then Err(ControlCountNotCubic)
    else if s < 1 then Err(SampleCountBelowOne)
    else Ok(seq(SegmentCount(cps) * s + 1, m requires 0 <= m < SegmentCount(cps) * s + 1 => SampleAt(cps, s, m)))
  }

  /** The checks before sampling, in their order: a polygon of fewer than
      four points is returned as it is whatever s is; a longer one must have
      3k + 1 points, and only then must s be at least one. */
  lemma SamplingChecks(cps: seq<Vec>, s: int)
    ensures |cps| < 4 ==> SampledCurve(cps, s) == Ok(cps)
    ensures |cps| >= 4 && (|cps| - 1) % 3 != 0 ==> SampledCurve(cps, s) == Err(ControlCountNotCubic)
    ensures |cps| >= 4 && (|cps| - 1) % 3 == 0 && s < 1 ==> SampledCurve(cps, s) == Err(SampleCountBelowOne)
    ensures SampledCurve(cps, s).Ok? <==> |cps| < 4 || (IsCubicPolygon(cps) && s >= 1)
  {
  }

  /** Sample j of segment i sits at index i * s + j (j = 0 only for the
      first segment, whose start is not dropped). */
  lemma SampleAtSegment(cps: seq<Vec>, s: int, i: nat, j: int)
    requires IsCubicPolygon(cps) && s >= 1
    requires i < SegmentCount(cps)
    requires (i == 0 && j == 0) || 1 <= j <= s
    ensures 0 <= i * s + j <= SegmentCount(cps) * s
    ensures SampleAt(cps, s, i * s + j) == SegmentPoint(cps, s, i, j)
  {
    var m, c := i * s + j, SegmentCount(cps);
    assert (i + 1) * s == i * s + s;
    MulMonotone(0, i, s);
    MulMonotone(i + 1, c, s);
    if m != 0 {
      SplitIndex(m - 1, s, i, j - 1);
    }
  }

  /** result holds the first |result| samples of the curve. */
  ghost predicate SamplesSoFar(cps: seq<Vec>, s: int, result: seq<Vec>)
    requires IsCubicPolygon(cps) && s >= 1
  {
    forall m :: 0 <= m < |result| ==> m <= SegmentCount(cps) * s && result[m] == SampleAt(cps, s, m)
  }

  /** Appending the next sample keeps a prefix of the samples. */
  lemma SamplesSoFarAppend(cps: seq<Vec>, s: int, result: seq<Vec>, v: Vec)
    requires IsCubicPolygon(cps) && s >= 1
    requires SamplesSoFar(cps, s, result) && |result| <= SegmentCount(cps) * s
    requires v == SampleAt(cps, s, |result|)
    ensures SamplesSoFar(cps, s, result + [v])
  {
  }

  /** Samples every segment at the parameters 0, 1/s, ..., 1, dropping the
      repeated joint sample of every segment but the first. */
  method InterpolateFromControlPoints(cps: seq<Vec>, samplesPerSegment: int) returns (r: Result<seq<Vec>, SamplingError>)
    ensures r == SampledCurve(cps, samplesPerSegment)
  {
    if |cps| < 4 {
      return Ok(cps);
    }
    if (|cps| - 1) % 3 != 0 {
      return Err(ControlCountNotCubic);
    }
    if samplesPerSegment < 1 {
      return Err(SampleCountBelowOne);
    }
    var s := samplesPerSegment;
    var count := (|cps| - 1) / 3;
    var result: seq<Vec> := [];
    for i := 0 to count
      invariant |result| == (if i == 0 then 0 else i * s + 1)
      invariant SamplesSoFar(cps, s, result)
    {
      result := AppendSegmentSamples(cps, s, i, result);
    }
    SamplesMakeCurve(cps, s, result);
    return Ok(result);
  }

  /** Appends the samples of segment i, the parameters 0 (first segment
      only), 1/s, ..., 1, to the samples of the segments before it. */
  method AppendSegmentSamples(cps: seq<Vec>, s: int, i: nat, prefix: seq<Vec>) returns (result: seq<Vec>)
    requires IsCubicPolygon(cps) && s >= 1 && i < SegmentCount(cps)
    requires |prefix| == (if i == 0 then 0 else i * s + 1)
    requires SamplesSoFar(cps, s, prefix)
    ensures |result| == (i + 1) * s + 1
    ensures SamplesSoFar(cps, s, result)
  {
    var p0, c1, c2, p1 := cps[i * 3], cps[i * 3 + 1], cps[i * 3 + 2], cps[i * 3 + 3];
    var base := i * s;
    var j := if i > 0 then 1 else 0;
    result := prefix;
    while j <= s
      invariant (if i > 0 then 1 else 0) <= j <= s + 1
      invariant |result| == base + j
      invariant SamplesSoFar(cps, s, result)
    {
      SampleAtSegment(cps, s, i, j);
      var v := CubicBezier(p0, c1, c2, p1, Param(j, s));
      SamplesSoFarAppend(cps, s, result, v);
      result := result + [v];
      j := j + 1;
    }
    assert base + s + 1 == (i + 1) * s + 1;
  }

  /** count * s + 1 values that agree with SampleAt everywhere are the
      sampled curve. */
  lemma SamplesMakeCurve(cps: seq<Vec>, s: int, result: seq<Vec>)
    requires IsCubicPolygon(cps) && s >= 1
    requires |result| == SegmentCount(cps) * s + 1
    requires SamplesSoFar(cps, s, result)
    ensures SampledCurve(cps, s) == Ok(result)
  {
    assert result == SampledCurve(cps, s).value;
  }

  /** A control polygon standing on one point samples to that point only. */
  lemma ConstantPolygonSamples(cps: seq<Vec>, p: Vec, s: int)
    requires IsCubicPolygon(cps) && s >= 1
    requires forall k :: 0 <= k < |cps| ==> cps[k] == p
    ensures SampledCurve(cps, s).Ok?
    ensures |SampledCurve(cps, s).value| == SegmentCount(cps) * s + 1
    ensures forall m :: 0 <= m < |SampledCurve(cps, s).value| ==> SampledCurve(cps, s).value[m] == p
  {
    var r := SampledCurve(cps, s).value;
    forall m | 0 <= m < |r|
      ensures r[m] == p
    {
      if m == 0 {
        CubicConstant(p, Param(0, s));
      } else {
        QuotientBelow(m - 1, s, SegmentCount(cps));
        CubicConstant(p, Param((m - 1) % s + 1, s));
      }
    }
  }

  /** Sample k * s is the joint between segments k - 1 and k, which is
      control point 3k. */
  lemma AnchorSample(cps: seq<Vec>, s: int, k: nat)
    requires IsCubicPolygon(cps) && s >= 1
    requires k <= SegmentCount(cps)
    ensures 0 <= k * s <= SegmentCount(cps) * s
    ensures SampleAt(cps, s, k * s) == cps[3 * k]
  {
    if k == 0 {
      SampleAtSegment(cps, s, 0, 0);
    } else {
      assert (k - 1) * s + s == k * s;
      SampleAtSegment(cps, s, k - 1, s);
      assert Param(s, s) == 1.0;
      assert 3 * (k - 1) + 3 == 3 * k;
    }
  }

  /** Shape of a sampled curve: count * s + 1 samples; sample k * s is anchor
      cps[3k], so the first sample is the first control point and the last
      one the last control point. */
  lemma SampledAnchors(cps: seq<Vec>, s: int)
    requires IsCubicPolygon(cps) && s >= 1
    ensures SampledCurve(cps, s).Ok?
    ensures |SampledCurve(cps, s).value| == SegmentCount(cps) * s + 1
    ensures forall k :: 0 <= k <= SegmentCount(cps) ==>
      k * s < |SampledCurve(cps, s).value| && SampledCurve(cps, s).value[k * s] == cps[3 * k]
    ensures SampledCurve(cps, s).value[0] == cps[0]
    ensures SampledCurve(cps, s).value[|SampledCurve(cps, s).value| - 1] == cps[|cps| - 1]
  {
    var r, c := SampledCurve(cps, s).value, SegmentCount(cps);
    forall k | 0 <= k <= c
      ensures k * s < |r| && r[k * s] == cps[3 * k]
    {
      AnchorSample(cps, s, k);
    }
    AnchorSample(cps, s, 0);
    AnchorSample(cps, s, c);
  }

  /** Samples the open control polygon of the anchors. */
  method InterpolateOpenCurve(norm: Vec -> real, points: seq<Vec>, tension: real, samplesPerSegment: int)
    returns (r: Result<seq<Vec>, SamplingError>)
    requires IsEuclideanNorm(norm)
    ensures r == SampledCurve(OpenControlPolygon(norm, points, tension), samplesPerSegment)
  {
    var controlPoints := BezierOpenCurve(norm, points, tension);
    r := InterpolateFromControlPoints(controlPoints, samplesPerSegment);
  }

  /** Samples the closed control polygon of the anchors. */
  method InterpolateClosedCurve(norm: Vec -> real, points: seq<Vec>, tension: real, samplesPerSegment: int)
    returns (r: Result<seq<Vec>, SamplingError>)
    requires IsEuclideanNorm(norm)
    ensures r == SampledCurve(ClosedControlPolygon(norm, points, tension), samplesPerSegment)
  {
    var controlPoints := BezierClosedCurve(norm, points, tension);
    r := InterpolateFromControlPoints(controlPoints, samplesPerSegment);
  }

  /** Sample i * s of the curve is anchor i, for every anchor. */
  ghost predicate PassesThrough(curve: seq<Vec>, points: seq<Vec>, s: int)
  {
    forall i :: 0 <= i < |points| ==> 0 <= i * s < |curve| && curve[i * s] == points[i]
  }

  /** A successful sampling of `segments` segments: segments * s + 1 samples
      passing through the anchors. */
  ghost predicate SampledThrough(r: Result<seq<Vec>, SamplingError>, points: seq<Vec>, s: int, segments: int)
  {
    r.Ok? && |r.value| == segments * s + 1 && PassesThrough(r.value, points, s)
  }

  /** Anchors sitting at every third control point are passed through every
      s samples. */
  lemma SampledPassesThrough(cps: seq<Vec>, points: seq<Vec>, s: int)
    requires IsCubicPolygon(cps) && s >= 1
    requires |points| <= SegmentCount(cps) + 1
    requires forall i :: 0 <= i < |points| ==> cps[3 * i] == points[i]
    ensures SampledCurve(cps, s).Ok? && PassesThrough(SampledCurve(cps, s).value, points, s)
  {
    SampledAnchors(cps, s);
    forall i | 0 <= i < |points|
      ensures 0 <= i * s < |SampledCurve(cps, s).value| && SampledCurve(cps, s).value[i * s] == points[i]
    {
      MulMonotone(0, i, s);
    }
  }

  /** A cubic control polygon of `segments` segments that carries the
      anchors at every third control point yields segments * s + 1 samples
      passing through them, ending at the last control point. */
  lemma AnchoredSampling(cps: seq<Vec>, points: seq<Vec>, s: int, segments: nat)
    requires s >= 1 && segments >= 1 && |cps| == 3 * segments + 1
    requires |points| <= segments + 1
    requires forall i :: 0 <= i < |points| ==> cps[3 * i] == points[i]
    ensures SampledCurve(cps, s).Ok?
    ensures |SampledCurve(cps, s).value| == segments * s + 1
    ensures PassesThrough(SampledCurve(cps, s).value, points, s)
    ensures SampledCurve(cps, s).value[segments * s] == cps[|cps| - 1]
  {
    assert IsCubicPolygon(cps) && SegmentCount(cps) == segments;
    SampledAnchors(cps, s);
    SampledPassesThrough(cps, points, s);
  }

  /** The three outcomes of sampling a control polygon built from anchors:
      one anchor or none comes back unchanged, a bad sample count is refused,
      and otherwise the samples pass through the anchors. */
  lemma AnchoredOutcomes(cps: seq<Vec>, points: seq<Vec>, s: int, segments: nat)
    requires |points| <= 1 ==> cps == points
    requires |points| >= 2 ==> segments >= 1 && |cps| == 3 * segments + 1 && |points| <= segments + 1
    requires |points| >= 2 ==> forall i :: 0 <= i < |points| ==> cps[3 * i] == points[i]
    ensures |points| <= 1 ==> SampledCurve(cps, s) == Ok(points)
    ensures |points| >= 2 && s < 1 ==> SampledCurve(cps, s) == Err(SampleCountBelowOne)
    ensures |points| >= 2 && s >= 1 ==> SampledThrough(SampledCurve(cps, s), points, s, segments)
    ensures |points| >= 2 && s >= 1 ==> SampledCurve(cps, s).value[segments * s] == cps[|cps| - 1]
  {
    if |points| >= 2 && s >= 1 {
      AnchoredSampling(cps, points, s, segments);
    }
  }

  /** The open curve through n >= 2 anchors: with s >= 1 samples per segment
      it has (n - 1) * s + 1 points and passes through anchor i at sample
      i * s; with s < 1 it is refused. Fewer anchors come back unchanged. */
  lemma OpenCurveSamples(norm: Vec -> real, points: seq<Vec>, tension: real, s: int)
    requires IsEuclideanNorm(norm)
    ensures |points| <= 1 ==> SampledCurve(OpenControlPolygon(norm, points, tension), s) == Ok(points)
    ensures |points| >= 2 && s < 1 ==> SampledCurve(OpenControlPolygon(norm, points, tension), s) == Err(SampleCountBelowOne)
    ensures |points| >= 2 && s >= 1 ==>
      SampledThrough(SampledCurve(OpenControlPolygon(norm, points, tension), s), points, s, |points| - 1)
  {
    OpenShape(norm, points, tension);
    AnchoredOutcomes(OpenControlPolygon(norm, points, tension), points, s, if |points| >= 2 then |points| - 1 else 0);
  }

  /** The closed curve through n >= 2 anchors: with s >= 1 samples per
      segment it has n * s + 1 points, passes through anchor i at sample i * s
      and ends where it starts; with s < 1 it is refused. */
  lemma ClosedCurveSamples(norm: Vec -> real, points: seq<Vec>, tension: real, s: int)
    requires IsEuclideanNorm(norm)
    ensures |points| <= 1 ==> SampledCurve(ClosedControlPolygon(norm, points, tension), s) == Ok(points)
    ensures |points| >= 2 && s < 1 ==> SampledCurve(ClosedControlPolygon(norm, points, tension), s) == Err(SampleCountBelowOne)
    ensures |points| >= 2 && s >= 1 ==>
      SampledThrough(SampledCurve(ClosedControlPolygon(norm, points, tension), s), points, s, |points|)
    ensures |points| >= 2 && s >= 1 ==>
      SampledCurve(ClosedControlPolygon(norm, points, tension), s).value[|points| * s] == points[0]
  {
    ClosedShape(norm, points, tension);
    AnchoredOutcomes(ClosedControlPolygon(norm, points, tension), points, s, |points|);
  }
}
