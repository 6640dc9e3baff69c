/** Synthesis of a piecewise cubic-Bezier control polygon from anchor points
    (Utility/bezier_control_point.py). An open curve over n >= 2 anchors has
    3n - 2 entries, a closed one 3n + 1; anchor i sits at index 3i and the
    two entries after it are the control points of segment i. */
module BezierControlPoint {
  import opened Vectors

  /** Moves `pt` along `direction`, pulled by `weight`, after shortening the
      direction so that it is never longer than twice `intervalLength`. A
      zero direction or a zero weight leaves the anchor where it is. */
  function LimitedOvershoot(norm: Vec -> real, weight: real, pt: Vec, intervalLength: real, direction: Vec): (c: Vec)
    requires IsEuclideanNorm(norm)
    ensures direction == Zero || weight == 0.0 ==> c == pt
  {
    NormZeroIff(norm, direction);
    var directionLength := norm(direction);
    if directionLength > 0.0 then
      Add(pt, Scale(weight, Scale(MinReal(1.0, intervalLength / directionLength * 2.0), direction)))
    else
      pt
  }

  /** Arithmetic behind the overshoot limit: the limiting factor m is
      non-negative, and |weight * m| * length stays within |weight| times
      twice the interval and within |weight| times the length. */
  lemma LimitFactorBounds(weight: real, length: real, intervalLength: real)
    requires length > 0.0 && intervalLength >= 0.0
    ensures var m := MinReal(1.0, intervalLength / length * 2.0);
      && m >= 0.0
      && Abs(weight * m) * length <= Abs(weight) * (2.0 * intervalLength)
      && Abs(weight * m) * length <= Abs(weight) * length
  {
    var q := intervalLength / length;
    assert q * length == intervalLength;
    assert q >= 0.0;
    var m := MinReal(1.0, q * 2.0);
    var aw := Abs(weight);
    assert Abs(weight * m) == aw * m;
    var ml := m * length;
    assert ml <= length;
    assert ml <= 2.0 * intervalLength by {
      if m < 1.0 {
        assert m == q * 2.0;
        assert ml == 2.0 * (q * length);
      }
    }
    assert aw * ml <= aw * length;
    assert aw * ml <= aw * (2.0 * intervalLength);
    assert Abs(weight * m) * length == aw * ml;
  }

  /** The offset of an overshoot-limited control point from its anchor is at
      most |weight| times twice the interval, and at most |weight| times the
      length of the direction it was pulled along. */
  lemma OvershootBound(norm: Vec -> real, weight: real, pt: Vec, intervalLength: real, direction: Vec)
    requires IsEuclideanNorm(norm)
    requires intervalLength >= 0.0
    ensures norm(Sub(LimitedOvershoot(norm, weight, pt, intervalLength, direction), pt)) <= Abs(weight) * 2.0 * intervalLength
    ensures norm(Sub(LimitedOvershoot(norm, weight, pt, intervalLength, direction), pt)) <= Abs(weight) * norm(direction)
  {
    var c := LimitedOvershoot(norm, weight, pt, intervalLength, direction);
    var dl := norm(direction);
    NormZeroIff(norm, direction);
    if dl > 0.0 {
      var m := MinReal(1.0, intervalLength / dl * 2.0);
      assert Sub(c, pt) == Scale(weight * m, direction);
      NormScale(norm, weight * m, direction);
      LimitFactorBounds(weight, dl, intervalLength);
    } else {
      assert Sub(c, pt) == Zero;
      NormZeroIff(norm, Zero);
    }
  }

  /** offset is the direction scaled by weight * k, for a factor k in [0, 1]. */
  ghost predicate PullFraction(offset: Vec, weight: real, direction: Vec, k: real)
  {
    0.0 <= k <= 1.0 && offset == Scale(weight * k, direction)
  }

  /** How far a control point is pulled: |weight| times the shorter of the
      direction's length and twice the interval length. */
  ghost function PullLength(weight: real, directionLength: real, intervalLength: real): real
  {
    Abs(weight) * MinReal(directionLength, 2.0 * intervalLength)
  }

  /** The limiting factor scales a direction of the given length to the
      shorter of that length and twice the interval, and lies in [0, 1]. */
  lemma LimitFactorExact(length: real, intervalLength: real)
    requires length > 0.0 && intervalLength >= 0.0
    ensures var m := MinReal(1.0, intervalLength / length * 2.0);
      && 0.0 <= m <= 1.0
      && m * length == MinReal(length, 2.0 * intervalLength)
  {
    var q := intervalLength / length;
    assert q * length == intervalLength;
    if q * 2.0 < 1.0 {
      assert (q * 2.0) * length == 2.0 * intervalLength;
      assert 2.0 * intervalLength < length;
    } else {
      assert 2.0 * intervalLength == (q * 2.0) * length >= length;
    }
  }

  /** The pull exactly: the anchor moves by |weight| times the shorter of the
      direction's length and twice the interval, along the direction scaled
      by weight * k for a factor k in [0, 1] that is 1 whenever the
      direction is no longer than twice the interval. */
  lemma OvershootExact(norm: Vec -> real, weight: real, pt: Vec, intervalLength: real, direction: Vec)
    requires IsEuclideanNorm(norm)
    requires intervalLength >= 0.0
    ensures norm(Sub(LimitedOvershoot(norm, weight, pt, intervalLength, direction), pt))
      == PullLength(weight, norm(direction), intervalLength)
    ensures exists k ::
              && PullFraction(Sub(LimitedOvershoot(norm, weight, pt, intervalLength, direction), pt), weight, direction, k)
              && (norm(direction) <= 2.0 * intervalLength ==> k == 1.0)
  {
    var c := LimitedOvershoot(norm, weight, pt, intervalLength, direction);
    var dl := norm(direction);
    NormZeroIff(norm, direction);
    if dl > 0.0 {
      var m := MinReal(1.0, intervalLength / dl * 2.0);
      LimitFactorExact(dl, intervalLength);
      assert Sub(c, pt) == Scale(weight * m, direction);
      NormScale(norm, weight * m, direction);
      assert Abs(weight * m) == Abs(weight) * m;
      assert Abs(weight) * m * dl == Abs(weight) * (m * dl);
      if dl <= 2.0 * intervalLength {
        assert intervalLength / dl * 2.0 >= 1.0 by {
          assert (intervalLength / dl) * dl == intervalLength;
        }
      }
      assert PullFraction(Sub(c, pt), weight, direction, m) && (dl <= 2.0 * intervalLength ==> m == 1.0);
    } else {
      assert Sub(c, pt) == Zero == Scale(weight * 1.0, direction);
      assert PullFraction(Sub(c, pt), weight, direction, 1.0);
      NormZeroIff(norm, Zero);
      assert MinReal(dl, 2.0 * intervalLength) == 0.0;
    }
  }

  /** The pair of control points of the segment pt1 -> pt2, whose
      neighbouring anchors are pt0 and pt3. A degenerate segment keeps its
      endpoints as its control points, and a zero weight keeps a control
      point on its anchor. */
  function ControlPoint(norm: Vec -> real, weight1: real, weight2: real, pt0: Vec, pt1: Vec, pt2: Vec, pt3: Vec): (r: (Vec, Vec))
    requires IsEuclideanNorm(norm)
    ensures pt1 == pt2 ==> r == (pt1, pt2)
    ensures weight1 == 0.0 ==> r.0 == pt1
    ensures weight2 == 0.0 ==> r.1 == pt2
  {
    NormZeroIff(norm, Sub(pt2, pt1));
    var v12 := Sub(pt2, pt1);
    var n12 := norm(v12);
    if !(n12 > 0.0) then
      (pt1, pt2)
    else
      (LimitedOvershoot(norm, weight1, pt1, n12, Sub(pt2, pt0)),
       LimitedOvershoot(norm, weight2, pt2, n12, Sub(pt1, pt3)))
  }

  /** Neither control point of a pair lies further from its anchor than
      |weight| times twice the length of the segment. */
  lemma ControlPointBound(norm: Vec -> real, weight1: real, weight2: real, pt0: Vec, pt1: Vec, pt2: Vec, pt3: Vec)
    requires IsEuclideanNorm(norm)
    ensures var r := ControlPoint(norm, weight1, weight2, pt0, pt1, pt2, pt3);
      && norm(Sub(r.0, pt1)) <= Abs(weight1) * 2.0 * norm(Sub(pt2, pt1))
      && norm(Sub(r.1, pt2)) <= Abs(weight2) * 2.0 * norm(Sub(pt2, pt1))
  {
    var r := ControlPoint(norm, weight1, weight2, pt0, pt1, pt2, pt3);
    var n12 := norm(Sub(pt2, pt1));
    NormZeroIff(norm, Sub(pt2, pt1));
    if n12 > 0.0 {
      OvershootBound(norm, weight1, pt1, n12, Sub(pt2, pt0));
      OvershootBound(norm, weight2, pt2, n12, Sub(pt1, pt3));
    } else {
      assert Sub(r.0, pt1) == Zero && Sub(r.1, pt2) == Zero;
      NormZeroIff(norm, Zero);
    }
  }

  /** The pull of each control point of a segment with length exactly:
      the first moves from pt1 by |weight1| times the shorter of |pt2 - pt0|
      and twice the segment length, along weight1 times a fraction of
      pt2 - pt0; the second likewise from pt2 along pt1 - pt3. */
  lemma ControlPointExact(norm: Vec -> real, weight1: real, weight2: real, pt0: Vec, pt1: Vec, pt2: Vec, pt3: Vec)
    requires IsEuclideanNorm(norm)
    requires pt1 != pt2
    ensures var r, len := ControlPoint(norm, weight1, weight2, pt0, pt1, pt2, pt3), norm(Sub(pt2, pt1));
      && norm(Sub(r.0, pt1)) == PullLength(weight1, norm(Sub(pt2, pt0)), len)
      && norm(Sub(r.1, pt2)) == PullLength(weight2, norm(Sub(pt1, pt3)), len)
    ensures var r := ControlPoint(norm, weight1, weight2, pt0, pt1, pt2, pt3);
      && (exists k :: PullFraction(Sub(r.0, pt1), weight1, Sub(pt2, pt0), k))
      && (exists k :: PullFraction(Sub(r.1, pt2), weight2, Sub(pt1, pt3), k))
  {
    var len := norm(Sub(pt2, pt1));
    var r := ControlPoint(norm, weight1, weight2, pt0, pt1, pt2, pt3);
    NormZeroIff(norm, Sub(pt2, pt1));
    assert r.0 == LimitedOvershoot(norm, weight1, pt1, len, Sub(pt2, pt0));
    assert r.1 == LimitedOvershoot(norm, weight2, pt2, len, Sub(pt1, pt3));
    OvershootExact(norm, weight1, pt1, len, Sub(pt2, pt0));
    OvershootExact(norm, weight2, pt2, len, Sub(pt1, pt3));
    assert Sub(r.0, pt1) == Sub(LimitedOvershoot(norm, weight1, pt1, len, Sub(pt2, pt0)), pt1);
    assert Sub(r.1, pt2) == Sub(LimitedOvershoot(norm, weight2, pt2, len, Sub(pt1, pt3)), pt2);
  }

  /** A control polygon laid out from its anchors and the control pairs of
      the segments between them: each anchor followed by the pair of the
      segment it starts, and the last anchor alone at the end. */
  function Interleave(anchors: seq<Vec>, pairs: seq<(Vec, Vec)>): (r: seq<Vec>)
    requires |anchors| == |pairs| + 1
    ensures |r| == 3 * |pairs| + 1
    decreases |pairs|
  {
    if |pairs| == 0 then [anchors[0]]
    else [anchors[0], pairs[0].0, pairs[0].1] + Interleave(anchors[1..], pairs[1..])
  }

  /** Anchor j sits at index 3j of an interleaving, and the pair of segment
      j at indices 3j + 1 and 3j + 2. */
  lemma {:induction false} InterleaveIndex(anchors: seq<Vec>, pairs: seq<(Vec, Vec)>, j: nat)
    requires |anchors| == |pairs| + 1
    ensures j < |anchors| ==> Interleave(anchors, pairs)[3 * j] == anchors[j]
    ensures j < |pairs| ==>
      Interleave(anchors, pairs)[3 * j + 1] == pairs[j].0 && Interleave(anchors, pairs)[3 * j + 2] == pairs[j].1
    decreases j
  {
    if j > 0 && |pairs| > 0 {
      InterleaveIndex(anchors[1..], pairs[1..], j - 1);
      assert 3 * j == 3 + 3 * (j - 1);
    }
  }

  /** Where each anchor and each control point lies in an interleaving. */
  lemma InterleaveAt(anchors: seq<Vec>, pairs: seq<(Vec, Vec)>)
    requires |anchors| == |pairs| + 1
    ensures |Interleave(anchors, pairs)| == 3 * |pairs| + 1
    ensures forall j {:trigger Interleave(anchors, pairs)[3 * j]} :: 0 <= j < |anchors| ==>
      Interleave(anchors, pairs)[3 * j] == anchors[j]
    ensures forall j {:trigger Interleave(anchors, pairs)[3 * j + 1]} :: 0 <= j < |pairs| ==>
      Interleave(anchors, pairs)[3 * j + 1] == pairs[j].0
    ensures forall j {:trigger Interleave(anchors, pairs)[3 * j + 2]} :: 0 <= j < |pairs| ==>
      Interleave(anchors, pairs)[3 * j + 2] == pairs[j].1
  {
    forall j: nat | j < |anchors| {
      InterleaveIndex(anchors, pairs, j);
    }
  }

  /** A sequence that holds the anchors and the pairs at their places is the
      interleaving of the two. */
  lemma InterleaveFromParts(anchors: seq<Vec>, pairs: seq<(Vec, Vec)>, s: seq<Vec>)
    requires |anchors| == |pairs| + 1 && |s| == 3 * |pairs| + 1
    requires forall j {:trigger s[3 * j]} :: 0 <= j < |anchors| ==> s[3 * j] == anchors[j]
    requires forall j {:trigger s[3 * j + 1]} :: 0 <= j < |pairs| ==> s[3 * j + 1] == pairs[j].0
    requires forall j {:trigger s[3 * j + 2]} :: 0 <= j < |pairs| ==> s[3 * j + 2] == pairs[j].1
    ensures s == Interleave(anchors, pairs)
  {
    var r := Interleave(anchors, pairs);
    InterleaveAt(anchors, pairs);
    forall k | 0 <= k < |s|
      ensures s[k] == r[k]
    {
      var j := k / 3;
      if k % 3 == 0 {
        assert k == 3 * j && s[3 * j] == anchors[j];
      } else if k % 3 == 1 {
        assert k == 3 * j + 1 && s[3 * j + 1] == pairs[j].0;
      } else {
        assert k == 3 * j + 2 && s[3 * j + 2] == pairs[j].1;
      }
    }
  }

  /** The arguments that one call of ControlPoint receives: the two pull
      weights and the four anchors around the segment pt1 -> pt2. */
  datatype PairCall = PairCall(weight1: real, weight2: real, pt0: Vec, pt1: Vec, pt2: Vec, pt3: Vec)

  function PairOf(norm: Vec -> real, call: PairCall): (Vec, Vec)
    requires IsEuclideanNorm(norm)
  {
    ControlPoint(norm, call.weight1, call.weight2, call.pt0, call.pt1, call.pt2, call.pt3)
  }

  /** The call that yields the pair of segment i of the open curve: weight 0
      on the free outer side of the two end segments, and on both sides when
      there is only one segment. */
  function OpenCall(points: seq<Vec>, weight: real, i: nat): (c: PairCall)
    requires i < |points| - 1
    ensures c.pt1 == points[i] && c.pt2 == points[i + 1]
    ensures (c.weight1 == 0.0 || c.weight1 == weight) && (c.weight2 == 0.0 || c.weight2 == weight)
  {
    var n := |points|;
    if n == 2 then PairCall(0.0, 0.0, points[0], points[0], points[1], points[1])
    else if i == 0 then PairCall(0.0, weight, points[0], points[0], points[1], points[2])
    else if i < n - 2 then PairCall(weight, weight, points[i - 1], points[i], points[i + 1], points[i + 2])
    else PairCall(weight, 0.0, points[n - 3], points[n - 2], points[n - 1], points[n - 1])
  }

  function OpenPairs(norm: Vec -> real, points: seq<Vec>, weight: real): (pairs: seq<(Vec, Vec)>)
    requires IsEuclideanNorm(norm)
    requires |points| >= 2
  {
    seq(|points| - 1, i requires 0 <= i < |points| - 1 => PairOf(norm, OpenCall(points, weight, i)))
  }

  /** Each control point is pulled with half the tension. */
  function PullWeight(tension: real): real { tension / 2.0 }

  /** The open control polygon: the input itself for fewer than two anchors,
      otherwise the anchors interleaved with the pairs of the n - 1 segments,
      pulled with weight tension / 2. */
  function OpenControlPolygon(norm: Vec -> real, points: seq<Vec>, tension: real): seq<Vec>
    requires IsEuclideanNorm(norm)
  {
    if |points| <= 1 then points
    else Interleave(points, OpenPairs(norm, points, PullWeight(tension)))
  }

  /** Index i taken around a ring of n anchors, for i at most one lap away
      from [0, n); for -n <= i < 0 this is Python's indexing from the end. */
  function Wrap(i: int, n: int): (r: int)
    requires -n <= i < 2 * n
    ensures 0 <= r < n
    ensures r == i + n || r == i || r == i - n
  {
    if i < 0 then i + n else if i < n then i else i - n
  }

  /** The call that yields the pair of segment i of the closed curve, which
      runs from anchor i to anchor i + 1 modulo n; every weight is the same,
      and the last two segments wrap around to the first anchors. */
  function ClosedCall(points: seq<Vec>, weight: real, i: nat): (c: PairCall)
    requires 3 <= |points| && i < |points|
    ensures c.pt1 == points[i] && c.pt2 == points[Wrap(i + 1, |points|)]
    ensures c.weight1 == weight && c.weight2 == weight
  {
    var n := |points|;
    if i == 0 then PairCall(weight, weight, points[n - 1], points[0], points[1], points[2])
    else if i < n - 2 then PairCall(weight, weight, points[i - 1], points[i], points[i + 1], points[i + 2])
    else if i == n - 2 then PairCall(weight, weight, points[n - 3], points[n - 2], points[n - 1], points[0])
    else PairCall(weight, weight, points[n - 2], points[n - 1], points[0], points[1])
  }

  /** The pair of segment i of the closed curve. Two anchors give one
      straight segment whose pair is mirrored for the way back. */
  function ClosedPair(norm: Vec -> real, points: seq<Vec>, weight: real, i: nat): (Vec, Vec)
    requires IsEuclideanNorm(norm)
    requires 2 <= |points| && i < |points|
  {
    if |points| == 2 then
      var first := PairOf(norm, PairCall(0.0, 0.0, points[0], points[0], points[1], points[1]));
      if i == 0 then first else (first.1, first.0)
    else
      PairOf(norm, ClosedCall(points, weight, i))
  }

  function ClosedPairs(norm: Vec -> real, points: seq<Vec>, weight: real): (pairs: seq<(Vec, Vec)>)
    requires IsEuclideanNorm(norm)
    requires |points| >= 2
  {
    seq(|points|, i requires 0 <= i < |points| => ClosedPair(norm, points, weight, i))
  }

  /** The closed control polygon: the input itself for fewer than two anchors,
      otherwise the ring of anchors closed by the first one again, interleaved
      with the pairs of the n segments. */
  function ClosedControlPolygon(norm: Vec -> real, points: seq<Vec>, tension: real): seq<Vec>
    requires IsEuclideanNorm(norm)
  {
    if |points| <= 1 then points
    else Interleave(points + [points[0]], ClosedPairs(norm, points, PullWeight(tension)))
  }

  /** The z component of the cross product; zero exactly for parallel vectors. */
  function Cross(u: Vec, v: Vec): real { u.x * v.y - u.y * v.x }

  lemma CrossScaled(k: real, v: Vec)
    ensures Cross(Scale(k, v), v) == 0.0
  {
    var a, b := k * v.x, k * v.y;
    assert a * v.y == k * (v.x * v.y);
    assert b * v.x == k * (v.x * v.y);
  }

  /** Each control point is pulled along the chord that skips its anchor:
      the first one parallel to pt2 - pt0, the second parallel to pt1 - pt3
      (the Catmull-Rom tangent directions). */
  lemma ControlPointDirection(norm: Vec -> real, weight1: real, weight2: real, pt0: Vec, pt1: Vec, pt2: Vec, pt3: Vec)
    requires IsEuclideanNorm(norm)
    ensures var r := ControlPoint(norm, weight1, weight2, pt0, pt1, pt2, pt3);
      && Cross(Sub(r.0, pt1), Sub(pt2, pt0)) == 0.0
      && Cross(Sub(r.1, pt2), Sub(pt1, pt3)) == 0.0
  {
    var r := ControlPoint(norm, weight1, weight2, pt0, pt1, pt2, pt3);
    var n12 := norm(Sub(pt2, pt1));
    if n12 > 0.0 {
      OvershootDirection(norm, weight1, pt1, n12, Sub(pt2, pt0));
      OvershootDirection(norm, weight2, pt2, n12, Sub(pt1, pt3));
    } else {
      CrossScaled(0.0, Sub(pt2, pt0));
      CrossScaled(0.0, Sub(pt1, pt3));
      assert Sub(r.0, pt1) == Scale(0.0, Sub(pt2, pt0));
      assert Sub(r.1, pt2) == Scale(0.0, Sub(pt1, pt3));
    }
  }

  lemma OvershootDirection(norm: Vec -> real, weight: real, pt: Vec, intervalLength: real, direction: Vec)
    requires IsEuclideanNorm(norm)
    ensures Cross(Sub(LimitedOvershoot(norm, weight, pt, intervalLength, direction), pt), direction) == 0.0
  {
    var c := LimitedOvershoot(norm, weight, pt, intervalLength, direction);
    var dl := norm(direction);
    if dl > 0.0 {
      var m := MinReal(1.0, intervalLength / dl * 2.0);
      assert Sub(c, pt) == Scale(weight * m, direction);
      CrossScaled(weight * m, direction);
    } else {
      assert Sub(c, pt) == Scale(0.0, direction);
      CrossScaled(0.0, direction);
    }
  }

  /** Twice either weight the builders use, 0 or tension / 2, is at most
      |tension|. */
  lemma PullWeightBound(w: real, tension: real)
    requires w == 0.0 || w == PullWeight(tension)
    ensures Abs(w) * 2.0 <= Abs(tension)
  {
  }

  /** Where the anchors and the pairs lie in the open control polygon. */
  lemma OpenLayout(norm: Vec -> real, points: seq<Vec>, tension: real)
    requires IsEuclideanNorm(norm)
    requires |points| >= 2
    ensures |OpenControlPolygon(norm, points, tension)| == 3 * |points| - 2
    ensures forall i {:trigger OpenControlPolygon(norm, points, tension)[3 * i]} :: 0 <= i < |points| ==>
      OpenControlPolygon(norm, points, tension)[3 * i] == points[i]
    ensures forall j {:trigger OpenControlPolygon(norm, points, tension)[3 * j + 1]} :: 0 <= j < |points| - 1 ==>
      OpenControlPolygon(norm, points, tension)[3 * j + 1] == PairOf(norm, OpenCall(points, PullWeight(tension), j)).0
    ensures forall j {:trigger OpenControlPolygon(norm, points, tension)[3 * j + 2]} :: 0 <= j < |points| - 1 ==>
      OpenControlPolygon(norm, points, tension)[3 * j + 2] == PairOf(norm, OpenCall(points, PullWeight(tension), j)).1
  {
    InterleaveAt(points, OpenPairs(norm, points, PullWeight(tension)));
  }

  /** Open curve shape: fewer than two anchors are returned unchanged;
      otherwise 3n - 2 entries with anchor i at index 3i, the curve leaving
      the first anchor and entering the last one with a free (zero-weight)
      control point that sits on the anchor itself. */
  lemma OpenShape(norm: Vec -> real, points: seq<Vec>, tension: real)
    requires IsEuclideanNorm(norm)
    ensures var r := OpenControlPolygon(norm, points, tension);
      && (|points| <= 1 ==> r == points)
      && (|points| >= 2 ==>
            && |r| == 3 * |points| - 2
            && (forall i :: 0 <= i < |points| ==> r[3 * i] == points[i])
            && r[1] == points[0]
            && r[|r| - 2] == points[|points| - 1])
  {
    var n := |points|;
    if n >= 2 {
      var w := PullWeight(tension);
      OpenLayout(norm, points, tension);
      var first, last := OpenCall(points, w, 0), OpenCall(points, w, n - 2);
      var r := OpenControlPolygon(norm, points, tension);
      assert r[3 * 0 + 1] == r[1];
      assert r[|r| - 2] == r[3 * (n - 2) + 2];
    }
  }

  /** With two anchors the open curve is the straight segment, whatever the
      tension: both control points sit on the anchors. */
  lemma OpenTwoAnchors(norm: Vec -> real, p0: Vec, p1: Vec, tension: real)
    requires IsEuclideanNorm(norm)
    ensures OpenControlPolygon(norm, [p0, p1], tension) == [p0, p0, p1, p1]
  {
    OpenShape(norm, [p0, p1], tension);
  }

  /** Zero tension gives the polyline: every control point sits on the
      anchor it belongs to. */
  lemma OpenZeroTension(norm: Vec -> real, points: seq<Vec>)
    requires IsEuclideanNorm(norm)
    requires |points| >= 2
    ensures var r := OpenControlPolygon(norm, points, 0.0);
      forall j :: 0 <= j < |points| - 1 ==> r[3 * j + 1] == points[j] && r[3 * j + 2] == points[j + 1]
  {
    OpenLayout(norm, points, 0.0);
    forall j | 0 <= j < |points| - 1
      ensures var c := OpenCall(points, PullWeight(0.0), j);
        PairOf(norm, c) == (points[j], points[j + 1])
    {
      var c := OpenCall(points, PullWeight(0.0), j);
    }
  }

  /** The pair of open-curve segment j keeps each control point within
      |tension| times the segment length of its anchor. */
  lemma OpenPairBound(norm: Vec -> real, points: seq<Vec>, tension: real, j: nat)
    requires IsEuclideanNorm(norm)
    requires j < |points| - 1
    ensures var c, len := PairOf(norm, OpenCall(points, PullWeight(tension), j)), norm(Sub(points[j + 1], points[j]));
      && norm(Sub(c.0, points[j])) <= Abs(tension) * len
      && norm(Sub(c.1, points[j + 1])) <= Abs(tension) * len
  {
    var c := OpenCall(points, PullWeight(tension), j);
    PullWeightBound(c.weight1, tension);
    PullWeightBound(c.weight2, tension);
    PulledPairBound(norm, c, tension);
  }

  /** An offset within |w| times twice the segment length is within
      |tension| times it when 2|w| <= |tension|. */
  lemma PulledSideBound(offset: real, w: real, tension: real, len: real)
    requires Abs(w) * 2.0 <= Abs(tension)
    requires len >= 0.0 && offset <= Abs(w) * 2.0 * len
    ensures offset <= Abs(tension) * len
  {
    assert Abs(tension) * len - Abs(w) * 2.0 * len == (Abs(tension) - Abs(w) * 2.0) * len;
  }

  /** A pair pulled with weights of at most half the tension keeps each
      control point within |tension| times the segment length of its
      anchor. */
  lemma PulledPairBound(norm: Vec -> real, c: PairCall, tension: real)
    requires IsEuclideanNorm(norm)
    requires Abs(c.weight1) * 2.0 <= Abs(tension) && Abs(c.weight2) * 2.0 <= Abs(tension)
    ensures var r, len := PairOf(norm, c), norm(Sub(c.pt2, c.pt1));
      && norm(Sub(r.0, c.pt1)) <= Abs(tension) * len
      && norm(Sub(r.1, c.pt2)) <= Abs(tension) * len
  {
    var len := norm(Sub(c.pt2, c.pt1));
    var r := PairOf(norm, c);
    ControlPointBound(norm, c.weight1, c.weight2, c.pt0, c.pt1, c.pt2, c.pt3);
    NormZeroIff(norm, Sub(c.pt2, c.pt1));
    PulledSideBound(norm(Sub(r.0, c.pt1)), c.weight1, tension, len);
    PulledSideBound(norm(Sub(r.1, c.pt2)), c.weight2, tension, len);
  }

  /** No control point of the open curve lies further from its anchor than
      |tension| times the length of its segment. */
  lemma OpenOvershootBound(norm: Vec -> real, points: seq<Vec>, tension: real)
    requires IsEuclideanNorm(norm)
    requires |points| >= 2
    ensures forall j {:trigger OpenControlPolygon(norm, points, tension)[3 * j + 1]} :: 0 <= j < |points| - 1 ==>
      norm(Sub(OpenControlPolygon(norm, points, tension)[3 * j + 1], points[j]))
        <= Abs(tension) * norm(Sub(points[j + 1], points[j]))
    ensures forall j {:trigger OpenControlPolygon(norm, points, tension)[3 * j + 2]} :: 0 <= j < |points| - 1 ==>
      norm(Sub(OpenControlPolygon(norm, points, tension)[3 * j + 2], points[j + 1]))
        <= Abs(tension) * norm(Sub(points[j + 1], points[j]))
  {
    OpenLayout(norm, points, tension);
    forall j: nat | j < |points| - 1 {
      OpenPairBound(norm, points, tension, j);
    }
  }

  /** Where the anchors and the pairs lie in the closed control polygon. */
  lemma ClosedLayout(norm: Vec -> real, points: seq<Vec>, tension: real)
    requires IsEuclideanNorm(norm)
    requires |points| >= 2
    ensures |ClosedControlPolygon(norm, points, tension)| == 3 * |points| + 1
    ensures forall i {:trigger ClosedControlPolygon(norm, points, tension)[3 * i]} :: 0 <= i < |points| ==>
      ClosedControlPolygon(norm, points, tension)[3 * i] == points[i]
    ensures ClosedControlPolygon(norm, points, tension)[3 * |points|] == points[0]
    ensures forall j {:trigger ClosedControlPolygon(norm, points, tension)[3 * j + 1]} :: 0 <= j < |points| ==>
      ClosedControlPolygon(norm, points, tension)[3 * j + 1] == ClosedPair(norm, points, PullWeight(tension), j).0
    ensures forall j {:trigger ClosedControlPolygon(norm, points, tension)[3 * j + 2]} :: 0 <= j < |points| ==>
      ClosedControlPolygon(norm, points, tension)[3 * j + 2] == ClosedPair(norm, points, PullWeight(tension), j).1
  {
    var ring := points + [points[0]];
    InterleaveAt(ring, ClosedPairs(norm, points, PullWeight(tension)));
    assert forall i :: 0 <= i < |points| ==> ring[i] == points[i];
    assert ring[|points|] == points[0];
  }

  /** Closed curve shape: fewer than two anchors are returned unchanged;
      otherwise 3n + 1 entries with anchor i at index 3i and the first anchor
      repeated at the end, so that the polygon closes on itself. */
  lemma ClosedShape(norm: Vec -> real, points: seq<Vec>, tension: real)
    requires IsEuclideanNorm(norm)
    ensures var r := ClosedControlPolygon(norm, points, tension);
      && (|points| <= 1 ==> r == points)
      && (|points| >= 2 ==>
            && |r| == 3 * |points| + 1
            && (forall i :: 0 <= i < |points| ==> r[3 * i] == points[i])
            && r[|r| - 1] == r[0] == points[0])
  {
    if |points| >= 2 {
      ClosedLayout(norm, points, tension);
      var r := ClosedControlPolygon(norm, points, tension);
      assert r[0] == r[3 * 0];
    }
  }

  /** With two anchors the closed curve runs along the straight segment and
      back: the pair of the way back is the mirrored pair of the way out. */
  lemma ClosedTwoAnchors(norm: Vec -> real, p0: Vec, p1: Vec, tension: real)
    requires IsEuclideanNorm(norm)
    ensures ClosedControlPolygon(norm, [p0, p1], tension) == [p0, p0, p1, p1, p1, p0, p0]
  {
    ClosedLayout(norm, [p0, p1], tension);
    var r := ClosedControlPolygon(norm, [p0, p1], tension);
    assert r[0] == r[3 * 0] && r[1] == r[3 * 0 + 1] && r[2] == r[3 * 0 + 2];
    assert r[3] == r[3 * 1] && r[4] == r[3 * 1 + 1] && r[5] == r[3 * 1 + 2];
  }

  /** With three or more anchors every segment of the closed curve is built
      alike: segment i runs from anchor i to anchor i + 1 modulo n, with its
      neighbours i - 1 and i + 2 modulo n and the same weight on both sides. */
  lemma ClosedCyclic(norm: Vec -> real, points: seq<Vec>, tension: real)
    requires IsEuclideanNorm(norm)
    requires |points| >= 3
    ensures forall i {:trigger ClosedControlPolygon(norm, points, tension)[3 * i + 1]} :: 0 <= i < |points| ==>
      (ClosedControlPolygon(norm, points, tension)[3 * i + 1], ClosedControlPolygon(norm, points, tension)[3 * i + 2])
        == ControlPoint(norm, PullWeight(tension), PullWeight(tension),
             points[Wrap(i - 1, |points|)], points[i], points[Wrap(i + 1, |points|)], points[Wrap(i + 2, |points|)])
  {
    ClosedLayout(norm, points, tension);
    forall i: nat | i < |points| {
      ClosedCallCyclic(points, PullWeight(tension), i);
    }
  }

  /** The arguments of closed-curve segment i follow one formula modulo n. */
  lemma ClosedCallCyclic(points: seq<Vec>, weight: real, i: nat)
    requires 3 <= |points| && i < |points|
    ensures var n := |points|;
      ClosedCall(points, weight, i)
        == PairCall(weight, weight, points[Wrap(i - 1, n)], points[i], points[Wrap(i + 1, n)], points[Wrap(i + 2, n)])
  {
  }

  /** The pair of closed-curve segment j, which runs from anchor j to anchor
      j + 1 modulo n, keeps each control point within |tension| times the
      segment length of its anchor, and on the anchor at zero tension. */
  lemma ClosedPairBound(norm: Vec -> real, points: seq<Vec>, tension: real, j: nat)
    requires IsEuclideanNorm(norm)
    requires 2 <= |points| && j < |points|
    ensures var c, len := ClosedPair(norm, points, PullWeight(tension), j), norm(Sub(points[Wrap(j + 1, |points|)], points[j]));
      && norm(Sub(c.0, points[j])) <= Abs(tension) * len
      && norm(Sub(c.1, points[Wrap(j + 1, |points|)])) <= Abs(tension) * len
      && (tension == 0.0 ==> c == (points[j], points[Wrap(j + 1, |points|)]))
  {
    var n, w := |points|, PullWeight(tension);
    var next := points[Wrap(j + 1, n)];
    var len := norm(Sub(next, points[j]));
    var c := ClosedPair(norm, points, w, j);
    NormZeroIff(norm, Sub(next, points[j]));
    if n == 2 {
      NormZeroIff(norm, Zero);
      assert Sub(c.0, points[j]) == Zero && Sub(c.1, next) == Zero;
      assert Abs(tension) * len >= 0.0;
    } else {
      PullWeightBound(w, tension);
      PulledPairBound(norm, ClosedCall(points, w, j), tension);
    }
  }

  /** No control point of the closed curve lies further from its anchor than
      |tension| times the length of its segment. */
  lemma ClosedOvershootBound(norm: Vec -> real, points: seq<Vec>, tension: real)
    requires IsEuclideanNorm(norm)
    requires |points| >= 2
    ensures forall j {:trigger ClosedControlPolygon(norm, points, tension)[3 * j + 1]} :: 0 <= j < |points| ==>
      norm(Sub(ClosedControlPolygon(norm, points, tension)[3 * j + 1], points[j]))
        <= Abs(tension) * norm(Sub(points[Wrap(j + 1, |points|)], points[j]))
    ensures forall j {:trigger ClosedControlPolygon(norm, points, tension)[3 * j + 2]} :: 0 <= j < |points| ==>
      norm(Sub(ClosedControlPolygon(norm, points, tension)[3 * j + 2], points[Wrap(j + 1, |points|)]))
        <= Abs(tension) * norm(Sub(points[Wrap(j + 1, |points|)], points[j]))
  {
    ClosedLayout(norm, points, tension);
    forall j: nat | j < |points| {
      ClosedPairBound(norm, points, tension, j);
    }
  }

  /** Zero tension gives the closed polyline: every control point sits on
      the anchor it belongs to. */
  lemma ClosedZeroTension(norm: Vec -> real, points: seq<Vec>)
    requires IsEuclideanNorm(norm)
    requires |points| >= 2
    ensures forall j {:trigger ClosedControlPolygon(norm, points, 0.0)[3 * j + 1]} :: 0 <= j < |points| ==>
      && ClosedControlPolygon(norm, points, 0.0)[3 * j + 1] == points[j]
      && ClosedControlPolygon(norm, points, 0.0)[3 * j + 2] == points[Wrap(j + 1, |points|)]
  {
    ClosedLayout(norm, points, 0.0);
    forall j: nat | j < |points| {
      ClosedPairBound(norm, points, 0.0, j);
    }
  }

  /** Writes pairAt(j) into slots 3j + 1 and 3j + 2 for every segment j in
      [lo, hi), one segment after the other, and leaves every other slot as
      it was. */
  method StorePairs(a: array<Vec>, pairAt: nat --> (Vec, Vec), lo: nat, hi: nat)
    requires lo <= hi && 3 * hi <= a.Length
    requires forall j :: lo <= j < hi ==> pairAt.requires(j)
    modifies a
    ensures forall j {:trigger a[3 * j + 1]} :: lo <= j < hi ==> a[3 * j + 1] == pairAt(j).0
    ensures forall j {:trigger a[3 * j + 2]} :: lo <= j < hi ==> a[3 * j + 2] == pairAt(j).1
    ensures forall j {:trigger a[3 * j]} :: 0 <= 3 * j < a.Length ==> a[3 * j] == old(a[3 * j])
    ensures forall k :: 0 <= k < a.Length && (k <= 3 * lo || 3 * hi <= k) ==> a[k] == old(a[k])
  {
    for i := lo to hi
      invariant forall j {:trigger a[3 * j + 1]} :: lo <= j < i ==> a[3 * j + 1] == pairAt(j).0
      invariant forall j {:trigger a[3 * j + 2]} :: lo <= j < i ==> a[3 * j + 2] == pairAt(j).1
      invariant forall j {:trigger a[3 * j]} :: 0 <= 3 * j < a.Length ==> a[3 * j] == old(a[3 * j])
      invariant forall k :: 0 <= k < a.Length && (k <= 3 * lo || 3 * i <= k) ==> a[k] == old(a[k])
    {
      var pair := pairAt(i);
      a[3 * i + 1], a[3 * i + 2] := pair.0, pair.1;
    }
  }

  /** Builds the open control polygon in a preallocated array: the anchors
      into every third slot, then the pair of each segment. */
  method BezierOpenCurve(norm: Vec -> real, points: seq<Vec>, tension: real) returns (pts: seq<Vec>)
    requires IsEuclideanNorm(norm)
    ensures pts == OpenControlPolygon(norm, points, tension)
  {
    var n := |points|;
    if n == 0 {
      return [];
    }
    if n == 1 {
      return points;
    }
    var weight := PullWeight(tension);
    var a := new Vec[3 * n - 2];
    forall j | 0 <= j < n {
      a[3 * j] := points[j];
    }
    StorePairs(a, (i: nat) requires i < n - 1 => PairOf(norm, OpenCall(points, weight, i)), 0, n - 1);
    pts := a[..];
    InterleaveFromParts(points, OpenPairs(norm, points, weight), pts);
  }

  /** Builds the closed control polygon in a preallocated array: the anchors
      into every third slot and the first anchor again at the end, then the
      pair of each segment. */
  method BezierClosedCurve(norm: Vec -> real, points: seq<Vec>, tension: real) returns (pts: seq<Vec>)
    requires IsEuclideanNorm(norm)
    ensures pts == ClosedControlPolygon(norm, points, tension)
  {
    var n := |points|;
    if n == 0 {
      return [];
    }
    if n == 1 {
      return points;
    }
    var weight := PullWeight(tension);
    var a := new Vec[3 * n + 1];
    forall j | 0 <= j < n {
      a[3 * j] := points[j];
    }
    a[3 * n] := points[0];
    StorePairs(a, (i: nat) requires i < n => ClosedPair(norm, points, weight, i), 0, n);
    pts := a[..];
    InterleaveFromParts(points + [points[0]], ClosedPairs(norm, points, weight), pts);
  }
}
