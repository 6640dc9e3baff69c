/** Bounding boxes and integer polygons for Pascal VOC annotations
    (Utility/polygon_to_bbox_util.py): the polygon is checked to be an N x 2
    array of at least one point, its box is rounded outwards to integers and
    repaired so that it is never empty, and both the box and the polygon can
    be clamped to the image. */
module PolygonBbox {
  import opened Vectors

  /** How a polygon reaches the helpers: a nested sequence of rows, or an
      array that already has shape N x 2. */
  datatype PolygonInput = Rows(rows: seq<seq<real>>) | Points(pts: seq<Vec>)

  datatype PolygonError = NotNBy2 | NoPoints

  /** The box, corners included, in integer pixel coordinates. */
  datatype Box = Box(xmin: int, ymin: int, xmax: int, ymax: int)

  /** A vertex of an integer polygon. */
  datatype IntPoint = IntPoint(x: int, y: int)

  /** Converts the input to an N x 2 array. A nested sequence is N x 2 when
      it has rows and every row has two entries (an empty one has a single
      dimension); an array must have at least one row. */
  function EnsurePolygonArray(polygon: PolygonInput): (r: Result<seq<Vec>, PolygonError>)
    ensures r.Ok? ==> |r.value| >= 1
    ensures polygon.Rows? ==>
      (r.Ok? <==> |polygon.rows| >= 1 && forall i :: 0 <= i < |polygon.rows| ==> |polygon.rows[i]| == 2)
    ensures polygon.Rows? && r.Ok? ==>
      |r.value| == |polygon.rows| &&
      forall i :: 0 <= i < |r.value| ==> r.value[i].x == polygon.rows[i][0] && r.value[i].y == polygon.rows[i][1]
    ensures polygon.Rows? && r.Err? ==> r.error == NotNBy2
    ensures polygon.Points? ==> (if |polygon.pts| == 0 then r == Err(NoPoints) else r == Ok(polygon.pts))
  {
    match polygon
    case Rows(rows) =>
      if |rows| == 0 || exists i :: 0 <= i < |rows| && |rows[i]| != 2 then Err(NotNBy2)
      else Ok(seq(|rows|, i requires 0 <= i < |rows| => Vec(rows[i][0], rows[i][1])))
    case Points(pts) =>
      if |pts| < 1 then Err(NoPoints) else Ok(pts)
  }

  function MaxReal(a: real, b: real): real { if a >= b then a else b }

  function MinInt(a: int, b: int): int { if a <= b then a else b }

  function MaxInt(a: int, b: int): int { if a >= b then a else b }

  /** The smallest entry. */
  function MinOf(xs: seq<real>): (m: real)
    requires |xs| >= 1
    ensures forall i :: 0 <= i < |xs| ==> m <= xs[i]
    ensures exists i :: 0 <= i < |xs| && xs[i] == m
  {
    if |xs| == 1 then xs[0]
    else
      var rest := MinOf(xs[1..]);
      assert forall i :: 1 <= i < |xs| ==> xs[i] == xs[1..][i - 1];
      if xs[0] <= rest then xs[0] else rest
  }

  /** The largest entry. */
  function MaxOf(xs: seq<real>): (m: real)
    requires |xs| >= 1
    ensures forall i :: 0 <= i < |xs| ==> xs[i] <= m
    ensures exists i :: 0 <= i < |xs| && xs[i] == m
  {
    if |xs| == 1 then xs[0]
    else
      var rest := MaxOf(xs[1..]);
      assert forall i :: 1 <= i < |xs| ==> xs[i] == xs[1..][i - 1];
      if xs[0] >= rest then xs[0] else rest
  }

  function Xs(pts: seq<Vec>): (xs: seq<real>)
    ensures |xs| == |pts|
  {
    seq(|pts|, i requires 0 <= i < |pts| => pts[i].x)
  }

  function Ys(pts: seq<Vec>): (ys: seq<real>)
    ensures |ys| == |pts|
  {
    seq(|pts|, i requires 0 <= i < |pts| => pts[i].y)
  }

  /** The least integer at or above r. */
  function Ceil(r: real): (c: int)
    ensures r <= c as real < r + 1.0
  {
    -((-r).Floor)
  }

  /** numpy's rint: the nearest integer, halves going to the even one. */
  function Rint(r: real): (k: int)
    ensures r - 0.5 <= k as real <= r + 0.5
  {
    var f := r.Floor;
    var frac := r - f as real;
    if frac < 0.5 then f
    else if frac > 0.5 then f + 1
    else if f % 2 == 0 then f
    else f + 1
  }

  /** Rounding an integer gives it back. */
  lemma RintOfInteger(k: int)
    ensures Rint(k as real) == k
  {
    assert (k as real).Floor == k;
  }

  /** A half goes to the even neighbour. */
  lemma RintHalfToEven(k: int)
    ensures Rint(k as real + 0.5) % 2 == 0
    ensures Rint(k as real + 0.5) == k || Rint(k as real + 0.5) == k + 1
  {
    assert (k as real + 0.5).Floor == k;
  }

  /** Rounding keeps the order. */
  lemma RintMonotone(a: real, b: real)
    requires a <= b
    ensures Rint(a) <= Rint(b)
  {
    var fa, fb := a.Floor, b.Floor;
    assert fa <= fb;
  }

  /** max(0, min(v, size - 1)), the clamp the box applies to a coordinate. */
  function ClampToImage(v: real, size: int): (c: real)
    ensures size >= 1 ==> 0.0 <= c <= (size - 1) as real
  {
    MaxReal(0.0, MinReal(v, (size - 1) as real))
  }

  /** numpy's clip(v, 0, size - 1), the clamp the polygon applies: the lower
      bound first, then the upper one, so a size below one gives size - 1. */
  function ClipToImage(v: real, size: int): (c: real)
    ensures size >= 1 ==> 0.0 <= c <= (size - 1) as real
    ensures size < 1 ==> c == (size - 1) as real
  {
    MinReal(MaxReal(v, 0.0), (size - 1) as real)
  }

  /** What the box promises along one axis, for a polygon spanning [lo, hi]
      along it: it is never empty; without an image size it starts at the
      floor of lo and reaches at least the ceiling of hi, widened to
      max(1, minSize) when the two meet; with an image size of at least one
      it lies inside [0, size], starts at the floor of the clamped lo and
      ends at the ceiling of the clamped hi, or, when the two meet, is
      widened to max(1, minSize) but cut off at size; with a smaller
      image size it is [0, 1]. */
  predicate AxisBox(lo: real, hi: real, size: Option<int>, minSize: int, imin: int, imax: int)
  {
    && imin < imax
    && (size.None? ==>
          && imin == lo.Floor
          && Ceil(hi) <= imax
          && (imax == Ceil(hi) || (Ceil(hi) <= imin && imax == imin + MaxInt(1, minSize))))
    && (size.Some? && size.value >= 1 ==>
          && 0 <= imin < imax <= size.value
          && imin <= ClampToImage(lo, size.value).Floor
          && Ceil(ClampToImage(hi, size.value)) <= imax
          && imin == ClampToImage(lo, size.value).Floor
          && imax == (if Ceil(ClampToImage(hi, size.value)) > imin then Ceil(ClampToImage(hi, size.value))
                      else MinInt(size.value, imin + MaxInt(1, minSize))))
    && (size.Some? && size.value < 1 ==> imin == 0 && imax == 1)
  }

  /** The box along one axis is determined by the span, the image size and
      minSize: no two different intervals satisfy AxisBox. */
  lemma AxisBoxUnique(lo: real, hi: real, size: Option<int>, minSize: int, imin: int, imax: int, jmin: int, jmax: int)
    requires AxisBox(lo, hi, size, minSize, imin, imax)
    requires AxisBox(lo, hi, size, minSize, jmin, jmax)
    ensures imin == jmin && imax == jmax
  {
  }

  /** A span lying inside an image of known size, whose floor and ceiling
      differ, gets exactly that floor and ceiling: the box is tight. */
  lemma AxisBoxTightOnImage(lo: real, hi: real, size: int, minSize: int, imin: int, imax: int)
    requires size >= 1 && 0.0 <= lo <= hi <= (size - 1) as real
    requires lo.Floor < Ceil(hi)
    requires AxisBox(lo, hi, Some(size), minSize, imin, imax)
    ensures imin == lo.Floor && imax == Ceil(hi)
  {
    assert ClampToImage(lo, size) == lo;
    assert ClampToImage(hi, size) == hi;
  }

  /** The clamp of a nonempty integer interval to [0, size] stays nonempty,
      whatever the size: the repair that follows it never has anything to
      repair. */
  lemma ClampKeepsIntervalNonempty(imin: int, imax: int, size: int)
    requires imin < imax
    ensures MaxInt(1, MinInt(imax, size)) > MaxInt(0, MinInt(imin, size - 1))
  {
  }

  /** The steps the box takes along one axis, for a polygon spanning
      [lo, hi] along it: clamp the span to the image when its size is known,
      round outwards, widen an empty interval to max(1, minSize), then clamp
      to [0, size] in integers and repair an interval that became empty. */
  method AxisBounds(lo: real, hi: real, size: Option<int>, minSize: int) returns (imin: int, imax: int)
    ensures AxisBox(lo, hi, size, minSize, imin, imax)
  {
    var vmin, vmax := lo, hi;
    if size.Some? {
      vmin := ClampToImage(vmin, size.value);
      vmax := ClampToImage(vmax, size.value);
    }
    imin := vmin.Floor;
    imax := Ceil(vmax);
    if imax <= imin {
      imax := imin + MaxInt(1, minSize);
    }
    if size.Some? {
      var n := size.value;
      imin := MaxInt(0, MinInt(imin, n - 1));
      imax := MaxInt(1, MinInt(imax, n));
      if imax <= imin {
        imin := MaxInt(0, MinInt(imin - 1, n - 1));
        imax := MinInt(n, imin + 1);
      }
    }
  }

  /** The bounding box of a polygon, one axis at a time. */
  method PolygonToBbox(polygon: PolygonInput, imageWidth: Option<int>, imageHeight: Option<int>, minSize: int)
    returns (r: Result<Box, PolygonError>)
    ensures EnsurePolygonArray(polygon).Err? ==> r == Err(EnsurePolygonArray(polygon).error)
    ensures EnsurePolygonArray(polygon).Ok? ==>
      var pts := EnsurePolygonArray(polygon).value;
      && r.Ok?
      && AxisBox(MinOf(Xs(pts)), MaxOf(Xs(pts)), imageWidth, minSize, r.value.xmin, r.value.xmax)
      && AxisBox(MinOf(Ys(pts)), MaxOf(Ys(pts)), imageHeight, minSize, r.value.ymin, r.value.ymax)
  {
    var checked := EnsurePolygonArray(polygon);
    if checked.Err? {
      return Err(checked.error);
    }
    var pts := checked.value;
    var ixmin, ixmax := AxisBounds(MinOf(Xs(pts)), MaxOf(Xs(pts)), imageWidth, minSize);
    var iymin, iymax := AxisBounds(MinOf(Ys(pts)), MaxOf(Ys(pts)), imageHeight, minSize);
    return Ok(Box(ixmin, iymin, ixmax, iymax));
  }

  /** A point clipped to the image along each axis whose size is known. */
  function ClippedPoint(p: Vec, imageWidth: Option<int>, imageHeight: Option<int>): Vec
  {
    Vec(if imageWidth.Some? then ClipToImage(p.x, imageWidth.value) else p.x,
        if imageHeight.Some? then ClipToImage(p.y, imageHeight.value) else p.y)
  }

  function RoundPoint(p: Vec): IntPoint
  {
    IntPoint(Rint(p.x), Rint(p.y))
  }

  /** The integer polygon of a checked polygon: each point clipped to the
      image, then rounded. */
  function VocPolygon(pts: seq<Vec>, imageWidth: Option<int>, imageHeight: Option<int>): (q: seq<IntPoint>)
    ensures |q| == |pts|
  {
    seq(|pts|, i requires 0 <= i < |pts| => RoundPoint(ClippedPoint(pts[i], imageWidth, imageHeight)))
  }

  /** Copies the points into an array, clips its columns in place, then
      rounds every coordinate. */
  method PolygonToVocPolygon(polygon: PolygonInput, imageWidth: Option<int>, imageHeight: Option<int>)
    returns (r: Result<seq<IntPoint>, PolygonError>)
    ensures EnsurePolygonArray(polygon).Err? ==> r == Err(EnsurePolygonArray(polygon).error)
    ensures EnsurePolygonArray(polygon).Ok? ==>
      r == Ok(VocPolygon(EnsurePolygonArray(polygon).value, imageWidth, imageHeight))
  {
    var checked := EnsurePolygonArray(polygon);
    if checked.Err? {
      return Err(checked.error);
    }
    var src := checked.value;
    var pts := new Vec[|src|](i requires 0 <= i < |src| => src[i]);

    if imageWidth.Some? {
      ClipColumn(pts, imageWidth.value, true);
    }
    if imageHeight.Some? {
      ClipColumn(pts, imageHeight.value, false);
    }
    assert forall k :: 0 <= k < pts.Length ==> pts[k] == ClippedPoint(src[k], imageWidth, imageHeight);

    var out := new IntPoint[pts.Length];
    for i := 0 to pts.Length
      invariant forall k :: 0 <= k < pts.Length ==> pts[k] == ClippedPoint(src[k], imageWidth, imageHeight)
      invariant forall k :: 0 <= k < i ==> out[k] == RoundPoint(pts[k])
    {
      out[i] := RoundPoint(pts[i]);
    }
    assert out[..] == VocPolygon(src, imageWidth, imageHeight);
    return Ok(out[..]);
  }

  /** Clips the x column (or the y column) of every point to the image and
      leaves the other column alone. */
  method ClipColumn(pts: array<Vec>, size: int, xColumn: bool)
    modifies pts
    ensures forall k :: 0 <= k < pts.Length ==>
      pts[k] == (if xColumn then Vec(ClipToImage(old(pts[k]).x, size), old(pts[k]).y)
                 else Vec(old(pts[k]).x, ClipToImage(old(pts[k]).y, size)))
  {
    for i := 0 to pts.Length
      invariant forall k :: 0 <= k < i ==>
        pts[k] == (if xColumn then Vec(ClipToImage(old(pts[k]).x, size), old(pts[k]).y)
                   else Vec(old(pts[k]).x, ClipToImage(old(pts[k]).y, size)))
      invariant forall k :: i <= k < pts.Length ==> pts[k] == old(pts[k])
    {
      if xColumn {
        pts[i] := Vec(ClipToImage(pts[i].x, size), pts[i].y);
      } else {
        pts[i] := Vec(pts[i].x, ClipToImage(pts[i].y, size));
      }
    }
  }

  /** The integer polygon keeps the number of points; with an image size of
      at least one every coordinate lies on the image, and without one every
      coordinate is the rounded input. */
  lemma VocPolygonBounds(pts: seq<Vec>, imageWidth: Option<int>, imageHeight: Option<int>)
    ensures |VocPolygon(pts, imageWidth, imageHeight)| == |pts|
    ensures imageWidth.Some? && imageWidth.value >= 1 ==>
      forall i :: 0 <= i < |pts| ==> 0 <= VocPolygon(pts, imageWidth, imageHeight)[i].x <= imageWidth.value - 1
    ensures imageHeight.Some? && imageHeight.value >= 1 ==>
      forall i :: 0 <= i < |pts| ==> 0 <= VocPolygon(pts, imageWidth, imageHeight)[i].y <= imageHeight.value - 1
    ensures imageWidth.None? ==> forall i :: 0 <= i < |pts| ==> VocPolygon(pts, imageWidth, imageHeight)[i].x == Rint(pts[i].x)
    ensures imageHeight.None? ==> forall i :: 0 <= i < |pts| ==> VocPolygon(pts, imageWidth, imageHeight)[i].y == Rint(pts[i].y)
  {
    var q := VocPolygon(pts, imageWidth, imageHeight);
    forall i | 0 <= i < |pts|
      ensures imageWidth.Some? && imageWidth.value >= 1 ==> 0 <= q[i].x <= imageWidth.value - 1
      ensures imageHeight.Some? && imageHeight.value >= 1 ==> 0 <= q[i].y <= imageHeight.value - 1
    {
      if imageWidth.Some? && imageWidth.value >= 1 {
        RoundedClipOnImage(pts[i].x, imageWidth.value);
      }
      if imageHeight.Some? && imageHeight.value >= 1 {
        RoundedClipOnImage(pts[i].y, imageHeight.value);
      }
    }
  }

  /** A clipped and rounded coordinate lies on an image of the given size. */
  lemma RoundedClipOnImage(v: real, size: int)
    requires size >= 1
    ensures 0 <= Rint(ClipToImage(v, size)) <= size - 1
  {
    var c := ClipToImage(v, size);
    RintMonotone(0.0, c);
    RintMonotone(c, (size - 1) as real);
    RintOfInteger(0);
    RintOfInteger(size - 1);
  }
}
