/**
 * The eye-region estimator and the iris ratio (gaze_analysis.py:93-111):
 * ten eye-contour landmarks are reduced to an inset, asymmetric rectangle,
 * and the iris centre is expressed relative to that rectangle.
 */
module EyeRegion {
  import opened Wrappers
  import opened Reductions

  datatype Point = Point(x: real, y: real)

  /**
   * One detected face: the detector's landmark list, in coordinates
   * normalised to [0, 1] of the frame, indexed as the detector indexes it.
   */
  datatype Face = Face(landmarks: seq<Point>)

  /** The landmark index of the left iris centre. */
  const IRIS_CENTER: nat := 468

  /** Every index the analysis reads is present (all contour indices are below the iris index). */
  predicate HasEyeLandmarks(face: Face)
  {
    IRIS_CENTER < |face.landmarks|
  }

  /** The indices of the ten eye-contour landmarks, in the order the analysis reads them. */
  const EYE_CONTOUR: seq<nat> := [33, 133, 173, 155, 154, 153, 145, 144, 163, 7]

  /**
   * A landmark projected to pixel coordinates of a width x height frame:
   * a landmark inside the unit square lands inside the frame.
   */
  function Pixel(face: Face, i: nat, width: nat, height: nat): (p: Point)
    requires i < |face.landmarks|
    ensures 0.0 <= face.landmarks[i].x <= 1.0 ==> 0.0 <= p.x <= width as real
    ensures 0.0 <= face.landmarks[i].y <= 1.0 ==> 0.0 <= p.y <= height as real
  {
    Point(Scaled(face.landmarks[i].x, width), Scaled(face.landmarks[i].y, height))
  }

  /** A normalised coordinate times a frame dimension: the unit interval maps into [0, size]. */
  function Scaled(t: real, size: nat): (v: real)
    ensures 0.0 <= t <= 1.0 ==> 0.0 <= v <= size as real
  {
    UnitScaled(t, size as real);
    t * size as real
  }

  lemma UnitScaled(t: real, w: real)
    requires w >= 0.0
    ensures 0.0 <= t <= 1.0 ==> 0.0 <= t * w <= w
  {
    if 0.0 <= t <= 1.0 && w > 0.0 {
      if t > 0.0 {
        ProductPositive(t, w);
      }
      if t < 1.0 {
        ProductPositive(1.0 - t, w);
        assert t * w == w - (1.0 - t) * w;
      }
    }
  }

  /** The ten eye-contour points: the landmarks listed in EYE_CONTOUR, in that order, in pixels. */
  function EyeContour(face: Face, width: nat, height: nat): (pts: seq<Point>)
    requires HasEyeLandmarks(face)
    ensures |pts| == |EYE_CONTOUR| == 10
    ensures forall k :: 0 <= k < |pts| ==>
              EYE_CONTOUR[k] < |face.landmarks| && pts[k] == Pixel(face, EYE_CONTOUR[k], width, height)
  {
    [Pixel(face, 33, width, height), Pixel(face, 133, width, height),
     Pixel(face, 173, width, height), Pixel(face, 155, width, height),
     Pixel(face, 154, width, height), Pixel(face, 153, width, height),
     Pixel(face, 145, width, height), Pixel(face, 144, width, height),
     Pixel(face, 163, width, height), Pixel(face, 7, width, height)]
  }

  /** The iris centre in pixels: an iris landmark inside the unit square lands inside the frame. */
  function IrisPixel(face: Face, width: nat, height: nat): (p: Point)
    requires HasEyeLandmarks(face)
    ensures 0.0 <= face.landmarks[IRIS_CENTER].x <= 1.0 ==> 0.0 <= p.x <= width as real
    ensures 0.0 <= face.landmarks[IRIS_CENTER].y <= 1.0 ==> 0.0 <= p.y <= height as real
    ensures p == Pixel(face, IRIS_CENTER, width, height)
  {
    Pixel(face, IRIS_CENTER, width, height)
  }

  function Xs(pts: seq<Point>): seq<real>
  {
    seq(|pts|, i requires 0 <= i < |pts| => pts[i].x)
  }

  function Ys(pts: seq<Point>): seq<real>
  {
    seq(|pts|, i requires 0 <= i < |pts| => pts[i].y)
  }

  datatype Region = Region(left: real, right: real, top: real, bottom: real)

  /**
   * The eye region: the contour's box with 30% cut from the left and 25%
   * from the right, the bottom raised by 1/3.5 of the height, and the top
   * mirrored about the contour's highest point.  Horizontally it is a 45%
   * sub-interval of the contour's x-range; vertically it is centred on the
   * contour's minimum y and 10/7 of its height.
   */
  function EstimateRegion(pts: seq<Point>): (r: Region)
    requires |pts| > 0
    ensures Min(Xs(pts)) <= r.left <= r.right <= Max(Xs(pts))
    ensures r.left - Min(Xs(pts)) == 0.3 * (Max(Xs(pts)) - Min(Xs(pts)))
    ensures Max(Xs(pts)) - r.right == 0.25 * (Max(Xs(pts)) - Min(Xs(pts)))
    ensures r.right - r.left == 0.45 * (Max(Xs(pts)) - Min(Xs(pts)))
    ensures r.top <= Min(Ys(pts)) <= r.bottom <= Max(Ys(pts))
    ensures (r.top + r.bottom) / 2.0 == Min(Ys(pts))
    ensures r.bottom - r.top == 10.0 / 7.0 * (Max(Ys(pts)) - Min(Ys(pts)))
  {
    var minX, maxX := Min(Xs(pts)), Max(Xs(pts));
    var minY, maxY := Min(Ys(pts)), Max(Ys(pts));
    var left := minX + 0.3 * (maxX - minX);
    var right := maxX - 0.25 * (maxX - minX);
    var bottom := maxY - (maxY - minY) / 3.5;
    var top := bottom - 2.0 * (bottom - minY);
    Region(left, right, top, bottom)
  }

  /** Two of the points differ in x, and two (possibly others) differ in y. */
  predicate Spread(pts: seq<Point>)
  {
    (exists i, j :: 0 <= i < |pts| && 0 <= j < |pts| && pts[i].x != pts[j].x) &&
    (exists i, j :: 0 <= i < |pts| && 0 <= j < |pts| && pts[i].y != pts[j].y)
  }

  /** The region has positive width exactly when the contour points are not all at one x. */
  lemma HorizontalSpanPositive(pts: seq<Point>)
    requires |pts| > 0
    ensures EstimateRegion(pts).left < EstimateRegion(pts).right
            <==> exists i, j :: 0 <= i < |pts| && 0 <= j < |pts| && pts[i].x != pts[j].x
  {
    var xs := Xs(pts);
    if exists i, j :: 0 <= i < |pts| && 0 <= j < |pts| && pts[i].x != pts[j].x {
      var i, j :| 0 <= i < |pts| && 0 <= j < |pts| && pts[i].x != pts[j].x;
      assert xs[i] != xs[j];
    } else {
      var lo :| 0 <= lo < |xs| && xs[lo] == Min(xs);
      var hi :| 0 <= hi < |xs| && xs[hi] == Max(xs);
      assert pts[lo].x == pts[hi].x;
    }
  }

  /** The region has positive height exactly when the contour points are not all at one y. */
  lemma VerticalSpanPositive(pts: seq<Point>)
    requires |pts| > 0
    ensures EstimateRegion(pts).top < EstimateRegion(pts).bottom
            <==> exists i, j :: 0 <= i < |pts| && 0 <= j < |pts| && pts[i].y != pts[j].y
  {
    var ys := Ys(pts);
    if exists i, j :: 0 <= i < |pts| && 0 <= j < |pts| && pts[i].y != pts[j].y {
      var i, j :| 0 <= i < |pts| && 0 <= j < |pts| && pts[i].y != pts[j].y;
      assert ys[i] != ys[j];
    } else {
      var lo :| 0 <= lo < |ys| && ys[lo] == Min(ys);
      var hi :| 0 <= hi < |ys| && ys[hi] == Max(ys);
      assert pts[lo].y == pts[hi].y;
    }
  }

  datatype Ratios = Ratios(horizontal: real, vertical: real)

  /**
   * The iris position relative to the region, unclamped.  A region without
   * positive width and height gives no ratios: the frame is skipped.
   */
  function IrisRatio(region: Region, iris: Point): (r: Option<Ratios>)
    ensures r.None? <==> region.right <= region.left || region.bottom <= region.top
    ensures r.Some? ==> region.left + r.value.horizontal * (region.right - region.left) == iris.x
    ensures r.Some? ==> region.top + r.value.vertical * (region.bottom - region.top) == iris.y
  {
    var width := region.right - region.left;
    var height := region.bottom - region.top;
    if width <= 0.0 || height <= 0.0 then None
    else Some(Ratios((iris.x - region.left) / width, (iris.y - region.top) / height))
  }

  predicate Spans(region: Region)
  {
    region.left < region.right && region.top < region.bottom
  }

  /** A point lo + t * (hi - lo) of a proper interval is at or right of lo exactly when t is non-negative. */
  lemma LowerEdgeIff(a: real, lo: real, hi: real, t: real)
    requires lo < hi
    requires lo + t * (hi - lo) == a
    ensures lo <= a <==> 0.0 <= t
    ensures a == lo <==> t == 0.0
  {
    if t < 0.0 {
      ProductPositive(-t, hi - lo);
      assert a == lo - (-t) * (hi - lo);
    }
    if t > 0.0 {
      ProductPositive(t, hi - lo);
    }
  }

  /** The same point is at or left of hi exactly when t is at most 1. */
  lemma UpperEdgeIff(a: real, lo: real, hi: real, t: real)
    requires lo < hi
    requires lo + t * (hi - lo) == a
    ensures a <= hi <==> t <= 1.0
    ensures a == hi <==> t == 1.0
  {
    if t > 1.0 {
      var excess := t - 1.0;
      ProductPositive(excess, hi - lo);
      assert a == hi + excess * (hi - lo);
    }
    if t < 1.0 {
      var gap := 1.0 - t;
      ProductPositive(gap, hi - lo);
      assert a == hi - gap * (hi - lo);
    }
  }

  /** The region's edges map to 0 and 1. */
  lemma RatioAtEdges(region: Region, iris: Point)
    requires Spans(region)
    ensures iris.x == region.left ==> IrisRatio(region, iris).value.horizontal == 0.0
    ensures iris.x == region.right ==> IrisRatio(region, iris).value.horizontal == 1.0
    ensures iris.y == region.top ==> IrisRatio(region, iris).value.vertical == 0.0
    ensures iris.y == region.bottom ==> IrisRatio(region, iris).value.vertical == 1.0
  {
    var r := IrisRatio(region, iris).value;
    LowerEdgeIff(iris.x, region.left, region.right, r.horizontal);
    UpperEdgeIff(iris.x, region.left, region.right, r.horizontal);
    LowerEdgeIff(iris.y, region.top, region.bottom, r.vertical);
    UpperEdgeIff(iris.y, region.top, region.bottom, r.vertical);
  }

  /** Since nothing is clamped, a ratio lies in [0, 1] exactly when the iris lies within the region on that axis. */
  lemma RatioInUnitIff(region: Region, iris: Point)
    requires Spans(region)
    ensures 0.0 <= IrisRatio(region, iris).value.horizontal <= 1.0 <==> region.left <= iris.x <= region.right
    ensures 0.0 <= IrisRatio(region, iris).value.vertical <= 1.0 <==> region.top <= iris.y <= region.bottom
  {
    var r := IrisRatio(region, iris).value;
    LowerEdgeIff(iris.x, region.left, region.right, r.horizontal);
    UpperEdgeIff(iris.x, region.left, region.right, r.horizontal);
    LowerEdgeIff(iris.y, region.top, region.bottom, r.vertical);
    UpperEdgeIff(iris.y, region.top, region.bottom, r.vertical);
  }
}
