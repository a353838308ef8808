/** The projection-area detectors (src/color_detection_camera.py and
    src/color_detection_camera_trackbar.py): four red corner marks fix a rectangle, and the
    coloured blobs inside it are reported in frame coordinates. Both files share this logic
    and differ only in their thresholds. Contours are given as records. */
module CalibrationArea {
  import opened Wrappers
  import opened Geometry
  import opened Sorting
  import opened HueClassifier
  import opened ColorBuckets

  /** The thresholds of one detector. */
  datatype Config = Config(minCornerArea: real, minColorArea: real, redHueTolerance: int, redSatMin: int, redValMin: int)

  /** src/color_detection_camera_trackbar.py start-up values. */
  const TrackbarConfig := Config(10.0, 50.0, 10, 120, 70)

  /** src/color_detection_camera.py fixed values. */
  const FixedConfig := Config(7.0, 5.0, 10, 120, 70)

  /** The two red hue ranges `[0, tol]` and `[180 - tol, 180]`. */
  function RedBands(tol: int): seq<Band>
  {
    [Band(0, tol), Band(180 - tol, 180)]
  }

  predicate IsRedPixel(cfg: Config, px: Hsv)
  {
    InSomeBand(px.h, RedBands(cfg.redHueTolerance)) && px.s >= cfg.redSatMin && px.v >= cfg.redValMin
  }

  /** The red ranges are the hues within the tolerance of hue 0 on the hue circle. */
  lemma {:induction false} RedBandsAroundZero(h: int, tol: int)
    requires IsHue(h) && 0 <= tol <= MaxHueTolerance
    ensures InSomeBand(h, RedBands(tol)) <==> HueDist(h, 0) <= tol
  {
    if HueDist(h, 0) <= tol {
      if h <= tol {
        assert InBand(h, RedBands(tol)[0]);
      } else {
        assert InBand(h, RedBands(tol)[1]);
      }
    }
  }

  /** A pixel passes the red corner mask exactly when its hue is within the tolerance of hue 0
      and its saturation and value reach the configured floors; the upper bounds of 255 hold
      for every byte-valued channel. */
  lemma {:induction false} RedPixelExact(cfg: Config, px: Hsv)
    requires IsHue(px.h) && 0 <= cfg.redHueTolerance <= MaxHueTolerance
    ensures IsRedPixel(cfg, px) <==> HueDist(px.h, 0) <= cfg.redHueTolerance && px.s >= cfg.redSatMin && px.v >= cfg.redValMin
  {
    RedBandsAroundZero(px.h, cfg.redHueTolerance);
  }

  datatype Contour = Contour(centroid: Pt, area: real, m00: real)

  function Area(c: Contour): real { c.area }

  /** Red contours large enough to be corner marks, in contour order. */
  function CornerCandidates(contours: seq<Contour>, minArea: real): (r: seq<Contour>)
    ensures |r| <= |contours|
    ensures forall i :: 0 <= i < |r| ==> r[i] in contours && r[i].area > minArea && r[i].m00 != 0.0
    ensures forall i :: 0 <= i < |contours| && contours[i].area > minArea && contours[i].m00 != 0.0 ==> contours[i] in r
  {
    if |contours| == 0 then []
    else
      var rest := CornerCandidates(contours[1..], minArea);
      assert forall i :: 1 <= i < |contours| ==> contours[i] == contours[1..][i - 1];
      (if contours[0].area > minArea && contours[0].m00 != 0.0 then [contours[0]] else []) + rest
  }

  /** The smallest and largest of a non-empty list of coordinates. */
  function SeqMin(xs: seq<int>): (r: int)
    requires |xs| > 0
    ensures r in xs && forall i :: 0 <= i < |xs| ==> r <= xs[i]
  {
    if |xs| == 1 then xs[0]
    else
      var m := SeqMin(xs[1..]);
      assert forall i :: 1 <= i < |xs| ==> xs[i] == xs[1..][i - 1];
      Min(xs[0], m)
  }

  function SeqMax(xs: seq<int>): (r: int)
    requires |xs| > 0
    ensures r in xs && forall i :: 0 <= i < |xs| ==> xs[i] <= r
  {
    if |xs| == 1 then xs[0]
    else
      var m := SeqMax(xs[1..]);
      assert forall i :: 1 <= i < |xs| ==> xs[i] == xs[1..][i - 1];
      Max(xs[0], m)
  }

  function Xs(ps: seq<Pt>): (r: seq<int>)
    ensures |r| == |ps| && forall i :: 0 <= i < |ps| ==> r[i] == ps[i].x
  {
    if |ps| == 0 then [] else [ps[0].x] + Xs(ps[1..])
  }

  function Ys(ps: seq<Pt>): (r: seq<int>)
    ensures |r| == |ps| && forall i :: 0 <= i < |ps| ==> r[i] == ps[i].y
  {
    if |ps| == 0 then [] else [ps[0].y] + Ys(ps[1..])
  }

  function Centroids(cs: seq<Contour>): (r: seq<Pt>)
    ensures |r| == |cs| && forall i :: 0 <= i < |cs| ==> r[i] == cs[i].centroid
  {
    if |cs| == 0 then [] else [cs[0].centroid] + Centroids(cs[1..])
  }

  /** `detection_area`: the bounding box of the corner marks, and the marks. */
  datatype DetectionArea = DetectionArea(xMin: int, yMin: int, xMax: int, yMax: int, corners: seq<Pt>)

  predicate Inside(a: DetectionArea, p: Pt)
  {
    a.xMin <= p.x <= a.xMax && a.yMin <= p.y <= a.yMax
  }

  /** The bounding box of the corners: it holds every corner, and each of its four sides
      touches one. */
  function BoundingBox(corners: seq<Pt>): (r: DetectionArea)
    requires |corners| > 0
    ensures r.corners == corners
    ensures r.xMin <= r.xMax && r.yMin <= r.yMax
    ensures forall i :: 0 <= i < |corners| ==> Inside(r, corners[i])
    ensures exists i :: 0 <= i < |corners| && corners[i].x == r.xMin
    ensures exists i :: 0 <= i < |corners| && corners[i].x == r.xMax
    ensures exists i :: 0 <= i < |corners| && corners[i].y == r.yMin
    ensures exists i :: 0 <= i < |corners| && corners[i].y == r.yMax
  {
    var xs := Xs(corners);
    var ys := Ys(corners);
    DetectionArea(SeqMin(xs), SeqMin(ys), SeqMax(xs), SeqMax(ys), corners)
  }

  const CornerCount := 4

  /** `corners` are the centroids of the first four of `sorted`, in order. */
  predicate CentroidsOfFirst(sorted: seq<Contour>, corners: seq<Pt>)
  {
    |sorted| >= CornerCount && |corners| == CornerCount
    && forall i :: 0 <= i < CornerCount ==> corners[i] == sorted[i].centroid
  }

  /** The outcome of `detect_red_corners` and the detector's area afterwards. */
  datatype CornerResult = CornerResult(found: bool, corners: seq<Pt>, area: Option<DetectionArea>)

  /** `detect_red_corners`: the four largest candidates (stable order on ties) make the new
      area; with fewer than four the previous area stays. */
  function DetectRedCorners(previous: Option<DetectionArea>, contours: seq<Contour>, cfg: Config): (r: CornerResult)
    ensures r.found <==> |CornerCandidates(contours, cfg.minCornerArea)| >= CornerCount
    ensures !r.found ==> r.corners == [] && r.area == previous
    ensures r.found ==> |r.corners| == CornerCount && r.area == Some(BoundingBox(r.corners))
    ensures r.found ==> CentroidsOfFirst(SortDesc(CornerCandidates(contours, cfg.minCornerArea), Area), r.corners)
  {
    var sorted := SortDesc(CornerCandidates(contours, cfg.minCornerArea), Area);
    if |sorted| >= CornerCount then
      var corners := Centroids(sorted[..CornerCount]);
      CornerResult(true, corners, Some(BoundingBox(corners)))
    else CornerResult(false, [], previous)
  }

  /** The corners are the largest candidates: no candidate left out is larger than a kept one. */
  lemma {:induction false} CornersAreLargest(contours: seq<Contour>, cfg: Config)
    ensures var sorted := SortDesc(CornerCandidates(contours, cfg.minCornerArea), Area);
      forall i, j :: 0 <= i < CornerCount <= j < |sorted| ==> sorted[j].area <= sorted[i].area
    ensures var sorted := SortDesc(CornerCandidates(contours, cfg.minCornerArea), Area);
      forall i :: 0 <= i < |sorted| ==> sorted[i] in contours && sorted[i].area > cfg.minCornerArea
  {
    var cands := CornerCandidates(contours, cfg.minCornerArea);
    var sorted := SortDesc(cands, Area);
    forall i | 0 <= i < |sorted| ensures sorted[i] in contours && sorted[i].area > cfg.minCornerArea {
      assert sorted[i] in multiset(cands);
    }
  }

  /** A blob found inside the area's window, with the HSV sample at its centroid. */
  datatype AreaBlob = AreaBlob(centroid: Pt, area: real, m00: real, sample: Hsv)

  datatype Detection = Detection(position: Pt, hsv: Hsv, area: real, color: ColorClass)

  /** The blobs `detect_colors_in_area` reports: larger than the minimum colour area and
      with a non-zero zeroth moment. */
  function KeepBlob(cfg: Config): (r: AreaBlob -> bool)
    ensures forall b :: r(b) <==> b.area > cfg.minColorArea && b.m00 != 0.0
  {
    (b: AreaBlob) => b.area > cfg.minColorArea && b.m00 != 0.0
  }

  /** `d` reports blob `b` of area `a`. */
  predicate Reports(a: DetectionArea, cfg: Config, d: Detection, b: AreaBlob)
  {
    b.area > cfg.minColorArea && b.m00 != 0.0 && d.area == b.area && d.hsv == b.sample
    && d.position == Pt(a.xMin + b.centroid.x, a.yMin + b.centroid.y)
    && d.color == Classify(b.sample.h, b.sample.s, b.sample.v)
  }

  /** `detect_colors_in_area`: nothing without an area; otherwise one report per kept blob,
      in the contours' order, its window-relative centroid shifted by the area's top-left
      corner. */
  function ColorsInArea(area: Option<DetectionArea>, blobs: seq<AreaBlob>, cfg: Config): (r: seq<Detection>)
    ensures area.None? ==> r == []
    ensures |r| <= |blobs|
    ensures area.Some? ==> var ks := IndicesWhere(blobs, KeepBlob(cfg));
      |r| == |ks| && forall i :: 0 <= i < |r| ==> Reports(area.value, cfg, r[i], blobs[ks[i]])
    decreases |blobs|
  {
    if area.None? || |blobs| == 0 then []
    else
      var n := |blobs| - 1;
      var prev := ColorsInArea(area, blobs[..n], cfg);
      assert forall i :: 0 <= i < n ==> blobs[..n][i] == blobs[i];
      var b := blobs[n];
      if b.area > cfg.minColorArea && b.m00 != 0.0 then
        prev + [Detection(Pt(area.value.xMin + b.centroid.x, area.value.yMin + b.centroid.y), b.sample, b.area,
                          Classify(b.sample.h, b.sample.s, b.sample.v))]
      else prev
  }

  /** Each report comes from one kept blob, and each kept blob is reported: its position is
      that blob's centroid offset by the area's corner, and its class is that of the blob's
      sample. */
  lemma {:induction false} ColorsInAreaOffsets(a: DetectionArea, blobs: seq<AreaBlob>, cfg: Config)
    ensures forall d :: d in ColorsInArea(Some(a), blobs, cfg) ==> exists b :: b in blobs && Reports(a, cfg, d, b)
    ensures forall j :: 0 <= j < |blobs| && blobs[j].area > cfg.minColorArea && blobs[j].m00 != 0.0 ==>
      exists d :: d in ColorsInArea(Some(a), blobs, cfg) && Reports(a, cfg, d, blobs[j])
  {
    var r := ColorsInArea(Some(a), blobs, cfg);
    var ks := IndicesWhere(blobs, KeepBlob(cfg));
    forall d | d in r ensures exists b :: b in blobs && Reports(a, cfg, d, b) {
      var i :| 0 <= i < |r| && r[i] == d;
      assert Reports(a, cfg, d, blobs[ks[i]]);
    }
    forall j | 0 <= j < |blobs| && blobs[j].area > cfg.minColorArea && blobs[j].m00 != 0.0
      ensures exists d :: d in r && Reports(a, cfg, d, blobs[j])
    {
      assert KeepBlob(cfg)(blobs[j]);
      var i :| 0 <= i < |ks| && ks[i] == j;
      assert Reports(a, cfg, r[i], blobs[j]);
    }
  }
}
