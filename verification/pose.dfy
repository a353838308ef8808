/** Single-vehicle pose from two colour marks: the Python detector (src/Kamera.py), the C++
    per-vehicle detector (src/Vehicle.cpp) and the simulation's car record (src/auto.cpp).
    Each takes the largest blob of a mask as the mark, and the heading runs from the rear
    (identification) mark to the front mark. */
module Pose {
  import opened Wrappers
  import opened Geometry

  /** A contour of a colour mask: its area, its zeroth moment and its centroid. */
  datatype Blob = Blob(area: real, m00: real, centroid: RPt)

  /** The first blob of largest area (Python's `max(…, key=cv2.contourArea)`). */
  function FirstLargest(cs: seq<Blob>): (r: nat)
    requires |cs| > 0
    ensures r < |cs|
    ensures forall j :: 0 <= j < |cs| ==> cs[j].area <= cs[r].area
    ensures forall j :: 0 <= j < r ==> cs[j].area < cs[r].area
    decreases |cs|
  {
    if |cs| == 1 then 0
    else
      var n := |cs| - 1;
      var k := FirstLargest(cs[..n]);
      assert forall j :: 0 <= j < n ==> cs[..n][j] == cs[j];
      if cs[n].area > cs[k].area then n else k
  }

  // ---------------------------------------------------------------------------------------
  // src/Kamera.py

  const KameraMinArea := 200.0

  /** One mark of `get_car_detection_data`: the largest contour's truncated centroid, when
      its area exceeds 200 and its moment is non-zero. */
  function KameraMark(cs: seq<Blob>): (r: Option<Pt>)
    ensures r.Some? ==> |cs| > 0 && cs[FirstLargest(cs)].area > KameraMinArea
    ensures r.Some? ==> r.value == Pt(TruncReal(cs[FirstLargest(cs)].centroid.x), TruncReal(cs[FirstLargest(cs)].centroid.y))
    ensures |cs| > 0 && cs[FirstLargest(cs)].area > KameraMinArea && cs[FirstLargest(cs)].m00 != 0.0 ==> r.Some?
  {
    if |cs| == 0 then None
    else
      var b := cs[FirstLargest(cs)];
      if b.area > KameraMinArea && b.m00 != 0.0 then Some(Pt(TruncReal(b.centroid.x), TruncReal(b.centroid.y)))
      else None
  }

  /** The result of `get_car_detection_data`; `distSq` is the square of `distance`. */
  datatype CarData = CarData(red: Option<Pt>, yellow: Option<Pt>, angle: Option<real>, distSq: Option<nat>)

  const NoCarData := CarData(None, None, None, None)

  /** `get_car_detection_data` given whether the camera delivered a frame and the contours
      of the red (rear) and yellow (front) masks. */
  function CarDetectionData(atan2: Atan2Deg, frameOk: bool, red: seq<Blob>, yellow: seq<Blob>): (r: CarData)
    requires Atan2Range(atan2)
    ensures !frameOk ==> r == NoCarData
    ensures r.angle.Some? <==> r.red.Some? && r.yellow.Some?
    ensures r.distSq.Some? <==> r.angle.Some?
    ensures r.angle.Some? ==> 0.0 <= r.angle.value < 360.0
    ensures r.angle.Some? ==> (r.distSq.value == 0 <==> r.red.value == r.yellow.value)
    ensures frameOk ==> r.red == KameraMark(red) && r.yellow == KameraMark(yellow)
    ensures r.angle.Some? ==> var dx := r.yellow.value.x - r.red.value.x; var dy := r.yellow.value.y - r.red.value.y;
      r.angle.value - atan2(dx as real, -dy as real) in {0.0, 360.0} && r.distSq.value == dx * dx + dy * dy
  {
    if !frameOk then NoCarData
    else
      var rc := KameraMark(red);
      var yc := KameraMark(yellow);
      if rc.Some? && yc.Some? then
        CarData(rc, yc, Some(Heading(atan2, ToReal(rc.value), ToReal(yc.value))), Some(SqDist(yc.value, rc.value)))
      else CarData(rc, yc, None, None)
  }

  /** `get_red_object_coordinates`: the red mark as a 30-by-30 box, or nothing. */
  function RedObjectCoordinates(d: CarData): (r: seq<(int, int, int, int)>)
    ensures |r| <= 1
    ensures |r| == 1 <==> d.red.Some?
    ensures |r| == 1 ==> r[0] == (d.red.value.x, d.red.value.y, 30, 30)
  {
    if d.red.Some? then [(d.red.value.x, d.red.value.y, 30, 30)] else []
  }

  // ---------------------------------------------------------------------------------------
  // src/Vehicle.cpp

  const VehicleMinArea := 50.0
  const NotFound := RPt(-1.0, -1.0)

  /** `Vehicle::find_color_center`: the loop starts from area 0 and index 0 and moves on a
      strictly larger area; the centroid is reported when that area exceeds 50. */
  method FindColorCenter(cs: seq<Blob>) returns (r: RPt)
    ensures (exists i :: 0 <= i < |cs| && cs[i].area > VehicleMinArea) ==> r == cs[FirstLargest(cs)].centroid
    ensures (forall i :: 0 <= i < |cs| ==> cs[i].area <= VehicleMinArea) ==> r == NotFound && !IsValidDetection(r)
  {
    if |cs| == 0 {
      return NotFound;
    }
    var maxArea := 0.0;
    var maxIndex := 0;
    var i := 0;
    while i < |cs|
      invariant 0 <= i <= |cs| && 0 <= maxIndex < |cs|
      invariant maxArea >= 0.0
      invariant forall j :: 0 <= j < i ==> cs[j].area <= maxArea
      invariant maxArea > 0.0 ==> maxIndex < i && maxArea == cs[maxIndex].area && maxIndex == FirstLargest(cs[..i])
      invariant maxArea == 0.0 ==> maxIndex == 0
    {
      if cs[i].area > maxArea {
        maxArea := cs[i].area;
        maxIndex := i;
      }
      FirstLargestStep(cs, i);
      i := i + 1;
    }
    assert cs[..i] == cs;
    if maxArea > VehicleMinArea {
      return cs[maxIndex].centroid;
    }
    return NotFound;
  }

  /** Extending the prefix by one blob moves the first largest only to a strictly larger one. */
  lemma {:induction false} FirstLargestStep(cs: seq<Blob>, i: nat)
    requires i < |cs|
    ensures i > 0 && cs[i].area <= cs[FirstLargest(cs[..i])].area ==> FirstLargest(cs[..i + 1]) == FirstLargest(cs[..i])
    ensures i > 0 && cs[i].area > cs[FirstLargest(cs[..i])].area ==> FirstLargest(cs[..i + 1]) == i
    ensures i == 0 ==> FirstLargest(cs[..1]) == 0
  {
    if i > 0 {
      assert cs[..i + 1][..i] == cs[..i];
    }
  }

  /** `Vehicle::is_valid_detection`: the sentinel (-1, -1) is rejected. */
  predicate IsValidDetection(p: RPt)
  {
    p.x >= 0.0 && p.y >= 0.0
  }

  /** `VehicleDetectionData`; `distSq` is the square of `distance_pixels`. */
  datatype VehicleData = VehicleData(
    frontPos: RPt, rearPos: RPt, hasFront: bool, hasRear: bool, hasAngle: bool,
    angle: real, distSq: real, name: string, frontColor: string, rearColor: string)

  /** `Vehicle::detect` given the located front and rear centres. */
  function Detect(atan2: Atan2Deg, name: string, frontColor: string, rearColor: string, front: RPt, rear: RPt): (r: VehicleData)
    requires Atan2Range(atan2)
    ensures r.name == name && r.frontColor == frontColor && r.rearColor == rearColor
    ensures r.hasFront == IsValidDetection(front) && r.hasRear == IsValidDetection(rear)
    ensures r.hasAngle <==> r.hasFront && r.hasRear
    ensures r.hasAngle ==> 0.0 <= r.angle < 360.0 && r.distSq == SqDistR(front, rear)
    ensures !r.hasAngle ==> r.angle == 0.0 && r.distSq == 0.0
    ensures r.frontPos == front && r.rearPos == rear
    ensures r.hasAngle ==> r.angle == CalculateAngle(atan2, front, rear)
  {
    var hasFront := IsValidDetection(front);
    var hasRear := IsValidDetection(rear);
    if hasFront && hasRear then
      VehicleData(front, rear, true, true, true, CalculateAngle(atan2, front, rear), SqDistR(front, rear), name, frontColor, rearColor)
    else
      VehicleData(front, rear, hasFront, hasRear, false, 0.0, 0.0, name, frontColor, rearColor)
  }

  /** `calculate_angle(front, rear)` of src/Vehicle.cpp and src/MultiVehicleKamera.py. */
  function CalculateAngle(atan2: Atan2Deg, front: RPt, rear: RPt): (r: real)
    requires Atan2Range(atan2)
    ensures 0.0 <= r < 360.0
    ensures r - atan2(front.x - rear.x, -(front.y - rear.y)) in {0.0, 360.0}
  {
    Heading(atan2, rear, front)
  }

  // ---------------------------------------------------------------------------------------
  // src/auto.cpp

  /** An `Auto`: identification (rear) point, front point, centre, direction, validity, id. */
  datatype Auto = Auto(idPoint: RPt, frontPoint: RPt, center: RPt, direction: real, valid: bool, id: int)

  /** The default `Auto()`. */
  const DefaultAuto := Auto(RPt(0.0, 0.0), RPt(0.0, 0.0), RPt(0.0, 0.0), 0.0, false, 0)

  /** `Auto::nextId` starts at 1. */
  const FirstId := 1

  /** `calculateCenterAndDirection`. */
  function WithPose(atan2: Atan2Deg, a: Auto): (r: Auto)
    requires Atan2Range(atan2)
    ensures r.idPoint == a.idPoint && r.frontPoint == a.frontPoint && r.valid == a.valid && r.id == a.id
    ensures SqDistR(r.idPoint, r.center) == SqDistR(r.center, r.frontPoint)
    ensures r.center.x + r.center.x == r.idPoint.x + r.frontPoint.x && r.center.y + r.center.y == r.idPoint.y + r.frontPoint.y
    ensures 0.0 <= r.direction < 360.0
    ensures r.direction - atan2(a.frontPoint.x - a.idPoint.x, -(a.frontPoint.y - a.idPoint.y)) in {0.0, 360.0}
  {
    a.(center := Midpoint(a.idPoint, a.frontPoint), direction := Heading(atan2, a.idPoint, a.frontPoint))
  }

  /** The two-point constructor: it takes `nextId` and returns the incremented counter. */
  function NewAuto(atan2: Atan2Deg, nextId: int, idPoint: RPt, frontPoint: RPt): (r: (Auto, int))
    requires Atan2Range(atan2)
    ensures r.0.valid && r.0.id == nextId && r.1 == nextId + 1
    ensures r.0.idPoint == idPoint && r.0.frontPoint == frontPoint
    ensures 0.0 <= r.0.direction < 360.0
    ensures r.0.direction - atan2(frontPoint.x - idPoint.x, -(frontPoint.y - idPoint.y)) in {0.0, 360.0}
    ensures r.0.center == Midpoint(idPoint, frontPoint)
  {
    (WithPose(atan2, Auto(idPoint, frontPoint, RPt(0.0, 0.0), 0.0, true, nextId)), nextId + 1)
  }

  /** `updatePoints`: new points, valid, same id, fresh centre and direction. */
  function UpdatePoints(atan2: Atan2Deg, a: Auto, idPoint: RPt, frontPoint: RPt): (r: Auto)
    requires Atan2Range(atan2)
    ensures r.valid && r.id == a.id
    ensures r.idPoint == idPoint && r.frontPoint == frontPoint
    ensures 0.0 <= r.direction < 360.0
    ensures r.direction - atan2(frontPoint.x - idPoint.x, -(frontPoint.y - idPoint.y)) in {0.0, 360.0}
    ensures r.center == Midpoint(idPoint, frontPoint)
  {
    WithPose(atan2, a.(idPoint := idPoint, frontPoint := frontPoint, valid := true))
  }

  /** Updating a constructed car gives the car the constructor would have built from the
      new points under the same id. */
  lemma {:induction false} UpdateIsConstruction(atan2: Atan2Deg, nextId: int, idPoint: RPt, frontPoint: RPt, idPoint': RPt, frontPoint': RPt)
    requires Atan2Range(atan2)
    ensures UpdatePoints(atan2, NewAuto(atan2, nextId, idPoint, frontPoint).0, idPoint', frontPoint')
            == NewAuto(atan2, nextId, idPoint', frontPoint').0
  {
  }

  /** Constructing cars one after another from the counter. */
  function ConstructAll(atan2: Atan2Deg, nextId: int, points: seq<(RPt, RPt)>): (r: (seq<Auto>, int))
    requires Atan2Range(atan2)
    ensures |r.0| == |points| && r.1 == nextId + |points|
    ensures forall i :: 0 <= i < |points| ==> r.0[i].id == nextId + i && r.0[i].valid
    decreases |points|
  {
    if |points| == 0 then ([], nextId)
    else
      var (a, next) := NewAuto(atan2, nextId, points[0].0, points[0].1);
      var (rest, last) := ConstructAll(atan2, next, points[1..]);
      ([a] + rest, last)
  }

  /** Ids handed out by the constructor strictly increase, so no two cars share one, and no
      constructed car has the default car's id 0 when the counter starts at 1. */
  lemma {:induction false} IdsIncrease(atan2: Atan2Deg, points: seq<(RPt, RPt)>)
    requires Atan2Range(atan2)
    ensures var autos := ConstructAll(atan2, FirstId, points).0;
      forall i, j :: 0 <= i < j < |autos| ==> autos[i].id < autos[j].id
    ensures var autos := ConstructAll(atan2, FirstId, points).0;
      forall i :: 0 <= i < |autos| ==> autos[i].id != DefaultAuto.id
  {
  }
}
