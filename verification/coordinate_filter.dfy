/** The temporal point filter (include/coordinate_filter.h, src/coordinate_filter.cpp):
    detections are matched to the nearest stored point of the same colour, far jumps count
    as outliers, points time out and are dropped, and only points that have existed long
    enough are reported. Clock readings are a parameter `now` in milliseconds. */
module CoordinateFilter {
  import opened Wrappers
  import opened Geometry

  /** `FilteredPoint`; times are in milliseconds of the steady clock. */
  datatype FilteredPoint = FilteredPoint(
    point: RPt, lastUpdate: int, creationTime: int, isValid: bool, isStable: bool,
    color: string, consecutiveOutliers: int, stabilityRequirement: real)

  const DefaultStabilityRequirement := 0.5

  /** `FilteredPoint()`. */
  const DefaultFilteredPoint := FilteredPoint(RPt(0.0, 0.0), 0, 0, false, false, "", 0, DefaultStabilityRequirement)

  /** `FilteredPoint(p, c)` created at time `now`. */
  function NewFilteredPoint(p: RPt, c: string, now: int): (r: FilteredPoint)
    ensures r.point == p && r.color == c && r.isValid && !r.isStable
    ensures r.consecutiveOutliers == 0 && r.stabilityRequirement == DefaultStabilityRequirement
    ensures r.lastUpdate == now && r.creationTime == now
  {
    FilteredPoint(p, now, now, true, false, c, 0, DefaultStabilityRequirement)
  }

  /** `CoordinateFilter`: the stored points and the three settings. */
  datatype Filter = Filter(points: seq<FilteredPoint>, outlierThreshold: real, validityTimeout: real, maxConsecutiveOutliers: int)

  /** The constructor with its default arguments. */
  function NewFilter(threshold: real := 80.0, timeout: real := 3.0, maxOutliers: int := 3): (r: Filter)
    ensures r.points == [] && r.outlierThreshold == threshold && r.validityTimeout == timeout
    ensures r.maxConsecutiveOutliers == maxOutliers
  {
    Filter([], threshold, timeout, maxOutliers)
  }

  /** The setters change their one setting and nothing else. */
  function SetOutlierThreshold(f: Filter, threshold: real): (r: Filter)
    ensures r.outlierThreshold == threshold
    ensures r.points == f.points && r.validityTimeout == f.validityTimeout && r.maxConsecutiveOutliers == f.maxConsecutiveOutliers
  {
    f.(outlierThreshold := threshold)
  }

  function SetValidityTimeout(f: Filter, timeout: real): (r: Filter)
    ensures r.validityTimeout == timeout
    ensures r.points == f.points && r.outlierThreshold == f.outlierThreshold && r.maxConsecutiveOutliers == f.maxConsecutiveOutliers
  {
    f.(validityTimeout := timeout)
  }

  /** The defaults are threshold 80, timeout 3 and 3 outliers, and a setting reads back as set. */
  lemma {:induction false} DefaultsAndSetters(threshold: real, timeout: real)
    ensures NewFilter().outlierThreshold == 80.0 && NewFilter().validityTimeout == 3.0 && NewFilter().maxConsecutiveOutliers == 3
    ensures SetOutlierThreshold(NewFilter(), threshold).outlierThreshold == threshold
    ensures SetValidityTimeout(SetOutlierThreshold(NewFilter(), threshold), timeout).outlierThreshold == threshold
    ensures SetValidityTimeout(NewFilter(), timeout).validityTimeout == timeout
  {
  }

  function PointDistSq(p: RPt, fp: FilteredPoint): (r: real)
    ensures r >= 0.0
  {
    SqDistR(p, fp.point)
  }

  /** `findClosestExistingPoint`: the nearest stored point of the colour strictly closer than
      the threshold, the first one on ties. Validity is not looked at. */
  function FindClosest(pts: seq<FilteredPoint>, p: RPt, c: string, threshold: real): (r: Option<nat>)
    ensures r.None? <==> forall j :: 0 <= j < |pts| && pts[j].color == c ==> !DistBelow(PointDistSq(p, pts[j]), threshold)
    ensures r.Some? ==> r.value < |pts| && pts[r.value].color == c && DistBelow(PointDistSq(p, pts[r.value]), threshold)
    ensures r.Some? ==> forall j :: 0 <= j < |pts| && pts[j].color == c ==> PointDistSq(p, pts[r.value]) <= PointDistSq(p, pts[j])
    ensures r.Some? ==> forall j :: 0 <= j < r.value && pts[j].color == c ==> PointDistSq(p, pts[r.value]) < PointDistSq(p, pts[j])
    decreases |pts|
  {
    if |pts| == 0 then None
    else
      var n := |pts| - 1;
      var prev := FindClosest(pts[..n], p, c, threshold);
      assert forall j :: 0 <= j < n ==> pts[..n][j] == pts[j];
      var d := PointDistSq(p, pts[n]);
      if pts[n].color == c && (if prev.None? then DistBelow(d, threshold) else d < PointDistSq(p, pts[prev.value])) then Some(n)
      else prev
  }

  /** `isOutlier`: farther than the threshold. */
  predicate IsOutlier(f: Filter, p: RPt, fp: FilteredPoint)
  {
    DistAbove(PointDistSq(p, fp), f.outlierThreshold)
  }

  /** The jump `updatePoint` treats as teleportation. */
  const MaxMovementPerFrame := 150.0

  /** One more outlier; too many make the point invalid. */
  function CountOutlier(f: Filter, fp: FilteredPoint): (r: FilteredPoint)
    ensures r.consecutiveOutliers == fp.consecutiveOutliers + 1
    ensures r.isValid == (fp.isValid && r.consecutiveOutliers < f.maxConsecutiveOutliers)
    ensures r.point == fp.point && r.lastUpdate == fp.lastUpdate && r.color == fp.color && r.isStable == fp.isStable
  {
    var q := fp.(consecutiveOutliers := fp.consecutiveOutliers + 1);
    if q.consecutiveOutliers >= f.maxConsecutiveOutliers then q.(isValid := false) else q
  }

  /** `updatePoint` at time `now`. */
  function UpdatePoint(f: Filter, p: RPt, c: string, now: int): (r: Filter)
    ensures r.outlierThreshold == f.outlierThreshold && r.validityTimeout == f.validityTimeout
    ensures r.maxConsecutiveOutliers == f.maxConsecutiveOutliers
    ensures FindClosest(f.points, p, c, f.outlierThreshold).None? ==> r.points == f.points + [NewFilteredPoint(p, c, now)]
    ensures FindClosest(f.points, p, c, f.outlierThreshold).Some? ==>
      var k := FindClosest(f.points, p, c, f.outlierThreshold).value;
      |r.points| == |f.points| && (forall j :: 0 <= j < |f.points| && j != k ==> r.points[j] == f.points[j])
      && (DistAbove(PointDistSq(p, f.points[k]), MaxMovementPerFrame) ==> r.points[k] == CountOutlier(f, f.points[k]))
      && (!DistAbove(PointDistSq(p, f.points[k]), MaxMovementPerFrame) ==>
            r.points[k] == f.points[k].(point := p, lastUpdate := now, consecutiveOutliers := 0, isValid := true))
  {
    match FindClosest(f.points, p, c, f.outlierThreshold)
    case None => f.(points := f.points + [NewFilteredPoint(p, c, now)])
    case Some(k) =>
      var fp := f.points[k];
      var d := PointDistSq(p, fp);
      var fp' :=
        if DistAbove(d, MaxMovementPerFrame) then CountOutlier(f, fp)
        else if IsOutlier(f, p, fp) then CountOutlier(f, fp)
        else fp.(point := p, lastUpdate := now, consecutiveOutliers := 0, isValid := true);
      NeverOutlier(f, p, c);
      f.(points := f.points[k := fp'])
  }

  /** A point found by the closest-point search is never an outlier, so the second outlier
      branch of `updatePoint` cannot be taken. */
  lemma {:induction false} NeverOutlier(f: Filter, p: RPt, c: string)
    ensures FindClosest(f.points, p, c, f.outlierThreshold).Some? ==>
      !IsOutlier(f, p, f.points[FindClosest(f.points, p, c, f.outlierThreshold).value])
  {
    var r := FindClosest(f.points, p, c, f.outlierThreshold);
    if r.Some? {
      BelowNotAbove(PointDistSq(p, f.points[r.value]), f.outlierThreshold);
    }
  }

  /** With a threshold of at most 150 the teleport branch cannot be taken either: every
      matched detection is accepted, and no update ever counts an outlier. */
  lemma {:induction false} MatchesAlwaysAccepted(f: Filter, p: RPt, c: string, now: int)
    requires f.outlierThreshold <= MaxMovementPerFrame
    ensures FindClosest(f.points, p, c, f.outlierThreshold).Some? ==>
      var k := FindClosest(f.points, p, c, f.outlierThreshold).value;
      UpdatePoint(f, p, c, now).points[k].consecutiveOutliers == 0 && UpdatePoint(f, p, c, now).points[k].isValid
  {
    var r := FindClosest(f.points, p, c, f.outlierThreshold);
    if r.Some? {
      var k := r.value;
      var d := PointDistSq(p, f.points[k]);
      WithinThresholdNoJump(d, f.outlierThreshold);
      var u := UpdatePoint(f, p, c, now);
      assert u.points[k] == f.points[k].(point := p, lastUpdate := now, consecutiveOutliers := 0, isValid := true);
    }
  }

  /** Closer than a threshold of at most 150 is no jump. */
  lemma {:induction false} WithinThresholdNoJump(d: real, t: real)
    requires d >= 0.0 && t <= MaxMovementPerFrame && DistBelow(d, t)
    ensures !DistAbove(d, MaxMovementPerFrame)
  {
    assert d < t * t;
    assert t * t <= t * 150.0;
    assert t * 150.0 <= 22500.0;
    assert d <= 22500.0;
  }

  /** The first pass of `removeExpiredPoints`: a valid point not updated for more than the
      timeout becomes invalid. */
  function Expire(fp: FilteredPoint, now: int, timeout: real): (r: FilteredPoint)
    ensures r == fp || r == fp.(isValid := false)
    ensures r.isValid <==> fp.isValid && !((now - fp.lastUpdate) as real > timeout * 1000.0)
  {
    if fp.isValid && (now - fp.lastUpdate) as real > timeout * 1000.0 then fp.(isValid := false) else fp
  }

  /** The removal test of `removeExpiredPoints`: invalid and idle for more than twice the
      timeout, counted in whole seconds. */
  predicate Removed(fp: FilteredPoint, now: int, timeout: real)
  {
    !fp.isValid && TruncDiv(now - fp.lastUpdate, 1000) as real > timeout * 2.0
  }

  function ExpireAndRemove(pts: seq<FilteredPoint>, now: int, timeout: real): (r: seq<FilteredPoint>)
    ensures |r| <= |pts|
    ensures forall x :: x in r ==> !Removed(x, now, timeout)
    ensures forall x :: x in r ==> exists i :: 0 <= i < |pts| && x == Expire(pts[i], now, timeout)
    ensures forall i :: 0 <= i < |pts| && !Removed(Expire(pts[i], now, timeout), now, timeout) ==> Expire(pts[i], now, timeout) in r
  {
    if |pts| == 0 then []
    else
      var rest := ExpireAndRemove(pts[1..], now, timeout);
      assert forall i :: 1 <= i < |pts| ==> pts[i] == pts[1..][i - 1];
      var x := Expire(pts[0], now, timeout);
      (if Removed(x, now, timeout) then [] else [x]) + rest
  }

  /** `removeExpiredPoints` at time `now`. */
  function RemoveExpiredPoints(f: Filter, now: int): (r: Filter)
    ensures r.outlierThreshold == f.outlierThreshold && r.validityTimeout == f.validityTimeout
    ensures r.maxConsecutiveOutliers == f.maxConsecutiveOutliers
    ensures forall x :: x in r.points ==> !x.isValid ==> TruncDiv(now - x.lastUpdate, 1000) as real <= f.validityTimeout * 2.0
    ensures forall x :: x in r.points ==> x.isValid ==> (now - x.lastUpdate) as real <= f.validityTimeout * 1000.0
    ensures r.points == ExpireAndRemove(f.points, now, f.validityTimeout)
  {
    f.(points := ExpireAndRemove(f.points, now, f.validityTimeout))
  }

  /** `updatePointStability`: a valid, unstable point that has existed for its requirement
      becomes stable; nothing else changes. */
  function Stabilise(fp: FilteredPoint, now: int): (r: FilteredPoint)
    ensures r.isStable <==> fp.isStable || (fp.isValid && (now - fp.creationTime) as real >= fp.stabilityRequirement * 1000.0)
    ensures r.(isStable := fp.isStable) == fp
  {
    if fp.isValid && !fp.isStable && (now - fp.creationTime) as real >= fp.stabilityRequirement * 1000.0 then fp.(isStable := true)
    else fp
  }

  function StabiliseAll(pts: seq<FilteredPoint>, now: int): (r: seq<FilteredPoint>)
    ensures |r| == |pts| && forall i :: 0 <= i < |pts| ==> r[i] == Stabilise(pts[i], now)
  {
    if |pts| == 0 then [] else [Stabilise(pts[0], now)] + StabiliseAll(pts[1..], now)
  }

  /** Stability is only ever switched on. */
  lemma {:induction false} StabilityMonotone(pts: seq<FilteredPoint>, now: int)
    ensures forall i :: 0 <= i < |pts| && pts[i].isStable ==> StabiliseAll(pts, now)[i].isStable
    ensures forall i :: 0 <= i < |pts| ==> StabiliseAll(pts, now)[i].isValid == pts[i].isValid
  {
  }

  /** `getActivePointCount`: the number of valid points. */
  function ActivePointCount(pts: seq<FilteredPoint>): (r: nat)
    ensures r <= |pts|
    ensures r == 0 <==> forall i :: 0 <= i < |pts| ==> !pts[i].isValid
    ensures r == |pts| <==> forall i :: 0 <= i < |pts| ==> pts[i].isValid
    ensures r == |ValidIndices(pts)|
  {
    if |pts| == 0 then 0
    else
      var n := |pts| - 1;
      assert forall i :: 0 <= i < n ==> pts[i] == pts[..n][i];
      assert ValidIndices(pts) == ValidIndices(pts[..n]) + (if pts[n].isValid then {n} else {});
      ActivePointCount(pts[..n]) + (if pts[n].isValid then 1 else 0)
  }

  /** The positions of the valid points. */
  function ValidIndices(pts: seq<FilteredPoint>): set<nat>
  {
    set i | 0 <= i < |pts| && pts[i].isValid
  }

  /** `clearAll`. */
  function ClearAll(f: Filter): (r: Filter)
    ensures ActivePointCount(r.points) == 0 && |r.points| == 0
    ensures r.outlierThreshold == f.outlierThreshold && r.validityTimeout == f.validityTimeout
    ensures r.maxConsecutiveOutliers == f.maxConsecutiveOutliers
  {
    f.(points := [])
  }

  /** The points reported: valid and stable, in stored order. */
  function Reported(pts: seq<FilteredPoint>): (r: seq<RPt>)
    ensures |r| <= |pts|
    ensures forall q :: q in r ==> exists i :: 0 <= i < |pts| && pts[i].isValid && pts[i].isStable && pts[i].point == q
    ensures forall i :: 0 <= i < |pts| && pts[i].isValid && pts[i].isStable ==> pts[i].point in r
  {
    if |pts| == 0 then []
    else
      assert forall i :: 1 <= i < |pts| ==> pts[i] == pts[1..][i - 1];
      (if pts[0].isValid && pts[0].isStable then [pts[0].point] else []) + Reported(pts[1..])
  }

  /** The update loop: the first `n` detections paired with their colours. */
  function UpdateAll(f: Filter, dets: seq<RPt>, colors: seq<string>, n: nat, now: int): (r: Filter)
    requires n <= |dets| && n <= |colors|
    ensures |f.points| <= |r.points| <= |f.points| + n
    ensures r.outlierThreshold == f.outlierThreshold && r.validityTimeout == f.validityTimeout
    ensures r.maxConsecutiveOutliers == f.maxConsecutiveOutliers
  {
    if n == 0 then f else UpdatePoint(UpdateAll(f, dets, colors, n - 1, now), dets[n - 1], colors[n - 1], now)
  }

  /** `filterAndSmooth` at time `now`: the new filter state and the reported points. */
  function FilterAndSmooth(f: Filter, dets: seq<RPt>, colors: seq<string>, now: int): (r: (Filter, seq<RPt>))
    ensures var n := Min(|dets|, |colors|);
      |r.0.points| <= |f.points| + n
    ensures r.1 == Reported(r.0.points)
    ensures forall q :: q in r.1 ==> exists i :: 0 <= i < |r.0.points| && r.0.points[i].isValid && r.0.points[i].isStable && r.0.points[i].point == q
    ensures r.0.outlierThreshold == f.outlierThreshold && r.0.validityTimeout == f.validityTimeout
    ensures var f2 := UpdateAll(RemoveExpiredPoints(f, now), dets, colors, Min(|dets|, |colors|), now);
      r.0 == f2.(points := StabiliseAll(f2.points, now))
  {
    var f1 := RemoveExpiredPoints(f, now);
    var f2 := UpdateAll(f1, dets, colors, Min(|dets|, |colors|), now);
    var f3 := f2.(points := StabiliseAll(f2.points, now));
    (f3, Reported(f3.points))
  }
}
