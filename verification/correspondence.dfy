/** The multi-vehicle detector (src/MultiVehicleKamera.py): orange front marks and one rear
    colour per vehicle are paired greedily, vehicle by vehicle, nearest pair first, and each
    vehicle gets one detection record. Regions are given as records; distances are compared
    through squared integer distances (`sqrt` is monotone, so `d < 200` is `d² < 40000`). */
module Correspondence {
  import opened Wrappers
  import opened Geometry

  datatype VehicleConfig = VehicleConfig(name: string, frontColor: string, rearColor: string)

  const Vehicles: seq<VehicleConfig> := [
    VehicleConfig("Auto-1", "Orange", "Blau"),
    VehicleConfig("Auto-2", "Orange", "Grün"),
    VehicleConfig("Auto-3", "Orange", "Gelb"),
    VehicleConfig("Auto-4", "Orange", "Lila")
  ]

  const MinFrontArea := 100.0
  const MinRearArea := 80.0
  const MaxPairDistSq := 40000

  /** A region found in a colour mask. */
  datatype Region = Region(centroid: Pt, area: real, m00: real)

  /** `find_all_color_centers`: centroids of regions strictly larger than `minArea`. */
  function Centers(regions: seq<Region>, minArea: real): (r: seq<Pt>)
    ensures |r| <= |regions|
    ensures forall p :: p in r <==> exists i :: 0 <= i < |regions| && regions[i].area > minArea && regions[i].m00 != 0.0 && regions[i].centroid == p
  {
    if |regions| == 0 then []
    else
      var rest := Centers(regions[1..], minArea);
      assert forall i :: 1 <= i < |regions| ==> regions[i] == regions[1..][i - 1];
      assert forall i :: 0 <= i < |regions[1..]| ==> regions[1..][i] == regions[i + 1];
      (if regions[0].area > minArea && regions[0].m00 != 0.0 then [regions[0].centroid] else []) + rest
  }

  /** The `rear_colors` map of `find_all_colors`: for each vehicle in order, its rear colour
      mapped to the centres found in that colour's mask, when there are any. */
  function RearMap(vehicles: seq<VehicleConfig>, rearRegions: seq<seq<Region>>): (m: map<string, seq<Pt>>)
    requires |rearRegions| == |vehicles|
    ensures forall c :: c in m ==> |m[c]| > 0
    decreases |vehicles|
  {
    if |vehicles| == 0 then map[]
    else
      var n := |vehicles| - 1;
      var m := RearMap(vehicles[..n], rearRegions[..n]);
      var ps := Centers(rearRegions[n], MinRearArea);
      if |ps| > 0 then m[vehicles[n].rearColor := ps] else m
  }

  /** A colour is in the map exactly when the last vehicle with that rear colour saw it. */
  lemma {:induction false} RearMapKeys(vehicles: seq<VehicleConfig>, rearRegions: seq<seq<Region>>, c: string)
    requires |rearRegions| == |vehicles|
    ensures c in RearMap(vehicles, rearRegions) ==>
      exists i :: 0 <= i < |vehicles| && vehicles[i].rearColor == c && RearMap(vehicles, rearRegions)[c] == Centers(rearRegions[i], MinRearArea)
    ensures (exists i :: 0 <= i < |vehicles| && vehicles[i].rearColor == c && |Centers(rearRegions[i], MinRearArea)| > 0)
            ==> c in RearMap(vehicles, rearRegions)
    decreases |vehicles|
  {
    if |vehicles| > 0 {
      var n := |vehicles| - 1;
      RearMapKeys(vehicles[..n], rearRegions[..n], c);
      assert forall i :: 0 <= i < n ==> vehicles[..n][i] == vehicles[i] && rearRegions[..n][i] == rearRegions[i];
    }
  }

  /** The (front, rear) pairs in the order the nested loops visit them: rear-major. */
  function Row(rear: Pt, fronts: seq<Pt>): (r: seq<(Pt, Pt)>)
    ensures |r| == |fronts| && forall j :: 0 <= j < |fronts| ==> r[j] == (fronts[j], rear)
  {
    if |fronts| == 0 then [] else [(fronts[0], rear)] + Row(rear, fronts[1..])
  }

  function PairList(rears: seq<Pt>, fronts: seq<Pt>): (r: seq<(Pt, Pt)>)
    ensures forall k :: 0 <= k < |r| ==> r[k].0 in fronts && r[k].1 in rears
  {
    if |rears| == 0 then []
    else
      var rest := PairList(rears[1..], fronts);
      assert forall k :: 0 <= k < |rest| ==> rest[k].1 in rears by {
        forall k | 0 <= k < |rest| ensures rest[k].1 in rears {
          assert rest[k].1 in rears[1..];
        }
      }
      Row(rears[0], fronts) + rest
  }

  function PairDist(p: (Pt, Pt)): nat { SqDist(p.0, p.1) }

  /** Pair `k` is the loops' choice: its front is unused, no unused pair is closer, and every
      earlier unused pair is strictly farther. */
  ghost predicate BestIndex(pairs: seq<(Pt, Pt)>, used: set<Pt>, k: int)
  {
    0 <= k < |pairs| && pairs[k].0 !in used
    && (forall j :: 0 <= j < |pairs| && pairs[j].0 !in used ==> PairDist(pairs[k]) <= PairDist(pairs[j]))
    && (forall j :: 0 <= j < k && pairs[j].0 !in used ==> PairDist(pairs[k]) < PairDist(pairs[j]))
  }

  /** The inner loops of `assign_closest_pairs` for one vehicle; -1 when every front is used. */
  method ClosestPair(pairs: seq<(Pt, Pt)>, used: set<Pt>) returns (k: int)
    ensures k == -1 <==> forall j :: 0 <= j < |pairs| ==> pairs[j].0 in used
    ensures k != -1 ==> BestIndex(pairs, used, k)
  {
    k := -1;
    var n := 0;
    while n < |pairs|
      invariant 0 <= n <= |pairs| && -1 <= k < n
      invariant k == -1 <==> forall j :: 0 <= j < n ==> pairs[j].0 in used
      invariant k != -1 ==> BestIndex(pairs[..n], used, k)
    {
      if pairs[n].0 !in used && (k == -1 || PairDist(pairs[n]) < PairDist(pairs[k])) {
        k := n;
      }
      assert pairs[..n + 1][..n] == pairs[..n];
      n := n + 1;
    }
    assert pairs[..n] == pairs;
  }

  /** One entry of `vehicle_assignments`; `distSq` is `None` for an infinite distance. */
  datatype Assignment = Assignment(frontPos: Pt, rearPos: Pt, paired: bool, distSq: Option<nat>)

  const Unassigned := Assignment(Pt(-1, -1), Pt(-1, -1), false, None)

  /** The fronts taken by vehicles before `i`. */
  function UsedBefore(asg: seq<Assignment>, i: nat): set<Pt>
    requires i <= |asg|
  {
    set j | 0 <= j < i && asg[j].paired :: asg[j].frontPos
  }

  /** What `assign_closest_pairs` promises about vehicle `i`. */
  ghost predicate Assigned(vehicles: seq<VehicleConfig>, fronts: seq<Pt>, rears: map<string, seq<Pt>>, asg: seq<Assignment>, i: int)
    requires |asg| == |vehicles| && 0 <= i < |asg|
  {
    var a := asg[i];
    var c := vehicles[i].rearColor;
    if a.paired then
      c in rears && a.rearPos in rears[c] && a.frontPos in fronts && a.frontPos !in UsedBefore(asg, i)
      && a.distSq == Some(SqDist(a.frontPos, a.rearPos)) && SqDist(a.frontPos, a.rearPos) < MaxPairDistSq
      && exists k :: BestIndex(PairList(rears[c], fronts), UsedBefore(asg, i), k) && PairList(rears[c], fronts)[k] == (a.frontPos, a.rearPos)
    else
      a == Unassigned
      && (c in rears ==> forall k :: BestIndex(PairList(rears[c], fronts), UsedBefore(asg, i), k) ==>
                           PairDist(PairList(rears[c], fronts)[k]) >= MaxPairDistSq)
  }

  /** `assign_closest_pairs`, one entry per configured vehicle in configuration order. */
  method AssignClosestPairs(vehicles: seq<VehicleConfig>, fronts: seq<Pt>, rears: map<string, seq<Pt>>)
    returns (asg: seq<Assignment>)
    ensures |asg| == |vehicles|
    ensures forall i :: 0 <= i < |asg| ==> Assigned(vehicles, fronts, rears, asg, i)
    ensures forall i, j :: 0 <= i < j < |asg| && asg[i].paired && asg[j].paired ==> asg[i].frontPos != asg[j].frontPos
  {
    asg := [];
    var used: set<Pt> := {};
    while |asg| < |vehicles|
      invariant |asg| <= |vehicles|
      invariant used == UsedBefore(asg, |asg|)
      invariant forall i :: 0 <= i < |asg| ==> Assigned(vehicles[..|asg|], fronts, rears, asg, i)
      invariant forall i, j :: 0 <= i < j < |asg| && asg[i].paired && asg[j].paired ==> asg[i].frontPos != asg[j].frontPos
      decreases |vehicles| - |asg|
    {
      var i := |asg|;
      var c := vehicles[i].rearColor;
      var a := Unassigned;
      if c in rears {
        var pairs := PairList(rears[c], fronts);
        var k := ClosestPair(pairs, used);
        if k != -1 && PairDist(pairs[k]) < MaxPairDistSq {
          a := Assignment(pairs[k].0, pairs[k].1, true, Some(PairDist(pairs[k])));
        } else if k != -1 {
          forall k' | BestIndex(pairs, used, k') ensures PairDist(pairs[k']) >= MaxPairDistSq {
            BestIndexDistance(pairs, used, k, k');
          }
        }
      }
      var asg' := asg + [a];
      PrefixKeepsAssigned(vehicles, vehicles[..i + 1], fronts, rears, asg, asg');
      UsedBeforeStep(asg, asg');
      if a.paired {
        used := used + {a.frontPos};
      }
      asg := asg';
    }
    assert vehicles[..|asg|] == vehicles;
  }

  /** Two choices agree on the distance. */
  lemma {:induction false} BestIndexDistance(pairs: seq<(Pt, Pt)>, used: set<Pt>, k: int, k': int)
    requires BestIndex(pairs, used, k) && BestIndex(pairs, used, k')
    ensures PairDist(pairs[k]) == PairDist(pairs[k'])
  {
  }

  /** Appending one entry keeps the earlier entries' promises. */
  lemma {:induction false} PrefixKeepsAssigned(vehicles: seq<VehicleConfig>, vehicles': seq<VehicleConfig>, fronts: seq<Pt>,
                                               rears: map<string, seq<Pt>>, asg: seq<Assignment>, asg': seq<Assignment>)
    requires |asg| < |vehicles| && vehicles' == vehicles[..|asg| + 1]
    requires |asg'| == |asg| + 1 && asg'[..|asg|] == asg
    requires forall i :: 0 <= i < |asg| ==> Assigned(vehicles[..|asg|], fronts, rears, asg, i)
    ensures forall i :: 0 <= i < |asg| ==> Assigned(vehicles', fronts, rears, asg', i)
  {
    forall i | 0 <= i < |asg| ensures Assigned(vehicles', fronts, rears, asg', i) {
      assert asg'[i] == asg'[..|asg|][i] == asg[i];
      assert vehicles'[i] == vehicles[..|asg|][i];
      assert UsedBefore(asg', i) == UsedBefore(asg, i) by {
        assert forall j :: 0 <= j < i ==> asg'[j] == asg'[..|asg|][j] == asg[j];
      }
      assert Assigned(vehicles[..|asg|], fronts, rears, asg, i);
    }
  }

  /** One more entry adds its front, if it took one, to the used fronts. */
  lemma {:induction false} UsedBeforeStep(asg: seq<Assignment>, asg': seq<Assignment>)
    requires |asg'| == |asg| + 1 && asg'[..|asg|] == asg
    ensures UsedBefore(asg', |asg|) == UsedBefore(asg, |asg|)
    ensures UsedBefore(asg', |asg| + 1) == UsedBefore(asg, |asg|) + (if asg'[|asg|].paired then {asg'[|asg|].frontPos} else {})
  {
    assert forall j :: 0 <= j < |asg| ==> asg'[j] == asg'[..|asg|][j] == asg[j];
  }

  /** One entry of `detect_all_vehicles`' result. `distSq` is the square of `distance_pixels`,
      `None` standing for an infinite distance. */
  datatype VehicleDetection = VehicleDetection(
    name: string, frontColor: string, rearColor: string,
    frontPos: RPt, rearPos: RPt, hasFront: bool, hasRear: bool,
    hasAngle: bool, angle: real, distSq: Option<nat>)

  /** `calculate_angle(front, rear)`: the heading from the rear mark to the front mark, with 0
      pointing up the image. */
  function VehicleAngle(atan2: Atan2Deg, front: Pt, rear: Pt): (r: real)
    requires Atan2Range(atan2)
    ensures 0.0 <= r < 360.0
    ensures r - atan2((front.x - rear.x) as real, -(front.y - rear.y) as real) in {0.0, 360.0}
  {
    Heading(atan2, ToReal(rear), ToReal(front))
  }

  /** The record for one vehicle built from its assignment. */
  function Record(atan2: Atan2Deg, v: VehicleConfig, a: Assignment): (r: VehicleDetection)
    requires Atan2Range(atan2)
    ensures r.name == v.name && r.frontColor == v.frontColor && r.rearColor == v.rearColor
    ensures r.hasAngle <==> a.paired
    ensures r.hasFront == r.hasRear == a.paired
    ensures r.hasAngle ==> 0.0 <= r.angle < 360.0
    ensures r.hasAngle ==> r.angle == VehicleAngle(atan2, a.frontPos, a.rearPos)
    ensures !r.hasAngle ==> r.angle == 0.0
    ensures r.frontPos == ToReal(a.frontPos) && r.rearPos == ToReal(a.rearPos) && r.distSq == a.distSq
  {
    VehicleDetection(v.name, v.frontColor, v.rearColor, ToReal(a.frontPos), ToReal(a.rearPos),
                     a.paired, a.paired, a.paired,
                     if a.paired then VehicleAngle(atan2, a.frontPos, a.rearPos) else 0.0, a.distSq)
  }

  /** The result formatting of `detect_all_vehicles`: one record per vehicle, in order. */
  function Records(atan2: Atan2Deg, vehicles: seq<VehicleConfig>, asg: seq<Assignment>): (r: seq<VehicleDetection>)
    requires Atan2Range(atan2) && |asg| == |vehicles|
    ensures |r| == |vehicles|
    ensures forall i :: 0 <= i < |r| ==> r[i] == Record(atan2, vehicles[i], asg[i])
  {
    if |vehicles| == 0 then [] else [Record(atan2, vehicles[0], asg[0])] + Records(atan2, vehicles[1..], asg[1..])
  }

  /** `detect_all_vehicles` on one frame, given the regions found in the front mask and in
      each vehicle's rear mask. */
  method DetectAllVehicles(atan2: Atan2Deg, vehicles: seq<VehicleConfig>, frontRegions: seq<Region>, rearRegions: seq<seq<Region>>)
    returns (r: seq<VehicleDetection>)
    requires Atan2Range(atan2) && |rearRegions| == |vehicles|
    ensures |r| == |vehicles|
    ensures forall i :: 0 <= i < |r| ==> r[i].name == vehicles[i].name && r[i].rearColor == vehicles[i].rearColor
    ensures forall i :: 0 <= i < |r| && r[i].hasAngle ==>
      0.0 <= r[i].angle < 360.0 && r[i].distSq.Some? && r[i].distSq.value < MaxPairDistSq
    ensures forall i :: 0 <= i < |r| && r[i].hasAngle ==> vehicles[i].rearColor in RearMap(vehicles, rearRegions)
    ensures forall i, j :: 0 <= i < j < |r| && r[i].hasAngle && r[j].hasAngle ==> r[i].frontPos != r[j].frontPos
    ensures exists asg :: ClosestAssignment(vehicles, Centers(frontRegions, MinFrontArea), RearMap(vehicles, rearRegions), asg)
                          && r == Records(atan2, vehicles, asg)
  {
    var fronts := Centers(frontRegions, MinFrontArea);
    var rears := RearMap(vehicles, rearRegions);
    var asg := AssignClosestPairs(vehicles, fronts, rears);
    r := Records(atan2, vehicles, asg);
    PairedRecordsClose(atan2, vehicles, fronts, rears, asg);
    PairedRecordsDistinct(atan2, vehicles, asg);
    assert ClosestAssignment(vehicles, fronts, rears, asg);
  }

  /** `asg` is what `assign_closest_pairs` makes of the vehicles, fronts and rear map. */
  ghost predicate ClosestAssignment(vehicles: seq<VehicleConfig>, fronts: seq<Pt>, rears: map<string, seq<Pt>>, asg: seq<Assignment>)
  {
    |asg| == |vehicles| && forall i :: 0 <= i < |asg| ==> Assigned(vehicles, fronts, rears, asg, i)
  }

  /** A record with an angle comes from a pair closer than the limit, of a rear colour that
      was seen. */
  lemma {:induction false} PairedRecordsClose(atan2: Atan2Deg, vehicles: seq<VehicleConfig>, fronts: seq<Pt>,
                                              rears: map<string, seq<Pt>>, asg: seq<Assignment>)
    requires Atan2Range(atan2) && |asg| == |vehicles|
    requires forall i :: 0 <= i < |asg| ==> Assigned(vehicles, fronts, rears, asg, i)
    ensures var r := Records(atan2, vehicles, asg);
      forall i :: 0 <= i < |r| && r[i].hasAngle ==>
        r[i].distSq.Some? && r[i].distSq.value < MaxPairDistSq && vehicles[i].rearColor in rears
  {
    var r := Records(atan2, vehicles, asg);
    forall i | 0 <= i < |r| && r[i].hasAngle
      ensures r[i].distSq.Some? && r[i].distSq.value < MaxPairDistSq && vehicles[i].rearColor in rears
    {
      assert Assigned(vehicles, fronts, rears, asg, i);
    }
  }

  /** Records with an angle sit on different fronts. */
  lemma {:induction false} PairedRecordsDistinct(atan2: Atan2Deg, vehicles: seq<VehicleConfig>, asg: seq<Assignment>)
    requires Atan2Range(atan2) && |asg| == |vehicles|
    requires forall i, j :: 0 <= i < j < |asg| && asg[i].paired && asg[j].paired ==> asg[i].frontPos != asg[j].frontPos
    ensures var r := Records(atan2, vehicles, asg);
      forall i, j :: 0 <= i < j < |r| && r[i].hasAngle && r[j].hasAngle ==> r[i].frontPos != r[j].frontPos
  {
    var r := Records(atan2, vehicles, asg);
    forall i, j | 0 <= i < j < |r| && r[i].hasAngle && r[j].hasAngle ensures r[i].frontPos != r[j].frontPos {
      assert asg[i].frontPos != asg[j].frontPos;
    }
  }
}
