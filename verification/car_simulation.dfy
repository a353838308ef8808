/** The simulation side of the camera pipeline (src/car_simulation.cpp): the field grid,
    the mapping of camera coordinates into the window and onto the grid, the conversion of
    detections into front and identification points, the frame-to-frame stable pairing of
    those points into cars, and the rounded heading. */
module CarSimulation {
  import opened Wrappers
  import opened Geometry
  import opened Text
  import opened Sorting

  const FieldSize := 10

  /** `FieldTransform`. */
  datatype FieldTransform = FieldTransform(cols: int, rows: int, width: int, height: int, offsetX: int, offsetY: int)

  /** `FieldTransform::calculate`: as many whole fields as fit, the whole window as the field. */
  function Calculate(windowWidth: int, windowHeight: int): (r: FieldTransform)
    ensures r.width == windowWidth && r.height == windowHeight && r.offsetX == 0 && r.offsetY == 0
    ensures windowWidth >= 0 ==> r.cols * FieldSize <= windowWidth < (r.cols + 1) * FieldSize
    ensures windowHeight >= 0 ==> r.rows * FieldSize <= windowHeight < (r.rows + 1) * FieldSize
  {
    FieldTransform(TruncDiv(windowWidth, FieldSize), TruncDiv(windowHeight, FieldSize), windowWidth, windowHeight, 0, 0)
  }

  /** A detection handed over by the camera: position inside the crop, colour name, crop size. */
  datatype DetectedObject = DetectedObject(coordinates: RPt, color: string, cropWidth: int, cropHeight: int)

  predicate HasCrop(o: DetectedObject) { o.cropWidth > 0 && o.cropHeight > 0 }

  /** `cameraToWindow`: the crop is stretched over the whole window. */
  function CameraToWindow(o: DetectedObject, t: FieldTransform): (r: RPt)
    ensures !HasCrop(o) ==> r == RPt(0.0, 0.0)
    ensures HasCrop(o) ==> r.x * (o.cropWidth as real) == o.coordinates.x * (t.width as real)
    ensures HasCrop(o) ==> r.y * (o.cropHeight as real) == o.coordinates.y * (t.height as real)
  {
    if !HasCrop(o) then RPt(0.0, 0.0)
    else RPt(o.coordinates.x / o.cropWidth as real * t.width as real, o.coordinates.y / o.cropHeight as real * t.height as real)
  }

  /** `cameraToField`: the grid cell under the detection, clamped onto the grid. */
  function CameraToField(o: DetectedObject, t: FieldTransform): (r: (int, int))
    ensures !HasCrop(o) ==> r == (0, 0)
    ensures 0 <= r.0 && 0 <= r.1
    ensures t.cols >= 1 ==> r.0 <= t.cols - 1
    ensures t.rows >= 1 ==> r.1 <= t.rows - 1
    ensures HasCrop(o) && t.cols >= 1 && 0.0 <= o.coordinates.x < o.cropWidth as real ==>
      r.0 == (o.coordinates.x * t.cols as real / o.cropWidth as real).Floor
    ensures HasCrop(o) && t.rows >= 1 && 0.0 <= o.coordinates.y < o.cropHeight as real ==>
      r.1 == (o.coordinates.y * t.rows as real / o.cropHeight as real).Floor
  {
    if !HasCrop(o) then (0, 0)
    else (Cell(o.coordinates.x, o.cropWidth, t.cols), Cell(o.coordinates.y, o.cropHeight, t.rows))
  }

  /** One coordinate of `cameraToField`: `(int)(x / crop * n)` clamped to `0 .. n - 1`. */
  function Cell(x: real, crop: int, n: int): (r: int)
    requires crop > 0
    ensures 0 <= r && (n >= 1 ==> r <= n - 1)
    ensures n >= 1 && 0.0 <= x < crop as real ==> r == (x * n as real / crop as real).Floor
  {
    var v := x / crop as real * n as real;
    if n >= 1 && 0.0 <= x < crop as real then
      CellInside(x, crop, n);
      Clamp(TruncReal(v), 0, n - 1)
    else Clamp(TruncReal(v), 0, n - 1)
  }

  /** A coordinate inside the crop falls into one of the `n` cells. */
  lemma {:induction false} CellInside(x: real, crop: int, n: int)
    requires crop > 0 && n >= 1 && 0.0 <= x < crop as real
    ensures 0 <= TruncReal(x / crop as real * n as real) <= n - 1
    ensures TruncReal(x / crop as real * n as real) == (x * n as real / crop as real).Floor
  {
    var q := x / crop as real;
    assert 0.0 <= q < 1.0;
    var v := q * n as real;
    assert 0.0 <= v < n as real;
    assert v == x * n as real / crop as real;
    assert v.Floor as real <= v;
  }

  /** A point of the simulation: window position, which list it belongs to, its id and
      whether it is still valid. */
  datatype SimPoint = SimPoint(pos: Pt, isFront: bool, id: int, isValid: bool)

  /** The identification number of a "HeckN" colour: the character after "Heck" minus '1',
      or 0 when there is none. */
  function HeckId(color: string): (r: int)
    ensures |color| > 4 && '1' <= color[4] <= '9' ==> 0 <= r <= 8 && r == color[4] as int - '1' as int
    ensures |color| <= 4 ==> r == 0
  {
    if |color| > 4 then color[4] as int - '1' as int else 0
  }

  /** Where a detection ends up in the window, truncated to whole pixels. */
  function WindowPixel(o: DetectedObject, t: FieldTransform): Pt
  {
    var w := CameraToWindow(o, t);
    Pt(TruncReal(w.x), TruncReal(w.y))
  }

  /** `updateFromDetectedObjects`: both lists are rebuilt; "Front" objects become front points
      numbered by their input index, objects whose colour starts with "Heck" become
      identification points numbered by `HeckId`, and the rest is dropped. */
  function UpdateFromDetectedObjects(objs: seq<DetectedObject>, t: FieldTransform): (r: (seq<SimPoint>, seq<SimPoint>))
    ensures |r.0| + |r.1| <= |objs|
    ensures forall k :: 0 <= k < |r.0| ==> FrontOf(objs, t, r.0[k])
    ensures forall k :: 0 <= k < |r.1| ==> IdentOf(objs, t, r.1[k])
    ensures forall k, l :: 0 <= k < l < |r.0| ==> r.0[k].id < r.0[l].id
    decreases |objs|
  {
    if |objs| == 0 then ([], [])
    else
      var n := |objs| - 1;
      var (fronts, idents) := UpdateFromDetectedObjects(objs[..n], t);
      var o := objs[n];
      assert forall i :: 0 <= i < n ==> objs[..n][i] == objs[i];
      if o.color == "Front" then (fronts + [SimPoint(WindowPixel(o, t), true, n, true)], idents)
      else if StartsWith(o.color, "Heck") then (fronts, idents + [SimPoint(WindowPixel(o, t), false, HeckId(o.color), true)])
      else (fronts, idents)
  }

  /** An object that becomes a front point. */
  predicate IsFrontObject(o: DetectedObject) { o.color == "Front" }

  /** An object that becomes an identification point: "Heck…" and not "Front". */
  predicate IsHeckObject(o: DetectedObject) { o.color != "Front" && StartsWith(o.color, "Heck") }

  /** `p` is the front point made from input object `p.id`. */
  predicate FrontOf(objs: seq<DetectedObject>, t: FieldTransform, p: SimPoint)
  {
    0 <= p.id < |objs| && objs[p.id].color == "Front" && p.isFront && p.isValid && p.pos == WindowPixel(objs[p.id], t)
  }

  /** `p` is the identification point made from some "Heck…" input object. */
  predicate IdentOf(objs: seq<DetectedObject>, t: FieldTransform, p: SimPoint)
  {
    exists i :: 0 <= i < |objs| && IdentFrom(objs[i], t, p)
  }

  predicate IdentFrom(o: DetectedObject, t: FieldTransform, p: SimPoint)
  {
    StartsWith(o.color, "Heck") && !p.isFront && p.isValid && p.id == HeckId(o.color) && p.pos == WindowPixel(o, t)
  }

  /** Front points are made from the "Front" objects, one per object, in input order. */
  lemma {:induction false} UpdateFrontSources(objs: seq<DetectedObject>, t: FieldTransform)
    ensures var r := UpdateFromDetectedObjects(objs, t);
      var src := IndicesWhere(objs, IsFrontObject);
      |r.0| == |src| && forall k :: 0 <= k < |r.0| ==> r.0[k].id == src[k]
    decreases |objs|
  {
    if |objs| > 0 {
      var n := |objs| - 1;
      UpdateFrontSources(objs[..n], t);
      var prev := UpdateFromDetectedObjects(objs[..n], t).0;
      var r := UpdateFromDetectedObjects(objs, t).0;
      var src := IndicesWhere(objs[..n], IsFrontObject);
      if IsFrontObject(objs[n]) {
        assert r == prev + [SimPoint(WindowPixel(objs[n], t), true, n, true)];
        assert IndicesWhere(objs, IsFrontObject) == src + [n];
      } else {
        assert r == prev;
        assert IndicesWhere(objs, IsFrontObject) == src;
      }
    }
  }

  /** Identification points are made from the "Heck…" objects, one per object, in input
      order. */
  lemma {:induction false} UpdateIdentSources(objs: seq<DetectedObject>, t: FieldTransform)
    ensures var r := UpdateFromDetectedObjects(objs, t);
      var src := IndicesWhere(objs, IsHeckObject);
      |r.1| == |src| && forall k :: 0 <= k < |r.1| ==> IdentFrom(objs[src[k]], t, r.1[k])
    decreases |objs|
  {
    if |objs| > 0 {
      var n := |objs| - 1;
      UpdateIdentSources(objs[..n], t);
      var prev := UpdateFromDetectedObjects(objs[..n], t).1;
      var r := UpdateFromDetectedObjects(objs, t).1;
      var src := IndicesWhere(objs[..n], IsHeckObject);
      var all := IndicesWhere(objs, IsHeckObject);
      if IsHeckObject(objs[n]) {
        assert r == prev + [SimPoint(WindowPixel(objs[n], t), false, HeckId(objs[n].color), true)];
        assert all == src + [n];
      } else {
        assert r == prev;
        assert all == src;
      }
      forall k | 0 <= k < |r| ensures IdentFrom(objs[all[k]], t, r[k]) {
        if k < |prev| {
          assert r[k] == prev[k] && all[k] == src[k];
          assert objs[..n][src[k]] == objs[src[k]];
        }
      }
    }
  }

  /** The lists for a longer input extend the lists for its prefix. */
  lemma {:induction false} UpdateExtends(objs: seq<DetectedObject>, t: FieldTransform, n: nat)
    requires n < |objs|
    ensures var r := UpdateFromDetectedObjects(objs[..n + 1], t);
      var prev := UpdateFromDetectedObjects(objs[..n], t);
      |prev.0| <= |r.0| && |prev.1| <= |r.1| && r.0[..|prev.0|] == prev.0 && r.1[..|prev.1|] == prev.1
      && (objs[n].color == "Front" ==> |r.0| == |prev.0| + 1 && r.0[|prev.0|].id == n)
      && (objs[n].color != "Front" && StartsWith(objs[n].color, "Heck") ==>
            |r.1| == |prev.1| + 1 && IdentFrom(objs[n], t, r.1[|prev.1|]))
  {
    assert objs[..n + 1][..n] == objs[..n];
    assert objs[..n + 1][n] == objs[n];
  }

  /** Every "Front" object yields a front point. */
  lemma {:induction false} UpdateKeepsFronts(objs: seq<DetectedObject>, t: FieldTransform, i: nat)
    requires i < |objs| && objs[i].color == "Front"
    ensures exists k :: 0 <= k < |UpdateFromDetectedObjects(objs, t).0| && UpdateFromDetectedObjects(objs, t).0[k].id == i
    decreases |objs|
  {
    var n := |objs| - 1;
    assert objs[..n + 1] == objs;
    UpdateExtends(objs, t, n);
    var r := UpdateFromDetectedObjects(objs, t);
    var prev := UpdateFromDetectedObjects(objs[..n], t);
    if i < n {
      assert objs[..n][i] == objs[i];
      UpdateKeepsFronts(objs[..n], t, i);
      var k :| 0 <= k < |prev.0| && prev.0[k].id == i;
      assert r.0[k] == r.0[..|prev.0|][k];
    } else {
      assert r.0[|prev.0|].id == i;
    }
  }

  /** Every object whose colour starts with "Heck" yields an identification point. */
  lemma {:induction false} UpdateKeepsIdents(objs: seq<DetectedObject>, t: FieldTransform, i: nat)
    requires i < |objs| && StartsWith(objs[i].color, "Heck")
    ensures exists k :: 0 <= k < |UpdateFromDetectedObjects(objs, t).1| && IdentFrom(objs[i], t, UpdateFromDetectedObjects(objs, t).1[k])
    decreases |objs|
  {
    var n := |objs| - 1;
    assert objs[..n + 1] == objs;
    UpdateExtends(objs, t, n);
    var r := UpdateFromDetectedObjects(objs, t);
    var prev := UpdateFromDetectedObjects(objs[..n], t);
    if i < n {
      assert objs[..n][i] == objs[i];
      UpdateKeepsIdents(objs[..n], t, i);
      var k :| 0 <= k < |prev.1| && IdentFrom(objs[i], t, prev.1[k]);
      assert r.1[k] == r.1[..|prev.1|][k];
    } else {
      assert objs[i].color != "Front" by {
        assert objs[i].color[0] == 'H';
      }
      assert IdentFrom(objs[i], t, r.1[|prev.1|]);
    }
  }

  // ---------------------------------------------------------------------------------------
  // Stable pairing

  /** The expected front-to-identification distance and the tolerance around it. */
  datatype PairWindow = PairWindow(distance: real, buffer: real)

  /** `distance - buffer <= sqrt(sq) <= distance + buffer`, without the root. */
  predicate InWindow(sq: nat, w: PairWindow)
  {
    var lo := w.distance - w.buffer;
    var hi := w.distance + w.buffer;
    (lo <= 0.0 || lo * lo <= sq as real) && 0.0 <= hi && sq as real <= hi * hi
  }

  /** A car: references into the current front and identification lists (the source keeps
      pointers), whether the pair is stable, the squared last distance and the car id. */
  datatype Car = Car(front: Option<nat>, ident: Option<nat>, stable: bool, lastDistSq: nat, carId: int)

  /** A reference to a valid point of the current list. */
  predicate ValidRef(pts: seq<SimPoint>, r: Option<nat>)
  {
    r.Some? && r.value < |pts| && pts[r.value].isValid
  }

  function RefDistSq(fronts: seq<SimPoint>, idents: seq<SimPoint>, c: Car): nat
    requires ValidRef(fronts, c.front) && ValidRef(idents, c.ident)
  {
    SqDist(fronts[c.front.value].pos, idents[c.ident.value].pos)
  }

  /** The car's pair still holds: both points valid and their distance inside the window. */
  predicate Holds(fronts: seq<SimPoint>, idents: seq<SimPoint>, w: PairWindow, c: Car)
  {
    ValidRef(fronts, c.front) && ValidRef(idents, c.ident) && InWindow(RefDistSq(fronts, idents, c), w)
  }

  /** The first loop of `stablePairPointsToCars`: a stable car with both references keeps its
      pair and records the distance if the pair still holds, and loses stability otherwise. */
  function Recheck(fronts: seq<SimPoint>, idents: seq<SimPoint>, w: PairWindow, c: Car): (r: Car)
    ensures r.front == c.front && r.ident == c.ident && r.carId == c.carId
    ensures c.stable && c.front.Some? && c.ident.Some? ==>
      (r.stable <==> Holds(fronts, idents, w, c))
    ensures r.stable && r.front.Some? && r.ident.Some? ==> Holds(fronts, idents, w, r) && r.lastDistSq == RefDistSq(fronts, idents, r)
    ensures !(c.stable && c.front.Some? && c.ident.Some?) ==> r == c
  {
    if c.stable && c.front.Some? && c.ident.Some? then
      if Holds(fronts, idents, w, c) then c.(lastDistSq := RefDistSq(fronts, idents, c)) else c.(stable := false)
    else c
  }

  /** The points held by stable cars with both references (the marking loops). */
  function TakenFronts(cars: seq<Car>, n: nat): set<nat>
  {
    set j | 0 <= j < |cars| && cars[j].stable && cars[j].front.Some? && cars[j].ident.Some? && cars[j].front.value < n
      :: cars[j].front.value
  }

  function TakenIdents(cars: seq<Car>, n: nat): set<nat>
  {
    set j | 0 <= j < |cars| && cars[j].stable && cars[j].front.Some? && cars[j].ident.Some? && cars[j].ident.value < n
      :: cars[j].ident.value
  }

  /** The (front, identification) index pairs in the order the nested loops visit them. */
  function Candidates(nf: nat, ni: nat): (r: seq<(nat, nat)>)
    ensures forall k :: 0 <= k < |r| ==> r[k].0 < nf && r[k].1 < ni
    ensures forall f, i :: 0 <= f < nf && 0 <= i < ni ==> (f, i) in r
  {
    if nf == 0 then []
    else Candidates(nf - 1, ni) + CandidateRow(nf - 1, ni)
  }

  function CandidateRow(f: nat, ni: nat): (r: seq<(nat, nat)>)
    ensures |r| == ni && forall i :: 0 <= i < ni ==> r[i] == (f, i)
  {
    if ni == 0 then [] else CandidateRow(f, ni - 1) + [(f, ni - 1)]
  }

  /** A pair the search may take: both points unassigned and valid, their distance inside the
      window. */
  predicate Eligible(fronts: seq<SimPoint>, idents: seq<SimPoint>, w: PairWindow, ft: set<nat>, it: set<nat>, p: (nat, nat))
  {
    p.0 < |fronts| && p.1 < |idents| && p.0 !in ft && p.1 !in it
    && fronts[p.0].isValid && idents[p.1].isValid
    && InWindow(SqDist(fronts[p.0].pos, idents[p.1].pos), w)
  }

  function CandDistSq(fronts: seq<SimPoint>, idents: seq<SimPoint>, p: (nat, nat)): nat
    requires p.0 < |fronts| && p.1 < |idents|
  {
    SqDist(fronts[p.0].pos, idents[p.1].pos)
  }

  /** Candidate `k` is the search's choice: eligible, no eligible pair closer, every earlier
      eligible pair strictly farther. */
  ghost predicate BestCandidate(cands: seq<(nat, nat)>, fronts: seq<SimPoint>, idents: seq<SimPoint>, w: PairWindow,
                                ft: set<nat>, it: set<nat>, k: int)
  {
    0 <= k < |cands| && Eligible(fronts, idents, w, ft, it, cands[k])
    && (forall j :: 0 <= j < |cands| && Eligible(fronts, idents, w, ft, it, cands[j]) ==>
          CandDistSq(fronts, idents, cands[k]) <= CandDistSq(fronts, idents, cands[j]))
    && (forall j :: 0 <= j < k && Eligible(fronts, idents, w, ft, it, cands[j]) ==>
          CandDistSq(fronts, idents, cands[k]) < CandDistSq(fronts, idents, cands[j]))
  }

  /** The nested search loops for one unstable car; -1 when no pair is eligible. */
  method ClosestCandidate(cands: seq<(nat, nat)>, fronts: seq<SimPoint>, idents: seq<SimPoint>, w: PairWindow,
                          ft: set<nat>, it: set<nat>) returns (k: int)
    ensures k == -1 <==> forall j :: 0 <= j < |cands| ==> !Eligible(fronts, idents, w, ft, it, cands[j])
    ensures k != -1 ==> BestCandidate(cands, fronts, idents, w, ft, it, k)
  {
    k := -1;
    var n := 0;
    while n < |cands|
      invariant 0 <= n <= |cands| && -1 <= k < n
      invariant k == -1 <==> forall j :: 0 <= j < n ==> !Eligible(fronts, idents, w, ft, it, cands[j])
      invariant k != -1 ==> BestCandidate(cands[..n], fronts, idents, w, ft, it, k)
    {
      if Eligible(fronts, idents, w, ft, it, cands[n])
         && (k == -1 || CandDistSq(fronts, idents, cands[n]) < CandDistSq(fronts, idents, cands[k])) {
        k := n;
      }
      assert cands[..n + 1][..n] == cands[..n];
      n := n + 1;
    }
    assert cands[..n] == cands;
  }

  /** What the third loop's body does to car `c` given the marked sets `ft` and `it`: the car
      becomes stable exactly when an eligible pair exists, and then holds the search's choice
      with its distance and the identification point's id; otherwise it keeps everything but
      its references to points that became invalid. */
  ghost predicate PairOutcome(fronts: seq<SimPoint>, idents: seq<SimPoint>, w: PairWindow, ft: set<nat>, it: set<nat>,
                              c: Car, r: Car)
  {
    && (r.stable ==> r.front.Some? && r.ident.Some?
                     && (exists k :: BestCandidate(Candidates(|fronts|, |idents|), fronts, idents, w, ft, it, k)
                                     && Candidates(|fronts|, |idents|)[k] == (r.front.value, r.ident.value))
                     && Holds(fronts, idents, w, r) && r.lastDistSq == RefDistSq(fronts, idents, r)
                     && r.carId == idents[r.ident.value].id)
    && (!r.stable <==> forall f, i :: 0 <= f < |fronts| && 0 <= i < |idents| ==> !Eligible(fronts, idents, w, ft, it, (f, i)))
    && (!r.stable ==> r.carId == c.carId && r.lastDistSq == c.lastDistSq
                      && r.front == (if c.front.Some? && c.front.value < |fronts| && !fronts[c.front.value].isValid then None else c.front)
                      && r.ident == (if c.ident.Some? && c.ident.value < |idents| && !idents[c.ident.value].isValid then None else c.ident))
  }

  /** The third loop's body for one unstable car: the closest eligible pair makes it stable
      with the identification point's id; without one, references to invalid points are
      dropped. */
  method PairOne(fronts: seq<SimPoint>, idents: seq<SimPoint>, w: PairWindow, ft: set<nat>, it: set<nat>, c: Car)
    returns (r: Car)
    requires !c.stable
    ensures r.stable ==> r.front.Some? && r.ident.Some?
    ensures r.stable ==> exists k :: BestCandidate(Candidates(|fronts|, |idents|), fronts, idents, w, ft, it, k)
                                     && Candidates(|fronts|, |idents|)[k] == (r.front.value, r.ident.value)
    ensures r.stable ==> r.front.Some? && r.ident.Some? && r.front.value !in ft && r.ident.value !in it
    ensures r.stable ==> Holds(fronts, idents, w, r) && r.lastDistSq == RefDistSq(fronts, idents, r)
    ensures r.stable ==> r.carId == idents[r.ident.value].id
    ensures !r.stable <==> forall f, i :: 0 <= f < |fronts| && 0 <= i < |idents| ==> !Eligible(fronts, idents, w, ft, it, (f, i))
    ensures !r.stable ==> r.carId == c.carId && r.lastDistSq == c.lastDistSq
    ensures !r.stable ==> r.front == (if c.front.Some? && c.front.value < |fronts| && !fronts[c.front.value].isValid then None else c.front)
    ensures !r.stable ==> r.ident == (if c.ident.Some? && c.ident.value < |idents| && !idents[c.ident.value].isValid then None else c.ident)
    ensures PairOutcome(fronts, idents, w, ft, it, c, r)
  {
    var cands := Candidates(|fronts|, |idents|);
    var k := ClosestCandidate(cands, fronts, idents, w, ft, it);
    if k != -1 {
      var (f, i) := cands[k];
      r := Car(Some(f), Some(i), true, CandDistSq(fronts, idents, (f, i)), idents[i].id);
    } else {
      r := c;
      if c.front.Some? && c.front.value < |fronts| && !fronts[c.front.value].isValid {
        r := r.(front := None);
      }
      if c.ident.Some? && c.ident.value < |idents| && !idents[c.ident.value].isValid {
        r := r.(ident := None);
      }
    }
  }

  predicate Paired(c: Car) { c.stable && c.front.Some? && c.ident.Some? }

  /** Stable cars with both references hold pairwise different points. */
  predicate DistinctPairs(cars: seq<Car>)
  {
    forall i, j :: 0 <= i < |cars| && 0 <= j < |cars| && i != j && Paired(cars[i]) && Paired(cars[j]) ==>
      cars[i].front != cars[j].front && cars[i].ident != cars[j].ident
  }

  /** `stablePairPointsToCars`. */
  method StablePairPointsToCars(cars: seq<Car>, fronts: seq<SimPoint>, idents: seq<SimPoint>, w: PairWindow)
    returns (r: seq<Car>)
    ensures |r| == |cars|
    ensures forall i :: 0 <= i < |r| && r[i].stable && r[i].front.Some? && r[i].ident.Some? ==> Holds(fronts, idents, w, r[i])
    ensures forall i :: 0 <= i < |r| && r[i].stable && !(r[i].front.Some? && r[i].ident.Some?) ==> r[i] == cars[i]
    ensures forall i :: 0 <= i < |r| && cars[i].stable && cars[i].front.Some? && cars[i].ident.Some? && Holds(fronts, idents, w, cars[i]) ==>
      r[i] == cars[i].(lastDistSq := RefDistSq(fronts, idents, cars[i]))
    ensures DistinctPairs(RecheckAll(fronts, idents, w, cars)) ==> DistinctPairs(r)
    ensures var rc := RecheckAll(fronts, idents, w, cars);
      forall i :: 0 <= i < |r| && rc[i].stable ==> r[i] == rc[i]
    ensures var rc := RecheckAll(fronts, idents, w, cars);
      forall i :: 0 <= i < |r| && !rc[i].stable ==> PairedInTurn(fronts, idents, w, rc, r, i)
  {
    var rc := RecheckAll(fronts, idents, w, cars);
    var cs := rc;
    var ft := TakenFronts(cs, |fronts|);
    var it := TakenIdents(cs, |idents|);
    ghost var distinct := DistinctPairs(cs);
    var i := 0;
    while i < |cs|
      invariant 0 <= i <= |cs| == |cars|
      invariant ft == TakenFronts(cs, |fronts|) && it == TakenIdents(cs, |idents|)
      invariant StableKept(fronts, idents, w, cars, cs)
      invariant distinct ==> DistinctPairs(cs)
      invariant TurnsDone(fronts, idents, w, rc, cs, i)
    {
      ghost var before := cs;
      if !cs[i].stable {
        cs, ft, it := PairAt(fronts, idents, w, cars, cs, i, ft, it, distinct);
      }
      TurnStep(fronts, idents, w, rc, before, cs, i);
      i := i + 1;
    }
    r := cs;
  }

  /** The cars before `i` have had their turn in the third loop, the others are as the
      recheck left them. */
  ghost predicate TurnsDone(fronts: seq<SimPoint>, idents: seq<SimPoint>, w: PairWindow, rc: seq<Car>, cs: seq<Car>, i: nat)
  {
    && i <= |cs| == |rc|
    && (forall j :: i <= j < |cs| ==> cs[j] == rc[j])
    && (forall j :: 0 <= j < i && rc[j].stable ==> cs[j] == rc[j])
    && (forall j :: 0 <= j < i && !rc[j].stable ==> PairedInTurn(fronts, idents, w, rc, cs, j))
  }

  /** One turn of the third loop: a stable car is skipped, an unstable one is paired. */
  lemma {:induction false} TurnStep(fronts: seq<SimPoint>, idents: seq<SimPoint>, w: PairWindow, rc: seq<Car>,
                                    before: seq<Car>, after: seq<Car>, i: nat)
    requires TurnsDone(fronts, idents, w, rc, before, i) && i < |before|
    requires before[i].stable ==> after == before
    requires !before[i].stable ==> |after| == |before| && after == before[i := after[i]]
    requires !before[i].stable ==>
      PairOutcome(fronts, idents, w, TakenFronts(before, |fronts|), TakenIdents(before, |idents|), before[i], after[i])
    ensures TurnsDone(fronts, idents, w, rc, after, i + 1)
  {
    if !before[i].stable {
      PairedInTurnStep(fronts, idents, w, rc, before, after, i);
    }
  }

  /** Car `j` of the result is what pairing made of the rechecked car `j`, given the points
      marked after the cars before it had their turn. */
  ghost predicate PairedInTurn(fronts: seq<SimPoint>, idents: seq<SimPoint>, w: PairWindow, rc: seq<Car>, r: seq<Car>, j: nat)
    requires j < |rc| && |r| == |rc|
  {
    var marked := r[..j] + rc[j..];
    PairOutcome(fronts, idents, w, TakenFronts(marked, |fronts|), TakenIdents(marked, |idents|), rc[j], r[j])
  }

  /** Pairing car `i` in turn keeps the turns of the cars before it and completes its own. */
  lemma {:induction false} PairedInTurnStep(fronts: seq<SimPoint>, idents: seq<SimPoint>, w: PairWindow, rc: seq<Car>,
                                            before: seq<Car>, after: seq<Car>, i: nat)
    requires i < |before| == |rc| == |after| && after == before[i := after[i]]
    requires forall j :: i <= j < |before| ==> before[j] == rc[j]
    requires PairOutcome(fronts, idents, w, TakenFronts(before, |fronts|), TakenIdents(before, |idents|), rc[i], after[i])
    requires forall j :: 0 <= j < i && !rc[j].stable ==> PairedInTurn(fronts, idents, w, rc, before, j)
    ensures forall j :: 0 <= j <= i && !rc[j].stable ==> PairedInTurn(fronts, idents, w, rc, after, j)
  {
    assert before[..i] + rc[i..] == before by {
      assert forall j :: 0 <= j < |before| ==> (before[..i] + rc[i..])[j] == before[j];
    }
    forall j | 0 <= j <= i && !rc[j].stable
      ensures PairedInTurn(fronts, idents, w, rc, after, j)
    {
      assert after[..j] == before[..j];
      if j < i {
        assert after[j] == before[j];
        assert PairedInTurn(fronts, idents, w, rc, before, j);
      }
    }
  }

  /** One step of the second loop: pair the unstable car at `i` and record its points as taken. */
  method PairAt(fronts: seq<SimPoint>, idents: seq<SimPoint>, w: PairWindow, cars: seq<Car>, cs: seq<Car>, i: nat,
                ft: set<nat>, it: set<nat>, ghost distinct: bool)
    returns (cs': seq<Car>, ft': set<nat>, it': set<nat>)
    requires i < |cs| && !cs[i].stable
    requires ft == TakenFronts(cs, |fronts|) && it == TakenIdents(cs, |idents|)
    requires StableKept(fronts, idents, w, cars, cs)
    requires distinct ==> DistinctPairs(cs)
    ensures |cs'| == |cs| && cs' == cs[i := cs'[i]]
    ensures PairOutcome(fronts, idents, w, ft, it, cs[i], cs'[i])
    ensures ft' == TakenFronts(cs', |fronts|) && it' == TakenIdents(cs', |idents|)
    ensures StableKept(fronts, idents, w, cars, cs')
    ensures distinct ==> DistinctPairs(cs')
  {
    var c := PairOne(fronts, idents, w, ft, it, cs[i]);
    cs' := cs[i := c];
    TakenStep(cs, i, c, |fronts|, |idents|);
    StableKeptStep(fronts, idents, w, cars, cs, i, c);
    ft', it' := ft, it;
    if c.stable {
      if distinct {
        DistinctStep(cs, i, c, |fronts|, |idents|);
      }
      ft' := ft + {c.front.value};
      it' := it + {c.ident.value};
    }
  }

  /** What the second loop of `stablePairPointsToCars` keeps: stable cars with both references
      hold their pair, stable cars missing one are untouched, and cars whose pair still held
      at the start only had their distance recorded. */
  ghost predicate StableKept(fronts: seq<SimPoint>, idents: seq<SimPoint>, w: PairWindow, cars: seq<Car>, cs: seq<Car>)
  {
    && |cs| == |cars|
    && (forall j :: 0 <= j < |cs| && cs[j].stable && cs[j].front.Some? && cs[j].ident.Some? ==> Holds(fronts, idents, w, cs[j]))
    && (forall j :: 0 <= j < |cs| && cs[j].stable && !(cs[j].front.Some? && cs[j].ident.Some?) ==> cs[j] == cars[j])
    && (forall j :: 0 <= j < |cs| && cars[j].stable && cars[j].front.Some? && cars[j].ident.Some? && Holds(fronts, idents, w, cars[j]) ==>
          cs[j] == cars[j].(lastDistSq := RefDistSq(fronts, idents, cars[j])))
  }

  /** Pairing one unstable car keeps `StableKept`. */
  lemma {:induction false} StableKeptStep(fronts: seq<SimPoint>, idents: seq<SimPoint>, w: PairWindow, cars: seq<Car>,
                                          cs: seq<Car>, i: nat, c: Car)
    requires StableKept(fronts, idents, w, cars, cs) && i < |cs| && !cs[i].stable
    requires c.stable ==> c.front.Some? && c.ident.Some? && Holds(fronts, idents, w, c)
    ensures StableKept(fronts, idents, w, cars, cs[i := c])
  {
  }

  /** The first loop over all cars. */
  function RecheckAll(fronts: seq<SimPoint>, idents: seq<SimPoint>, w: PairWindow, cars: seq<Car>): (r: seq<Car>)
    ensures |r| == |cars| && forall i :: 0 <= i < |cars| ==> r[i] == Recheck(fronts, idents, w, cars[i])
  {
    if |cars| == 0 then [] else [Recheck(fronts, idents, w, cars[0])] + RecheckAll(fronts, idents, w, cars[1..])
  }

  /** Replacing an unstable car adds exactly its new points to the taken sets. */
  lemma {:induction false} TakenStep(cs: seq<Car>, i: nat, c: Car, nf: nat, ni: nat)
    requires i < |cs| && !cs[i].stable
    requires c.stable ==> c.front.Some? && c.ident.Some? && c.front.value < nf && c.ident.value < ni
    ensures TakenFronts(cs[i := c], nf) == TakenFronts(cs, nf) + (if c.stable then {c.front.value} else {})
    ensures TakenIdents(cs[i := c], ni) == TakenIdents(cs, ni) + (if c.stable then {c.ident.value} else {})
  {
    var cs' := cs[i := c];
    assert forall j :: 0 <= j < |cs| && j != i ==> cs'[j] == cs[j];
    if c.stable {
      assert c.front.value in TakenFronts(cs', nf) by { assert cs'[i] == c; }
      assert c.ident.value in TakenIdents(cs', ni) by { assert cs'[i] == c; }
    }
  }

  /** A newly paired car takes points no stable car holds, so distinctness is kept. */
  lemma {:induction false} DistinctStep(cs: seq<Car>, i: nat, c: Car, nf: nat, ni: nat)
    requires i < |cs| && !cs[i].stable && DistinctPairs(cs)
    requires c.stable && c.front.Some? && c.ident.Some? && c.front.value < nf && c.ident.value < ni
    requires c.front.value !in TakenFronts(cs, nf) && c.ident.value !in TakenIdents(cs, ni)
    ensures DistinctPairs(cs[i := c])
  {
    var cs' := cs[i := c];
    forall a, b | 0 <= a < |cs'| && 0 <= b < |cs'| && a != b && Paired(cs'[a]) && Paired(cs'[b])
      ensures cs'[a].front != cs'[b].front && cs'[a].ident != cs'[b].ident
    {
      if a == i {
        NotTakenDiffers(cs, b, c, nf, ni);
      } else if b == i {
        NotTakenDiffers(cs, a, c, nf, ni);
      }
    }
  }

  lemma {:induction false} NotTakenDiffers(cs: seq<Car>, j: nat, c: Car, nf: nat, ni: nat)
    requires j < |cs| && cs[j].stable && cs[j].front.Some? && cs[j].ident.Some?
    requires c.front.Some? && c.ident.Some? && c.front.value < nf && c.ident.value < ni
    requires c.front.value !in TakenFronts(cs, nf) && c.ident.value !in TakenIdents(cs, ni)
    ensures cs[j].front != c.front && cs[j].ident != c.ident
  {
    if cs[j].front.value < nf {
      assert cs[j].front.value in TakenFronts(cs, nf);
    }
    if cs[j].ident.value < ni {
      assert cs[j].ident.value in TakenIdents(cs, ni);
    }
  }

  /** `calculateAngle(from, to)`: the heading rounded half up by `(int)(deg + 0.5)`. */
  function CalculateAngle(atan2: Atan2Deg, from: Pt, to: Pt): (r: int)
    requires Atan2Range(atan2)
    ensures 0 <= r <= 360
    ensures var deg := Heading(atan2, ToReal(from), ToReal(to)); deg - 0.5 < r as real <= deg + 0.5
  {
    TruncReal(Heading(atan2, ToReal(from), ToReal(to)) + 0.5)
  }
}
