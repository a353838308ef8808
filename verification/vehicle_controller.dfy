/** The vehicle registry and the per-vehicle state machine of the simulation
    (src/vehicle_controller.cpp). The path system is not part of this model: its node
    table, node lookup, nearest-node search and path search are parameters. */
module VehicleController {
  import opened Wrappers
  import opened Geometry
  import opened Text
  import SM = SegmentManager

  datatype VehicleState = Idle | Moving | Waiting | Arrived

  datatype PathNode = PathNode(nodeId: int, position: RPt, isWaitingNode: bool)

  /** What the controller asks of the path system. */
  datatype PathSystem = PathSystem(
    nodes: seq<PathNode>,
    getNode: int -> Option<PathNode>,
    findNearestNode: RPt -> int,
    findPath: SM.FindPath)

  const NoNode := -1

  /** The controller's view of one vehicle; `segmentIndex` points into `path`. */
  datatype Vehicle = Vehicle(
    vehicleId: int,
    position: RPt,
    currentNode: int,
    target: int,
    pendingTarget: int,
    state: VehicleState,
    path: seq<int>,
    segmentIndex: nat)

  /** The registry: vehicles in insertion order, the id index, the colour mapping and the
      next id to hand out. */
  datatype Controller = Controller(vehicles: seq<Vehicle>, idToIndex: map<int, nat>, colorToId: map<string, int>, nextId: int)

  const EmptyController := Controller([], map[], map[], 0)

  /** The registry invariant: the index finds each registered vehicle by its id, every id is
      below `nextId`, and every colour maps to a registered id. */
  ghost predicate Indexed(c: Controller)
  {
    && (forall id :: id in c.idToIndex ==> c.idToIndex[id] < |c.vehicles| && c.vehicles[c.idToIndex[id]].vehicleId == id)
    && (forall id :: id in c.idToIndex ==> 0 <= id < c.nextId)
    && (forall col :: col in c.colorToId ==> c.colorToId[col] in c.idToIndex)
    && 0 <= c.nextId
  }

  lemma EmptyIndexed()
    ensures Indexed(EmptyController)
  {
  }

  /** The vehicle as `addVehicle` creates it: placed on the nearest node when there is one,
      with no target and in state ARRIVED. */
  function NewVehicle(ps: PathSystem, id: int, start: RPt): (v: Vehicle)
    ensures v.vehicleId == id && v.target == NoNode && v.state == Arrived && v.path == []
    ensures v.currentNode == ps.findNearestNode(start)
    ensures v.currentNode != NoNode && ps.getNode(v.currentNode).Some? ==> v.position == ps.getNode(v.currentNode).value.position
    ensures (v.currentNode == NoNode || ps.getNode(v.currentNode).None?) ==> v.position == start
  {
    var nearest := ps.findNearestNode(start);
    var position :=
      if nearest != NoNode && ps.getNode(nearest).Some? then ps.getNode(nearest).value.position else start;
    Vehicle(id, position, nearest, NoNode, NoNode, Arrived, [], 0)
  }

  /** `addVehicle`: the new vehicle gets the next id and is found under it. */
  function AddVehicle(ps: PathSystem, c: Controller, start: RPt): (r: (Controller, int))
    ensures r.1 == c.nextId && r.0.nextId == c.nextId + 1
    ensures |r.0.vehicles| == |c.vehicles| + 1 && r.0.vehicles[..|c.vehicles|] == c.vehicles
    ensures r.0.vehicles[|c.vehicles|] == NewVehicle(ps, r.1, start)
    ensures r.0.idToIndex == c.idToIndex[r.1 := |c.vehicles|] && r.0.colorToId == c.colorToId
    ensures Indexed(c) ==> Indexed(r.0) && r.1 !in c.idToIndex
  {
    var id := c.nextId;
    var v := NewVehicle(ps, id, start);
    var r := Controller(c.vehicles + [v], c.idToIndex[id := |c.vehicles|], c.colorToId, id + 1);
    assert forall i :: 0 <= i < |c.vehicles| ==> r.vehicles[i] == c.vehicles[i];
    (r, id)
  }

  /** Ids are handed out consecutively from 0. */
  lemma {:induction false} AddVehicleIdsConsecutive(ps: PathSystem, starts: seq<RPt>)
    ensures AddAll(ps, EmptyController, starts).1 == seq(|starts|, i => i)
  {
    AddAllIds(ps, EmptyController, starts);
  }

  /** Adding several vehicles in turn. */
  function AddAll(ps: PathSystem, c: Controller, starts: seq<RPt>): (r: (Controller, seq<int>))
    ensures |r.1| == |starts| && r.0.nextId == c.nextId + |starts|
    decreases |starts|
  {
    if |starts| == 0 then (c, [])
    else
      var (c1, id) := AddVehicle(ps, c, starts[0]);
      var (c2, ids) := AddAll(ps, c1, starts[1..]);
      (c2, [id] + ids)
  }

  lemma {:induction false} AddAllIds(ps: PathSystem, c: Controller, starts: seq<RPt>)
    ensures AddAll(ps, c, starts).1 == seq(|starts|, i => c.nextId + i)
    decreases |starts|
  {
    if |starts| > 0 {
      var (c1, id) := AddVehicle(ps, c, starts[0]);
      AddAllIds(ps, c1, starts[1..]);
    }
  }

  /** `getVehicle`: the vehicle registered under `id`, or nothing. */
  function GetVehicle(c: Controller, id: int): (r: Option<Vehicle>)
    ensures Indexed(c) ==> (r.Some? <==> id in c.idToIndex)
    ensures r.Some? ==> r.value in c.vehicles
    ensures Indexed(c) && r.Some? ==> r.value.vehicleId == id
  {
    if id in c.idToIndex && c.idToIndex[id] < |c.vehicles| then Some(c.vehicles[c.idToIndex[id]]) else None
  }

  /** A freshly added vehicle is found under its id. */
  lemma AddThenGet(ps: PathSystem, c: Controller, start: RPt)
    requires Indexed(c)
    ensures var (r, id) := AddVehicle(ps, c, start);
      GetVehicle(r, id) == Some(NewVehicle(ps, id, start))
  {
  }

  /** `mapRealVehicleToSystem`: a known colour answers with its id; a new colour gets a new
      vehicle. */
  function MapRealVehicle(ps: PathSystem, c: Controller, position: RPt, color: string): (r: (Controller, int))
    ensures color in c.colorToId ==> r == (c, c.colorToId[color])
    ensures color !in c.colorToId ==> r.1 == c.nextId && |r.0.vehicles| == |c.vehicles| + 1
    ensures color in r.0.colorToId && r.0.colorToId[color] == r.1
    ensures Indexed(c) ==> Indexed(r.0) && r.1 in r.0.idToIndex
  {
    if color in c.colorToId then (c, c.colorToId[color])
    else
      var (added, id) := AddVehicle(ps, c, position);
      (Controller(added.vehicles, added.idToIndex, added.colorToId[color := id], added.nextId), id)
  }

  /** Mapping the same colour twice gives the same id and adds nothing the second time. */
  lemma MapRealVehicleIdempotent(ps: PathSystem, c: Controller, p: RPt, q: RPt, color: string)
    ensures var (c1, id1) := MapRealVehicle(ps, c, p, color);
      MapRealVehicle(ps, c1, q, color) == (c1, id1)
  {
  }

  const InitialVehicles := 4

  /** The colour keys of the initial vehicles. */
  const SpawnKeys: seq<string> := ["Heck1", "Heck2", "Heck3", "Heck4"]

  /** The colour key of the `i`-th initial vehicle is `"Heck" + std::to_string(i + 1)`. */
  lemma SpawnKeysAreHeckNumbers(i: nat)
    requires i < InitialVehicles
    ensures SpawnKeys[i] == "Heck" + NatToString(i + 1)
  {
  }

  lemma {:induction false} SpawnKeysDistinct(i: nat, j: nat)
    requires i < InitialVehicles && j < InitialVehicles && i != j
    ensures SpawnKeys[i] != SpawnKeys[j]
  {
    assert SpawnKeys[i][4] != SpawnKeys[j][4];
  }

  /** The node the `i`-th initial vehicle starts on. */
  function SpawnIndex(i: nat, step: nat): nat { i * step }

  /** The colour map sends the first `k` spawn keys to ids 0 to k - 1 and holds no other key. */
  ghost predicate KeyedUpTo(colors: map<string, int>, k: nat)
    requires k <= InitialVehicles
  {
    && (forall i :: 0 <= i < k ==> SpawnKeys[i] in colors && colors[SpawnKeys[i]] == i)
    && (forall col :: col in colors ==> exists i :: 0 <= i < k && SpawnKeys[i] == col)
  }

  /** The first `k` iterations of `spawnInitialVehicles`' loop. */
  function Spawn(ps: PathSystem, step: nat, k: nat): (r: Controller)
    requires k <= InitialVehicles
    requires forall i :: 0 <= i < k ==> SpawnIndex(i, step) < |ps.nodes|
    ensures Indexed(r) && |r.vehicles| == k && r.nextId == k
    ensures forall i :: 0 <= i < k ==> r.vehicles[i] == NewVehicle(ps, i, ps.nodes[SpawnIndex(i, step)].position)
    ensures KeyedUpTo(r.colorToId, k)
  {
    if k == 0 then EmptyController
    else
      var prev := Spawn(ps, step, k - 1);
      var (added, id) := AddVehicle(ps, prev, ps.nodes[SpawnIndex(k - 1, step)].position);
      var r := added.(colorToId := added.colorToId[SpawnKeys[k - 1] := id]);
      SpawnKeysStep(prev.colorToId, k);
      MapColorIndexed(added, SpawnKeys[k - 1], id);
      PrefixVehicles(prev.vehicles, r.vehicles);
      r
  }

  /** Mapping a colour to a registered id keeps the registry consistent. */
  lemma {:induction false} MapColorIndexed(c: Controller, col: string, id: int)
    requires Indexed(c) && id in c.idToIndex
    ensures Indexed(c.(colorToId := c.colorToId[col := id]))
  {
  }

  lemma {:induction false} PrefixVehicles(a: seq<Vehicle>, b: seq<Vehicle>)
    requires |a| <= |b| && b[..|a|] == a
    ensures forall i :: 0 <= i < |a| ==> b[i] == a[i]
  {
    forall i | 0 <= i < |a| ensures b[i] == a[i] {
      assert b[..|a|][i] == b[i];
    }
  }

  /** Adding the `k`-th key keeps the keys before it and admits no other. */
  lemma {:induction false} SpawnKeysStep(colors: map<string, int>, k: nat)
    requires 0 < k <= InitialVehicles
    requires KeyedUpTo(colors, k - 1)
    ensures KeyedUpTo(colors[SpawnKeys[k - 1] := k - 1], k)
  {
    var r := colors[SpawnKeys[k - 1] := k - 1];
    forall i | 0 <= i < k - 1 ensures SpawnKeys[i] in r && r[SpawnKeys[i]] == i {
      SpawnKeysDistinct(i, k - 1);
    }
  }

  /** `spawnInitialVehicles`: with fewer than four nodes nothing changes; otherwise the
      registry is rebuilt with four vehicles, ids 0 to 3, mapped from "Heck1" to "Heck4" and
      from nothing else. */
  function SpawnInitialVehicles(ps: PathSystem, c: Controller): (r: Controller)
    ensures |ps.nodes| < InitialVehicles ==> r == c
    ensures |ps.nodes| >= InitialVehicles ==>
      && Indexed(r) && |r.vehicles| == InitialVehicles && r.nextId == InitialVehicles
      && (forall i :: 0 <= i < InitialVehicles ==> r.vehicles[i].vehicleId == i)
      && KeyedUpTo(r.colorToId, InitialVehicles)
    ensures |ps.nodes| >= InitialVehicles ==> var step := Max(1, |ps.nodes| / 4);
      forall i :: 0 <= i < InitialVehicles ==>
        i * step < |ps.nodes| && r.vehicles[i] == NewVehicle(ps, i, ps.nodes[i * step].position)
  {
    if |ps.nodes| < InitialVehicles then c
    else
      var step := Max(1, |ps.nodes| / 4);
      SpawnIndicesInRange(|ps.nodes|, step);
      var r := Spawn(ps, step, InitialVehicles);
      r
  }

  /** With at least four nodes, the four start nodes `i * step` all exist. */
  lemma {:induction false} SpawnIndicesInRange(n: nat, step: nat)
    requires n >= InitialVehicles && step == Max(1, n / 4)
    ensures forall i :: 0 <= i < InitialVehicles ==> SpawnIndex(i, step) < n
  {
    assert step == n / 4 && 4 * step <= n;
    assert SpawnIndex(3, step) == 3 * step;
    assert SpawnIndex(2, step) == 2 * step;
  }

  /** The path system's node `n` exists and is a waiting node. */
  predicate IsWaitingNode(ps: PathSystem, n: int)
  {
    ps.getNode(n).Some? && ps.getNode(n).value.isWaitingNode
  }

  /** `planPath` on one vehicle; the boolean says whether a plan was made. */
  function PlanVehicle(ps: PathSystem, sm: SM.Manager, v: Vehicle, target: int): (r: (Vehicle, bool))
    ensures v.currentNode == NoNode || IsWaitingNode(ps, target) ==> r == (v, false)
    ensures v.currentNode != NoNode && !IsWaitingNode(ps, target) && v.currentNode == target ==>
      r == (v.(state := Arrived, path := []), true)
    ensures v.currentNode != NoNode && !IsWaitingNode(ps, target) && v.currentNode != target ==>
      var found := SM.FindAvailablePath(ps.findPath, sm, v.currentNode, target, v.vehicleId);
      && (r.1 <==> found != [])
      && (r.1 ==> r.0 == v.(path := found, segmentIndex := 0, target := target, state := Idle))
      && (!r.1 ==> r.0 == v.(state := Waiting))
  {
    if v.currentNode == NoNode then (v, false)
    else if IsWaitingNode(ps, target) then (v, false)
    else if v.currentNode == target then (v.(state := Arrived, path := []), true)
    else
      var available := SM.FindAvailablePath(ps.findPath, sm, v.currentNode, target, v.vehicleId);
      var path := if available == [] then ps.findPath(v.currentNode, target, {}) else available;
      if path != [] then (v.(path := path, segmentIndex := 0, target := target, state := Idle), true)
      else (v.(state := Waiting), false)
  }

  /** The second search `planPath` makes with `findOptimalPath` never finds a path: the
      first search already fell back to the unrestricted one. */
  lemma OptimalFallbackRedundant(ps: PathSystem, sm: SM.Manager, v: Vehicle, target: int)
    requires v.currentNode != target
    requires SM.FindAvailablePath(ps.findPath, sm, v.currentNode, target, v.vehicleId) == []
    ensures ps.findPath(v.currentNode, target, {}) == []
  {
  }

  /** The controller with the vehicle registered under `id` replaced. */
  function Replace(c: Controller, id: int, v: Vehicle): (r: Controller)
    ensures r.idToIndex == c.idToIndex && r.colorToId == c.colorToId && r.nextId == c.nextId
    ensures |r.vehicles| == |c.vehicles|
    ensures GetVehicle(c, id).Some? ==> GetVehicle(r, id) == Some(v)
    ensures GetVehicle(c, id).None? ==> r == c
    ensures forall i :: 0 <= i < |c.vehicles| && (id !in c.idToIndex || i != c.idToIndex[id]) ==> r.vehicles[i] == c.vehicles[i]
    ensures Indexed(c) && v.vehicleId == id ==> Indexed(r)
  {
    if GetVehicle(c, id).Some? then Controller(c.vehicles[c.idToIndex[id] := v], c.idToIndex, c.colorToId, c.nextId)
    else c
  }

  /** `planPath`: an unknown vehicle changes nothing; otherwise the vehicle is planned. */
  function PlanPath(ps: PathSystem, sm: SM.Manager, c: Controller, id: int, target: int): (r: (Controller, bool))
    ensures GetVehicle(c, id).None? ==> r == (c, false)
    ensures GetVehicle(c, id).Some? ==>
      var (v, ok) := PlanVehicle(ps, sm, GetVehicle(c, id).value, target);
      r.1 == ok && GetVehicle(r.0, id) == Some(v)
    ensures |r.0.vehicles| == |c.vehicles|
    ensures forall i :: 0 <= i < |c.vehicles| && (id !in c.idToIndex || i != c.idToIndex[id]) ==> r.0.vehicles[i] == c.vehicles[i]
  {
    match GetVehicle(c, id)
    case None => (c, false)
    case Some(v) =>
      var (v2, ok) := PlanVehicle(ps, sm, v, target);
      (Replace(c, id, v2), ok)
  }

  /** `setVehicleTargetNode` on one vehicle. */
  function SetTargetVehicle(ps: PathSystem, sm: SM.Manager, v: Vehicle, target: int): (r: Vehicle)
    ensures IsWaitingNode(ps, target) ==> r == v
    ensures !IsWaitingNode(ps, target) ==> r.target == target && r.pendingTarget == NoNode && r.vehicleId == v.vehicleId
    ensures r.position == v.position && r.currentNode == v.currentNode
    ensures !IsWaitingNode(ps, target) && (v.currentNode == NoNode || v.currentNode == target) ==> r.state == Arrived
    ensures !IsWaitingNode(ps, target) && v.currentNode != NoNode && v.currentNode != target ==>
      var found := SM.FindAvailablePath(ps.findPath, sm, v.currentNode, target, v.vehicleId);
      && (r.state == Idle <==> found != [])
      && (found != [] ==> r.path == found && r.segmentIndex == 0)
      && (found == [] ==> r.state == Waiting && r.path == v.path)
  {
    if IsWaitingNode(ps, target) then v
    else
      var v1 := v.(target := target, pendingTarget := NoNode);
      if v1.currentNode != NoNode && v1.currentNode != target then
        var (v2, ok) := PlanVehicle(ps, sm, v1, target);
        v2.(state := if ok then Idle else Waiting)
      else v1.(state := Arrived)
  }

  /** `setVehicleTargetNode`. */
  function SetVehicleTargetNode(ps: PathSystem, sm: SM.Manager, c: Controller, id: int, target: int): (r: Controller)
    ensures GetVehicle(c, id).None? || IsWaitingNode(ps, target) ==> r == c
    ensures GetVehicle(c, id).Some? ==> GetVehicle(r, id) == Some(SetTargetVehicle(ps, sm, GetVehicle(c, id).value, target))
    ensures Indexed(c) ==> Indexed(r)
    ensures r.idToIndex == c.idToIndex && r.colorToId == c.colorToId && r.nextId == c.nextId
    ensures |r.vehicles| == |c.vehicles|
    ensures forall i :: 0 <= i < |c.vehicles| && (id !in c.idToIndex || i != c.idToIndex[id]) ==> r.vehicles[i] == c.vehicles[i]
  {
    match GetVehicle(c, id)
    case None => c
    case Some(v) =>
      if IsWaitingNode(ps, target) then c
      else Replace(c, id, SetTargetVehicle(ps, sm, v, target))
  }

  /** A waiting node can never become a vehicle's target. */
  lemma {:induction false} WaitingNodeNeverTarget(ps: PathSystem, sm: SM.Manager, c: Controller, id: int, target: int)
    requires Indexed(c) && IsWaitingNode(ps, target)
    ensures SetVehicleTargetNode(ps, sm, c, id, target) == c
    ensures GetVehicle(c, id).Some? ==> PlanVehicle(ps, sm, GetVehicle(c, id).value, target).1 == false
  {
  }

  /** The segment a vehicle is about to enter, if its path has one left. */
  function NextSegment(v: Vehicle): (r: Option<int>)
    ensures r.Some? <==> v.path != [] && v.segmentIndex < |v.path|
    ensures r.Some? ==> r.value == v.path[v.segmentIndex]
  {
    if v.path != [] && v.segmentIndex < |v.path| then Some(v.path[v.segmentIndex]) else None
  }

  /** The IDLE case of `updateVehicleMovement`. */
  function StepIdle(sm: SM.Manager, v: Vehicle): (r: (SM.Manager, Vehicle))
    requires v.state == Idle
    ensures v.target == NoNode || v.currentNode == v.target || NextSegment(v).None? ==> r == (sm, v)
    ensures v.target != NoNode && v.currentNode != v.target && NextSegment(v).Some? ==>
      var seg := NextSegment(v).value;
      && r.1 == v.(state := r.1.state)
      && (r.1.state == Moving <==> SM.CanEnter(sm, seg, v.vehicleId))
      && (r.1.state == Moving ==> r.0 == SM.Reserve(sm, seg, v.vehicleId).1 && SM.Holds(r.0, seg, v.vehicleId))
      && (r.1.state != Moving ==> r.1.state == Waiting && r.0 == SM.AddToQueue(sm, seg, v.vehicleId))
  {
    if v.target != NoNode && v.currentNode != v.target && NextSegment(v).Some? then
      var seg := NextSegment(v).value;
      if SM.CanEnter(sm, seg, v.vehicleId) then
        var (ok, sm2) := SM.Reserve(sm, seg, v.vehicleId);
        if ok then (sm2, v.(state := Moving))
        else (SM.AddToQueue(sm2, seg, v.vehicleId), v.(state := Waiting))
      else (SM.AddToQueue(sm, seg, v.vehicleId), v.(state := Waiting))
    else (sm, v)
  }

  /** `handleBlockedVehicle`: a waiting vehicle retries its next segment and otherwise
      stays queued for it. */
  function HandleBlocked(sm: SM.Manager, v: Vehicle): (r: (SM.Manager, Vehicle))
    ensures v.state != Waiting || NextSegment(v).None? ==> r == (sm, v)
    ensures v.state == Waiting && NextSegment(v).Some? ==>
      var seg := NextSegment(v).value;
      && r.1 == v.(state := r.1.state)
      && (r.1.state == Moving <==> SM.CanEnter(sm, seg, v.vehicleId))
      && (r.1.state == Moving ==> r.0 == SM.Reserve(sm, seg, v.vehicleId).1)
      && (r.1.state != Moving ==> r.1.state == Waiting && r.0 == SM.AddToQueue(sm, seg, v.vehicleId))
  {
    if v.state != Waiting then (sm, v)
    else if NextSegment(v).Some? then
      var seg := NextSegment(v).value;
      if SM.CanEnter(sm, seg, v.vehicleId) && SM.Reserve(sm, seg, v.vehicleId).0 then
        (SM.Reserve(sm, seg, v.vehicleId).1, v.(state := Moving))
      else (SM.AddToQueue(sm, seg, v.vehicleId), v)
    else (sm, v)
  }

  /** `moveVehicleAlongPath`, left as a parameter. */
  type MoveAlongPath = (SM.Manager, Vehicle) -> (SM.Manager, Vehicle)

  /** `updateVehicleMovement`: dispatch on the state. */
  function UpdateVehicleMovement(move: MoveAlongPath, sm: SM.Manager, v: Vehicle): (r: (SM.Manager, Vehicle))
    ensures v.state == Arrived ==> r == (sm, v)
    ensures v.state == Moving ==> r == move(sm, v)
    ensures v.state == Idle ==> r == StepIdle(sm, v)
    ensures v.state == Waiting ==> r == HandleBlocked(sm, v)
  {
    match v.state
    case Idle => StepIdle(sm, v)
    case Moving => move(sm, v)
    case Waiting => HandleBlocked(sm, v)
    case Arrived => (sm, v)
  }

  /** An IDLE or WAITING vehicle that goes on to MOVING holds its next segment, and one
      that does not is waiting in that segment's queue. */
  lemma {:induction false} StepOutcome(move: MoveAlongPath, sm: SM.Manager, v: Vehicle)
    requires v.state == Idle || v.state == Waiting
    requires v.target != NoNode && v.currentNode != v.target && NextSegment(v).Some?
    requires NextSegment(v).value in sm.segments
    ensures var (sm2, v2) := UpdateVehicleMovement(move, sm, v);
      var seg := NextSegment(v).value;
      && (v2.state == Moving ==> SM.Holds(sm2, seg, v.vehicleId))
      && (v2.state != Moving ==> v2.state == Waiting && v.vehicleId in sm2.segments[seg].queue)
  {
  }
}
