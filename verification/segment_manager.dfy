/** Per-segment mutual exclusion with a first-come wait queue (src/segment_manager.cpp).
    The segment table belongs to the path system; here it is a map from segment id to the
    occupancy and queue fields the manager reads and writes. */
module SegmentManager {
  /** The mutable part of a `PathSegment`; `holder` is -1 when the segment is free. */
  datatype Segment = Segment(occupied: bool, holder: int, queue: seq<int>)

  const NoVehicle := -1
  const NoSegment := -1

  /** The segment table together with the manager's vehicle-to-segment record. */
  datatype Manager = Manager(segments: map<int, Segment>, vehicleToSegment: map<int, int>)

  /** `canVehicleEnterSegment`. */
  predicate CanEnter(m: Manager, seg: int, v: int)
  {
    seg in m.segments && (!m.segments[seg].occupied || m.segments[seg].holder == v)
  }

  /** Segment `seg` is held by vehicle `v`. */
  predicate Holds(m: Manager, seg: int, v: int)
  {
    seg in m.segments && m.segments[seg].occupied && m.segments[seg].holder == v
  }

  /** Every recorded reservation is a segment its vehicle holds. */
  ghost predicate RecordsHeld(m: Manager)
  {
    forall v :: v in m.vehicleToSegment ==> Holds(m, m.vehicleToSegment[v], v)
  }

  predicate NoDuplicates(q: seq<int>)
  {
    forall i, j :: 0 <= i < j < |q| ==> q[i] != q[j]
  }

  /** No vehicle waits twice in the same queue. */
  ghost predicate QueuesDistinct(m: Manager)
  {
    forall seg :: seg in m.segments ==> NoDuplicates(m.segments[seg].queue)
  }

  /** Only the segment `seg` may differ between the two tables. */
  ghost predicate OthersUnchanged(m: Manager, r: Manager, seg: int)
  {
    && r.segments.Keys == m.segments.Keys
    && forall s :: s in m.segments && s != seg ==> r.segments[s] == m.segments[s]
  }

  /** `reserveSegment`: fails without a change when the segment is unknown or another
      vehicle holds it; otherwise `v` holds it and it becomes `v`'s recorded segment. */
  function Reserve(m: Manager, seg: int, v: int): (r: (bool, Manager))
    ensures r.0 <==> CanEnter(m, seg, v)
    ensures !r.0 ==> r.1 == m
    ensures r.0 ==> Holds(r.1, seg, v) && r.1.vehicleToSegment == m.vehicleToSegment[v := seg]
    ensures r.0 ==> r.1.segments[seg].queue == m.segments[seg].queue
    ensures OthersUnchanged(m, r.1, seg)
    ensures RecordsHeld(m) ==> RecordsHeld(r.1)
    ensures QueuesDistinct(m) ==> QueuesDistinct(r.1)
  {
    if seg !in m.segments then (false, m)
    else
      var s := m.segments[seg];
      if s.occupied && s.holder != v then (false, m)
      else (true, Manager(m.segments[seg := Segment(true, v, s.queue)], m.vehicleToSegment[v := seg]))
  }

  /** Reserving again what one already holds changes nothing. */
  lemma ReserveIdempotent(m: Manager, seg: int, v: int)
    requires Reserve(m, seg, v).0
    ensures Reserve(Reserve(m, seg, v).1, seg, v) == Reserve(m, seg, v)
  {
    var r := Reserve(m, seg, v).1;
    assert r.segments[seg := r.segments[seg]] == r.segments;
    assert r.vehicleToSegment[v := seg] == r.vehicleToSegment;
  }

  /** A vehicle may reserve a second segment: the first stays held by it, but the record
      names only the second. */
  lemma ReserveOverwritesRecord(m: Manager, a: int, b: int, v: int)
    requires a != b && Holds(m, a, v) && CanEnter(m, b, v)
    ensures var r := Reserve(m, b, v).1;
      Holds(r, a, v) && Holds(r, b, v) && r.vehicleToSegment[v] == b
  {
  }

  /** `processQueue`: a free segment goes to the head of its queue. */
  function ProcessQueue(m: Manager, seg: int): (r: Manager)
    ensures OthersUnchanged(m, r, seg)
    ensures seg !in m.segments || m.segments[seg].occupied || |m.segments[seg].queue| == 0 ==> r == m
    ensures seg in m.segments && !m.segments[seg].occupied && |m.segments[seg].queue| > 0 ==>
      var head := m.segments[seg].queue[0];
      && Holds(r, seg, head)
      && r.segments[seg].queue == m.segments[seg].queue[1..]
      && r.vehicleToSegment == m.vehicleToSegment[head := seg]
  {
    if seg !in m.segments || m.segments[seg].occupied || |m.segments[seg].queue| == 0 then m
    else
      var s := m.segments[seg];
      var next := s.queue[0];
      var popped := Manager(m.segments[seg := Segment(s.occupied, s.holder, s.queue[1..])], m.vehicleToSegment);
      var (ok, reserved) := Reserve(popped, seg, next);
      if ok then reserved
      else
        // the source puts the head back in front here, but the segment was free, so the
        // head's reservation cannot fail
        assert false; m
  }

  /** Processing a queue keeps the records and the queues well formed. */
  lemma {:induction false} ProcessQueueKeepsInvariants(m: Manager, seg: int)
    requires RecordsHeld(m) && QueuesDistinct(m)
    ensures RecordsHeld(ProcessQueue(m, seg)) && QueuesDistinct(ProcessQueue(m, seg))
  {
    if seg in m.segments && !m.segments[seg].occupied && |m.segments[seg].queue| > 0 {
      var s := m.segments[seg];
      var r := ProcessQueue(m, seg);
      forall v | v in r.vehicleToSegment ensures Holds(r, r.vehicleToSegment[v], v) {
        if v != s.queue[0] {
          assert Holds(m, m.vehicleToSegment[v], v);
        }
      }
      forall t | t in r.segments ensures NoDuplicates(r.segments[t].queue) {
        if t == seg {
          assert NoDuplicates(s.queue);
          assert forall i :: 0 <= i < |s.queue| - 1 ==> s.queue[1..][i] == s.queue[i + 1];
        }
      }
    }
  }

  /** `releaseSegment`: only the holder can release; the segment is then freed, the holder's
      record dropped, and the head of the queue (if any) takes the segment over. */
  function Release(m: Manager, seg: int, v: int): (r: Manager)
    ensures !Holds(m, seg, v) ==> r == m
    ensures OthersUnchanged(m, r, seg)
    ensures Holds(m, seg, v) && |m.segments[seg].queue| == 0 ==>
      && seg in r.segments && !r.segments[seg].occupied && r.segments[seg].holder == NoVehicle
      && r.vehicleToSegment == m.vehicleToSegment - {v}
    ensures Holds(m, seg, v) && |m.segments[seg].queue| > 0 ==>
      var head := m.segments[seg].queue[0];
      && Holds(r, seg, head)
      && r.segments[seg].queue == m.segments[seg].queue[1..]
      && r.vehicleToSegment == (m.vehicleToSegment - {v})[head := seg]
  {
    if seg !in m.segments then m
    else
      var s := m.segments[seg];
      if s.occupied && s.holder == v then
        var freed := Manager(m.segments[seg := Segment(false, NoVehicle, s.queue)], m.vehicleToSegment - {v});
        ProcessQueue(freed, seg)
      else m
  }

  lemma {:induction false} ReleaseKeepsInvariants(m: Manager, seg: int, v: int)
    requires RecordsHeld(m) && QueuesDistinct(m)
    ensures RecordsHeld(Release(m, seg, v)) && QueuesDistinct(Release(m, seg, v))
  {
    if Holds(m, seg, v) {
      var s := m.segments[seg];
      var freed := Manager(m.segments[seg := Segment(false, NoVehicle, s.queue)], m.vehicleToSegment - {v});
      forall w | w in freed.vehicleToSegment ensures Holds(freed, freed.vehicleToSegment[w], w) {
        assert Holds(m, m.vehicleToSegment[w], w);
      }
      assert QueuesDistinct(freed);
      ProcessQueueKeepsInvariants(freed, seg);
    }
  }

  /** `addToQueue`: the vehicle joins the end of the queue unless already waiting there. */
  function AddToQueue(m: Manager, seg: int, v: int): (r: Manager)
    ensures r.vehicleToSegment == m.vehicleToSegment && OthersUnchanged(m, r, seg)
    ensures seg in m.segments ==>
      && r.segments[seg].occupied == m.segments[seg].occupied
      && r.segments[seg].holder == m.segments[seg].holder
      && v in r.segments[seg].queue
      && |r.segments[seg].queue| >= |m.segments[seg].queue|
      && r.segments[seg].queue[..|m.segments[seg].queue|] == m.segments[seg].queue
    ensures seg in m.segments && v in m.segments[seg].queue ==> r == m
    ensures seg !in m.segments ==> r == m
    ensures RecordsHeld(m) ==> RecordsHeld(r)
    ensures QueuesDistinct(m) ==> QueuesDistinct(r)
  {
    if seg !in m.segments then m
    else
      var s := m.segments[seg];
      if v in s.queue then m
      else Manager(m.segments[seg := Segment(s.occupied, s.holder, s.queue + [v])], m.vehicleToSegment)
  }

  /** The queue without any occurrence of `v`, the others in their order. */
  function Without(q: seq<int>, v: int): (r: seq<int>)
    ensures forall x :: x in r <==> x in q && x != v
    ensures |r| <= |q|
  {
    if |q| == 0 then [] else (if q[0] == v then [] else [q[0]]) + Without(q[1..], v)
  }

  /** Removing keeps the relative order: it distributes over concatenation. */
  lemma {:induction false} WithoutAppend(a: seq<int>, b: seq<int>, v: int)
    ensures Without(a + b, v) == Without(a, v) + Without(b, v)
    decreases |a|
  {
    if |a| > 0 {
      var t := a + b;
      assert t[0] == a[0] && t[1..] == a[1..] + b;
      WithoutAppend(a[1..], b, v);
      var h := if a[0] == v then [] else [a[0]];
      assert Without(t, v) == h + (Without(a[1..], v) + Without(b, v));
      assert h + (Without(a[1..], v) + Without(b, v)) == (h + Without(a[1..], v)) + Without(b, v);
    } else {
      assert a + b == b;
    }
  }

  /** A vehicle that is not waiting leaves the queue as it is. */
  lemma {:induction false} WithoutAbsent(q: seq<int>, v: int)
    requires v !in q
    ensures Without(q, v) == q
    decreases |q|
  {
    if |q| > 0 {
      assert q[0] != v;
      WithoutAbsent(q[1..], v);
    }
  }

  lemma {:induction false} WithoutDistinct(q: seq<int>, v: int)
    requires NoDuplicates(q)
    ensures NoDuplicates(Without(q, v))
    decreases |q|
  {
    if |q| > 0 {
      assert NoDuplicates(q[1..]) by {
        assert forall i :: 0 <= i < |q| - 1 ==> q[1..][i] == q[i + 1];
      }
      WithoutDistinct(q[1..], v);
      assert q[0] !in q[1..];
    }
  }

  /** `removeFromQueue`. */
  function RemoveFromQueue(m: Manager, seg: int, v: int): (r: Manager)
    ensures r.vehicleToSegment == m.vehicleToSegment && OthersUnchanged(m, r, seg)
    ensures seg in m.segments ==>
      && r.segments[seg].occupied == m.segments[seg].occupied
      && r.segments[seg].holder == m.segments[seg].holder
      && r.segments[seg].queue == Without(m.segments[seg].queue, v)
    ensures seg !in m.segments ==> r == m
  {
    if seg !in m.segments then m
    else
      var s := m.segments[seg];
      Manager(m.segments[seg := Segment(s.occupied, s.holder, Without(s.queue, v))], m.vehicleToSegment)
  }

  /** Leaving a queue one has just joined restores the queue. */
  lemma {:induction false} AddThenRemove(m: Manager, seg: int, v: int)
    requires seg in m.segments && v !in m.segments[seg].queue
    ensures RemoveFromQueue(AddToQueue(m, seg, v), seg, v) == m
  {
    var q := m.segments[seg].queue;
    WithoutAppend(q, [v], v);
    WithoutAbsent(q, v);
    assert Without([v], v) == [] by {
      assert [v][1..] == [];
    }
    var added := AddToQueue(m, seg, v);
    assert added.segments[seg].queue == q + [v];
    var r := RemoveFromQueue(added, seg, v);
    assert r.segments[seg].queue == q;
    assert r.segments[seg] == m.segments[seg];
    assert r.segments == m.segments;
  }

  /** `getVehicleSegment`: the recorded segment, or -1. */
  function VehicleSegment(m: Manager, v: int): (r: int)
    ensures v in m.vehicleToSegment ==> r == m.vehicleToSegment[v]
    ensures v !in m.vehicleToSegment ==> r == NoSegment
  {
    if v in m.vehicleToSegment then m.vehicleToSegment[v] else NoSegment
  }

  /** The last reservation decides the recorded segment. */
  lemma LatestReservationRecorded(m: Manager, a: int, b: int, v: int)
    requires Reserve(m, a, v).0 && Reserve(Reserve(m, a, v).1, b, v).0
    ensures VehicleSegment(Reserve(Reserve(m, a, v).1, b, v).1, v) == b
  {
  }

  /** The effect of `removeVehicle`'s loop over all segments. */
  function LeaveAllQueues(segments: map<int, Segment>, v: int): (r: map<int, Segment>)
    ensures r.Keys == segments.Keys
    ensures forall s :: s in segments ==>
      r[s].occupied == segments[s].occupied && r[s].holder == segments[s].holder && r[s].queue == Without(segments[s].queue, v)
  {
    map s | s in segments :: Segment(segments[s].occupied, segments[s].holder, Without(segments[s].queue, v))
  }

  /** `removeVehicle` releases something: `v` has a recorded segment and holds it. */
  predicate ReleasesOnRemove(m: Manager, v: int)
  {
    VehicleSegment(m, v) != NoSegment && Holds(m, VehicleSegment(m, v), v)
  }

  /** `removeVehicle`: release the recorded segment (unless it is -1), leave every queue and
      drop the record. Segments other than the recorded one only lose `v` from their
      queues; the recorded one is freed, or handed to the head of its queue, and the
      records of the other vehicles change only by that hand-over. */
  function RemoveVehicle(m: Manager, v: int): (r: Manager)
    ensures v !in r.vehicleToSegment
    ensures r.segments.Keys == m.segments.Keys
    ensures forall s :: s in r.segments ==> v !in r.segments[s].queue
    ensures forall s :: s in m.segments && s != VehicleSegment(m, v) ==> r.segments[s].occupied == m.segments[s].occupied && r.segments[s].holder == m.segments[s].holder
    ensures forall s :: s in m.segments && s != VehicleSegment(m, v) ==> r.segments[s].queue == Without(m.segments[s].queue, v)
    ensures !ReleasesOnRemove(m, v) ==> r.vehicleToSegment == m.vehicleToSegment - {v}
    ensures !ReleasesOnRemove(m, v) ==> forall s :: s in m.segments ==>
      r.segments[s] == Segment(m.segments[s].occupied, m.segments[s].holder, Without(m.segments[s].queue, v))
    ensures ReleasesOnRemove(m, v) && |m.segments[VehicleSegment(m, v)].queue| == 0 ==>
      var seg := VehicleSegment(m, v);
      && r.segments[seg] == Segment(false, NoVehicle, [])
      && r.vehicleToSegment == m.vehicleToSegment - {v}
    ensures ReleasesOnRemove(m, v) && |m.segments[VehicleSegment(m, v)].queue| > 0 ==>
      var seg := VehicleSegment(m, v);
      var q := m.segments[seg].queue;
      && Holds(r, seg, q[0])
      && r.segments[seg].queue == Without(q[1..], v)
      && r.vehicleToSegment == (m.vehicleToSegment - {v})[q[0] := seg] - {v}
    ensures RecordsHeld(m) && QueuesDistinct(m) ==> RecordsHeld(r) && QueuesDistinct(r)
  {
    var current := VehicleSegment(m, v);
    var released := if current != NoSegment then Release(m, current, v) else m;
    var r := Manager(LeaveAllQueues(released.segments, v), released.vehicleToSegment - {v});
    RemoveVehicleInvariants(m, v, released, r);
    r
  }

  lemma {:induction false} RemoveVehicleInvariants(m: Manager, v: int, released: Manager, r: Manager)
    requires released == (if VehicleSegment(m, v) != NoSegment then Release(m, VehicleSegment(m, v), v) else m)
    requires r == Manager(LeaveAllQueues(released.segments, v), released.vehicleToSegment - {v})
    ensures RecordsHeld(m) && QueuesDistinct(m) ==> RecordsHeld(r) && QueuesDistinct(r)
  {
    if RecordsHeld(m) && QueuesDistinct(m) {
      if VehicleSegment(m, v) != NoSegment {
        ReleaseKeepsInvariants(m, VehicleSegment(m, v), v);
      }
      forall w | w in r.vehicleToSegment ensures Holds(r, r.vehicleToSegment[w], w) {
        assert Holds(released, released.vehicleToSegment[w], w);
      }
      forall s | s in r.segments ensures NoDuplicates(r.segments[s].queue) {
        WithoutDistinct(released.segments[s].queue, v);
      }
    }
  }

  /** A vehicle that is its segment's only claimant is free of it after removal. */
  lemma {:induction false} RemovedVehicleHoldsNothingRecorded(m: Manager, v: int)
    requires RecordsHeld(m) && v in m.vehicleToSegment
    requires var seg := m.vehicleToSegment[v]; seg != NoSegment && (|m.segments[seg].queue| == 0 || m.segments[seg].queue[0] != v)
    ensures !Holds(RemoveVehicle(m, v), m.vehicleToSegment[v], v)
  {
    var seg := m.vehicleToSegment[v];
    assert Holds(m, seg, v);
    var released := Release(m, seg, v);
    assert !Holds(released, seg, v);
  }

  /** The segments `findAvailablePath` asks the path search to avoid. */
  function Blocked(m: Manager, v: int): (r: set<int>)
    ensures forall s :: s in r <==> s in m.segments && m.segments[s].occupied && m.segments[s].holder != v
  {
    set s | s in m.segments && m.segments[s].occupied && m.segments[s].holder != v
  }

  /** The path search of the path system: start node, end node, segments to avoid. */
  type FindPath = (int, int, set<int>) -> seq<int>

  /** `findAvailablePath`: no path when start and end coincide; otherwise a path avoiding the
      blocked segments, or, if there is none, any path. */
  function FindAvailablePath(findPath: FindPath, m: Manager, start: int, end: int, v: int): (r: seq<int>)
    ensures start == end ==> r == []
    ensures start != end && findPath(start, end, Blocked(m, v)) != [] ==> r == findPath(start, end, Blocked(m, v))
    ensures start != end && findPath(start, end, Blocked(m, v)) == [] ==> r == findPath(start, end, {})
  {
    if start == end then []
    else
      var path := findPath(start, end, Blocked(m, v));
      if path == [] then findPath(start, end, {}) else path
  }

  /** `isPathClear`. */
  function IsPathClear(m: Manager, path: seq<int>, v: int): (r: bool)
    ensures r <==> forall i :: 0 <= i < |path| ==> CanEnter(m, path[i], v)
  {
    if |path| == 0 then true
    else if !CanEnter(m, path[0], v) then false
    else
      assert forall i :: 1 <= i < |path| ==> path[i] == path[1..][i - 1];
      IsPathClear(m, path[1..], v)
  }

  /** A clear path uses only known segments, none of them blocked for `v`. */
  lemma {:induction false} ClearPathAvoidsBlocked(m: Manager, path: seq<int>, v: int)
    requires IsPathClear(m, path, v)
    ensures forall i :: 0 <= i < |path| ==> path[i] in m.segments && path[i] !in Blocked(m, v)
  {
    forall i | 0 <= i < |path| ensures path[i] in m.segments && path[i] !in Blocked(m, v) {
      assert CanEnter(m, path[i], v);
    }
  }
}
