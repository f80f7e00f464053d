/** src/models/BusLine.ts: a bus line with its embedded list of pick-up
    points, the schema's validation rules, and the pre-save hook that fills
    `remainingSeats` from `capacity` on a line's first save. Times are whole
    seconds. */
module BusLineModel {
  import opened Common
  import opened AppErrors

  const MinCapacity := 5

  /** An embedded point; `id` is its `_id` and None is an absent path. */
  datatype BusPoint = BusPoint(id: Id, name: Option<string>, latitude: Option<real>, longitude: Option<real>, pickupTime: Option<int>)

  datatype BusLine = BusLine(
    id: Id,
    driverID: Option<Id>,
    name: Option<string>,
    isActive: bool,
    capacity: Option<int>,
    remainingSeats: Option<int>,
    departureTime: Option<int>,
    arrivalTime: Option<int>,
    busPoints: seq<BusPoint>,
    imageUrl: Option<string>,
    cloudinaryPublicId: Option<string>)

  /** `trim: true`: a string path is trimmed when it is set. */
  function TrimmedText(o: Option<string>): (r: Option<string>)
    ensures r.Some? <==> o.Some?
    ensures r.Some? ==> r.value == Trim(o.value)
  {
    if o.Some? then Some(Trim(o.value)) else None
  }

  /** A point cast into the embedded schema: its name is trimmed (`id` is
      the `_id` it gets, the client's own or a generated one). */
  function CastPoint(p: BusPoint): (q: BusPoint)
    ensures q == p.(name := TrimmedText(p.name))
  {
    p.(name := TrimmedText(p.name))
  }

  /** The point's validators: name (not blank), latitude, longitude and
      pickupTime are required. */
  predicate PointValid(p: BusPoint) {
    PresentText(p.name) && p.latitude.Some? && p.longitude.Some? && p.pickupTime.Some?
  }

  /** The line's validators: name, capacity, departureTime and arrivalTime
      are required, capacity is at least 5, and every point is valid. */
  predicate LineValid(l: BusLine) {
    && PresentText(l.name)
    && l.capacity.Some? && l.capacity.value >= MinCapacity
    && l.departureTime.Some? && l.arrivalTime.Some?
    && forall i :: 0 <= i < |l.busPoints| ==> PointValid(l.busPoints[i])
  }

  /** `busPoints.id(pointId)`: the first point with that id. */
  function FindPoint(points: seq<BusPoint>, pointId: Id): (r: Option<nat>)
    ensures r.None? <==> forall i :: 0 <= i < |points| ==> points[i].id != pointId
    ensures r.Some? ==> r.value < |points| && points[r.value].id == pointId
    ensures r.Some? ==> forall j :: 0 <= j < r.value ==> points[j].id != pointId
  {
    if points == [] then None
    else if points[0].id == pointId then Some(0)
    else
      var r := FindPoint(points[1..], pointId);
      if r.None? then None else Some(r.value + 1)
  }

  /** `busPoints.remove(point)`: the list without the points that have the
      removed point's id, the others in their order. */
  function WithoutPoint(points: seq<BusPoint>, pointId: Id): (r: seq<BusPoint>)
    ensures |r| <= |points|
  {
    if points == [] then []
    else
      var rest := WithoutPoint(points[1..], pointId);
      if points[0].id == pointId then rest else [points[0]] + rest
  }

  /** Removal keeps exactly the points whose id differs. */
  lemma {:induction false} WithoutPointMembers(points: seq<BusPoint>, pointId: Id)
    ensures forall p :: p in WithoutPoint(points, pointId) <==> p in points && p.id != pointId
  {
    if points != [] {
      WithoutPointMembers(points[1..], pointId);
      assert forall p :: p in points <==> p == points[0] || p in points[1..] by {
        assert points == [points[0]] + points[1..];
      }
    }
  }

  /** One key of an update body: absent, an explicit `null`, or a value. */
  datatype PatchValue<T> = Absent | Null | Given(value: T)

  /** What assigning one key does to a path: an absent key keeps the path,
      `null` clears it, a value overwrites it. */
  function Patched<T>(current: Option<T>, v: PatchValue<T>): Option<T> {
    match v
    case Absent => current
    case Null => None
    case Given(x) => Some(x)
  }

  /** A point update body: its `_id` key and the keys of the point's paths. */
  datatype PointPatch = PointPatch(id: Option<Id>, name: PatchValue<string>, latitude: PatchValue<real>, longitude: PatchValue<real>, pickupTime: PatchValue<int>)

  /** `Object.assign(point, updates)`: every key the update carries is
      assigned, `_id` included; a name is trimmed as it is set, a `null`
      clears its path, and the paths the update does not mention stay. */
  function Assign(p: BusPoint, u: PointPatch): (q: BusPoint)
    ensures u.id.None? ==> q.id == p.id
    ensures u.id.Some? ==> q.id == u.id.value
    ensures u.name.Absent? ==> q.name == p.name
    ensures u.name.Null? ==> q.name.None?
    ensures u.name.Given? ==> q.name == Some(Trim(u.name.value))
    ensures q.latitude == Patched(p.latitude, u.latitude)
    ensures q.longitude == Patched(p.longitude, u.longitude)
    ensures q.pickupTime == Patched(p.pickupTime, u.pickupTime)
  {
    BusPoint(
      if u.id.Some? then u.id.value else p.id,
      if u.name.Given? then Some(Trim(u.name.value)) else Patched(p.name, u.name),
      Patched(p.latitude, u.latitude),
      Patched(p.longitude, u.longitude),
      Patched(p.pickupTime, u.pickupTime))
  }

  /** An empty update leaves a point as it is. */
  lemma EmptyPatchIsIdentity(p: BusPoint)
    ensures Assign(p, PointPatch(None, Absent, Absent, Absent, Absent)) == p
  {
  }

  /** An update that sets a required path to `null` leaves an invalid point,
      and one that changes no required path keeps a valid point valid. */
  lemma AssignValidity(p: BusPoint, u: PointPatch)
    ensures u.name.Null? || u.latitude.Null? || u.longitude.Null? || u.pickupTime.Null? ==> !PointValid(Assign(p, u))
    ensures PointValid(p) && u.name.Absent? && u.latitude.Absent? && u.longitude.Absent? && u.pickupTime.Absent?
      ==> PointValid(Assign(p, u))
  {
  }

  /** The pre-save hook on a line's value: a new line without remaining
      seats gets its capacity as remaining seats; nothing else changes. */
  function PreSave(l: BusLine, isNew: bool): (saved: BusLine)
    ensures isNew && l.remainingSeats.None? ==> saved.remainingSeats == l.capacity
    ensures !(isNew && l.remainingSeats.None?) ==> saved.remainingSeats == l.remainingSeats
    ensures saved.(remainingSeats := l.remainingSeats) == l
  {
    if isNew && l.remainingSeats.None? then l.(remainingSeats := l.capacity) else l
  }

  /** A line document loaded or created in memory, edited in place and then
      saved. */
  class BusLineDocument {
    var line: BusLine
    const isNew: bool

    constructor (line: BusLine, isNew: bool)
      ensures this.line == line && this.isNew == isNew
    {
      this.line := line;
      this.isNew := isNew;
    }

    /** `busLine.busPoints.push(point)`. */
    method PushPoint(p: BusPoint)
      modifies this
      ensures line == old(line).(busPoints := old(line.busPoints) + [p])
    {
      line := line.(busPoints := line.busPoints + [p]);
    }

    /** `busLine.busPoints.remove(point)` for the point with `pointId`. */
    method RemovePoint(pointId: Id)
      modifies this
      ensures line == old(line).(busPoints := WithoutPoint(old(line.busPoints), pointId))
    {
      line := line.(busPoints := WithoutPoint(line.busPoints, pointId));
    }

    /** `Object.assign(busLine.busPoints[i], updates)`. */
    method AssignToPoint(i: nat, u: PointPatch)
      requires i < |line.busPoints|
      modifies this
      ensures line == old(line).(busPoints := old(line.busPoints)[i := Assign(old(line.busPoints)[i], u)])
    {
      line := line.(busPoints := line.busPoints[i := Assign(line.busPoints[i], u)]);
    }

    /** The pre-save hook. */
    method RunPreSave()
      modifies this
      ensures line == PreSave(old(line), isNew)
    {
      if isNew && line.remainingSeats.None? {
        line := line.(remainingSeats := line.capacity);
      }
    }
  }

  /** The seats are set on the first save only: saving an existing line
      keeps its remaining seats whatever its capacity has become, and a new
      line keeps remaining seats it was given. */
  lemma RemainingSeatsOnlyInitialised(l: BusLine, c: Option<int>)
    ensures PreSave(l.(capacity := c), false).remainingSeats == l.remainingSeats
    ensures l.remainingSeats.Some? ==> PreSave(l, true).remainingSeats == l.remainingSeats
    ensures PreSave(PreSave(l, true), false) == PreSave(l, true)
  {
  }

  /** Removing a point keeps every other point, in order, and leaves no
      point with that id. */
  lemma {:induction false} WithoutPointKeepsOrder(points: seq<BusPoint>, pointId: Id)
    ensures forall i :: 0 <= i < |WithoutPoint(points, pointId)| ==> WithoutPoint(points, pointId)[i].id != pointId
    ensures (forall i :: 0 <= i < |points| ==> points[i].id != pointId) ==> WithoutPoint(points, pointId) == points
    ensures FindPoint(points, pointId).Some? ==> |WithoutPoint(points, pointId)| < |points|
  {
    if points != [] {
      WithoutPointKeepsOrder(points[1..], pointId);
      var rest := WithoutPoint(points[1..], pointId);
      if points[0].id != pointId {
        assert WithoutPoint(points, pointId) == [points[0]] + rest;
        if forall i :: 0 <= i < |points| ==> points[i].id != pointId {
          assert forall i :: 0 <= i < |points| - 1 ==> points[1..][i] == points[i + 1];
          assert points == [points[0]] + points[1..];
        }
      }
    }
  }

  /** Removal looks at the first point and then at the rest. */
  lemma WithoutPointStep(points: seq<BusPoint>, pointId: Id)
    requires points != []
    ensures WithoutPoint(points, pointId)
      == if points[0].id == pointId then WithoutPoint(points[1..], pointId)
         else [points[0]] + WithoutPoint(points[1..], pointId)
  {
  }

  /** Removing an id no point has changes nothing. */
  lemma {:induction false} WithoutAbsentPoint(points: seq<BusPoint>, pointId: Id)
    requires forall i :: 0 <= i < |points| ==> points[i].id != pointId
    ensures WithoutPoint(points, pointId) == points
  {
    if points != [] {
      var first := points[0];
      var tail := points[1..];
      assert forall i :: 0 <= i < |tail| ==> tail[i].id != pointId by {
        forall i | 0 <= i < |tail| ensures tail[i].id != pointId {
          assert tail[i] == points[i + 1];
        }
      }
      WithoutAbsentPoint(tail, pointId);
      WithoutPointStep(points, pointId);
      assert points == [first] + tail;
    }
  }

  /** When exactly one point has the id, removing it is cutting that one
      position out of the list: the points before and after it keep their
      order. */
  lemma {:induction false} WithoutSinglePoint(points: seq<BusPoint>, pointId: Id, i: nat)
    requires i < |points| && points[i].id == pointId
    requires forall j :: 0 <= j < |points| && j != i ==> points[j].id != pointId
    ensures WithoutPoint(points, pointId) == points[..i] + points[i + 1..]
  {
    var first := points[0];
    var tail := points[1..];
    WithoutPointStep(points, pointId);
    if i == 0 {
      assert forall j :: 0 <= j < |tail| ==> tail[j].id != pointId by {
        forall j | 0 <= j < |tail| ensures tail[j].id != pointId {
          assert tail[j] == points[j + 1];
        }
      }
      WithoutAbsentPoint(tail, pointId);
    } else {
      var j := i - 1;
      assert first.id != pointId;
      assert forall k :: 0 <= k < |tail| && k != j ==> tail[k].id != pointId by {
        forall k | 0 <= k < |tail| && k != j ensures tail[k].id != pointId {
          assert tail[k] == points[k + 1];
        }
      }
      WithoutSinglePoint(tail, pointId, j);
      calc {
        WithoutPoint(points, pointId);
        [first] + WithoutPoint(tail, pointId);
        [first] + (tail[..j] + tail[j + 1..]);
        ([first] + tail[..j]) + tail[j + 1..];
        { assert [first] + tail[..j] == points[..i]; assert tail[j + 1..] == points[i + 1..]; }
        points[..i] + points[i + 1..];
      }
    }
  }
}
