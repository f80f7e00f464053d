/** src/controllers/busPointController.ts: the handlers that edit the points
    embedded in a bus line. Each loads the line (store call 0), edits the
    loaded document in place and saves it (store call 1), where the line's
    validators run again. */
module BusPointController {
  import opened Common
  import opened AppErrors
  import opened BusLineModel
  import opened BusLineController

  const PointNotFound := AppError("Bus Point not found", 404)

  /** The line after `busPoints.push(point)`. */
  function WithAddedPoint(l: BusLine, p: BusPoint): (u: BusLine)
    ensures |u.busPoints| == |l.busPoints| + 1
    ensures u.busPoints[..|l.busPoints|] == l.busPoints
    ensures u.busPoints[|l.busPoints|] == CastPoint(p)
    ensures u.(busPoints := l.busPoints) == l
  {
    l.(busPoints := l.busPoints + [CastPoint(p)])
  }

  /** A line stays valid when a valid point is added, and is refused when
      the point misses one of its required paths. */
  lemma AddedPointValidity(l: BusLine, p: BusPoint)
    requires LineValid(l)
    ensures LineValid(WithAddedPoint(l, p)) <==> PointValid(CastPoint(p))
  {
    var u := WithAddedPoint(l, p);
    if PointValid(CastPoint(p)) {
      forall i | 0 <= i < |u.busPoints| ensures PointValid(u.busPoints[i]) {
        if i < |l.busPoints| {
          assert u.busPoints[i] == l.busPoints[i];
        }
      }
    } else {
      assert u.busPoints[|l.busPoints|] == CastPoint(p);
    }
  }

  /** addBusPoint. */
  method AddBusPoint(store: BusLineStore, lineId: Id, point: BusPoint, fault: StoreFault) returns (r: Reply<BusLine>)
    requires store.Valid()
    modifies store
    ensures store.Valid()
    ensures !r.Respond? ==> store.lines == old(store.lines)
    ensures !IsObjectIdValid(lineId) || Throws(fault, 0) ==> r == Next(DatabaseError)
    ensures IsObjectIdValid(lineId) && !Throws(fault, 0) && lineId !in old(store.lines) ==> r == Next(LineNotFound)
    ensures IsObjectIdValid(lineId) && !Throws(fault, 0) && lineId in old(store.lines) ==>
      var u := WithAddedPoint(old(store.lines)[lineId], point);
      && (!LineValid(u) || Throws(fault, 1) ==> r == Next(DatabaseError))
      && (LineValid(u) && !Throws(fault, 1) ==> r == Respond(201, u) && store.lines == old(store.lines)[lineId := u])
  {
    if !IsObjectIdValid(lineId) || Throws(fault, 0) {
      r := Next(DatabaseError);
      return;
    }
    if lineId !in store.lines {
      r := Next(LineNotFound);
      return;
    }
    var doc := new BusLineDocument(store.lines[lineId], false);
    doc.PushPoint(CastPoint(point));
    if !LineValid(doc.line) || Throws(fault, 1) {
      r := Next(DatabaseError);
      return;
    }
    doc.RunPreSave();
    store.lines := store.lines[lineId := doc.line];
    r := Respond(201, doc.line);
  }

  /** removeBusPoint. A failed save is only logged: the answer is 200 with
      an empty body and the line stays as it was. */
  method RemoveBusPoint(store: BusLineStore, lineId: Id, pointId: Id, fault: StoreFault) returns (r: Reply<Option<BusLine>>)
    requires store.Valid()
    modifies store
    ensures store.Valid()
    ensures !(r.Respond? && r.body.Some?) ==> store.lines == old(store.lines)
    ensures !IsObjectIdValid(lineId) || Throws(fault, 0) ==> r == Next(DatabaseError)
    ensures IsObjectIdValid(lineId) && !Throws(fault, 0) && lineId !in old(store.lines) ==> r == Next(LineNotFound)
    ensures IsObjectIdValid(lineId) && !Throws(fault, 0) && lineId in old(store.lines) ==>
      var l := old(store.lines)[lineId];
      var u := l.(busPoints := WithoutPoint(l.busPoints, pointId));
      && (FindPoint(l.busPoints, pointId).None? ==> r == Next(PointNotFound))
      && (FindPoint(l.busPoints, pointId).Some? && (!LineValid(u) || Throws(fault, 1)) ==> r == Respond(200, None))
      && (FindPoint(l.busPoints, pointId).Some? && LineValid(u) && !Throws(fault, 1) ==>
            r == Respond(200, Some(u)) && store.lines == old(store.lines)[lineId := u])
  {
    if !IsObjectIdValid(lineId) || Throws(fault, 0) {
      r := Next(DatabaseError);
      return;
    }
    if lineId !in store.lines {
      r := Next(LineNotFound);
      return;
    }
    var doc := new BusLineDocument(store.lines[lineId], false);
    if FindPoint(doc.line.busPoints, pointId).None? {
      r := Next(PointNotFound);
      return;
    }
    doc.RemovePoint(pointId);
    if !LineValid(doc.line) || Throws(fault, 1) {
      r := Respond(200, None);
      return;
    }
    doc.RunPreSave();
    store.lines := store.lines[lineId := doc.line];
    r := Respond(200, Some(doc.line));
  }

  /** updateBusPoint: the update is assigned onto the first point with the
      id. */
  method UpdateBusPoint(store: BusLineStore, lineId: Id, pointId: Id, updates: PointPatch, fault: StoreFault)
    returns (r: Reply<BusLine>)
    requires store.Valid()
    modifies store
    ensures store.Valid()
    ensures !r.Respond? ==> store.lines == old(store.lines)
    ensures !IsObjectIdValid(lineId) || Throws(fault, 0) ==> r == Next(DatabaseError)
    ensures IsObjectIdValid(lineId) && !Throws(fault, 0) && lineId !in old(store.lines) ==> r == Next(LineNotFound)
    ensures IsObjectIdValid(lineId) && !Throws(fault, 0) && lineId in old(store.lines) ==>
      var l := old(store.lines)[lineId];
      var i := FindPoint(l.busPoints, pointId);
      && (i.None? ==> r == Next(PointNotFound))
      && (i.Some? ==>
            var u := l.(busPoints := l.busPoints[i.value := Assign(l.busPoints[i.value], updates)]);
            && (!LineValid(u) || Throws(fault, 1) ==> r == Next(DatabaseError))
            && (LineValid(u) && !Throws(fault, 1) ==> r == Respond(200, u) && store.lines == old(store.lines)[lineId := u]))
  {
    if !IsObjectIdValid(lineId) || Throws(fault, 0) {
      r := Next(DatabaseError);
      return;
    }
    if lineId !in store.lines {
      r := Next(LineNotFound);
      return;
    }
    var doc := new BusLineDocument(store.lines[lineId], false);
    var i := FindPoint(doc.line.busPoints, pointId);
    if i.None? {
      r := Next(PointNotFound);
      return;
    }
    doc.AssignToPoint(i.value, updates);
    if !LineValid(doc.line) || Throws(fault, 1) {
      r := Next(DatabaseError);
      return;
    }
    doc.RunPreSave();
    store.lines := store.lines[lineId := doc.line];
    r := Respond(200, doc.line);
  }

  /** Removing points never makes a valid line invalid, so on a valid line
      only a store failure turns removeBusPoint's answer into an empty 200. */
  lemma RemovedPointValidity(l: BusLine, pointId: Id)
    requires LineValid(l)
    ensures LineValid(l.(busPoints := WithoutPoint(l.busPoints, pointId)))
  {
    var rest := WithoutPoint(l.busPoints, pointId);
    WithoutPointMembers(l.busPoints, pointId);
    forall i | 0 <= i < |rest| ensures PointValid(rest[i]) {
      assert rest[i] in l.busPoints;
    }
  }

  /** getAllBusPoints. */
  function GetAllBusPoints(store: BusLineStore, lineId: Id, fault: StoreFault): (r: Reply<seq<BusPoint>>)
    reads store
    ensures !IsObjectIdValid(lineId) || Throws(fault, 0) ==> r == Next(DatabaseError)
    ensures IsObjectIdValid(lineId) && !Throws(fault, 0) && lineId !in store.lines ==> r == Next(LineNotFound)
    ensures r.Respond? <==> IsObjectIdValid(lineId) && !Throws(fault, 0) && lineId in store.lines
    ensures r.Respond? ==> r.status == 200 && r.body == store.lines[lineId].busPoints
  {
    if !IsObjectIdValid(lineId) || Throws(fault, 0) then Next(DatabaseError)
    else if lineId !in store.lines then Next(LineNotFound)
    else Respond(200, store.lines[lineId].busPoints)
  }

  /** On a valid line, the save after a point update succeeds exactly when
      the updated point is valid. */
  lemma UpdatePointValidity(l: BusLine, i: nat, updates: PointPatch)
    requires i < |l.busPoints| && LineValid(l)
    ensures var u := l.(busPoints := l.busPoints[i := Assign(l.busPoints[i], updates)]);
      LineValid(u) <==> PointValid(Assign(l.busPoints[i], updates))
  {
    var u := l.(busPoints := l.busPoints[i := Assign(l.busPoints[i], updates)]);
    assert u.busPoints[i] == Assign(l.busPoints[i], updates);
  }

  /** `save()` validates the loaded paths as well as the changed ones, so a
      line whose stored capacity is below the minimum (which updateBusLine
      can store, see UpdateKeepsRemainingSeats) refuses every point edit:
      adding and updating answer 500, removing answers an empty 200. */
  lemma LowCapacityBlocksPointEdits(l: BusLine, p: BusPoint, pointId: Id, i: nat, updates: PointPatch)
    requires l.capacity.Some? && l.capacity.value < MinCapacity
    ensures !LineValid(WithAddedPoint(l, p))
    ensures !LineValid(l.(busPoints := WithoutPoint(l.busPoints, pointId)))
    ensures i < |l.busPoints| ==> !LineValid(l.(busPoints := l.busPoints[i := Assign(l.busPoints[i], updates)]))
  {
  }
}
