/** src/controllers/busLineController.ts: the bus-line handlers over the
    bus-line store. Every store failure, including the cast failure of a
    malformed id, is answered with AppError "Database error. Please try
    again later." (500). Store calls are numbered as in Common.StoreFault. */
module BusLineController {
  import opened Common
  import opened AppErrors
  import opened BusLineModel

  const LineNotFound := AppError("Bus Line not found", 404)

  /** A request body, including the fields the handlers do not copy. */
  datatype BusLineBody = BusLineBody(
    name: Option<string>,
    isActive: Option<bool>,
    capacity: Option<int>,
    busPoints: Option<seq<BusPoint>>,
    departureTime: Option<int>,
    arrivalTime: Option<int>,
    driverID: Option<Id>,
    remainingSeats: Option<int>,
    imageUrl: Option<string>,
    cloudinaryPublicId: Option<string>)

  function CastPoints(points: seq<BusPoint>): (r: seq<BusPoint>)
    ensures |r| == |points| && forall i :: 0 <= i < |r| ==> r[i] == CastPoint(points[i])
  {
    if points == [] then [] else [CastPoint(points[0])] + CastPoints(points[1..])
  }

  /** The document `BusLine.create` builds from the copied fields only:
      name, isActive (true by default), capacity, busPoints, departureTime,
      arrivalTime and driverID. */
  function NewLineFromBody(id: Id, body: BusLineBody): (l: BusLine)
    ensures l.remainingSeats.None? && l.imageUrl.None? && l.cloudinaryPublicId.None?
    ensures l.id == id && l.name == TrimmedText(body.name) && l.capacity == body.capacity
    ensures l.isActive == (body.isActive.None? || body.isActive.value)
  {
    BusLine(
      id := id,
      driverID := body.driverID,
      name := TrimmedText(body.name),
      isActive := if body.isActive.Some? then body.isActive.value else true,
      capacity := body.capacity,
      remainingSeats := None,
      departureTime := body.departureTime,
      arrivalTime := body.arrivalTime,
      busPoints := if body.busPoints.Some? then CastPoints(body.busPoints.value) else [],
      imageUrl := None,
      cloudinaryPublicId := None)
  }

  /** The line `createBusLine` stores: the new document after the pre-save
      hook. */
  function CreatedLine(id: Id, body: BusLineBody): BusLine {
    PreSave(NewLineFromBody(id, body), true)
  }

  /** Clients cannot choose the remaining seats (nor the image fields): a
      created line starts with as many remaining seats as its capacity. */
  lemma CreatedLineIgnoresUncopiedFields(id: Id, body: BusLineBody, seats: Option<int>, url: Option<string>, pid: Option<string>)
    ensures CreatedLine(id, body) == CreatedLine(id, body.(remainingSeats := seats, imageUrl := url, cloudinaryPublicId := pid))
    ensures CreatedLine(id, body).remainingSeats == body.capacity
  {
  }

  /** The update `findByIdAndUpdate` applies: the copied fields the body
      carries overwrite the line's (undefined ones are dropped from the
      update); remaining seats and images are never written. */
  function UpdatedLine(l: BusLine, body: BusLineBody): (u: BusLine)
    ensures u.id == l.id && u.remainingSeats == l.remainingSeats
    ensures u.imageUrl == l.imageUrl && u.cloudinaryPublicId == l.cloudinaryPublicId
    ensures u.capacity == (if body.capacity.Some? then body.capacity else l.capacity)
    ensures u.name == (if body.name.Some? then TrimmedText(body.name) else l.name)
  {
    l.(
      name := if body.name.Some? then TrimmedText(body.name) else l.name,
      isActive := if body.isActive.Some? then body.isActive.value else l.isActive,
      capacity := if body.capacity.Some? then body.capacity else l.capacity,
      driverID := if body.driverID.Some? then body.driverID else l.driverID,
      busPoints := if body.busPoints.Some? then CastPoints(body.busPoints.value) else l.busPoints,
      departureTime := if body.departureTime.Some? then body.departureTime else l.departureTime,
      arrivalTime := if body.arrivalTime.Some? then body.arrivalTime else l.arrivalTime)
  }

  /** Changing the capacity through an update leaves the remaining seats as
      they were, and the update runs no validators, so a capacity below 5 is
      written, too. */
  lemma UpdateKeepsRemainingSeats(l: BusLine, body: BusLineBody)
    ensures UpdatedLine(l, body).remainingSeats == l.remainingSeats
    ensures body.capacity.Some? && body.capacity.value < MinCapacity ==>
      UpdatedLine(l, body).capacity == body.capacity && !LineValid(UpdatedLine(l, body))
  {
  }

  /** The bus lines, keyed by id. */
  class BusLineStore {
    var lines: map<Id, BusLine>

    ghost predicate Valid()
      reads this
    {
      forall id :: id in lines ==> lines[id].id == id
    }

    constructor ()
      ensures Valid() && lines == map[]
    {
      lines := map[];
    }

    /** createBusLine: store call 0 is the insert, which fails on a
        validation error or on an id already taken. */
    method CreateBusLine(body: BusLineBody, newId: Id, fault: StoreFault) returns (r: Reply<BusLine>)
      requires Valid()
      modifies this
      ensures Valid()
      ensures !LineValid(NewLineFromBody(newId, body)) || Throws(fault, 0) || newId in old(lines) ==>
        r == Next(DatabaseError) && lines == old(lines)
      ensures LineValid(NewLineFromBody(newId, body)) && !Throws(fault, 0) && newId !in old(lines) ==>
        r == Respond(201, CreatedLine(newId, body)) && lines == old(lines)[newId := r.body]
    {
      var doc := new BusLineDocument(NewLineFromBody(newId, body), true);
      if !LineValid(doc.line) || Throws(fault, 0) || newId in lines {
        r := Next(DatabaseError);
        return;
      }
      doc.RunPreSave();
      lines := lines[newId := doc.line];
      r := Respond(201, doc.line);
    }

    /** getBusLines: store call 0 is the query. */
    function GetBusLines(fault: StoreFault): (r: Reply<set<BusLine>>)
      reads this
      ensures Throws(fault, 0) ==> r == Next(DatabaseError)
      ensures !Throws(fault, 0) ==>
        && r.Respond? && r.status == 200
        && forall l :: l in r.body <==> exists id :: id in lines && lines[id] == l
    {
      if Throws(fault, 0) then Next(DatabaseError) else Respond(200, lines.Values)
    }

    /** getBusLineById: store call 0 is the lookup. */
    function GetBusLineById(id: Id, fault: StoreFault): (r: Reply<BusLine>)
      reads this
      ensures !IsObjectIdValid(id) || Throws(fault, 0) ==> r == Next(DatabaseError)
      ensures IsObjectIdValid(id) && !Throws(fault, 0) && id !in lines ==> r == Next(LineNotFound)
      ensures r.Respond? <==> IsObjectIdValid(id) && !Throws(fault, 0) && id in lines
      ensures r.Respond? ==> r.status == 200 && r.body == lines[id]
    {
      if !IsObjectIdValid(id) || Throws(fault, 0) then Next(DatabaseError)
      else if id !in lines then Next(LineNotFound)
      else Respond(200, lines[id])
    }

    /** updateBusLine: store call 0 is the find-and-update. There is no
        not-found answer: an unknown id is answered 200 with null. */
    method UpdateBusLine(id: Id, body: BusLineBody, fault: StoreFault) returns (r: Reply<Option<BusLine>>)
      requires Valid()
      modifies this
      ensures Valid()
      ensures !IsObjectIdValid(id) || Throws(fault, 0) ==> r == Next(DatabaseError) && lines == old(lines)
      ensures IsObjectIdValid(id) && !Throws(fault, 0) && id !in old(lines) ==>
        r == Respond(200, None) && lines == old(lines)
      ensures IsObjectIdValid(id) && !Throws(fault, 0) && id in old(lines) ==>
        r == Respond(200, Some(UpdatedLine(old(lines)[id], body))) && lines == old(lines)[id := r.body.value]
    {
      if !IsObjectIdValid(id) || Throws(fault, 0) {
        r := Next(DatabaseError);
        return;
      }
      if id !in lines {
        r := Respond(200, None);
        return;
      }
      var updated := UpdatedLine(lines[id], body);
      lines := lines[id := updated];
      r := Respond(200, Some(updated));
    }

    /** deleteBusLine: store call 0 is the find-and-delete; 204 whether or
        not the line existed. */
    method DeleteBusLine(id: Id, fault: StoreFault) returns (r: Reply<()>)
      requires Valid()
      modifies this
      ensures Valid()
      ensures !IsObjectIdValid(id) || Throws(fault, 0) ==> r == Next(DatabaseError) && lines == old(lines)
      ensures IsObjectIdValid(id) && !Throws(fault, 0) ==> r == Respond(204, ()) && lines == old(lines) - {id}
    {
      if !IsObjectIdValid(id) || Throws(fault, 0) {
        r := Next(DatabaseError);
        return;
      }
      lines := lines - {id};
      r := Respond(204, ());
    }
  }
}
