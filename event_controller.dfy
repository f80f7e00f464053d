/** src/controllers/eventController.ts: event creation, guarded by the two
    category checks, and the three listing handlers. `now` stands for the
    clock read by `new Date()`; store calls are numbered as in
    Common.StoreFault. */
module EventController {
  import opened Common
  import opened AppErrors
  import opened EventModel
  import opened EventCategoryController
  import EventService

  const InvalidCategoryIdMessage := "Invalid category id format"
  const UnknownCategoryMessage := "Category doesn't exist"

  /** `new ValidationError("Validation Error", { category: <message> })`. */
  function CategoryError(message: string): Error {
    ValidationError(ValidationMessage, map["category" := message])
  }

  /** createEvent. Store call 0 looks the category up, call 1 saves the
      event built from the whole body. */
  method CreateEvent(catalog: EventCollection, categories: CategoryTable, body: EventInput, newId: Id, fault: StoreFault)
    returns (r: Reply<Event>)
    requires catalog.Valid()
    modifies catalog
    ensures catalog.Valid()
    ensures !r.Respond? ==> catalog.events == old(catalog.events)
    ensures body.category.None? || !IsObjectIdValid(body.category.value) ==>
      r == Next(CategoryError(InvalidCategoryIdMessage))
    ensures (body.category.Some? && IsObjectIdValid(body.category.value) && Throws(fault, 0)) ==>
      r == Next(StoreError(Unavailable))
    ensures (body.category.Some? && IsObjectIdValid(body.category.value) && !Throws(fault, 0)
             && body.category.value !in categories.rows) ==>
      r == Next(CategoryError(UnknownCategoryMessage))
    ensures (body.category.Some? && IsObjectIdValid(body.category.value) && !Throws(fault, 0)
             && body.category.value in categories.rows) ==>
      && (NewEvent(newId, body).Err? ==> r == Next(NewEvent(newId, body).error))
      && (NewEvent(newId, body).Ok? && Throws(fault, 1) ==> r == Next(StoreError(Unavailable)))
      && (NewEvent(newId, body).Ok? && !Throws(fault, 1) ==>
            r == Respond(201, NewEvent(newId, body).value))
    ensures r.Respond? ==> catalog.events == old(catalog.events) + [r.body]
  {
    if body.category.None? || !IsObjectIdValid(body.category.value) {
      r := Next(CategoryError(InvalidCategoryIdMessage));
      return;
    }
    if Throws(fault, 0) {
      r := Next(StoreError(Unavailable));
      return;
    }
    if body.category.value !in categories.rows {
      r := Next(CategoryError(UnknownCategoryMessage));
      return;
    }
    var saved := catalog.Save(newId, body, fault, 1);
    if saved.Err? {
      r := Next(saved.error);
      return;
    }
    r := Respond(201, saved.value);
  }

  /** getAllEvents: every stored event, inactive ones included. Store call 0
      is the query. */
  function GetAllEvents(events: seq<Event>, fault: StoreFault): (r: Reply<seq<Event>>)
    ensures Throws(fault, 0) ==> r == Next(StoreError(Unavailable))
    ensures !Throws(fault, 0) ==> r.Respond? && r.status == 200 && (forall e :: e in r.body <==> e in events)
  {
    if Throws(fault, 0) then Next(StoreError(Unavailable)) else Respond(200, events)
  }

  predicate IsCurrent(e: Event, now: int) {
    e.isActive && e.endDate > now
  }

  predicate IsFinished(e: Event, now: int) {
    e.isActive && e.endDate < now
  }

  /** getCurrentEvents: the active events that have not ended yet, including
      those that have not started. */
  function GetCurrentEvents(events: seq<Event>, now: int, fault: StoreFault): (r: Reply<seq<Event>>)
    ensures Throws(fault, 0) ==> r == Next(StoreError(Unavailable))
    ensures !Throws(fault, 0) ==>
      r.Respond? && r.status == 200 && (forall e :: e in r.body <==> e in events && IsCurrent(e, now))
  {
    if Throws(fault, 0) then Next(StoreError(Unavailable))
    else Respond(200, EventService.Select(events, (e: Event) => IsCurrent(e, now)))
  }

  /** getFinishedEvents: the active events that ended before now. */
  function GetFinishedEvents(events: seq<Event>, now: int, fault: StoreFault): (r: Reply<seq<Event>>)
    ensures Throws(fault, 0) ==> r == Next(StoreError(Unavailable))
    ensures !Throws(fault, 0) ==>
      r.Respond? && r.status == 200 && (forall e :: e in r.body <==> e in events && IsFinished(e, now))
  {
    if Throws(fault, 0) then Next(StoreError(Unavailable))
    else Respond(200, EventService.Select(events, (e: Event) => IsFinished(e, now)))
  }

  /** No event is both current and finished; an event ending exactly now is
      neither; a saved active event that has not started yet is current. */
  lemma CurrentAndFinished(events: seq<Event>, now: int, e: Event)
    ensures var cur := GetCurrentEvents(events, now, Healthy).body;
      var fin := GetFinishedEvents(events, now, Healthy).body;
      && !(e in cur && e in fin)
      && (e.endDate == now ==> e !in cur && e !in fin)
      && ((e in events && e.isActive && e.startDate > now && e.duration >= 0
           && e.endDate == EndDate(e.startDate, e.duration)) ==> e in cur)
  {
  }
}
