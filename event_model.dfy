/** src/models/Event.ts: the event record, its defaults and required paths,
    the pre-save hook that derives `endDate` from `startDate` and `duration`,
    and the collection the documents are saved into. Times are whole seconds
    and a duration is a number of hours. */
module EventModel {
  import opened Common
  import opened AppErrors

  const SecondsPerHour := 3600

  const DefaultPrice := 0.0
  const DefaultDuration := 24
  const DefaultMinAge := 18
  const DefaultMaxAge := 60

  datatype Event = Event(
    id: Id,
    name: string,
    description: string,
    startDate: int,
    duration: int,
    capacity: int,
    price: real,
    registrationClosed: bool,
    isActive: bool,
    isPaid: bool,
    minAge: int,
    maxAge: int,
    category: Option<Id>,
    endDate: int)

  /** The fields a client may supply to `new Event({...})`; None is an
      absent field. */
  datatype EventInput = EventInput(
    name: Option<string>,
    description: Option<string>,
    startDate: Option<int>,
    capacity: Option<int>,
    price: Option<real>,
    duration: Option<int>,
    registrationClosed: Option<bool>,
    isActive: Option<bool>,
    isPaid: Option<bool>,
    minAge: Option<int>,
    maxAge: Option<int>,
    category: Option<Id>,
    endDate: Option<int>)

  function GetOr<T>(o: Option<T>, default: T): T {
    if o.Some? then o.value else default
  }

  /** The required paths: name, description, startDate and capacity. */
  predicate Complete(input: EventInput) {
    PresentText(input.name) && PresentText(input.description)
    && input.startDate.Some? && input.capacity.Some?
  }

  /** The validation error of an incomplete input: one `required` entry per
      missing path. */
  function MissingPaths(input: EventInput): (m: map<string, FieldError>)
    ensures m.Keys <= {"name", "description", "startDate", "capacity"}
    ensures forall p :: p in m ==> m[p] == RequiredError(p)
    ensures ("name" in m <==> !PresentText(input.name))
      && ("description" in m <==> !PresentText(input.description))
      && ("startDate" in m <==> input.startDate.None?)
      && ("capacity" in m <==> input.capacity.None?)
    ensures m == map[] <==> Complete(input)
  {
    var m1: map<string, FieldError> := if PresentText(input.name) then map[] else map["name" := RequiredError("name")];
    var m2 := if PresentText(input.description) then m1 else m1["description" := RequiredError("description")];
    var m3 := if input.startDate.Some? then m2 else m2["startDate" := RequiredError("startDate")];
    var m4 := if input.capacity.Some? then m3 else m3["capacity" := RequiredError("capacity")];
    assert m4 == map[] ==> "capacity" !in m4 && "startDate" !in m4 && "description" !in m4 && "name" !in m4;
    m4
  }

  /** startDate plus `duration` hours. */
  function EndDate(startDate: int, duration: int): int {
    startDate + duration * SecondsPerHour
  }

  /** The pre-save hook: `endDate` becomes a copy of `startDate` moved
      forward by `duration` hours; no other field changes. */
  function PreSave(doc: Event): (saved: Event)
    ensures saved.endDate == EndDate(doc.startDate, doc.duration)
    ensures saved.(endDate := doc.endDate) == doc
  {
    var endDate := doc.startDate;
    doc.(endDate := endDate + doc.duration * SecondsPerHour)
  }

  /** `new Event(input)` followed by validation and the pre-save hook. */
  function NewEvent(id: Id, input: EventInput): (r: Result<Event>)
    ensures r.Err? <==> !Complete(input)
    ensures r.Err? ==> r.error == StoreError(SchemaInvalid(MissingPaths(input)))
    ensures r.Ok? ==>
              && r.value.id == id && r.value.category == input.category
              && r.value.name == input.name.value && r.value.description == input.description.value
              && r.value.startDate == input.startDate.value && r.value.capacity == input.capacity.value
    ensures r.Ok? ==>
              && r.value.price == GetOr(input.price, DefaultPrice)
              && r.value.duration == GetOr(input.duration, DefaultDuration)
              && r.value.registrationClosed == GetOr(input.registrationClosed, false)
              && r.value.isActive == GetOr(input.isActive, true)
              && r.value.isPaid == GetOr(input.isPaid, false)
              && r.value.minAge == GetOr(input.minAge, DefaultMinAge)
              && r.value.maxAge == GetOr(input.maxAge, DefaultMaxAge)
              && r.value.endDate == EndDate(r.value.startDate, r.value.duration)
  {
    if !Complete(input) then Err(StoreError(SchemaInvalid(MissingPaths(input))))
    else
      Ok(PreSave(Event(
        id := id,
        name := input.name.value,
        description := input.description.value,
        startDate := input.startDate.value,
        duration := GetOr(input.duration, DefaultDuration),
        capacity := input.capacity.value,
        price := GetOr(input.price, DefaultPrice),
        registrationClosed := GetOr(input.registrationClosed, false),
        isActive := GetOr(input.isActive, true),
        isPaid := GetOr(input.isPaid, false),
        minAge := GetOr(input.minAge, DefaultMinAge),
        maxAge := GetOr(input.maxAge, DefaultMaxAge),
        category := input.category,
        endDate := GetOr(input.endDate, input.startDate.value))))
  }

  /** An event whose optional fields are all absent gets the schema
      defaults and ends 24 hours after it starts. */
  lemma DefaultsOfNewEvent(id: Id, input: EventInput)
    requires Complete(input)
    requires input.price.None? && input.duration.None? && input.registrationClosed.None?
    requires input.isActive.None? && input.isPaid.None? && input.minAge.None? && input.maxAge.None?
    ensures NewEvent(id, input).Ok?
    ensures var e := NewEvent(id, input).value;
      && e.price == 0.0 && e.duration == 24 && !e.registrationClosed && e.isActive && !e.isPaid
      && e.minAge == 18 && e.maxAge == 60
      && e.endDate == e.startDate + 24 * 3600
  {
  }

  /** Whatever `endDate` the client supplies, the saved one is the derived one. */
  lemma SuppliedEndDateIgnored(id: Id, input: EventInput, other: Option<int>)
    ensures NewEvent(id, input) == NewEvent(id, input.(endDate := other))
    ensures NewEvent(id, input).Ok? ==>
      NewEvent(id, input).value.endDate == EndDate(input.startDate.value, GetOr(input.duration, DefaultDuration))
  {
  }

  /** With a duration of zero or more hours the saved event does not end
      before it starts. */
  lemma SavedEventEndsAfterStart(doc: Event)
    requires doc.duration >= 0
    ensures PreSave(doc).endDate >= PreSave(doc).startDate
  {
  }

  /** The events collection. Every document in it went through the pre-save
      hook, so its end date is always the derived one. */
  class EventCollection {
    var events: seq<Event>

    ghost predicate Valid()
      reads this
    {
      forall i :: 0 <= i < |events| ==> events[i].endDate == EndDate(events[i].startDate, events[i].duration)
    }

    constructor ()
      ensures Valid() && events == []
    {
      events := [];
    }

    /** `new Event(input).save()`: store call `call` is the write. */
    method Save(id: Id, input: EventInput, fault: StoreFault, call: nat) returns (r: Result<Event>)
      requires Valid()
      modifies this
      ensures Valid()
      ensures NewEvent(id, input).Err? ==> r == NewEvent(id, input) && events == old(events)
      ensures NewEvent(id, input).Ok? && Throws(fault, call) ==> r == Err(StoreError(Unavailable)) && events == old(events)
      ensures NewEvent(id, input).Ok? && !Throws(fault, call) ==>
        r == NewEvent(id, input) && events == old(events) + [r.value]
    {
      r := NewEvent(id, input);
      if r.Err? {
        return;
      }
      if Throws(fault, call) {
        r := Err(StoreError(Unavailable));
        return;
      }
      events := events + [r.value];
    }
  }
}
