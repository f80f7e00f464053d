/** src/services/eventService.ts: lookups over the event catalogue, the three
    temporal queries (each restricted to active events and ordered by start
    date), and the attendance ledger with its register / look-up / delete
    operations. */
module EventService {
  import opened Common
  import opened AppErrors
  import opened EventModel
  import opened EventAttendeeModel

  // ---------------------------------------------------------------------
  // Filtering and ordering

  /** The elements of `s` that satisfy `p`, in their original order. */
  function Select<T(!new)>(s: seq<T>, p: T -> bool): (r: seq<T>)
    ensures |r| <= |s|
    ensures forall x :: x in r <==> x in s && p(x)
    ensures forall i :: 0 <= i < |r| ==> p(r[i])
    ensures multiset(r) <= multiset(s)
  {
    if s == [] then []
    else
      var rest := Select(s[1..], p);
      assert s == [s[0]] + s[1..];
      if p(s[0]) then [s[0]] + rest else rest
  }

  /** Select keeps every occurrence of an element that satisfies `p` and
      none of one that does not. */
  lemma {:induction false} SelectKeepsCounts<T(!new)>(s: seq<T>, p: T -> bool)
    ensures forall x :: multiset(Select(s, p))[x] == (if p(x) then multiset(s)[x] else 0)
  {
    if s != [] {
      SelectKeepsCounts(s[1..], p);
      var rest := Select(s[1..], p);
      assert s == [s[0]] + s[1..];
      assert multiset(s) == multiset{s[0]} + multiset(s[1..]);
      if p(s[0]) {
        assert Select(s, p) == [s[0]] + rest;
        assert multiset([s[0]] + rest) == multiset{s[0]} + multiset(rest);
      } else {
        assert Select(s, p) == rest;
      }
    }
  }

  /** Non-decreasing start dates, neighbour by neighbour. */
  predicate SortedByStart(s: seq<Event>) {
    forall i :: 0 < i < |s| ==> s[i - 1].startDate <= s[i].startDate
  }

  /** Inserts `e` before the first event that does not start earlier. */
  function InsertByStart(e: Event, s: seq<Event>): (r: seq<Event>)
    requires SortedByStart(s)
    ensures SortedByStart(r)
    ensures multiset(r) == multiset(s) + multiset{e}
    ensures r[0] == e || (s != [] && r[0] == s[0])
  {
    if s == [] || e.startDate <= s[0].startDate then [e] + s
    else
      var rest := InsertByStart(e, s[1..]);
      assert s == [s[0]] + s[1..];
      [s[0]] + rest
  }

  /** The order of `.sort({ startDate: 1 })`: the same events, by start date. */
  function SortByStart(s: seq<Event>): (r: seq<Event>)
    ensures SortedByStart(r)
    ensures multiset(r) == multiset(s)
  {
    if s == [] then []
    else
      assert s == [s[0]] + s[1..];
      InsertByStart(s[0], SortByStart(s[1..]))
  }

  // ---------------------------------------------------------------------
  // The catalogue queries

  /** getEvent: null for a malformed id; otherwise the stored event with that
      id, or null when there is none. */
  function GetEvent(events: seq<Event>, id: Id): (r: Option<Event>)
    ensures r.None? <==> !IsObjectIdValid(id) || forall e :: e in events ==> e.id != id
    ensures r.Some? ==> r.value in events && r.value.id == id
  {
    if !IsObjectIdValid(id) then None else FindById(events, id)
  }

  function FindById(events: seq<Event>, id: Id): (r: Option<Event>)
    ensures r.None? <==> forall e :: e in events ==> e.id != id
    ensures r.Some? ==> r.value in events && r.value.id == id
  {
    if events == [] then None
    else if events[0].id == id then Some(events[0])
    else
      var r := FindById(events[1..], id);
      assert forall e :: e in events ==> e == events[0] || e in events[1..];
      r
  }

  predicate HappeningAt(e: Event, d: int) {
    e.isActive && e.startDate <= d && e.endDate >= d
  }

  predicate StartsAfter(e: Event, d: int) {
    e.isActive && e.startDate > d
  }

  predicate EndedBefore(e: Event, d: int) {
    e.isActive && e.endDate < d
  }

  /** getActiveEventsAtDate: the active events under way at `d` (started at
      or before it, ending at or after it), by start date. */
  function ActiveEventsAtDate(events: seq<Event>, d: int): (r: seq<Event>)
    ensures forall e :: e in r <==> e in events && HappeningAt(e, d)
    ensures SortedByStart(r)
    ensures multiset(r) == multiset(Select(events, e => HappeningAt(e, d)))
  {
    var r := SortByStart(Select(events, e => HappeningAt(e, d)));
    assert forall e :: e in r <==> e in multiset(r);
    r
  }

  /** getActiveEventsStartsAfterDate: the active events that start strictly
      after `d`, by start date. */
  function ActiveEventsStartsAfterDate(events: seq<Event>, d: int): (r: seq<Event>)
    ensures forall e :: e in r <==> e in events && StartsAfter(e, d)
    ensures SortedByStart(r)
    ensures multiset(r) == multiset(Select(events, e => StartsAfter(e, d)))
  {
    var r := SortByStart(Select(events, e => StartsAfter(e, d)));
    assert forall e :: e in r <==> e in multiset(r);
    r
  }

  /** getActiveEndedBeforeDate: the active events that ended strictly before
      `d`, by start date. */
  function ActiveEndedBeforeDate(events: seq<Event>, d: int): (r: seq<Event>)
    ensures forall e :: e in r <==> e in events && EndedBefore(e, d)
    ensures SortedByStart(r)
    ensures multiset(r) == multiset(Select(events, e => EndedBefore(e, d)))
  {
    var r := SortByStart(Select(events, e => EndedBefore(e, d)));
    assert forall e :: e in r <==> e in multiset(r);
    r
  }

  /** A stored active event that does not end before it starts is reported
      by exactly one of the three queries, whatever the date. */
  lemma ExactlyOneQuery(events: seq<Event>, e: Event, d: int)
    requires e in events && e.isActive && e.endDate >= e.startDate
    ensures e in ActiveEventsAtDate(events, d) || e in ActiveEventsStartsAfterDate(events, d)
      || e in ActiveEndedBeforeDate(events, d)
    ensures !(e in ActiveEventsAtDate(events, d) && e in ActiveEventsStartsAfterDate(events, d))
    ensures !(e in ActiveEventsAtDate(events, d) && e in ActiveEndedBeforeDate(events, d))
    ensures !(e in ActiveEventsStartsAfterDate(events, d) && e in ActiveEndedBeforeDate(events, d))
  {
  }

  /** An inactive event is reported by none of them. */
  lemma InactiveNeverReported(events: seq<Event>, e: Event, d: int)
    requires !e.isActive
    ensures e !in ActiveEventsAtDate(events, d) && e !in ActiveEventsStartsAfterDate(events, d)
      && e !in ActiveEndedBeforeDate(events, d)
  {
  }

  // ---------------------------------------------------------------------
  // The attendance ledger

  predicate Matches(a: Attendee, userId: Id, eventId: Id) {
    a.userId == userId && a.eventId == eventId
  }

  /** The position of the first record of (userId, eventId), as `findOne`
      and `findOneAndDelete` pick it in natural order. */
  function FirstMatch(s: seq<Attendee>, userId: Id, eventId: Id): (r: Option<nat>)
    ensures r.None? <==> forall i :: 0 <= i < |s| ==> !Matches(s[i], userId, eventId)
    ensures r.Some? ==>
      && r.value < |s| && Matches(s[r.value], userId, eventId)
      && forall i :: 0 <= i < r.value ==> !Matches(s[i], userId, eventId)
  {
    if s == [] then None
    else if Matches(s[0], userId, eventId) then Some(0)
    else
      var r := FirstMatch(s[1..], userId, eventId);
      if r.None? then None else Some(r.value + 1)
  }

  /** The number of records of (userId, eventId). */
  function Count(s: seq<Attendee>, userId: Id, eventId: Id): nat {
    if s == [] then 0
    else (if Matches(s[0], userId, eventId) then 1 else 0) + Count(s[1..], userId, eventId)
  }

  lemma {:induction false} CountAppend(s: seq<Attendee>, a: Attendee, userId: Id, eventId: Id)
    ensures Count(s + [a], userId, eventId)
      == Count(s, userId, eventId) + (if Matches(a, userId, eventId) then 1 else 0)
  {
    if s == [] {
      assert [] + [a] == [a];
      assert [a][1..] == [];
    } else {
      assert (s + [a])[0] == s[0];
      assert (s + [a])[1..] == s[1..] + [a];
      CountAppend(s[1..], a, userId, eventId);
    }
  }

  /** The records are kept in insertion order; deleted images are requests
      to the cloud store, recorded in the order they are made. */
  class AttendeeLedger {
    var records: seq<Attendee>
    var cloudDeletes: seq<string>

    constructor ()
      ensures records == [] && cloudDeletes == []
    {
      records := [];
      cloudDeletes := [];
    }

    /** Some record pairs the user with the event. */
    predicate HasRecord(userId: Id, eventId: Id)
      reads this
    {
      exists i :: 0 <= i < |records| && Matches(records[i], userId, eventId)
    }

    /** isUserRegisteredInEvent: store call 0 is the `findOne`, whose
        failure the service passes on. */
    function IsUserRegisteredInEvent(userId: Id, eventId: Id, fault: StoreFault): (r: Result<bool>)
      reads this
      ensures Throws(fault, 0) ==> r == Err(StoreError(Unavailable))
      ensures !Throws(fault, 0) ==> r.Ok?
      ensures r.Ok? ==> (r.value <==> HasRecord(userId, eventId))
      ensures r.Ok? ==> (r.value <==> Count(records, userId, eventId) > 0)
    {
      CountPositive(records, userId, eventId);
      if Throws(fault, 0) then Err(StoreError(Unavailable))
      else Ok(FirstMatch(records, userId, eventId).Some?)
    }

    /** getEventAttendee: the first record of the pair, or null; store call
        0 is the `findOne`. */
    function GetEventAttendee(userId: Id, eventId: Id, fault: StoreFault): (r: Result<Option<Attendee>>)
      reads this
      ensures Throws(fault, 0) ==> r == Err(StoreError(Unavailable))
      ensures !Throws(fault, 0) ==> r.Ok?
      ensures r.Ok? ==> (r.value.None? <==> !HasRecord(userId, eventId))
      ensures r.Ok? && r.value.Some? ==> r.value.value in records && Matches(r.value.value, userId, eventId)
    {
      if Throws(fault, 0) then Err(StoreError(Unavailable))
      else
        var i := FirstMatch(records, userId, eventId);
        if i.None? then Ok(None) else Ok(Some(records[i.value]))
    }

    /** getEventAttendees: every record of the event, in ledger order; store
        call 0 is the `find` with its populates. */
    function GetEventAttendees(eventId: Id, fault: StoreFault): (r: Result<seq<Attendee>>)
      reads this
      ensures Throws(fault, 0) ==> r == Err(StoreError(Unavailable))
      ensures !Throws(fault, 0) ==> r.Ok?
      ensures r.Ok? ==> forall a :: a in r.value <==> a in records && a.eventId == eventId
      ensures r.Ok? ==> multiset(r.value) <= multiset(records)
    {
      if Throws(fault, 0) then Err(StoreError(Unavailable))
      else Ok(Select(records, (a: Attendee) => a.eventId == eventId))
    }

    /** registerUserInEvent: stores a new record approved exactly when the
        event is not paid (isPaid defaults to false) with the given receipt
        (by default {null, null}). An existing record of the same pair is not
        looked at, so a second registration adds a second record. Store call
        0 is the save, calls 1 and 2 the two `populate`s after it: when one
        of those fails, the record stays saved and the call fails. */
    method RegisterUserInEvent(userId: Id, eventId: Id, isPaid: Option<bool>, receipt: Option<Receipt>,
                               newId: Id, fault: StoreFault)
      returns (r: Result<Attendee>)
      modifies this
      ensures cloudDeletes == old(cloudDeletes)
      ensures Throws(fault, 0) ==> r == Err(StoreError(Unavailable)) && records == old(records)
      ensures !Throws(fault, 0) ==>
        var a := Attendee(newId, userId, eventId, !GetOr(isPaid, false), GetOr(receipt, EmptyReceipt));
        && records == old(records) + [a]
        && HasRecord(userId, eventId)
        && Count(records, userId, eventId) == Count(old(records), userId, eventId) + 1
        && (Throws(fault, 1) || Throws(fault, 2) ==> r == Err(StoreError(Unavailable)))
        && (!Throws(fault, 1) && !Throws(fault, 2) ==> r == Ok(a))
    {
      var paid := GetOr(isPaid, false);
      var given := GetOr(receipt, EmptyReceipt);
      r := NewAttendee(newId, AttendeeInput(Some(userId), Some(eventId), Some(!paid), Some(given)));
      if Throws(fault, 0) {
        r := Err(StoreError(Unavailable));
        return;
      }
      CountAppend(records, r.value, userId, eventId);
      records := records + [r.value];
      CountPositive(records, userId, eventId);
      if Throws(fault, 1) || Throws(fault, 2) {
        r := Err(StoreError(Unavailable));
      }
    }

    /** deleteEventAttendee: removes the first record of the pair and returns
        it; when the removed receipt has a (truthy) storage id, a delete of
        that image is requested. Without a record nothing changes. Store call
        0 is the `findOneAndDelete`; call 1 is the image delete, whose
        failure fails the call after the record is gone. */
    method DeleteEventAttendee(userId: Id, eventId: Id, fault: StoreFault) returns (r: Result<Option<Attendee>>)
      modifies this
      ensures Throws(fault, 0) ==> r == Err(StoreError(Unavailable)) && records == old(records) && cloudDeletes == old(cloudDeletes)
      ensures !Throws(fault, 0) ==>
        var i := FirstMatch(old(records), userId, eventId);
        && (i.None? ==> r == Ok(None) && records == old(records) && cloudDeletes == old(cloudDeletes))
        && (i.Some? ==>
              var removed := old(records)[i.value];
              var cleanup := ReceiptCleanup(removed.receipt);
              && records == old(records)[..i.value] + old(records)[i.value + 1..]
              && (cleanup != [] && Throws(fault, 1) ==> r == Err(StoreError(Unavailable)) && cloudDeletes == old(cloudDeletes))
              && (cleanup == [] || !Throws(fault, 1) ==> r == Ok(Some(removed)) && cloudDeletes == old(cloudDeletes) + cleanup))
      ensures |records| + (if records == old(records) then 0 else 1) == |old(records)|
    {
      if Throws(fault, 0) {
        r := Err(StoreError(Unavailable));
        return;
      }
      var i := FirstMatch(records, userId, eventId);
      if i.None? {
        r := Ok(None);
        return;
      }
      var removed := records[i.value];
      records := records[..i.value] + records[i.value + 1..];
      var cleanup := ReceiptCleanup(removed.receipt);
      if cleanup != [] && Throws(fault, 1) {
        r := Err(StoreError(Unavailable));
        return;
      }
      cloudDeletes := cloudDeletes + cleanup;
      r := Ok(Some(removed));
    }
  }

  /** The image deletes owed for a removed receipt: one, for a storage id
      that is a non-empty string, none otherwise. */
  function ReceiptCleanup(receipt: Receipt): (ids: seq<string>)
    ensures |ids| <= 1
    ensures ids != [] <==> receipt.cloudinaryPublicId.Some? && receipt.cloudinaryPublicId.value != ""
    ensures ids != [] ==> ids[0] == receipt.cloudinaryPublicId.value
  {
    if receipt.cloudinaryPublicId.Some? && receipt.cloudinaryPublicId.value != "" then [receipt.cloudinaryPublicId.value]
    else []
  }

  lemma {:induction false} CountPositive(s: seq<Attendee>, userId: Id, eventId: Id)
    ensures Count(s, userId, eventId) > 0 <==> exists i :: 0 <= i < |s| && Matches(s[i], userId, eventId)
  {
    if s != [] {
      CountPositive(s[1..], userId, eventId);
      if Matches(s[0], userId, eventId) {
        assert Matches(s[0], userId, eventId);
      } else if exists i :: 0 <= i < |s| && Matches(s[i], userId, eventId) {
        var i :| 0 <= i < |s| && Matches(s[i], userId, eventId);
        assert s[1..][i - 1] == s[i];
      } else {
        assert forall i :: 0 <= i < |s| - 1 ==> s[1..][i] == s[i + 1];
      }
    }
  }

  /** A receipt without a storage id never leads to a cloud delete; the
      default receipt in particular. */
  lemma DefaultReceiptNeedsNoCleanup()
    ensures ReceiptCleanup(EmptyReceipt) == []
    ensures ReceiptCleanup(Receipt(Some("u"), Some(""))) == []
  {
  }
}
