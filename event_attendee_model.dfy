/** src/models/EventAttendee.ts: one registration of a user for an event,
    with its approval flag and an optional payment receipt, and the toJSON
    transform that hides the receipt's storage id and the raw references. */
module EventAttendeeModel {
  import opened Common
  import opened Documents
  import opened AppErrors

  /** The receipt sub-document; a missing field is null. */
  datatype Receipt = Receipt(imageUrl: Option<string>, cloudinaryPublicId: Option<string>)

  const EmptyReceipt := Receipt(None, None)

  datatype Attendee = Attendee(id: Id, userId: Id, eventId: Id, isApproved: bool, receipt: Receipt)

  /** What `new EventAttendee({...})` is given; None is an absent field. */
  datatype AttendeeInput = AttendeeInput(
    userId: Option<Id>,
    eventId: Option<Id>,
    isApproved: Option<bool>,
    receipt: Option<Receipt>)

  /** The record built from an input: userId and eventId are required,
      isApproved defaults to true and the receipt to {null, null}. */
  function NewAttendee(id: Id, input: AttendeeInput): (r: Result<Attendee>)
    ensures r.Ok? <==> input.userId.Some? && input.eventId.Some?
    ensures r.Err? ==>
      && r.error.StoreError? && r.error.cause.SchemaInvalid?
      && r.error.cause.fields.Keys
         == (if input.userId.None? then {"userId"} else {}) + (if input.eventId.None? then {"eventId"} else {})
      && forall p :: p in r.error.cause.fields ==> r.error.cause.fields[p] == RequiredError(p)
    ensures r.Ok? ==> r.value == Attendee(id, input.userId.value, input.eventId.value,
      if input.isApproved.Some? then input.isApproved.value else true,
      if input.receipt.Some? then input.receipt.value else EmptyReceipt)
  {
    if input.userId.None? || input.eventId.None? then
      var m1: map<string, FieldError> := if input.userId.None? then map["userId" := RequiredError("userId")] else map[];
      var m2 := if input.eventId.None? then m1["eventId" := RequiredError("eventId")] else m1;
      Err(StoreError(SchemaInvalid(m2)))
    else
      var approved := if input.isApproved.Some? then input.isApproved.value else true;
      var receipt := if input.receipt.Some? then input.receipt.value else EmptyReceipt;
      Ok(Attendee(id, input.userId.value, input.eventId.value, approved, receipt))
  }

  /** The document mongoose serialises: the stored paths, the version key and
      the `id` virtual. */
  function AttendeeDocument(a: Attendee): Doc {
    map[
      "_id" := JStr(a.id),
      "id" := JStr(a.id),
      "userId" := JStr(a.userId),
      "eventId" := JStr(a.eventId),
      "isApproved" := JBool(a.isApproved),
      "receipt" := JObj(map[
        "imageUrl" := NullableString(a.receipt.imageUrl),
        "cloudinaryPublicId" := NullableString(a.receipt.cloudinaryPublicId)]),
      "__v" := JNum(0.0)]
  }

  /** The keys the transform deletes from the top level of `ret`. */
  const HiddenKeys := {"userId", "eventId", "__v", "_id"}

  /** The toJSON transform. `delete ret.receipt.cloudinaryPublicId` throws a
      TypeError when `ret.receipt` is null or absent (None); a receipt that
      is an object loses that key, and the four hidden keys are deleted. */
  function AttendeeToJson(ret: Doc): (out: Option<Doc>)
    ensures out.None? <==> "receipt" !in ret || ret["receipt"].JNull?
    ensures out.Some? ==> out.value.Keys == ret.Keys - HiddenKeys
    ensures out.Some? ==> forall k :: k in out.value && k != "receipt" ==> out.value[k] == ret[k]
    ensures out.Some? && ret["receipt"].JObj? ==>
      && out.value["receipt"].JObj?
      && out.value["receipt"].fields.Keys == ret["receipt"].fields.Keys - {"cloudinaryPublicId"}
      && forall k :: k in out.value["receipt"].fields ==> out.value["receipt"].fields[k] == ret["receipt"].fields[k]
  {
    if "receipt" !in ret || ret["receipt"].JNull? then None
    else
      var receipt := ret["receipt"];
      var receipt' := if receipt.JObj? then JObj(receipt.fields - {"cloudinaryPublicId"}) else receipt;
      Some(ret["receipt" := receipt'] - HiddenKeys)
  }

  /** Serialising a stored attendee never shows its receipt's storage id,
      its userId, eventId, `__v` or `_id`, and shows `isApproved`, the
      receipt's image URL and the `id` virtual unchanged. */
  lemma AttendeeJsonOfRecord(a: Attendee)
    ensures AttendeeToJson(AttendeeDocument(a)).Some?
    ensures var j := AttendeeToJson(AttendeeDocument(a)).value;
      && j.Keys == {"id", "isApproved", "receipt"}
      && j["id"] == JStr(a.id)
      && j["isApproved"] == JBool(a.isApproved)
      && j["receipt"] == JObj(map["imageUrl" := NullableString(a.receipt.imageUrl)])
  {
    var d := AttendeeDocument(a);
    AttendeeDocumentKeys(a);
    VisibleAttendeeKeys(d.Keys);
    var j := AttendeeToJson(d).value;
    var rf := d["receipt"].fields;
    ReceiptKeys(a);
    StorageIdDropped(rf, NullableString(a.receipt.imageUrl));
  }

  lemma AttendeeDocumentKeys(a: Attendee)
    ensures AttendeeDocument(a).Keys == {"_id", "id", "userId", "eventId", "isApproved", "receipt", "__v"}
  {
  }

  lemma VisibleAttendeeKeys(keys: set<string>)
    requires keys == {"_id", "id", "userId", "eventId", "isApproved", "receipt", "__v"}
    ensures keys - HiddenKeys == {"id", "isApproved", "receipt"}
  {
  }

  lemma ReceiptKeys(a: Attendee)
    ensures AttendeeDocument(a)["receipt"].fields.Keys == {"imageUrl", "cloudinaryPublicId"}
    ensures AttendeeDocument(a)["receipt"].fields["imageUrl"] == NullableString(a.receipt.imageUrl)
  {
  }

  lemma StorageIdDropped(rf: map<string, Json>, url: Json)
    requires rf.Keys == {"imageUrl", "cloudinaryPublicId"} && rf["imageUrl"] == url
    ensures rf - {"cloudinaryPublicId"} == map["imageUrl" := url]
  {
    assert (rf - {"cloudinaryPublicId"}).Keys == {"imageUrl"};
  }
}
