/** src/controllers/eventCategoryController.ts: the category handlers over the
    category table. Each handler's store calls are numbered 0, 1, 2 in the
    order the source awaits them (see Common.StoreFault). */
module EventCategoryController {
  import opened Common
  import opened AppErrors
  import opened EventModel
  import opened EventCategoryModel
  import EventService

  const InvalidIdMessage := "Invalid id format"
  const NameTakenOnCreateMessage := "Another category with the same name exist"
  const NameTakenOnUpdateMessage := "Category name already exists"
  const DeletedMessage := "Category deleted successfully"

  /** The 404 message of the lookup and the update. */
  function NotFoundMessage(id: Id): string {
    "Category with id [" + id + "] doesn't exist"
  }

  /** The 404 message of the delete, worded differently in the source. */
  function NotFoundOnDeleteMessage(id: Id): string {
    "Category with id [" + id + "] doesn't exists"
  }

  /** `new ValidationError(...)` with the one argument the handlers pass. */
  function InvalidRequest(detail: string): Error {
    ValidationError(detail, map[])
  }

  /** getCategoryEvents after its id check: the events filed under the
      category, in catalogue order. Store call 0 is the query. */
  function GetCategoryEvents(events: seq<Event>, id: Id, fault: StoreFault): (r: Reply<seq<Event>>)
    ensures !IsObjectIdValid(id) ==> r == Next(InvalidRequest(InvalidIdMessage))
    ensures IsObjectIdValid(id) && Throws(fault, 0) ==> r == Next(StoreError(Unavailable))
    ensures IsObjectIdValid(id) && !Throws(fault, 0) ==>
      && r.Respond? && r.status == 200
      && (forall e :: e in r.body <==> e in events && e.category == Some(id))
  {
    if !IsObjectIdValid(id) then Next(InvalidRequest(InvalidIdMessage))
    else if Throws(fault, 0) then Next(StoreError(Unavailable))
    else Respond(200, EventService.Select(events, (e: Event) => e.category == Some(id)))
  }

  /** The categories, keyed by id. */
  class CategoryTable {
    var rows: map<Id, Category>

    /** Every row is stored under its own id and the unique index on `name`
        holds. */
    ghost predicate Valid()
      reads this
    {
      && (forall id :: id in rows ==> rows[id].id == id)
      && (forall a, b :: a in rows && b in rows && rows[a].name == rows[b].name ==> a == b)
    }

    constructor ()
      ensures Valid() && rows == map[]
    {
      rows := map[];
    }

    /** Some row other than `except` has this name. */
    predicate NameTaken(name: string, except: Option<Id>)
      reads this
    {
      exists id :: id in rows && rows[id].name == name && Some(id) != except
    }

    /** getCategoryById. Store call 0 is the lookup. */
    function GetCategoryById(id: Id, fault: StoreFault): (r: Reply<Category>)
      reads this
      ensures !IsObjectIdValid(id) ==> r == Next(InvalidRequest(InvalidIdMessage))
      ensures IsObjectIdValid(id) && Throws(fault, 0) ==> r == Next(StoreError(Unavailable))
      ensures IsObjectIdValid(id) && !Throws(fault, 0) && id !in rows ==> r == Next(NotFoundError(NotFoundMessage(id)))
      ensures r.Respond? <==> IsObjectIdValid(id) && !Throws(fault, 0) && id in rows
      ensures r.Respond? ==> r.status == 200 && r.body == rows[id]
    {
      if !IsObjectIdValid(id) then Next(InvalidRequest(InvalidIdMessage))
      else if Throws(fault, 0) then Next(StoreError(Unavailable))
      else if id !in rows then Next(NotFoundError(NotFoundMessage(id)))
      else Respond(200, rows[id])
    }

    /** createCategory. Store call 0 is the same-name lookup, whose result is
        ignored: only its failure is reported, as a name conflict. Store call
        1 is the save, where validation and the unique indexes on `_id` and
        `name` apply. */
    method CreateCategory(name: Option<string>, newId: Id, fault: StoreFault) returns (r: Reply<Category>)
      requires Valid()
      modifies this
      ensures Valid()
      ensures Throws(fault, 0) ==> r == Next(InvalidRequest(NameTakenOnCreateMessage)) && rows == old(rows)
      ensures !Throws(fault, 0) && NewCategory(newId, name).Err? ==>
        r == Next(NewCategory(newId, name).error) && rows == old(rows)
      ensures !Throws(fault, 0) && NewCategory(newId, name).Ok? && Throws(fault, 1) ==>
        r == Next(StoreError(Unavailable)) && rows == old(rows)
      ensures !Throws(fault, 0) && NewCategory(newId, name).Ok? && !Throws(fault, 1) ==>
        if newId in old(rows) || old(NameTaken(name.value, None)) then
          r == Next(StoreError(DuplicateKey)) && rows == old(rows)
        else
          r == Respond(201, Category(newId, name.value, None, None)) && rows == old(rows)[newId := r.body]
    {
      if Throws(fault, 0) {
        r := Next(InvalidRequest(NameTakenOnCreateMessage));
        return;
      }
      var created := NewCategory(newId, name);
      if created.Err? {
        r := Next(created.error);
        return;
      }
      if Throws(fault, 1) {
        r := Next(StoreError(Unavailable));
        return;
      }
      if newId in rows || NameTaken(created.value.name, None) {
        r := Next(StoreError(DuplicateKey));
        return;
      }
      rows := rows[newId := created.value];
      r := Respond(201, created.value);
    }

    /** updateCategoryById. Store call 0 finds the category, call 1 looks
        for another category with the requested name, call 2 writes the
        name with validators on. An absent name matches no other category
        and makes the update empty, so the category comes back unchanged. */
    method UpdateCategoryById(id: Id, name: Option<string>, fault: StoreFault) returns (r: Reply<Category>)
      requires Valid()
      modifies this
      ensures Valid()
      ensures !r.Respond? ==> rows == old(rows)
      ensures !IsObjectIdValid(id) ==> r == Next(InvalidRequest(InvalidIdMessage))
      ensures IsObjectIdValid(id) && Throws(fault, 0) ==> r == Next(StoreError(Unavailable))
      ensures IsObjectIdValid(id) && !Throws(fault, 0) && id !in old(rows) ==> r == Next(NotFoundError(NotFoundMessage(id)))
      ensures IsObjectIdValid(id) && !Throws(fault, 0) && id in old(rows) && Throws(fault, 1) ==>
        r == Next(StoreError(Unavailable))
      ensures (IsObjectIdValid(id) && !Throws(fault, 0) && id in old(rows) && !Throws(fault, 1)
               && name.Some? && old(NameTaken(name.value, Some(id)))) ==>
        r == Next(InvalidRequest(NameTakenOnUpdateMessage))
      ensures r.Respond? ==>
        && IsObjectIdValid(id) && id in old(rows) && !Throws(fault, 2)
        && r.status == 201
        && (name.Some? ==> name.value != "" && r.body == old(rows)[id].(name := name.value))
        && (name.None? ==> r.body == old(rows)[id])
        && rows == old(rows)[id := r.body]
      ensures (IsObjectIdValid(id) && !Throws(fault, 0) && id in old(rows) && !Throws(fault, 1) && !Throws(fault, 2)
               && (name.None? || (name.value != "" && !old(NameTaken(name.value, Some(id)))))) ==>
        r.Respond?
    {
      if !IsObjectIdValid(id) {
        r := Next(InvalidRequest(InvalidIdMessage));
        return;
      }
      if Throws(fault, 0) {
        r := Next(StoreError(Unavailable));
        return;
      }
      if id !in rows {
        r := Next(NotFoundError(NotFoundMessage(id)));
        return;
      }
      var category := rows[id];
      if Throws(fault, 1) {
        r := Next(StoreError(Unavailable));
        return;
      }
      if name.Some? && NameTaken(name.value, Some(id)) {
        r := Next(InvalidRequest(NameTakenOnUpdateMessage));
        return;
      }
      if Throws(fault, 2) {
        r := Next(StoreError(Unavailable));
        return;
      }
      if name.None? {
        r := Respond(201, category);
        return;
      }
      if name.value == "" {
        r := Next(StoreError(SchemaInvalid(map["name" := RequiredError("name")])));
        return;
      }
      var updated := category.(name := name.value);
      rows := rows[id := updated];
      r := Respond(201, updated);
    }

    /** deleteCategoryById. Store call 0 is the find-and-delete. */
    method DeleteCategoryById(id: Id, fault: StoreFault) returns (r: Reply<string>)
      requires Valid()
      modifies this
      ensures Valid()
      ensures !IsObjectIdValid(id) ==> r == Next(InvalidRequest(InvalidIdMessage)) && rows == old(rows)
      ensures IsObjectIdValid(id) && Throws(fault, 0) ==> r == Next(StoreError(Unavailable)) && rows == old(rows)
      ensures IsObjectIdValid(id) && !Throws(fault, 0) && id !in old(rows) ==>
        r == Next(NotFoundError(NotFoundOnDeleteMessage(id))) && rows == old(rows)
      ensures IsObjectIdValid(id) && !Throws(fault, 0) && id in old(rows) ==>
        r == Respond(204, DeletedMessage) && rows == old(rows) - {id}
    {
      if !IsObjectIdValid(id) {
        r := Next(InvalidRequest(InvalidIdMessage));
        return;
      }
      if Throws(fault, 0) {
        r := Next(StoreError(Unavailable));
        return;
      }
      if id !in rows {
        r := Next(NotFoundError(NotFoundOnDeleteMessage(id)));
        return;
      }
      rows := rows - {id};
      r := Respond(204, DeletedMessage);
    }
  }

  /** Renaming a category to the name it already has never conflicts with
      itself: the uniqueness lookup leaves out the category's own id. */
  lemma RenameToOwnNameAllowed(t: CategoryTable, id: Id)
    requires t.Valid() && id in t.rows
    ensures !t.NameTaken(t.rows[id].name, Some(id))
  {
  }
}
