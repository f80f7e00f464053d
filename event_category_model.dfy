/** src/models/EventCategory.ts: the category record (a required, unique
    name and an optional image) and its two serialisations, toJSON, which
    also hides the image's storage id, and toObject, which only renames the
    id. */
module EventCategoryModel {
  import opened Common
  import opened Documents
  import opened AppErrors

  datatype Category = Category(id: Id, name: string, imageUrl: Option<string>, cloudinaryPublicId: Option<string>)

  /** `new EventCategory({ name })` and its validation: the name is required
      (an empty string counts as absent); both image fields start as null. */
  function NewCategory(id: Id, name: Option<string>): (r: Result<Category>)
    ensures r.Ok? <==> PresentText(name)
    ensures r.Err? ==> r.error == StoreError(SchemaInvalid(map["name" := RequiredError("name")]))
    ensures r.Ok? ==> r.value == Category(id, name.value, None, None)
  {
    if PresentText(name) then Ok(Category(id, name.value, None, None))
    else Err(StoreError(SchemaInvalid(map["name" := RequiredError("name")])))
  }

  /** The document mongoose serialises: the stored paths, the version key and
      the `id` virtual. */
  function CategoryDocument(c: Category): Doc {
    map[
      "_id" := JStr(c.id),
      "id" := JStr(c.id),
      "name" := JStr(c.name),
      "imageUrl" := NullableString(c.imageUrl),
      "cloudinaryPublicId" := NullableString(c.cloudinaryPublicId),
      "__v" := JNum(0.0)]
  }

  /** The toJSON transform: the id is renamed and the storage id of the
      image is removed. */
  function CategoryToJson(ret: Doc): (out: Doc)
    ensures out.Keys == RenameId(ret).Keys - {"cloudinaryPublicId"}
    ensures forall k :: k in out ==> out[k] == RenameId(ret)[k]
  {
    RenameId(ret) - {"cloudinaryPublicId"}
  }

  /** The toObject transform: only the id is renamed. */
  function CategoryToObject(ret: Doc): (out: Doc)
    ensures out == RenameId(ret)
    ensures "cloudinaryPublicId" in ret ==> out["cloudinaryPublicId"] == ret["cloudinaryPublicId"]
  {
    RenameId(ret)
  }

  /** Serialising a stored category shows its id, name, image URL and
      version and never the image's storage id or `_id`; converting it to an
      object keeps the storage id. */
  lemma CategoryProjections(c: Category)
    ensures CategoryToJson(CategoryDocument(c)).Keys == {"id", "name", "imageUrl", "__v"}
    ensures CategoryToJson(CategoryDocument(c))["id"] == JStr(c.id)
    ensures CategoryToJson(CategoryDocument(c))["name"] == JStr(c.name)
    ensures CategoryToObject(CategoryDocument(c)).Keys == {"id", "name", "imageUrl", "cloudinaryPublicId", "__v"}
    ensures CategoryToObject(CategoryDocument(c))["cloudinaryPublicId"] == NullableString(c.cloudinaryPublicId)
  {
    var d := CategoryDocument(c);
    assert d.Keys == {"_id", "id", "name", "imageUrl", "cloudinaryPublicId", "__v"};
    assert RenameId(d).Keys == {"id", "name", "imageUrl", "cloudinaryPublicId", "__v"};
  }
}
