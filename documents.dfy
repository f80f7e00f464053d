/** The JSON-like documents that mongoose hands to a schema's toJSON and
    toObject transforms (`ret`), and JavaScript truthiness on their values. */
module Documents {
  import opened Common

  datatype Json =
    | JNull
    | JBool(b: bool)
    | JNum(n: real)
    | JStr(s: string)
    | JArr(items: seq<Json>)
    | JObj(fields: map<string, Json>)

  /** A plain object: its keys and their values. */
  type Doc = map<string, Json>

  /** JavaScript's `!!v`. */
  predicate Truthy(v: Json) {
    match v
    case JNull => false
    case JBool(b) => b
    case JNum(n) => n != 0.0
    case JStr(s) => s != ""
    case _ => true
  }

  /** A string field that mongoose stores as null when it has no value. */
  function NullableString(o: Option<string>): Json {
    match o
    case None => JNull
    case Some(s) => JStr(s)
  }

  /** `ret.id = ret._id; delete ret._id`: an absent `_id` leaves `id`
      undefined, which the serialised object does not show. */
  function RenameId(ret: Doc): (out: Doc)
    ensures "_id" !in out
    ensures "id" in out <==> "_id" in ret
    ensures "_id" in ret ==> out["id"] == ret["_id"]
    ensures forall k :: k != "id" && k != "_id" ==> (k in out <==> k in ret)
    ensures forall k :: k in out && k != "id" ==> out[k] == ret[k]
  {
    if "_id" in ret then ret["id" := ret["_id"]] - {"_id"} else ret - {"id", "_id"}
  }
}
