/** src/middlewares/validateUpdateEventReq.ts: the Joi rule set an event
    update body must meet. Every key is optional; Joi stops at the first
    failing rule (abortEarly), checking the schema keys in declaration order
    and then rejecting the first key the schema does not know. The body is
    the parsed JSON object, its properties in enumeration order; `now` is
    the clock reading behind `min("now")` and `iso` is Joi's ISO 8601 date
    conversion to a time in seconds: of a string, or of a number by way of
    its decimal text (so `2030` reads as the year 2030). */
module UpdateEventValidation {
  import opened Common
  import opened Documents
  import opened AppErrors
  import opened JoiValidation

  /** A parsed JSON object: its properties in enumeration order. Their keys
      are distinct, since `JSON.parse` keeps only the last of repeated keys,
      so `Lookup` taking the first match is the object's own value. */
  type Body = seq<(string, Json)>

  /** The value of a property, if the body has it. */
  function Lookup(body: Body, key: string): (v: Option<Json>)
    ensures v.Some? <==> exists i :: 0 <= i < |body| && body[i].0 == key
    ensures v.Some? ==> exists i :: 0 <= i < |body| && body[i] == (key, v.value)
  {
    if body == [] then None
    else if body[0].0 == key then Some(body[0].1)
    else
      var v := Lookup(body[1..], key);
      assert forall i :: 0 < i < |body| ==> body[i] == body[1..][i - 1];
      assert v.Some? ==> exists i :: 0 <= i < |body| - 1 && body[1..][i].0 == key;
      v
  }

  // ---------------------------------------------------------------------
  // What each rule accepts, stated on its own

  predicate IsInteger(n: real) {
    n.Floor as real == n
  }

  /** `Joi.string().min(3)`: a string of at least three characters. */
  predicate LongText(v: Json) {
    v.JStr? && |v.s| >= 3
  }

  /** `Joi.string()`: a non-empty string. */
  predicate NonEmptyText(v: Json) {
    v.JStr? && v.s != ""
  }

  /** `Number.MAX_SAFE_INTEGER`, 2^53 - 1. */
  const MaxSafeInteger := 9007199254740991

  /** Joi's number type refuses, unless told otherwise, a number outside
      the safe integer range before any of its rules runs. */
  predicate SafeNumber(n: real) {
    -(MaxSafeInteger as real) <= n <= MaxSafeInteger as real
  }

  /** `Joi.number().integer().positive().strict()`: a number, not a numeric
      string, in the safe range, that is a whole number above zero. */
  predicate PositiveInteger(v: Json) {
    v.JNum? && SafeNumber(v.n) && IsInteger(v.n) && v.n > 0.0
  }

  /** `Joi.number().positive().strict()` without its precision rule. */
  predicate PositiveNumber(v: Json) {
    v.JNum? && SafeNumber(v.n) && v.n > 0.0
  }

  /** `Joi.boolean().strict()`: true or false, not "true" or 1. */
  predicate StrictBoolean(v: Json) {
    v.JBool?
  }

  /** `Joi.date().min("now").iso()`: a string, or a number, that converts
      as an ISO 8601 date to a moment no earlier than now. */
  predicate FutureIsoDate(v: Json, now: int, iso: Json -> Option<int>) {
    (v.JStr? || v.JNum?) && iso(v).Some? && iso(v).value >= now
  }

  /** The keys of the schema. The registration flag is declared under a
      key that is a parameter of the model (see ValidateUpdateEventReq). */
  datatype Key = Name | Description | Category | StartDate | Capacity | Price | Duration
               | RegistrationFlag | IsActive | IsPaid | MinAge | MaxAge

  /** Declaration order, which is the order Joi checks them in. */
  const SchemaOrder: seq<Key> :=
    [Name, Description, Category, StartDate, Capacity, Price, Duration, RegistrationFlag, IsActive, IsPaid, MinAge, MaxAge]

  function KeyName(k: Key, registrationKey: string): string {
    match k
    case Name => "name"
    case Description => "description"
    case Category => "category"
    case StartDate => "startDate"
    case Capacity => "capacity"
    case Price => "price"
    case Duration => "duration"
    case RegistrationFlag => registrationKey
    case IsActive => "isActive"
    case IsPaid => "isPaid"
    case MinAge => "minAge"
    case MaxAge => "maxAge"
  }

  function KnownNames(registrationKey: string): seq<string> {
    ["name", "description", "category", "startDate", "capacity", "price", "duration",
     registrationKey, "isActive", "isPaid", "minAge", "maxAge"]
  }

  /** The rule of one key; `minAge` is the body's minAge, which maxAge's
      `greater(Joi.ref("minAge"))` refers to. */
  predicate FieldConforms(k: Key, v: Json, minAge: Option<Json>, now: int, iso: Json -> Option<int>) {
    match k
    case Name => LongText(v)
    case Description => LongText(v)
    case Category => NonEmptyText(v)
    case StartDate => FutureIsoDate(v, now, iso)
    case Capacity => PositiveInteger(v)
    case Price => PositiveNumber(v)
    case Duration => PositiveInteger(v)
    case RegistrationFlag => StrictBoolean(v)
    case IsActive => StrictBoolean(v)
    case IsPaid => StrictBoolean(v)
    case MinAge => PositiveInteger(v)
    case MaxAge => PositiveInteger(v) && minAge.Some? && minAge.value.JNum? && v.n > minAge.value.n
  }

  /** A key is fine when the body leaves it out or its value meets the rule. */
  predicate KeyOk(k: Key, body: Body, now: int, iso: Json -> Option<int>, registrationKey: string) {
    var v := Lookup(body, KeyName(k, registrationKey));
    v.Some? ==> FieldConforms(k, v.value, Lookup(body, "minAge"), now, iso)
  }

  /** Reference definition: the body has only schema keys and each key is
      fine. */
  predicate BodyConforms(body: Body, now: int, iso: Json -> Option<int>, registrationKey: string) {
    && (forall i :: 0 <= i < |body| ==> body[i].0 in KnownNames(registrationKey))
    && (forall k :: KeyOk(k, body, now, iso, registrationKey))
  }

  // ---------------------------------------------------------------------
  // The rules as Joi checks them, each failure with its message

  /** A string rule with its own labels; min 0 means no length rule. */
  function TextProblem(v: Json, baseMessage: string, emptyMessage: string, minLength: nat, minMessage: string): (p: Option<string>)
    ensures p.None? <==> v.JStr? && v.s != "" && |v.s| >= minLength
  {
    if !v.JStr? then Some(baseMessage)
    else if v.s == "" then Some(emptyMessage)
    else if |v.s| < minLength then Some(minMessage)
    else None
  }

  /** Joi's own `number.unsafe` message for the key `key`; the schema does
      not override it. */
  function UnsafeMessage(key: string): string {
    "\"" + key + "\" must be a safe number"
  }

  /** A strict number rule: base type, then the safe range, then integer
      (when the rule has one), then positive. */
  function NumberProblem(v: Json, key: string, baseMessage: string, integerRule: bool, integerMessage: string, positiveMessage: string)
    : (p: Option<string>)
    ensures p.None? <==> v.JNum? && SafeNumber(v.n) && (integerRule ==> IsInteger(v.n)) && v.n > 0.0
    ensures v.JNum? && !SafeNumber(v.n) ==> p == Some(UnsafeMessage(key))
  {
    if !v.JNum? then Some(baseMessage)
    else if !SafeNumber(v.n) then Some(UnsafeMessage(key))
    else if integerRule && !IsInteger(v.n) then Some(integerMessage)
    else if v.n <= 0.0 then Some(positiveMessage)
    else None
  }

  /** Joi's own message when the limit of `greater(Joi.ref("minAge"))` is
      not a number; the schema does not override it. */
  const MaxAgeRefMessage := "\"maxAge\" limit references \"ref:minAge\" which must be a number"

  function MaxAgeProblem(v: Json, minAge: Option<Json>): (p: Option<string>)
    ensures p.None? <==> PositiveInteger(v) && minAge.Some? && minAge.value.JNum? && v.n > minAge.value.n
  {
    var p := NumberProblem(v, "maxAge", "maxAge should be a number", true, "maxAge must be an integer", "maxAge must be a positive number");
    if p.Some? then p
    else if minAge.None? || !minAge.value.JNum? then Some(MaxAgeRefMessage)
    else if v.n <= minAge.value.n then Some("maxAge must be greater than minAge")
    else None
  }

  /** Joi's date rules in order: a value that is neither a string nor a
      number, or a number that does not convert, fails `date.base`; a string
      that does not convert fails `date.format`; then `date.min`. */
  function DateProblem(v: Json, now: int, iso: Json -> Option<int>): (p: Option<string>)
    ensures p.None? <==> FutureIsoDate(v, now, iso)
  {
    if !v.JStr? && !v.JNum? then Some("Start Date should be a valid date")
    else if iso(v).None? then
      if v.JStr? then Some("Start date should should be ISO 8601 format YYYY-MM-DD / YYYY-MM-DDT00:00:00")
      else Some("Start Date should be a valid date")
    else if iso(v).value < now then Some("Start Date can't be less than now")
    else None
  }

  /** Which message a refused date gets: `date.base` for a value that is
      not a string or a number and for a number that does not convert,
      `date.format` for a string that does not convert, `date.min` for a
      converted moment before now. */
  lemma DateMessages(v: Json, now: int, iso: Json -> Option<int>)
    ensures !v.JStr? && (!v.JNum? || iso(v).None?) ==> DateProblem(v, now, iso) == Some("Start Date should be a valid date")
    ensures v.JStr? && iso(v).None? ==>
      DateProblem(v, now, iso) == Some("Start date should should be ISO 8601 format YYYY-MM-DD / YYYY-MM-DDT00:00:00")
    ensures (v.JStr? || v.JNum?) && iso(v).Some? && iso(v).value < now ==>
      DateProblem(v, now, iso) == Some("Start Date can't be less than now")
  {
  }

  function BooleanProblem(v: Json, message: string): (p: Option<string>)
    ensures p.None? <==> v.JBool?
  {
    if v.JBool? then None else Some(message)
  }

  /** The first failing rule of a key and its message. */
  function FieldProblem(k: Key, v: Json, minAge: Option<Json>, now: int, iso: Json -> Option<int>): (p: Option<string>)
    ensures p.None? <==> FieldConforms(k, v, minAge, now, iso)
  {
    match k
    case Name =>
      TextProblem(v, "Name should be a type of 'text'", "Name cannot be empty", 3, "Name should have a minimum length of 3")
    case Description =>
      TextProblem(v, "description should be a type of 'text'", "description cannot be empty", 3,
                  "description should have a minimum length of 3")
    case Category => TextProblem(v, "category should be a type of 'text'", "category cannot be empty", 0, "")
    case StartDate => DateProblem(v, now, iso)
    case Capacity => NumberProblem(v, "capacity", "Capacity should be a number", true, "Capacity must be an integer", "Capacity must be a positive number")
    case Price => NumberProblem(v, "price", "price should be a number", false, "", "price must be a positive number")
    case Duration => NumberProblem(v, "duration", "duration should be a number", true, "duration must be an integer", "duration must be a positive number")
    case RegistrationFlag => BooleanProblem(v, "registrationClosed must be true/false")
    case IsActive => BooleanProblem(v, "isActive must be true/false")
    case IsPaid => BooleanProblem(v, "isPaid must be true/false")
    case MinAge => NumberProblem(v, "minAge", "minAge should be a number", true, "minAge must be an integer", "minAge must be a positive number")
    case MaxAge => MaxAgeProblem(v, minAge)
  }

  /** The detail Joi reports for a present key whose rule fails. */
  function KeyDetail(k: Key, body: Body, now: int, iso: Json -> Option<int>, registrationKey: string): (d: Option<Detail>)
    ensures d.None? <==> KeyOk(k, body, now, iso, registrationKey)
  {
    var v := Lookup(body, KeyName(k, registrationKey));
    if v.None? then None
    else
      var p := FieldProblem(k, v.value, Lookup(body, "minAge"), now, iso);
      if p.None? then None else Some(Detail(p.value, Some(KeyName(k, registrationKey))))
  }

  /** The detail of the first key among `keys` that is not fine. */
  function FirstFieldProblem(keys: seq<Key>, body: Body, now: int, iso: Json -> Option<int>, registrationKey: string)
    : (d: Option<Detail>)
    ensures d.None? <==> forall k :: k in keys ==> KeyOk(k, body, now, iso, registrationKey)
    ensures d.Some? ==>
      exists k :: k in keys && !KeyOk(k, body, now, iso, registrationKey) && d == KeyDetail(k, body, now, iso, registrationKey)
  {
    if keys == [] then None
    else
      var d := KeyDetail(keys[0], body, now, iso, registrationKey);
      if d.Some? then d
      else
        assert forall x :: x in keys ==> x == keys[0] || x in keys[1..];
        FirstFieldProblem(keys[1..], body, now, iso, registrationKey)
  }

  /** Joi's object.unknown message: `"<key>" is not allowed`. */
  function NotAllowedMessage(key: string): string {
    "\"" + key + "\" is not allowed"
  }

  /** The first property the schema does not know. */
  function FirstUnknownKey(body: Body, known: seq<string>): (d: Option<Detail>)
    ensures d.None? <==> forall i :: 0 <= i < |body| ==> body[i].0 in known
    ensures d.Some? ==>
      && d.value.key.Some? && d.value.key.value !in known
      && d.value.message == NotAllowedMessage(d.value.key.value)
  {
    if body == [] then None
    else if body[0].0 !in known then Some(Detail(NotAllowedMessage(body[0].0), Some(body[0].0)))
    else
      var d := FirstUnknownKey(body[1..], known);
      assert forall i :: 0 < i < |body| ==> body[i] == body[1..][i - 1];
      d
  }

  /** `schema.validate(body)` with abortEarly: no error, or the single
      detail of the first failure. */
  function ValidateBody(body: Body, now: int, iso: Json -> Option<int>, registrationKey: string): Option<Detail> {
    var field := FirstFieldProblem(SchemaOrder, body, now, iso, registrationKey);
    if field.Some? then field else FirstUnknownKey(body, KnownNames(registrationKey))
  }

  /** The middleware's decision for a given key of the registration flag. */
  function Validate(body: Body, now: int, iso: Json -> Option<int>, registrationKey: string): Gate {
    var d := ValidateBody(body, now, iso, registrationKey);
    if d.None? then Proceed
    else Reject(ValidationError(ValidationMessage, FormatValidationErrors([d.value])))
  }

  /** The middleware as written: the flag is declared as `registrationClose`. */
  function ValidateUpdateEventReqAsWritten(body: Body, now: int, iso: Json -> Option<int>): Gate {
    Validate(body, now, iso, "registrationClose")
  }

  /** The middleware with the flag under the event's own field name. */
  function ValidateUpdateEventReq(body: Body, now: int, iso: Json -> Option<int>): Gate {
    Validate(body, now, iso, "registrationClosed")
  }

  lemma AllKeysInOrder()
    ensures forall k: Key :: k in SchemaOrder
  {
    forall k: Key ensures k in SchemaOrder {
      match k
      case Name => assert SchemaOrder[0] == k;
      case Description => assert SchemaOrder[1] == k;
      case Category => assert SchemaOrder[2] == k;
      case StartDate => assert SchemaOrder[3] == k;
      case Capacity => assert SchemaOrder[4] == k;
      case Price => assert SchemaOrder[5] == k;
      case Duration => assert SchemaOrder[6] == k;
      case RegistrationFlag => assert SchemaOrder[7] == k;
      case IsActive => assert SchemaOrder[8] == k;
      case IsPaid => assert SchemaOrder[9] == k;
      case MinAge => assert SchemaOrder[10] == k;
      case MaxAge => assert SchemaOrder[11] == k;
    }
  }

  /** Joi finds no error exactly when the body conforms. */
  lemma ValidateBodySpec(body: Body, now: int, iso: Json -> Option<int>, registrationKey: string)
    ensures ValidateBody(body, now, iso, registrationKey).None? <==> BodyConforms(body, now, iso, registrationKey)
  {
    AllKeysInOrder();
    var field := FirstFieldProblem(SchemaOrder, body, now, iso, registrationKey);
    assert field.None? <==> forall k :: KeyOk(k, body, now, iso, registrationKey);
  }

  /** The middleware lets a body through exactly when it conforms, and a
      rejected body is answered with a "Validation Error" whose field map
      has one entry: the offending key and its message. */
  lemma ValidateSpec(body: Body, now: int, iso: Json -> Option<int>, registrationKey: string)
    ensures Validate(body, now, iso, registrationKey) == Proceed <==> BodyConforms(body, now, iso, registrationKey)
    ensures Validate(body, now, iso, registrationKey).Reject? ==>
      var d := ValidateBody(body, now, iso, registrationKey).value;
      Validate(body, now, iso, registrationKey) == Reject(ValidationError(ValidationMessage, map[KeyOf(d) := d.message]))
  {
    ValidateBodySpec(body, now, iso, registrationKey);
    var d := ValidateBody(body, now, iso, registrationKey);
    if d.Some? {
      FormatSingle(d.value);
    }
  }

  lemma FormatSingle(d: Detail)
    ensures FormatValidationErrors([d]) == map[KeyOf(d) := d.message]
  {
    assert [d][1..] == [];
  }

  /** An empty body passes. */
  lemma EmptyBodyPasses(now: int, iso: Json -> Option<int>)
    ensures ValidateUpdateEventReq([], now, iso) == Proceed
    ensures ValidateUpdateEventReqAsWritten([], now, iso) == Proceed
  {
    ValidateSpec([], now, iso, "registrationClosed");
    ValidateSpec([], now, iso, "registrationClose");
  }

  /** What an accepted body guarantees about each key it carries: the texts
      have at least three characters, the category is a non-empty string,
      the start date is an ISO date no earlier than now, capacity, duration
      and minAge are positive whole numbers, price is positive, the flags
      are booleans, and maxAge comes with a minAge that it exceeds. */
  lemma AcceptedBodyMeetsRules(body: Body, now: int, iso: Json -> Option<int>, registrationKey: string)
    requires Validate(body, now, iso, registrationKey) == Proceed
    ensures forall i :: 0 <= i < |body| ==> body[i].0 in KnownNames(registrationKey)
    ensures Lookup(body, "name").Some? ==> LongText(Lookup(body, "name").value)
    ensures Lookup(body, "description").Some? ==> LongText(Lookup(body, "description").value)
    ensures Lookup(body, "category").Some? ==> NonEmptyText(Lookup(body, "category").value)
    ensures Lookup(body, "startDate").Some? ==> FutureIsoDate(Lookup(body, "startDate").value, now, iso)
    ensures Lookup(body, "capacity").Some? ==> PositiveInteger(Lookup(body, "capacity").value)
    ensures Lookup(body, "duration").Some? ==> PositiveInteger(Lookup(body, "duration").value)
    ensures Lookup(body, "minAge").Some? ==> PositiveInteger(Lookup(body, "minAge").value)
    ensures Lookup(body, "price").Some? ==> PositiveNumber(Lookup(body, "price").value)
    ensures Lookup(body, registrationKey).Some? ==> StrictBoolean(Lookup(body, registrationKey).value)
    ensures Lookup(body, "isActive").Some? ==> StrictBoolean(Lookup(body, "isActive").value)
    ensures Lookup(body, "isPaid").Some? ==> StrictBoolean(Lookup(body, "isPaid").value)
    ensures Lookup(body, "maxAge").Some? ==>
      && PositiveInteger(Lookup(body, "maxAge").value)
      && Lookup(body, "minAge").Some? && Lookup(body, "minAge").value.JNum?
      && Lookup(body, "maxAge").value.n > Lookup(body, "minAge").value.n
  {
    ValidateSpec(body, now, iso, registrationKey);
    ConformingTexts(body, now, iso, registrationKey);
    ConformingNumbers(body, now, iso, registrationKey);
    ConformingFlags(body, now, iso, registrationKey);
  }

  lemma ConformingTexts(body: Body, now: int, iso: Json -> Option<int>, registrationKey: string)
    requires forall k :: KeyOk(k, body, now, iso, registrationKey)
    ensures Lookup(body, "name").Some? ==> LongText(Lookup(body, "name").value)
    ensures Lookup(body, "description").Some? ==> LongText(Lookup(body, "description").value)
    ensures Lookup(body, "category").Some? ==> NonEmptyText(Lookup(body, "category").value)
    ensures Lookup(body, "startDate").Some? ==> FutureIsoDate(Lookup(body, "startDate").value, now, iso)
  {
    assert KeyOk(Name, body, now, iso, registrationKey);
    assert KeyOk(Description, body, now, iso, registrationKey);
    assert KeyOk(Category, body, now, iso, registrationKey);
    assert KeyOk(StartDate, body, now, iso, registrationKey);
  }

  lemma ConformingNumbers(body: Body, now: int, iso: Json -> Option<int>, registrationKey: string)
    requires forall k :: KeyOk(k, body, now, iso, registrationKey)
    ensures Lookup(body, "capacity").Some? ==> PositiveInteger(Lookup(body, "capacity").value)
    ensures Lookup(body, "duration").Some? ==> PositiveInteger(Lookup(body, "duration").value)
    ensures Lookup(body, "minAge").Some? ==> PositiveInteger(Lookup(body, "minAge").value)
    ensures Lookup(body, "price").Some? ==> PositiveNumber(Lookup(body, "price").value)
    ensures Lookup(body, "maxAge").Some? ==>
      && PositiveInteger(Lookup(body, "maxAge").value)
      && Lookup(body, "minAge").Some? && Lookup(body, "minAge").value.JNum?
      && Lookup(body, "maxAge").value.n > Lookup(body, "minAge").value.n
  {
    assert KeyOk(Capacity, body, now, iso, registrationKey);
    assert KeyOk(Duration, body, now, iso, registrationKey);
    assert KeyOk(MinAge, body, now, iso, registrationKey);
    assert KeyOk(Price, body, now, iso, registrationKey);
    assert KeyOk(MaxAge, body, now, iso, registrationKey);
  }

  lemma ConformingFlags(body: Body, now: int, iso: Json -> Option<int>, registrationKey: string)
    requires forall k :: KeyOk(k, body, now, iso, registrationKey)
    ensures Lookup(body, registrationKey).Some? ==> StrictBoolean(Lookup(body, registrationKey).value)
    ensures Lookup(body, "isActive").Some? ==> StrictBoolean(Lookup(body, "isActive").value)
    ensures Lookup(body, "isPaid").Some? ==> StrictBoolean(Lookup(body, "isPaid").value)
  {
    assert KeyOk(RegistrationFlag, body, now, iso, registrationKey);
    assert KeyOk(IsActive, body, now, iso, registrationKey);
    assert KeyOk(IsPaid, body, now, iso, registrationKey);
  }

  lemma KnownNamesOfKeys(registrationKey: string)
    ensures forall k :: KeyName(k, registrationKey) in KnownNames(registrationKey)
  {
    forall k ensures KeyName(k, registrationKey) in KnownNames(registrationKey) {
      match k
      case Name => assert KnownNames(registrationKey)[0] == KeyName(k, registrationKey);
      case Description => assert KnownNames(registrationKey)[1] == KeyName(k, registrationKey);
      case Category => assert KnownNames(registrationKey)[2] == KeyName(k, registrationKey);
      case StartDate => assert KnownNames(registrationKey)[3] == KeyName(k, registrationKey);
      case Capacity => assert KnownNames(registrationKey)[4] == KeyName(k, registrationKey);
      case Price => assert KnownNames(registrationKey)[5] == KeyName(k, registrationKey);
      case Duration => assert KnownNames(registrationKey)[6] == KeyName(k, registrationKey);
      case RegistrationFlag => assert KnownNames(registrationKey)[7] == KeyName(k, registrationKey);
      case IsActive => assert KnownNames(registrationKey)[8] == KeyName(k, registrationKey);
      case IsPaid => assert KnownNames(registrationKey)[9] == KeyName(k, registrationKey);
      case MinAge => assert KnownNames(registrationKey)[10] == KeyName(k, registrationKey);
      case MaxAge => assert KnownNames(registrationKey)[11] == KeyName(k, registrationKey);
    }
  }

  /** A body with one property, which is schema key `k`, is judged by the
      rule of `k` alone. */
  lemma SinglePropertyBody(name: string, v: Json, k: Key, now: int, iso: Json -> Option<int>, registrationKey: string)
    requires KeyName(k, registrationKey) == name
    requires forall k' :: k' != k ==> KeyName(k', registrationKey) != name
    ensures ValidateBody([(name, v)], now, iso, registrationKey) == KeyDetail(k, [(name, v)], now, iso, registrationKey)
  {
    var body := [(name, v)];
    assert forall k' :: k' != k ==> Lookup(body, KeyName(k', registrationKey)).None?;
    assert forall k' :: k' != k ==> KeyOk(k', body, now, iso, registrationKey);
    var field := FirstFieldProblem(SchemaOrder, body, now, iso, registrationKey);
    if field.None? {
      AllKeysInOrder();
      assert KeyOk(k, body, now, iso, registrationKey);
      KnownNamesOfKeys(registrationKey);
      assert FirstUnknownKey(body, KnownNames(registrationKey)).None?;
    }
  }

  /** The verdict on a body with one property, which is schema key `k`:
      it passes when the value meets the rule of `k`, and is otherwise
      refused with that rule's first failing message under the key. */
  lemma SinglePropertyVerdict(name: string, v: Json, k: Key, now: int, iso: Json -> Option<int>, registrationKey: string)
    requires KeyName(k, registrationKey) == name
    requires forall k' :: k' != k ==> KeyName(k', registrationKey) != name
    ensures var p := FieldProblem(k, v, Lookup([(name, v)], "minAge"), now, iso);
      Validate([(name, v)], now, iso, registrationKey)
        == if p.None? then Proceed else Reject(ValidationError(ValidationMessage, map[name := p.value]))
  {
    SinglePropertyBody(name, v, k, now, iso, registrationKey);
    var body := [(name, v)];
    assert Lookup(body, name) == Some(v);
    var p := FieldProblem(k, v, Lookup(body, "minAge"), now, iso);
    if p.Some? {
      FormatSingle(Detail(p.value, Some(name)));
    }
  }

  /** maxAge sent without minAge fails on the reference to minAge, whatever
      positive whole number it is. */
  lemma MaxAgeAloneRefused(v: Json, now: int, iso: Json -> Option<int>)
    requires PositiveInteger(v)
    ensures ValidateUpdateEventReq([("maxAge", v)], now, iso)
      == Reject(ValidationError(ValidationMessage, map["maxAge" := MaxAgeRefMessage]))
  {
    var body := [("maxAge", v)];
    NameUnique(MaxAge);
    MinAgeAbsent(body);
    assert FieldProblem(MaxAge, v, None, now, iso) == Some(MaxAgeRefMessage);
    SinglePropertyVerdict("maxAge", v, MaxAge, now, iso, "registrationClosed");
  }

  /** Strings, numeric ones included, are refused by the strict number
      rules. */
  lemma NumericStringRefused(text: string, now: int, iso: Json -> Option<int>)
    ensures ValidateUpdateEventReq([("capacity", JStr(text))], now, iso)
      == Reject(ValidationError(ValidationMessage, map["capacity" := "Capacity should be a number"]))
  {
    var body := [("capacity", JStr(text))];
    NameUnique(Capacity);
    MinAgeAbsent(body);
    assert FieldProblem(Capacity, JStr(text), None, now, iso) == Some("Capacity should be a number");
    SinglePropertyVerdict("capacity", JStr(text), Capacity, now, iso, "registrationClosed");
  }

  /** A fraction in the safe range is refused where a whole number is
      expected. */
  lemma FractionRefused(n: real, now: int, iso: Json -> Option<int>)
    requires SafeNumber(n) && !IsInteger(n)
    ensures ValidateUpdateEventReq([("capacity", JNum(n))], now, iso)
      == Reject(ValidationError(ValidationMessage, map["capacity" := "Capacity must be an integer"]))
  {
    var body := [("capacity", JNum(n))];
    NameUnique(Capacity);
    MinAgeAbsent(body);
    assert FieldProblem(Capacity, JNum(n), None, now, iso) == Some("Capacity must be an integer");
    SinglePropertyVerdict("capacity", JNum(n), Capacity, now, iso, "registrationClosed");
  }

  /** A whole number beyond the safe range is refused with Joi's default
      message before the integer and positive rules are checked. */
  lemma UnsafeCapacityRefused(n: real, now: int, iso: Json -> Option<int>)
    requires n > MaxSafeInteger as real
    ensures ValidateUpdateEventReq([("capacity", JNum(n))], now, iso)
      == Reject(ValidationError(ValidationMessage, map["capacity" := UnsafeMessage("capacity")]))
  {
    var body := [("capacity", JNum(n))];
    NameUnique(Capacity);
    MinAgeAbsent(body);
    assert FieldProblem(Capacity, JNum(n), None, now, iso) == Some(UnsafeMessage("capacity"));
    SinglePropertyVerdict("capacity", JNum(n), Capacity, now, iso, "registrationClosed");
  }

  /** As written, the event's own flag `registrationClosed` is an unknown
      key, so any update of it, a well-formed one included, is refused. */
  lemma RegistrationFlagRefusedAsWritten(v: Json, now: int, iso: Json -> Option<int>)
    ensures ValidateUpdateEventReqAsWritten([("registrationClosed", v)], now, iso)
      == Reject(ValidationError(ValidationMessage,
                                map["registrationClosed" := NotAllowedMessage("registrationClosed")]))
  {
    var body := [("registrationClosed", v)];
    var d := Detail(NotAllowedMessage("registrationClosed"), Some("registrationClosed"));
    assert forall k :: Lookup(body, KeyName(k, "registrationClose")).None?;
    AllKeysInOrder();
    assert FirstFieldProblem(SchemaOrder, body, now, iso, "registrationClose").None?;
    assert "registrationClosed" !in KnownNames("registrationClose");
    assert FirstUnknownKey(body, KnownNames("registrationClose")) == Some(d);
    FormatSingle(d);
  }

  /** Under the field's own name, a boolean update of the flag passes and a
      string is refused with the flag's message. */
  lemma RegistrationFlagAccepted(b: bool, text: string, now: int, iso: Json -> Option<int>)
    ensures ValidateUpdateEventReq([("registrationClosed", JBool(b))], now, iso) == Proceed
    ensures ValidateUpdateEventReq([("registrationClosed", JStr(text))], now, iso)
      == Reject(ValidationError(ValidationMessage, map["registrationClosed" := "registrationClosed must be true/false"]))
  {
    NameUnique(RegistrationFlag);
    MinAgeAbsent([("registrationClosed", JBool(b))]);
    MinAgeAbsent([("registrationClosed", JStr(text))]);
    assert FieldProblem(RegistrationFlag, JBool(b), None, now, iso) == None;
    assert FieldProblem(RegistrationFlag, JStr(text), None, now, iso) == Some("registrationClosed must be true/false");
    SinglePropertyVerdict("registrationClosed", JBool(b), RegistrationFlag, now, iso, "registrationClosed");
    SinglePropertyVerdict("registrationClosed", JStr(text), RegistrationFlag, now, iso, "registrationClosed");
  }

  /** With the flag under `registrationClosed`, no two schema keys share a
      name. */
  lemma NameUnique(k: Key)
    ensures forall k' :: k' != k ==> KeyName(k', "registrationClosed") != KeyName(k, "registrationClosed")
  {
    forall k' | k' != k
      ensures KeyName(k', "registrationClosed") != KeyName(k, "registrationClosed")
    {
      KeyNameInitials(k);
      KeyNameInitials(k');
    }
  }

  /** The first three characters tell the key names apart. */
  lemma KeyNameInitials(k: Key)
    ensures var n := KeyName(k, "registrationClosed");
      |n| >= 3 && KeyCode(k) == (n[0], n[1], n[2])
  {
  }

  function KeyCode(k: Key): (char, char, char) {
    match k
    case Name => ('n', 'a', 'm')
    case Description => ('d', 'e', 's')
    case Category => ('c', 'a', 't')
    case StartDate => ('s', 't', 'a')
    case Capacity => ('c', 'a', 'p')
    case Price => ('p', 'r', 'i')
    case Duration => ('d', 'u', 'r')
    case RegistrationFlag => ('r', 'e', 'g')
    case IsActive => ('i', 's', 'A')
    case IsPaid => ('i', 's', 'P')
    case MinAge => ('m', 'i', 'n')
    case MaxAge => ('m', 'a', 'x')
  }

  /** A one-property body whose key is not minAge has no minAge. */
  lemma MinAgeAbsent(body: Body)
    requires |body| == 1 && |body[0].0| >= 2 && body[0].0[1] != 'i'
    ensures Lookup(body, "minAge") == None
  {
    assert body[0].0 != "minAge" by {
      assert "minAge"[1] == 'i';
    }
  }
}
