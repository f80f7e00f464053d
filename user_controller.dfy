/** src/controllers/userController.ts: the older user handlers. `register`
    creates the user from the request body as it is, and the way it
    classifies a failed create is the one src/controllers/authController.ts
    repeats. */
module UserController {
  import opened Common
  import opened Documents
  import opened AppErrors
  import opened DataValidationErrors
  import opened UserModel

  const EmailTakenError := AppError("Email already exists. Please use a different email.", 409)

  /** Some failing path failed its `required` validator. */
  predicate HasRequiredError(fields: map<string, FieldError>) {
    exists f :: f in fields && fields[f].kind == "required"
  }

  /** The error a failed `User.create` is reported with: a validation error
      becomes a DataValidationError, 400 when a required path is missing and
      422 otherwise; a duplicate key is a 409; anything else is the 500
      database error. */
  function ClassifyCreateError(e: Error): (r: Error)
    ensures r.IsAppError()
    ensures e.StoreError? && e.cause.SchemaInvalid? ==>
      && r.DataValidationError?
      && r.Message() == ValidationMessage
      && r.Status() == (if HasRequiredError(e.cause.fields) then 400 else DefaultStatus)
      && r.fields.Keys == e.cause.fields.Keys
      && (forall f :: f in r.fields ==> r.fields[f] == e.cause.fields[f].message)
    ensures e == StoreError(DuplicateKey) ==> r.Status() == 409 && r == EmailTakenError
    ensures !(e.StoreError? && (e.cause.SchemaInvalid? || e.cause.DuplicateKey?)) ==> r == DatabaseError
  {
    if e.StoreError? && e.cause.SchemaInvalid? then
      DataValidationError(if HasRequiredError(e.cause.fields) then 400 else DefaultStatus, FieldMessages(e.cause.fields))
    else if e == StoreError(DuplicateKey) then EmailTakenError
    else DatabaseError
  }

  /** A failed password hash is not a validation error and is reported as
      the database error; a missing password is a 400. */
  lemma ClassifyExamples(input: UserInput, now: int)
    ensures ClassifyCreateError(HashError) == DatabaseError
    ensures !PresentText(input.password) ==>
      ClassifyCreateError(StoreError(SchemaInvalid(UserProblems(input, now)))).Status() == 400
  {
    if !PresentText(input.password) {
      var m := UserProblems(input, now);
      MissingPasswordProblem(input, now);
      assert HasRequiredError(m) by {
        assert m["password"].kind == "required";
      }
      RequiredErrorIs400(m);
    }
  }

  /** A validation error with a failed `required` validator is a 400. */
  lemma RequiredErrorIs400(fields: map<string, FieldError>)
    requires HasRequiredError(fields)
    ensures ClassifyCreateError(StoreError(SchemaInvalid(fields))).Status() == 400
  {
  }

  /** login: a placeholder that answers the same body to every request. */
  function Login(body: Doc): (r: Reply<Doc>)
    ensures r.Respond? && r.status == 200 && r.body.Keys == {"loggedIn"}
    ensures r.body["loggedIn"] == JStr("test")
  {
    Respond(200, map["loggedIn" := JStr("test")])
  }

  /** The placeholder ignores what it is sent. */
  lemma LoginIgnoresBody(a: Doc, b: Doc)
    ensures Login(a) == Login(b)
  {
  }

  /** register: store call 0 is the insert. */
  method Register(store: UserStore, body: UserInput, newId: Id, now: int, hash: Option<string>, fault: StoreFault)
    returns (r: Reply<User>)
    requires store.Valid()
    modifies store
    ensures store.Valid()
    ensures var created := CreateOutcome(old(store.users), body, newId, now, hash, fault);
      && (created.Err? ==> r == Next(ClassifyCreateError(created.error)) && store.users == old(store.users))
      && (created.Ok? ==> r == Respond(201, created.value) && store.users == old(store.users)[newId := created.value])
  {
    var created := store.Create(body, newId, now, hash, fault);
    if created.Err? {
      r := Next(ClassifyCreateError(created.error));
      return;
    }
    r := Respond(201, created.value);
  }

  /** Here the client chooses the role and the active flag: a created user
      has the ones the body names. */
  lemma ClientChosenRole(users: map<Id, User>, body: UserInput, newId: Id, now: int, hash: Option<string>, fault: StoreFault)
    requires body.role == Some("admin") && body.isActive == Some(false)
    ensures var created := CreateOutcome(users, body, newId, now, hash, fault);
      created.Ok? ==> created.value.role == Admin && !created.value.isActive
  {
  }

  /** getUsers: store call 0 is the query. */
  function GetUsers(store: UserStore, fault: StoreFault): (r: Reply<set<User>>)
    reads store
    ensures Throws(fault, 0) ==> r == Next(DatabaseError)
    ensures !Throws(fault, 0) ==>
      && r.Respond? && r.status == 200
      && forall u :: u in r.body <==> exists id :: id in store.users && store.users[id] == u
  {
    if Throws(fault, 0) then Next(DatabaseError) else Respond(200, store.users.Values)
  }
}
