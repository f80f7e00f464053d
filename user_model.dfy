/** src/models/User.ts: the user record, the validators of its paths, the
    two hooks that replace a password by its hash (the hash function is an
    oracle: its result is a parameter, None when hashing fails), the toJSON
    transform that hides the password, and the users collection with its
    unique index on `email`. Dates are whole seconds. */
module UserModel {
  import opened Common
  import opened Documents
  import opened AppErrors

  datatype Role = Guest | Student | Employee | Admin

  /** The values of the UserRole enum. */
  function RoleName(r: Role): string {
    match r
    case Guest => "guest"
    case Student => "student"
    case Employee => "employee"
    case Admin => "admin"
  }

  /** The enum validator: the role a stored string names, if any. */
  function ParseRole(s: string): (r: Option<Role>)
    ensures r.Some? ==> RoleName(r.value) == s
  {
    if s == "guest" then Some(Guest)
    else if s == "student" then Some(Student)
    else if s == "employee" then Some(Employee)
    else if s == "admin" then Some(Admin)
    else None
  }

  /** Every role is accepted under its own name and only there. */
  lemma RoleNamesRoundTrip(r: Role, s: string)
    ensures ParseRole(RoleName(r)) == Some(r)
    ensures ParseRole(s).None? <==> s !in {"guest", "student", "employee", "admin"}
  {
  }

  datatype User = User(
    id: Id,
    firstName: string,
    lastName: string,
    birthdate: int,
    email: string,
    emailVerified: bool,
    password: string,
    isActive: bool,
    role: Role)

  /** The data a user is created from; None is an absent path. */
  datatype UserInput = UserInput(
    firstName: Option<string>,
    lastName: Option<string>,
    birthdate: Option<int>,
    email: Option<string>,
    emailVerified: Option<bool>,
    password: Option<string>,
    isActive: Option<bool>,
    role: Option<string>)

  const MinNameLength := 2
  const MaxNameLength := 20

  predicate IsAsciiLetter(c: char) {
    ('a' <= c <= 'z') || ('A' <= c <= 'Z')
  }

  /** `/^[A-Za-z]+$/` on a non-empty string. */
  predicate AllLetters(s: string) {
    forall i :: 0 <= i < |s| ==> IsAsciiLetter(s[i])
  }

  /** What a name path accepts: after trimming, 2 to 20 ASCII letters. */
  predicate NameAccepted(o: Option<string>) {
    o.Some? && MinNameLength <= |Trim(o.value)| <= MaxNameLength && AllLetters(Trim(o.value))
  }

  /** The validators of `firstName` or `lastName`, in the order mongoose
      runs them on the trimmed value: required, match, minlength,
      maxlength; the first that fails is reported. */
  function NameProblem(o: Option<string>, requiredMessage: string, minMessage: string, maxMessage: string): (p: Option<FieldError>)
    ensures p.None? <==> NameAccepted(o)
    ensures p.Some? && (o.None? || Trim(o.value) == "") ==> p.value == FieldError("required", requiredMessage)
  {
    if o.None? || Trim(o.value) == "" then Some(FieldError("required", requiredMessage))
    else if !AllLetters(Trim(o.value)) then Some(FieldError("regexp", "Name can only contain letters"))
    else if |Trim(o.value)| < MinNameLength then Some(FieldError("minlength", minMessage))
    else if |Trim(o.value)| > MaxNameLength then Some(FieldError("maxlength", maxMessage))
    else None
  }

  /** The characters s[lo..hi] form a non-empty run without white space. */
  predicate NonSpaceRun(s: string, lo: int, hi: int) {
    0 <= lo < hi <= |s| && forall k :: lo <= k < hi ==> !IsSpace(s[k])
  }

  /** `/\S+@\S+\.\S+/.test(s)`, unanchored: somewhere in s an `@` preceded
      by a character that is not white space, then a run of such characters,
      a `.`, and one more such character. */
  predicate EmailShaped(s: string) {
    exists at, dot :: 0 < at < dot < |s| - 1 && EmailMatchAt(s, at, dot)
  }

  /** The pattern matches with its `@` at `at` and its `.` at `dot`. */
  predicate EmailMatchAt(s: string, at: int, dot: int) {
    && 0 < at < dot < |s| - 1 && s[at] == '@' && s[dot] == '.'
    && !IsSpace(s[at - 1]) && NonSpaceRun(s, at + 1, dot) && !IsSpace(s[dot + 1])
  }

  /** The pattern is unanchored: text around a match does not matter. */
  lemma EmailShapeExamples()
    ensures EmailShaped("john.doe@example.com")
    ensures EmailShaped("to: a@b.c now")
    ensures !EmailShaped("ab.c")
    ensures !EmailShaped("a@ b.c")
  {
    assert EmailMatchAt("john.doe@example.com", 8, 16);
    assert EmailMatchAt("to: a@b.c now", 5, 7);
    var s := "a@ b.c";
    forall at, dot ensures !EmailMatchAt(s, at, dot) {
      if 0 < at < dot < |s| - 1 && s[at] == '@' && s[dot] == '.' {
        assert at == 1 && s[2] == ' ';
      }
    }
  }

  predicate EmailAccepted(o: Option<string>) {
    o.Some? && EmailShaped(Trim(o.value))
  }

  /** The validators of `email`: required, then the pattern, both on the
      trimmed value. */
  function EmailProblem(o: Option<string>): (p: Option<FieldError>)
    ensures p.None? <==> EmailAccepted(o)
  {
    if o.None? || Trim(o.value) == "" then Some(FieldError("required", "Email is required"))
    else if !EmailShaped(Trim(o.value)) then Some(FieldError("user defined", "Please enter a valid email"))
    else None
  }

  /** The validators of `birthdate`: required, and not after `now`. */
  function BirthdateProblem(o: Option<int>, now: int): (p: Option<FieldError>)
    ensures p.None? <==> o.Some? && o.value <= now
  {
    if o.None? then Some(FieldError("required", "Birthdate is required"))
    else if o.value > now then Some(FieldError("user defined", "Birthdate cannot be in the future"))
    else None
  }

  /** The validator of `password`: required (a non-empty string). */
  function PasswordProblem(o: Option<string>): (p: Option<FieldError>)
    ensures p.None? <==> PresentText(o)
  {
    if PresentText(o) then None else Some(FieldError("required", "Password is required"))
  }

  /** The validator of `role`: an absent role takes the default. */
  function RoleProblem(o: Option<string>): (p: Option<FieldError>)
    ensures p.None? <==> o.None? || ParseRole(o.value).Some?
  {
    if o.Some? && ParseRole(o.value).None? then Some(FieldError("enum", o.value + " is not a valid role."))
    else None
  }

  const UserPaths := {"firstName", "lastName", "birthdate", "email", "password", "role"}

  /** The first failing validator of one path. */
  function PathProblem(path: string, input: UserInput, now: int): Option<FieldError> {
    if path == "firstName" then
      NameProblem(input.firstName, "First name is required",
        "First name must be at least 2 characters long", "First name must be at most 20 characters long")
    else if path == "lastName" then
      NameProblem(input.lastName, "Last name is required",
        "Last name must be at least 2 characters long", "Last name must be at most 20 characters long")
    else if path == "birthdate" then BirthdateProblem(input.birthdate, now)
    else if path == "email" then EmailProblem(input.email)
    else if path == "password" then PasswordProblem(input.password)
    else if path == "role" then RoleProblem(input.role)
    else None
  }

  /** The `errors` of the ValidationError a save raises: every failing path
      with its first failing validator. */
  function UserProblems(input: UserInput, now: int): map<string, FieldError> {
    map path | path in UserPaths && PathProblem(path, input, now).Some? :: PathProblem(path, input, now).value
  }

  /** A path of the schema is in the validation error exactly when one of
      its validators fails. */
  lemma PathInProblems(path: string, input: UserInput, now: int)
    requires path in UserPaths
    ensures path in UserProblems(input, now) <==> PathProblem(path, input, now).Some?
  {
  }

  /** Every path whose rule is broken, and only those, appears in the
      validation error. */
  lemma UserProblemsSpec(input: UserInput, now: int)
    ensures var m := UserProblems(input, now);
      && m.Keys <= {"firstName", "lastName", "birthdate", "email", "password", "role"}
      && ("firstName" in m <==> !NameAccepted(input.firstName))
      && ("lastName" in m <==> !NameAccepted(input.lastName))
      && ("birthdate" in m <==> !(input.birthdate.Some? && input.birthdate.value <= now))
      && ("email" in m <==> !EmailAccepted(input.email))
      && ("password" in m <==> !PresentText(input.password))
      && ("role" in m <==> input.role.Some? && ParseRole(input.role.value).None?)
  {
    NameProblems(input, now);
    OtherProblems(input, now);
  }

  lemma NameProblems(input: UserInput, now: int)
    ensures ("firstName" in UserProblems(input, now) <==> !NameAccepted(input.firstName))
    ensures ("lastName" in UserProblems(input, now) <==> !NameAccepted(input.lastName))
  {
    PathInProblems("firstName", input, now);
    PathInProblems("lastName", input, now);
    assert PathProblem("lastName", input, now)
      == NameProblem(input.lastName, "Last name is required",
           "Last name must be at least 2 characters long", "Last name must be at most 20 characters long");
  }

  /** A missing password is reported by its `required` validator. */
  lemma MissingPasswordProblem(input: UserInput, now: int)
    requires !PresentText(input.password)
    ensures "password" in UserProblems(input, now)
    ensures UserProblems(input, now)["password"] == FieldError("required", "Password is required")
  {
    PathInProblems("password", input, now);
    assert PathProblem("password", input, now) == PasswordProblem(input.password);
  }

  lemma OtherProblems(input: UserInput, now: int)
    ensures ("birthdate" in UserProblems(input, now) <==> !(input.birthdate.Some? && input.birthdate.value <= now))
    ensures ("email" in UserProblems(input, now) <==> !EmailAccepted(input.email))
    ensures ("password" in UserProblems(input, now) <==> !PresentText(input.password))
    ensures ("role" in UserProblems(input, now) <==> input.role.Some? && ParseRole(input.role.value).None?)
  {
    PathInProblems("birthdate", input, now);
    PathInProblems("email", input, now);
    PathInProblems("password", input, now);
    PathInProblems("role", input, now);
    assert PathProblem("birthdate", input, now) == BirthdateProblem(input.birthdate, now);
    assert PathProblem("email", input, now) == EmailProblem(input.email);
    assert PathProblem("password", input, now) == PasswordProblem(input.password);
    assert PathProblem("role", input, now) == RoleProblem(input.role);
  }

  /** Every rule of the schema holds. */
  predicate UserAccepted(input: UserInput, now: int) {
    && NameAccepted(input.firstName) && NameAccepted(input.lastName)
    && input.birthdate.Some? && input.birthdate.value <= now
    && EmailAccepted(input.email) && PresentText(input.password)
    && (input.role.None? || ParseRole(input.role.value).Some?)
  }

  /** The validation error is empty exactly when every rule holds. */
  lemma UserProblemsEmpty(input: UserInput, now: int)
    ensures UserProblems(input, now) == map[] <==> UserAccepted(input, now)
  {
    UserProblemsSpec(input, now);
    if UserAccepted(input, now) {
      AcceptedHasNoProblems(input, now);
    }
  }

  lemma AcceptedHasNoProblems(input: UserInput, now: int)
    requires UserAccepted(input, now)
    ensures UserProblems(input, now) == map[]
  {
    UserProblemsSpec(input, now);
    NoPathMeansEmpty(UserProblems(input, now));
  }

  /** A map over the schema's paths that has none of them is empty. */
  lemma NoPathMeansEmpty(m: map<string, FieldError>)
    requires m.Keys <= UserPaths
    requires "firstName" !in m && "lastName" !in m && "birthdate" !in m
    requires "email" !in m && "password" !in m && "role" !in m
    ensures m == map[]
  {
    assert m.Keys == {};
  }

  /** `new User(input)` and its validation: the trimmed names and email, the
      password as given (before the hook hashes it) and the defaults
      emailVerified false, isActive true and role guest. */
  function NewUser(id: Id, input: UserInput, now: int): (r: Result<User>)
    ensures r.Ok? <==> UserAccepted(input, now)
    ensures r.Err? ==> r.error == StoreError(SchemaInvalid(UserProblems(input, now)))
    ensures r.Ok? ==>
      && r.value.id == id
      && r.value.firstName == Trim(input.firstName.value) && r.value.lastName == Trim(input.lastName.value)
      && r.value.email == Trim(input.email.value) && r.value.password == input.password.value
      && r.value.birthdate == input.birthdate.value
      && r.value.emailVerified == (input.emailVerified.Some? && input.emailVerified.value)
      && r.value.isActive == (input.isActive.None? || input.isActive.value)
      && r.value.role == (if input.role.None? then Guest else ParseRole(input.role.value).value)
  {
    UserProblemsEmpty(input, now);
    if UserProblems(input, now) != map[] then Err(StoreError(SchemaInvalid(UserProblems(input, now))))
    else
      Ok(User(
        id := id,
        firstName := Trim(input.firstName.value),
        lastName := Trim(input.lastName.value),
        birthdate := input.birthdate.value,
        email := Trim(input.email.value),
        emailVerified := if input.emailVerified.Some? then input.emailVerified.value else false,
        password := input.password.value,
        isActive := if input.isActive.Some? then input.isActive.value else true,
        role := if input.role.Some? then ParseRole(input.role.value).value else Guest))
  }

  /** `new AppError("Error saving password")`. */
  const HashError := AppError("Error saving password", 500)

  /** bcrypt.hash either rejects (None) or yields a string; an empty one is
      treated as a failure, too. */
  predicate HashOk(hash: Option<string>) {
    hash.Some? && hash.value != ""
  }

  /** The pre-save hook on the document's value. */
  function PreSave(u: User, passwordModified: bool, hash: Option<string>): Result<User> {
    if !passwordModified then Ok(u)
    else if !HashOk(hash) then Err(HashError)
    else Ok(u.(password := hash.value))
  }

  /** The pre-findOneAndUpdate hook on the update's value. */
  function PreFindOneAndUpdate(update: UserInput, hash: Option<string>): Result<UserInput> {
    if !PresentText(update.password) then Ok(update)
    else if !HashOk(hash) then Err(HashError)
    else Ok(update.(password := hash))
  }

  /** Saving hashes the password only when it was modified; an update
      without a password passes through; everything but the password is
      left as it was; a failed hash aborts with "Error saving password". */
  lemma HashHooks(u: User, update: UserInput, hash: Option<string>)
    ensures PreSave(u, false, hash) == Ok(u)
    ensures !HashOk(hash) ==> PreSave(u, true, hash) == Err(HashError)
    ensures HashOk(hash) ==> PreSave(u, true, hash).Ok? && PreSave(u, true, hash).value.password == hash.value
    ensures forall b :: PreSave(u, b, hash).Ok? ==> PreSave(u, b, hash).value.(password := u.password) == u
    ensures !PresentText(update.password) ==> PreFindOneAndUpdate(update, hash) == Ok(update)
    ensures PresentText(update.password) ==>
      && (PreFindOneAndUpdate(update, hash).Err? <==> !HashOk(hash))
      && (HashOk(hash) ==> PreFindOneAndUpdate(update, hash) == Ok(update.(password := hash)))
  {
  }

  /** A user document in memory; `passwordModified` is mongoose's
      `isModified("password")`. */
  class UserDocument {
    var user: User
    const passwordModified: bool

    constructor (user: User, passwordModified: bool)
      ensures this.user == user && this.passwordModified == passwordModified
    {
      this.user := user;
      this.passwordModified := passwordModified;
    }

    /** The pre-save hook: `this.password = hashedPassword`. */
    method RunPreSave(hash: Option<string>) returns (err: Option<Error>)
      modifies this
      ensures err.Some? ==> user == old(user) && PreSave(old(user), passwordModified, hash) == Err(err.value)
      ensures err.None? ==> PreSave(old(user), passwordModified, hash) == Ok(user)
    {
      if !passwordModified {
        return None;
      }
      if !HashOk(hash) {
        return Some(HashError);
      }
      user := user.(password := hash.value);
      err := None;
    }
  }

  /** A findOneAndUpdate query: its update and its options. */
  class UserUpdateQuery {
    var update: UserInput
    var runValidators: bool

    constructor (update: UserInput)
      ensures this.update == update && !runValidators
    {
      this.update := update;
      this.runValidators := false;
    }

    /** The pre-findOneAndUpdate hook: validators are switched on first,
        whatever happens next, then `update.password = hashedPassword`. */
    method RunPreFindOneAndUpdate(hash: Option<string>) returns (err: Option<Error>)
      modifies this
      ensures runValidators
      ensures err.Some? ==> update == old(update) && PreFindOneAndUpdate(old(update), hash) == Err(err.value)
      ensures err.None? ==> PreFindOneAndUpdate(old(update), hash) == Ok(update)
    {
      runValidators := true;
      if !PresentText(update.password) {
        return None;
      }
      if !HashOk(hash) {
        return Some(HashError);
      }
      update := update.(password := hash);
      err := None;
    }
  }

  /** The document mongoose serialises (timestamps are not modelled). */
  function UserDocumentJson(u: User): Doc {
    map[
      "_id" := JStr(u.id),
      "firstName" := JStr(u.firstName),
      "lastName" := JStr(u.lastName),
      "birthdate" := JNum(u.birthdate as real),
      "email" := JStr(u.email),
      "emailVerified" := JBool(u.emailVerified),
      "password" := JStr(u.password),
      "isActive" := JBool(u.isActive),
      "role" := JStr(RoleName(u.role)),
      "__v" := JNum(0.0)]
  }

  /** The toJSON transform: `id` takes `_id`'s value, and `_id`, `__v` and
      the password are removed. */
  function UserToJson(ret: Doc): (out: Doc)
    ensures "password" !in out && "_id" !in out && "__v" !in out
    ensures "id" in out <==> "_id" in ret
    ensures "_id" in ret ==> out["id"] == ret["_id"]
    ensures forall k :: k !in {"id", "_id", "__v", "password"} ==> (k in out <==> k in ret)
    ensures forall k :: k in out && k != "id" ==> out[k] == ret[k]
  {
    RenameId(ret) - {"__v", "password"}
  }

  /** A serialised user shows its id and profile, never its password. */
  lemma UserJsonOfRecord(u: User)
    ensures UserToJson(UserDocumentJson(u)).Keys
      == {"id", "firstName", "lastName", "birthdate", "email", "emailVerified", "isActive", "role"}
    ensures UserToJson(UserDocumentJson(u))["id"] == JStr(u.id)
    ensures UserToJson(UserDocumentJson(u))["role"] == JStr(RoleName(u.role))
  {
    var d := UserDocumentJson(u);
    UserDocumentKeys(u);
    RenamedUserKeys(d);
    HiddenUserKeys(RenameId(d));
  }

  lemma UserDocumentKeys(u: User)
    ensures UserDocumentJson(u).Keys
      == {"_id", "firstName", "lastName", "birthdate", "email", "emailVerified", "password", "isActive", "role", "__v"}
  {
  }

  lemma RenamedUserKeys(d: Doc)
    requires d.Keys
      == {"_id", "firstName", "lastName", "birthdate", "email", "emailVerified", "password", "isActive", "role", "__v"}
    ensures RenameId(d).Keys
      == {"id", "firstName", "lastName", "birthdate", "email", "emailVerified", "password", "isActive", "role", "__v"}
  {
  }

  lemma HiddenUserKeys(r: Doc)
    requires r.Keys
      == {"id", "firstName", "lastName", "birthdate", "email", "emailVerified", "password", "isActive", "role", "__v"}
    ensures (r - {"__v", "password"}).Keys
      == {"id", "firstName", "lastName", "birthdate", "email", "emailVerified", "isActive", "role"}
  {
  }

  /** Some stored user has this email. */
  predicate EmailTakenIn(users: map<Id, User>, email: string) {
    exists id :: id in users && users[id].email == email
  }

  /** The outcome of `User.create(input)` on the collection `users`:
      validation, then the pre-save hook (a new document's password counts
      as modified), then the insert, which is store call 0 and where the
      unique indexes on `_id` and `email` apply. */
  function CreateOutcome(users: map<Id, User>, input: UserInput, newId: Id, now: int, hash: Option<string>, fault: StoreFault)
    : (r: Result<User>)
    ensures !UserAccepted(input, now) ==> r == Err(StoreError(SchemaInvalid(UserProblems(input, now))))
    ensures UserAccepted(input, now) && !HashOk(hash) ==> r == Err(HashError)
    ensures UserAccepted(input, now) && HashOk(hash) && Throws(fault, 0) ==> r == Err(StoreError(Unavailable))
    ensures r.Ok? <==>
      && UserAccepted(input, now) && HashOk(hash) && !Throws(fault, 0)
      && newId !in users && !EmailTakenIn(users, Trim(input.email.value))
    ensures UserAccepted(input, now) && HashOk(hash) && !Throws(fault, 0) && !r.Ok? ==> r == Err(StoreError(DuplicateKey))
    ensures r.Ok? ==> r.value == NewUser(newId, input, now).value.(password := hash.value)
  {
    var built := NewUser(newId, input, now);
    if built.Err? then built
    else
      var saved := PreSave(built.value, true, hash);
      if saved.Err? then saved
      else if Throws(fault, 0) then Err(StoreError(Unavailable))
      else if newId in users || EmailTakenIn(users, saved.value.email) then Err(StoreError(DuplicateKey))
      else saved
  }

  /** Inserting a user under its own, fresh id with a fresh email keeps
      ids and emails unique. */
  lemma NewUserKeepsUniqueness(users: map<Id, User>, u: User, newId: Id)
    requires forall id :: id in users ==> users[id].id == id
    requires forall a, b :: a in users && b in users && users[a].email == users[b].email ==> a == b
    requires u.id == newId && newId !in users && !EmailTakenIn(users, u.email)
    ensures var after := users[newId := u];
      && (forall id :: id in after ==> after[id].id == id)
      && (forall a, b :: a in after && b in after && after[a].email == after[b].email ==> a == b)
  {
  }

  /** The users collection, keyed by id. */
  class UserStore {
    var users: map<Id, User>

    /** Every user is stored under its own id and the unique index on
        `email` holds. */
    ghost predicate Valid()
      reads this
    {
      && (forall id :: id in users ==> users[id].id == id)
      && (forall a, b :: a in users && b in users && users[a].email == users[b].email ==> a == b)
    }

    constructor ()
      ensures Valid() && users == map[]
    {
      users := map[];
    }

    predicate EmailTaken(email: string)
      reads this
    {
      EmailTakenIn(users, email)
    }

    /** `User.findOne({ email })`. */
    function FindByEmail(email: string): (r: Option<User>)
      requires Valid()
      reads this
      ensures r.None? <==> !EmailTaken(email)
      ensures r.Some? ==> r.value in users.Values && r.value.email == email
    {
      if EmailTaken(email) then
        var id :| id in users && users[id].email == email;
        Some(users[id])
      else None
    }

    /** `User.create(input)`. */
    method Create(input: UserInput, newId: Id, now: int, hash: Option<string>, fault: StoreFault) returns (r: Result<User>)
      requires Valid()
      modifies this
      ensures Valid()
      ensures r == CreateOutcome(old(users), input, newId, now, hash, fault)
      ensures r.Err? ==> users == old(users)
      ensures r.Ok? ==> users == old(users)[newId := r.value]
    {
      ghost var outcome := CreateOutcome(users, input, newId, now, hash, fault);
      var built := NewUser(newId, input, now);
      if built.Err? {
        return built;
      }
      var doc := new UserDocument(built.value, true);
      var err := doc.RunPreSave(hash);
      if err.Some? {
        return Err(err.value);
      }
      assert Ok(doc.user) == PreSave(built.value, true, hash);
      if Throws(fault, 0) {
        return Err(StoreError(Unavailable));
      }
      if newId in users || EmailTaken(doc.user.email) {
        return Err(StoreError(DuplicateKey));
      }
      assert outcome == Ok(doc.user);
      NewUserKeepsUniqueness(users, doc.user, newId);
      users := users[newId := doc.user];
      r := Ok(doc.user);
    }
  }
}
