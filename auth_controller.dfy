/** src/controllers/authController.ts: token issue and the login, register
    and refresh handlers. Signing is modelled by the token value itself (the
    payload and which secret, with its expiry, signed it); bcrypt.compare and
    jwt.verify are oracles passed as functions. */
module AuthController {
  import opened Common
  import opened AppErrors
  import opened UserModel
  import opened UserController

  /** What a token carries. */
  datatype TokenPayload = TokenPayload(id: Id, role: Role)

  /** The access secret and expiry, or the refresh secret and expiry. */
  datatype Secret = AccessSecret | RefreshSecret

  /** `jwt.sign(payload, secret, { expiresIn })`. */
  datatype Token = Token(payload: TokenPayload, secret: Secret)

  /** getTokenPayload: the user's id and role, nothing else. */
  function GetTokenPayload(u: User): TokenPayload {
    TokenPayload(u.id, u.role)
  }

  function AccessToken(u: User): Token {
    Token(GetTokenPayload(u), AccessSecret)
  }

  function RefreshToken(u: User): Token {
    Token(GetTokenPayload(u), RefreshSecret)
  }

  /** Both tokens carry the same payload and differ in the secret only; two
      users get the same payload exactly when they agree on id and role,
      whatever their other fields. */
  lemma TokensCarryIdAndRole(u: User, v: User)
    ensures AccessToken(u).payload == RefreshToken(u).payload && AccessToken(u) != RefreshToken(u)
    ensures GetTokenPayload(u) == GetTokenPayload(v) <==> u.id == v.id && u.role == v.role
    ensures AccessToken(u) == AccessToken(v) <==> u.id == v.id && u.role == v.role
  {
  }

  const MissingCredentials := AppError("Must provide username and password for login.", 400)
  const InvalidCredentials := AppError("Invalid email or password.", 401)
  const PasswordLengthError := AppError("Password must be between 8 and 25 characters long.", 422)
  const MissingRefreshToken := AppError("Refresh token required.", 400)
  const InvalidRefreshToken := AppError("Invalid or expired refresh token.", 403)
  const UserNotFound := AppError("User not found.", 404)

  datatype LoginTokens = LoginTokens(accessToken: Token, refreshToken: Token)

  /** login: `compare(plain, hash)` is bcrypt.compare; store call 0 is the
      lookup by email, whose value the schema's `trim` setter trims before
      the query runs. An unknown email and a wrong password are answered
      alike. */
  function Login(store: UserStore, email: Option<string>, password: Option<string>, compare: (string, string) -> bool, fault: StoreFault)
    : (r: Reply<LoginTokens>)
    requires store.Valid()
    reads store
    ensures !PresentText(email) || !PresentText(password) ==> r == Next(MissingCredentials)
    ensures PresentText(email) && PresentText(password) && Throws(fault, 0) ==> r == Next(DatabaseError)
    ensures PresentText(email) && PresentText(password) && !Throws(fault, 0) && !r.Respond? ==> r == Next(InvalidCredentials)
    ensures r.Respond? <==>
      && PresentText(email) && PresentText(password) && !Throws(fault, 0)
      && exists id :: id in store.users && store.users[id].email == Trim(email.value) && compare(password.value, store.users[id].password)
    ensures r.Respond? ==>
      && r.status == 200
      && exists id :: id in store.users && store.users[id].email == Trim(email.value)
           && r.body == LoginTokens(AccessToken(store.users[id]), RefreshToken(store.users[id]))
  {
    if !PresentText(email) || !PresentText(password) then Next(MissingCredentials)
    else if Throws(fault, 0) then Next(DatabaseError)
    else
      var found := store.FindByEmail(Trim(email.value));
      if found.None? then Next(InvalidCredentials)
      else if !compare(password.value, found.value.password) then Next(InvalidCredentials)
      else Respond(200, LoginTokens(AccessToken(found.value), RefreshToken(found.value)))
  }

  /** `delete userData.isActive; delete userData.role`. */
  function Stripped(body: UserInput): (s: UserInput)
    ensures s.isActive.None? && s.role.None?
    ensures s.(isActive := body.isActive, role := body.role) == body
  {
    body.(isActive := None, role := None)
  }

  /** A user registered here is always an active guest, whatever the body
      asked for. */
  lemma RegisteredUsersAreActiveGuests(users: map<Id, User>, body: UserInput, newId: Id, now: int, hash: Option<string>, fault: StoreFault)
    ensures var created := CreateOutcome(users, Stripped(body), newId, now, hash, fault);
      created.Ok? ==> created.value.role == Guest && created.value.isActive
  {
  }

  datatype Registered = Registered(user: User, accessToken: Token, refreshToken: Token)

  const MinPasswordLength := 8
  const MaxPasswordLength := 25

  /** What register answers once `User.create` has returned: the length
      check reads the password of the created, already stored user. */
  function RegisterReply(created: Result<User>): (r: Reply<Registered>)
    ensures created.Err? ==> r == Next(ClassifyCreateError(created.error))
    ensures r.Respond? <==> created.Ok? && MinPasswordLength <= |created.value.password| <= MaxPasswordLength
    ensures created.Ok? && !r.Respond? ==> r == Next(PasswordLengthError)
    ensures r.Respond? ==>
      r == Respond(201, Registered(created.value, AccessToken(created.value), RefreshToken(created.value)))
  {
    if created.Err? then Next(ClassifyCreateError(created.error))
    else if |created.value.password| < MinPasswordLength || |created.value.password| > MaxPasswordLength then
      Next(PasswordLengthError)
    else Respond(201, Registered(created.value, AccessToken(created.value), RefreshToken(created.value)))
  }

  /** register as written: store call 0 is the insert. The user stays
      stored when the length check then refuses it. */
  method Register(store: UserStore, body: UserInput, newId: Id, now: int, hash: Option<string>, fault: StoreFault)
    returns (r: Reply<Registered>)
    requires store.Valid()
    modifies store
    ensures store.Valid()
    ensures var created := CreateOutcome(old(store.users), Stripped(body), newId, now, hash, fault);
      && r == RegisterReply(created)
      && (created.Err? ==> store.users == old(store.users))
      && (created.Ok? ==> store.users == old(store.users)[newId := created.value])
  {
    var created := store.Create(Stripped(body), newId, now, hash, fault);
    if created.Err? {
      r := Next(ClassifyCreateError(created.error));
      return;
    }
    var user := created.value;
    if |user.password| < MinPasswordLength || |user.password| > MaxPasswordLength {
      r := Next(PasswordLengthError);
      return;
    }
    r := Respond(201, Registered(user, AccessToken(user), RefreshToken(user)));
  }

  /** bcrypt's output is 60 characters long. */
  predicate IsBcryptHash(hash: Option<string>) {
    hash.Some? && |hash.value| == 60
  }

  /** The check reads the stored hash, so with bcrypt every registration
      that gets stored is answered 422, whatever the password's length. */
  lemma RegisterRefusesEveryStoredUser(users: map<Id, User>, body: UserInput, newId: Id, now: int, hash: Option<string>, fault: StoreFault)
    requires IsBcryptHash(hash)
    ensures var created := CreateOutcome(users, Stripped(body), newId, now, hash, fault);
      created.Ok? ==> RegisterReply(created) == Next(PasswordLengthError)
  {
  }

  /** The request of the example below: every rule of the schema holds. */
  lemma WellFormedRequest(now: int)
    requires now >= ExampleBirthdate
    ensures UserAccepted(Stripped(ExampleRequest()), now)
    ensures Trim(Stripped(ExampleRequest()).email.value) == "john.doe@example.com"
  {
    var input := Stripped(ExampleRequest());
    assert input == ExampleRequest();
    ExampleNamesAccepted();
    ExampleEmailAccepted();
    assert input.birthdate == Some(ExampleBirthdate);
    assert input.password == Some("Passw0rd!") && PresentText(input.password);
    assert input.role.None?;
  }

  lemma ExampleNamesAccepted()
    ensures NameAccepted(Some("John")) && NameAccepted(Some("Doe"))
  {
    var first, last := "John", "Doe";
    assert !IsSpace(first[0]) && !IsSpace(first[|first| - 1]);
    assert !IsSpace(last[0]) && !IsSpace(last[|last| - 1]);
    assert AllLetters(first) && AllLetters(last);
  }

  lemma ExampleEmailAccepted()
    ensures EmailAccepted(Some("john.doe@example.com"))
    ensures Trim("john.doe@example.com") == "john.doe@example.com"
  {
    var e := "john.doe@example.com";
    assert !IsSpace(e[0]) && !IsSpace(e[|e| - 1]);
    assert Trim(e) == e;
    EmailShapeExamples();
  }

  /** 2000-01-01T00:00:00Z, in seconds since the epoch. */
  const ExampleBirthdate := 946684800

  /** The example user of the schema's documentation. */
  function ExampleRequest(): UserInput {
    UserInput(Some("John"), Some("Doe"), Some(ExampleBirthdate), Some("john.doe@example.com"), None, Some("Passw0rd!"), None, None)
  }

  /** Every request that passes the schema, with an id and an email nobody
      has, is stored and then refused. */
  lemma RegisterRefusesAcceptedRequest(users: map<Id, User>, body: UserInput, newId: Id, now: int, hash: string)
    requires UserAccepted(Stripped(body), now) && newId !in users && !EmailTakenIn(users, Trim(body.email.value))
    requires |hash| == 60
    ensures var created := CreateOutcome(users, Stripped(body), newId, now, Some(hash), Healthy);
      && created.Ok?
      && RegisterReply(created) == Next(PasswordLengthError)
  {
    var input := Stripped(body);
    assert input.email == body.email;
    assert HashOk(Some(hash)) && !Throws(Healthy, 0);
    var created := CreateOutcome(users, input, newId, now, Some(hash), Healthy);
    assert created.Ok?;
    assert created.value.password == hash;
  }

  /** A well-formed request with a 9-character password, with an id and an
      email nobody has: it is stored, and then refused. */
  lemma RegisterRefusesValidRequest(users: map<Id, User>, newId: Id, now: int, hash: string)
    requires newId !in users && !EmailTakenIn(users, "john.doe@example.com") && now >= ExampleBirthdate && |hash| == 60
    ensures var created := CreateOutcome(users, Stripped(ExampleRequest()), newId, now, Some(hash), Healthy);
      && created.Ok?
      && RegisterReply(created) == Next(PasswordLengthError)
  {
    WellFormedRequest(now);
    RegisterRefusesAcceptedRequest(users, ExampleRequest(), newId, now, hash);
  }

  /** register with the length rule applied where it was meant: to the
      password of the request, before anything is stored. */
  function RegisterCheckedOutcome(users: map<Id, User>, body: UserInput, newId: Id, now: int, hash: Option<string>, fault: StoreFault)
    : Result<User>
  {
    if PresentText(body.password) && !PasswordLengthOk(body.password) then
      Err(PasswordLengthError)
    else CreateOutcome(users, Stripped(body), newId, now, hash, fault)
  }

  function RegisterCheckedReply(created: Result<User>): Reply<Registered> {
    if created.Err? && created.error == PasswordLengthError then Next(PasswordLengthError)
    else if created.Err? then Next(ClassifyCreateError(created.error))
    else Respond(201, Registered(created.value, AccessToken(created.value), RefreshToken(created.value)))
  }

  /** The request's password has 8 to 25 characters. */
  predicate PasswordLengthOk(o: Option<string>) {
    o.Some? && MinPasswordLength <= |o.value| <= MaxPasswordLength
  }

  /** With the corrected rule, a user is stored exactly when the request's
      password has 8 to 25 characters and the create succeeds, and every
      stored user is answered 201 with its tokens. */
  lemma RegisterCheckedSpec(users: map<Id, User>, body: UserInput, newId: Id, now: int, hash: Option<string>, fault: StoreFault)
    ensures var created := RegisterCheckedOutcome(users, body, newId, now, hash, fault);
      && (created.Ok? <==> PasswordLengthOk(body.password) && CreateOutcome(users, Stripped(body), newId, now, hash, fault).Ok?)
      && (created.Ok? ==> RegisterCheckedReply(created) == Respond(201, Registered(created.value, AccessToken(created.value), RefreshToken(created.value))))
      && (PresentText(body.password) && !PasswordLengthOk(body.password) ==>
            RegisterCheckedReply(created) == Next(PasswordLengthError))
  {
    var outcome := CreateOutcome(users, Stripped(body), newId, now, hash, fault);
    if outcome.Ok? {
      assert PresentText(Stripped(body).password);
    }
  }

  /** The corrected register accepts the example request that the handler
      as written refuses. */
  lemma RegisterCheckedAcceptsValidRequest(users: map<Id, User>, newId: Id, now: int, hash: string)
    requires newId !in users && !EmailTakenIn(users, "john.doe@example.com") && now >= ExampleBirthdate && |hash| == 60
    ensures var created := RegisterCheckedOutcome(users, ExampleRequest(), newId, now, Some(hash), Healthy);
      && created.Ok?
      && RegisterCheckedReply(created).Respond? && RegisterCheckedReply(created).status == 201
  {
    RegisterRefusesValidRequest(users, newId, now, hash);
    assert PasswordLengthOk(ExampleRequest().password);
  }

  /** The corrected register: the request's password is checked first. */
  method RegisterChecked(store: UserStore, body: UserInput, newId: Id, now: int, hash: Option<string>, fault: StoreFault)
    returns (r: Reply<Registered>)
    requires store.Valid()
    modifies store
    ensures store.Valid()
    ensures var created := RegisterCheckedOutcome(old(store.users), body, newId, now, hash, fault);
      && r == RegisterCheckedReply(created)
      && (created.Err? ==> store.users == old(store.users))
      && (created.Ok? ==> store.users == old(store.users)[newId := created.value])
  {
    if PresentText(body.password) && !PasswordLengthOk(body.password) {
      r := Next(PasswordLengthError);
      return;
    }
    var created := store.Create(Stripped(body), newId, now, hash, fault);
    if created.Err? {
      r := Next(ClassifyCreateError(created.error));
      return;
    }
    r := Respond(201, Registered(created.value, AccessToken(created.value), RefreshToken(created.value)));
  }

  /** refresh: `verify` is jwt.verify with the refresh secret; store call 0
      is the lookup by the token's id, which fails for a malformed id. The
      new access token carries the user's stored role, not the one in the
      refresh token. */
  function Refresh(store: UserStore, refreshToken: Option<string>, verify: string -> Option<TokenPayload>, fault: StoreFault)
    : (r: Reply<Token>)
    requires store.Valid()
    reads store
    ensures !PresentText(refreshToken) ==> r == Next(MissingRefreshToken)
    ensures PresentText(refreshToken) && verify(refreshToken.value).None? ==> r == Next(InvalidRefreshToken)
    ensures (PresentText(refreshToken) && verify(refreshToken.value).Some?
             && (!IsObjectIdValid(verify(refreshToken.value).value.id) || Throws(fault, 0))) ==>
      r == Next(DatabaseError)
    ensures (PresentText(refreshToken) && verify(refreshToken.value).Some? && IsObjectIdValid(verify(refreshToken.value).value.id)
             && !Throws(fault, 0) && verify(refreshToken.value).value.id !in store.users) ==>
      r == Next(UserNotFound)
    ensures r.Respond? <==>
      && PresentText(refreshToken) && verify(refreshToken.value).Some?
      && IsObjectIdValid(verify(refreshToken.value).value.id) && !Throws(fault, 0)
      && verify(refreshToken.value).value.id in store.users
    ensures r.Respond? ==>
      && r.status == 200
      && r.body == AccessToken(store.users[verify(refreshToken.value).value.id])
      && r.body.payload.id == verify(refreshToken.value).value.id
  {
    if !PresentText(refreshToken) then Next(MissingRefreshToken)
    else
      var decoded := verify(refreshToken.value);
      if decoded.None? then Next(InvalidRefreshToken)
      else if !IsObjectIdValid(decoded.value.id) || Throws(fault, 0) then Next(DatabaseError)
      else if decoded.value.id !in store.users then Next(UserNotFound)
      else Respond(200, AccessToken(store.users[decoded.value.id]))
  }
}
