/** src/middlewares/isAdmin.ts: the admin gate, placed after
    authenticateUser on the routes that need it. */
module IsAdmin {
  import opened Common
  import opened AppErrors
  import opened UserModel
  import opened AuthController
  import opened AuthenticateUser

  const NotAuthenticated := AppError("User not authenticated.", 401)
  const AdminsOnly := AppError("Access denied. Admins only.", 403)

  /** isAdmin on `req.user`: the missing user is checked before the role. */
  function IsAdmin(user: Option<User>): (g: Gate)
    ensures g.Proceed? <==> user.Some? && user.value.role == Admin
    ensures user.None? ==> g == Reject(NotAuthenticated)
    ensures user.Some? && user.value.role != Admin ==> g == Reject(AdminsOnly)
  {
    if user.None? then Reject(NotAuthenticated)
    else if user.value.role != Admin then Reject(AdminsOnly)
    else Proceed
  }

  /** authenticateUser followed by isAdmin: the pair lets a request through
      exactly when its token names a stored admin; an authenticated user who
      is not an admin gets the 403 of the gate, never its 401. */
  lemma AuthenticateThenIsAdmin(store: UserStore, header: Option<string>, verify: string -> Option<TokenPayload>, fault: StoreFault)
    requires store.Valid()
    ensures var outcome := Authenticate(store, header, verify, fault);
      && (outcome.Ok? ==> (IsAdmin(Some(outcome.value)).Proceed? <==> outcome.value.role == Admin))
      && (outcome.Ok? && outcome.value.role != Admin ==> IsAdmin(Some(outcome.value)) == Reject(AdminsOnly))
      && (outcome.Ok? ==> IsAdmin(Some(outcome.value)) != Reject(NotAuthenticated))
  {
  }
}
