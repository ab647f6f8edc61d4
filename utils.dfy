/**
  `presentation/utils.rs`: the ownership check and the resolution of a bearer token to the
  calling user, as the HTTP side uses them.
*/
module PresentationUtils {
  import opened Wrappers
  import opened Uuids
  import opened Errors
  import opened Database
  import opened Security
  import opened UserRepository
  import opened AuthServices

  /** `ensure_owner(item_id, user_id)`: a mismatch is `Unauthorized`, not `Forbidden`. */
  function EnsureOwner(itemId: Uuid, userId: Uuid): (r: Result<(), DomainError>)
    ensures r.Ok? <==> itemId == userId
    ensures r.Err? ==> r.error == Unauthorized
  {
    if itemId != userId then Err(Unauthorized) else Ok(())
  }

  /** The caller, as the handlers see it. */
  datatype AuthenticatedUser = AuthenticatedUser(id: Uuid, username: string)

  /** An actix error built by `ErrorUnauthorized(..)` and friends: a status and a message. */
  datatype HttpError = HttpError(status: nat, message: string)

  /** The typed slots of the request's extensions that this code uses. */
  datatype Extensions = Extensions(user: Option<AuthenticatedUser>, requestId: Option<string>)

  /** `AuthenticatedUser::from_request`: the user the middleware stored, or 401. */
  function FromRequest(ext: Extensions): (r: Result<AuthenticatedUser, HttpError>)
    ensures r.Ok? <==> ext.user.Some?
    ensures r.Ok? ==> r.value == ext.user.value
    ensures r.Err? ==> r.error == HttpError(401, "missing authenticated user")
  {
    match ext.user
    case Some(u) => Ok(u)
    case None => Err(HttpError(401, "missing authenticated user"))
  }

  /**
    `extract_user_from_token`: verify the token, read its subject as a UUID, load that user.
    Every failure is a 401, including a store error while loading the user.
  */
  function ExtractUserFromToken(token: string, keys: JwtKeys, auth: AuthService, fault: Option<DbError>)
    : (r: Result<AuthenticatedUser, HttpError>)
    reads auth.repo
    ensures r.Err? ==> r.error.status == 401
    ensures VerifyToken(keys, token).Err? ==> r == Err(HttpError(401, "invalid token"))
    ensures VerifyToken(keys, token).Ok? && Parse(VerifyToken(keys, token).value.sub).None? ==>
      r == Err(HttpError(401, "invalid token"))
    ensures fault.Some? && VerifyToken(keys, token).Ok? && Parse(VerifyToken(keys, token).value.sub).Some? ==>
      r == Err(HttpError(401, "user not found"))
    ensures r.Ok? ==> VerifyToken(keys, token).Ok? && Parse(VerifyToken(keys, token).value.sub) == Some(r.value.id)
    ensures fault.None? && VerifyToken(keys, token).Ok? && Parse(VerifyToken(keys, token).value.sub).Some? ==>
      var id := Parse(VerifyToken(keys, token).value.sub).value;
      && (r.Ok? <==> exists i :: 0 <= i < |auth.repo.rows| && auth.repo.rows[i].id == id)
      && (r.Err? ==> r == Err(HttpError(401, "user not found")))
    ensures r.Ok? ==> exists i :: (0 <= i < |auth.repo.rows| && auth.repo.rows[i].id == r.value.id
                                   && auth.repo.rows[i].username == r.value.username
                                   && forall j :: 0 <= j < i ==> auth.repo.rows[j].id != r.value.id)
  {
    match VerifyToken(keys, token)
    case Err(_) => Err(HttpError(401, "invalid token"))
    case Ok(claims) =>
      match Parse(claims.sub)
      case None => Err(HttpError(401, "invalid token"))
      case Some(userId) =>
        match auth.GetUser(userId, fault)
        case Err(_) => Err(HttpError(401, "user not found"))
        case Ok(user) => Ok(AuthenticatedUser(user.id, user.username))
  }

  /**
    A token whose verification yields the claims `generate_token` signs for a stored user
    resolves to that user, with the username of its row.
  */
  lemma ResolvesSignedSubject(token: string, keys: JwtKeys, auth: AuthService, row: UserRow, iat: int)
    requires auth.repo.Valid() && row in auth.repo.rows
    requires VerifyToken(keys, token) == Ok(ClaimsFor(row.id, iat))
    ensures ExtractUserFromToken(token, keys, auth, None) == Ok(AuthenticatedUser(row.id, row.username))
  {
    var i :| 0 <= i < |auth.repo.rows| && auth.repo.rows[i] == row;
    LookupUniqueKey(auth.repo.rows, i, ById(row.id));
  }
}
