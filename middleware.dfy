/**
  `presentation/middleware.rs`: the decisions `JwtAuthService::call` and
  `RequestIdService::call` take on a request, and what they write into its extensions and into
  the response headers. The wrapped service is a function from the request's extensions to its
  response; header names are the lower-case names actix compares them by.
*/
module Middleware {
  import opened Wrappers
  import opened Uuids
  import opened Text
  import opened Database
  import opened Security
  import opened AuthServices
  import opened PresentationUtils

  const AUTHORIZATION: string := "authorization"
  const REQUEST_ID_HEADER: string := "x-request-id"
  const BEARER_PREFIX: string := "Bearer "

  /** A response of the wrapped service: its status and headers. */
  datatype ServiceResponse = ServiceResponse(status: nat, headers: map<string, string>)

  /** The wrapped service, called at most once with the extensions as they then are. */
  type Inner = Extensions -> Result<ServiceResponse, HttpError>

  /** An incoming request: its headers, the `AuthService` registered as app data (if any),
      and the extensions the middlewares write. */
  class ServiceRequest {
    const headers: map<string, string>
    const authService: Option<AuthService>
    var extensions: Extensions

    constructor (headers: map<string, string>, authService: Option<AuthService>)
      ensures this.headers == headers && this.authService == authService
      ensures extensions == Extensions(None, None)
    {
      this.headers := headers;
      this.authService := authService;
      extensions := Extensions(None, None);
    }
  }

  /** The `Authorization` header as text: absent, or not visible ASCII, is `None`. */
  function AuthorizationValue(headers: map<string, string>): (v: Option<string>)
    ensures v.Some? <==> AUTHORIZATION in headers && HeaderToStr(headers[AUTHORIZATION]).Some?
    ensures v.Some? ==> v.value == headers[AUTHORIZATION]
  {
    if AUTHORIZATION in headers then HeaderToStr(headers[AUTHORIZATION]) else None
  }

  /** The header checks of `JwtAuthService::call`: present, then an exact, case-sensitive
      `Bearer ` prefix (the header form of section 2.1 of RFC 6750); the token is the rest. */
  function BearerToken(header: Option<string>): (r: Result<string, HttpError>)
    ensures header.None? ==> r == Err(HttpError(401, "missing authorization header"))
    ensures header.Some? ==> (r.Ok? <==> BEARER_PREFIX <= header.value)
    ensures header.Some? && r.Err? ==> r == Err(HttpError(401, "invalid authorization header"))
    ensures r.Ok? ==> header == Some(BEARER_PREFIX + r.value)
  {
    match header
    case None => Err(HttpError(401, "missing authorization header"))
    case Some(h) =>
      match StripPrefix(h, BEARER_PREFIX)
      case None => Err(HttpError(401, "invalid authorization header"))
      case Some(token) => Ok(token)
  }

  /** The token a client puts after `Bearer ` is the token the server reads. */
  lemma BearerRoundTrip(token: string)
    ensures BearerToken(Some(BEARER_PREFIX + token)) == Ok(token)
  {
    StripPrefixOfConcat(BEARER_PREFIX, token);
  }

  /** The scheme name is matched case-sensitively: `bearer ` is refused. */
  lemma LowerCaseSchemeRefused(token: string)
    ensures BearerToken(Some("bearer " + token)) == Err(HttpError(401, "invalid authorization header"))
  {
    assert ("bearer " + token)[0] == 'b';
  }

  /**
    Everything `JwtAuthService::call` decides before calling the wrapped service: a missing
    `AuthService` is a 500 before the header is looked at; then the header; then the token.
  */
  function Authenticate(authService: Option<AuthService>, headers: map<string, string>, keys: JwtKeys,
                        fault: Option<DbError>): (r: Result<AuthenticatedUser, HttpError>)
    reads if authService.Some? then {authService.value.repo} else {}
    ensures authService.None? ==> r == Err(HttpError(500, "AuthService missing"))
    ensures authService.Some? && BearerToken(AuthorizationValue(headers)).Err? ==>
      r == Err(BearerToken(AuthorizationValue(headers)).error)
    ensures r.Err? && authService.Some? ==> r.error.status == 401
    ensures r.Ok? ==> authService.Some? && exists token ::
      && headers[AUTHORIZATION] == BEARER_PREFIX + token
      && ExtractUserFromToken(token, keys, authService.value, fault) == r
  {
    match authService
    case None => Err(HttpError(500, "AuthService missing"))
    case Some(svc) =>
      match BearerToken(AuthorizationValue(headers))
      case Err(e) => Err(e)
      case Ok(token) => ExtractUserFromToken(token, keys, svc, fault)
  }

  /** `JwtAuthService`: the middleware instance with its signing keys. */
  class JwtAuthService {
    const keys: JwtKeys

    constructor (keys: JwtKeys)
      ensures this.keys == keys
    {
      this.keys := keys;
    }

    /** `call`: on success the user goes into the extensions and the wrapped service's result
        is returned unchanged; on any failure the wrapped service is not called. */
    method Call(req: ServiceRequest, inner: Inner, fault: Option<DbError>)
      returns (r: Result<ServiceResponse, HttpError>, innerCalled: bool)
      modifies req
      ensures var a := Authenticate(req.authService, req.headers, keys, fault);
        && (a.Err? ==> r == Err(a.error) && !innerCalled && req.extensions == old(req.extensions))
        && (a.Ok? ==> innerCalled && req.extensions == old(req.extensions).(user := Some(a.value))
                      && r == inner(req.extensions))
    {
      var a := Authenticate(req.authService, req.headers, keys, fault);
      if a.Err? {
        r, innerCalled := Err(a.error), false;
        return;
      }
      req.extensions := req.extensions.(user := Some(a.value));
      r := inner(req.extensions);
      innerCalled := true;
    }
  }

  /** Every character of a rendered UUID is a hex digit or a hyphen. */
  lemma UuidTextIsVisible(u: Uuid)
    ensures forall i :: 0 <= i < |ToString(u)| ==> IsVisibleAscii(ToString(u)[i])
  {
    var s := ToString(u);
    forall i | 0 <= i < |s| ensures IsVisibleAscii(s[i]) {
      assert forall ns: seq<Nibble>, k :: 0 <= k < |ns| ==> Hex(ns)[k] in HEX_DIGITS;
    }
  }

  /** The request id `RequestIdService::call` settles on: the incoming `x-request-id` when it
      reads as text, else a freshly generated UUID. Either way it is a valid header value. */
  function ChooseRequestId(headers: map<string, string>, freshId: Uuid): (id: string)
    ensures REQUEST_ID_HEADER in headers && HeaderToStr(headers[REQUEST_ID_HEADER]).Some? ==>
      id == headers[REQUEST_ID_HEADER]
    ensures !(REQUEST_ID_HEADER in headers && HeaderToStr(headers[REQUEST_ID_HEADER]).Some?) ==>
      id == ToString(freshId)
    ensures forall i :: 0 <= i < |id| ==> IsHeaderChar(id[i])
  {
    if REQUEST_ID_HEADER in headers && HeaderToStr(headers[REQUEST_ID_HEADER]).Some? then
      headers[REQUEST_ID_HEADER]
    else
      UuidTextIsVisible(freshId);
      ToString(freshId)
  }

  /** `RequestIdService`: tags each request and its response with an id. */
  class RequestIdService {
    /** The wrapped service. */
    const service: Inner

    /** `new_transform`: the middleware wraps the service it is given. */
    constructor (service: Inner)
      ensures this.service == service
    {
      this.service := service;
    }

    /** `call`: the id goes into the extensions before the wrapped service runs, and onto the
        response afterwards (the `HeaderValue::from_str(..).unwrap()` cannot fail, see
        `ChooseRequestId`). An error of the wrapped service is returned as is. */
    method Call(req: ServiceRequest, freshId: Uuid) returns (r: Result<ServiceResponse, HttpError>)
      modifies req
      ensures var id := ChooseRequestId(req.headers, freshId);
        && req.extensions == old(req.extensions).(requestId := Some(id))
        && (service(req.extensions).Err? ==> r == service(req.extensions))
        && (service(req.extensions).Ok? ==>
              r == Ok(service(req.extensions).value.(headers := service(req.extensions).value.headers[REQUEST_ID_HEADER := id])))
    {
      var id := ChooseRequestId(req.headers, freshId);
      req.extensions := req.extensions.(requestId := Some(id));
      var res := service(req.extensions);
      match res {
        case Err(e) =>
          r := Err(e);
        case Ok(resp) =>
          r := Ok(resp.(headers := resp.headers[REQUEST_ID_HEADER := id]));
      }
    }
  }
}
