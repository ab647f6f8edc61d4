/**
  `blog-client/src/grpc_client.rs`: the gRPC client. It keeps the access token the server
  hands out, checks credentials before sending them, and attaches the token to the requests
  that need it. The RPC's reply is a parameter of each operation that waits for one.
*/
module GrpcClient {
  import opened Wrappers
  import opened Text
  import opened MachineInts
  import opened ClientCommon
  import GrpcService
  import Middleware
  import PostRepository

  /** The checks `register` makes before any RPC: more than 6 bytes of username, an `@` in
      the email, more than 8 bytes of password. */
  function ValidateRegister(username: string, email: string, password: string): (r: Option<ClientError>)
    ensures r.None? <==> Utf8Len(username) > 6 && '@' in email && Utf8Len(password) > 8
    ensures Utf8Len(username) <= 6 ==> r == Some(InvalidRequest("Username must be at least 6 chars long"))
    ensures Utf8Len(username) > 6 && '@' !in email ==> r == Some(InvalidRequest("Wrong email"))
    ensures Utf8Len(username) > 6 && '@' in email && Utf8Len(password) <= 8 ==>
      r == Some(InvalidRequest("Passwords must be at least 8 chars long"))
  {
    if Utf8Len(username) <= 6 then Some(InvalidRequest("Username must be at least 6 chars long"))
    else if '@' !in email then Some(InvalidRequest("Wrong email"))
    else if Utf8Len(password) <= 8 then Some(InvalidRequest("Passwords must be at least 8 chars long"))
    else None
  }

  /** The checks `login` makes before any RPC. */
  function ValidateLogin(username: string, password: string): (r: Option<ClientError>)
    ensures r.None? <==> Utf8Len(username) > 6 && Utf8Len(password) > 8
    ensures Utf8Len(username) <= 6 ==> r == Some(InvalidRequest("Username must be at least 6 chars long"))
    ensures Utf8Len(username) > 6 && Utf8Len(password) <= 8 ==>
      r == Some(InvalidRequest("Passwords must be at least 8 chars long"))
  {
    if Utf8Len(username) <= 6 then Some(InvalidRequest("Username must be at least 6 chars long"))
    else if Utf8Len(password) <= 8 then Some(InvalidRequest("Passwords must be at least 8 chars long"))
    else None
  }

  /** Whatever the client lets through, the server's own checks let through too. */
  lemma ClientChecksImplyServerChecks(username: string, email: string, password: string)
    ensures ValidateRegister(username, email, password).None? ==>
      GrpcService.ValidateRegister(username, email, password).None?
    ensures ValidateLogin(username, password).None? ==> GrpcService.ValidateLogin(username, password).None?
  {
  }

  /** The bounds are off by one between the two sides: a 6-byte username and an 8-byte
      password satisfy the server and are refused by the client, whose message asks for
      "at least" the length it has just refused. */
  lemma BoundaryRefusedByClientOnly()
    ensures GrpcService.ValidateLogin("abcdef", "password").None?
    ensures ValidateLogin("abcdef", "password") == Some(InvalidRequest("Username must be at least 6 chars long"))
  {
    assert Utf8Len("abcdef") == 6;
    assert Utf8Len("password") == 8;
  }

  /** `BlogClientGrpc`: the connection (not modelled) and the token. */
  class BlogClientGrpc {
    var token: Option<string>

    /** `connect`: a new client holds no token. */
    constructor Connect()
      ensures token == None
    {
      token := None;
    }

    /** `token`: the token the client holds, the one `WithAuth` sends. */
    function Token(): (t: Option<string>)
      reads this
      ensures t == token
    {
      token
    }

    method SetToken(t: string)
      modifies this
      ensures Token() == Some(t)
    {
      token := Some(t);
    }

    /**
      `with_auth`: with a token, the request's metadata gets `authorization: Bearer <token>`
      (replacing any earlier value); without one it is left as it is. `None` stands for the
      panic of the `expect` when the value is not a valid metadata value.
    */
    function WithAuth(metadata: map<string, string>): (r: Option<map<string, string>>)
      reads this
      ensures token.None? ==> r == Some(metadata)
      ensures token.Some? ==>
        (r.Some? <==> forall i :: 0 <= i < |Middleware.BEARER_PREFIX + token.value| ==>
                        IsHeaderChar((Middleware.BEARER_PREFIX + token.value)[i]))
      ensures token.Some? && r.Some? ==>
        r.value == metadata[Middleware.AUTHORIZATION := Middleware.BEARER_PREFIX + token.value]
    {
      match token
      case None => Some(metadata)
      case Some(t) =>
        var header := Middleware.BEARER_PREFIX + t;
        if forall i :: 0 <= i < |header| ==> IsHeaderChar(header[i]) then
          Some(metadata[Middleware.AUTHORIZATION := header])
        else
          None
    }

    /** `register`: local checks, then the RPC; its access token becomes the client's token. */
    method Register(username: string, email: string, password: string,
                    reply: Result<GrpcService.AuthResponse, GrpcService.Status>)
      returns (r: Result<(), ClientError>)
      modifies this
      ensures ValidateRegister(username, email, password).Some? ==>
        r == Err(ValidateRegister(username, email, password).value) && token == old(token)
      ensures ValidateRegister(username, email, password).None? && reply.Err? ==>
        r == Err(StatusError(reply.error)) && token == old(token)
      ensures ValidateRegister(username, email, password).None? && reply.Ok? ==>
        r == Ok(()) && Token() == Some(reply.value.accessToken)
    {
      var invalid := ValidateRegister(username, email, password);
      if invalid.Some? {
        return Err(invalid.value);
      }
      match reply {
        case Err(status) => r := Err(StatusError(status));
        case Ok(auth) =>
          SetToken(auth.accessToken);
          r := Ok(());
      }
    }

    /** `login`: the same, with the login checks. */
    method Login(username: string, password: string, reply: Result<GrpcService.AuthResponse, GrpcService.Status>)
      returns (r: Result<(), ClientError>)
      modifies this
      ensures ValidateLogin(username, password).Some? ==>
        r == Err(ValidateLogin(username, password).value) && token == old(token)
      ensures ValidateLogin(username, password).None? && reply.Err? ==>
        r == Err(StatusError(reply.error)) && token == old(token)
      ensures ValidateLogin(username, password).None? && reply.Ok? ==>
        r == Ok(()) && Token() == Some(reply.value.accessToken)
    {
      var invalid := ValidateLogin(username, password);
      if invalid.Some? {
        return Err(invalid.value);
      }
      match reply {
        case Err(status) => r := Err(StatusError(status));
        case Ok(auth) =>
          SetToken(auth.accessToken);
          r := Ok(());
      }
    }
  }

  /** A token of visible ASCII that the client attaches is exactly the token the server's
      `extract_token_from_request` reads back. */
  lemma TokenReachesServer(client: BlogClientGrpc, metadata: map<string, string>, t: string)
    requires client.token == Some(t)
    requires forall i :: 0 <= i < |t| ==> IsVisibleAscii(t[i])
    ensures client.WithAuth(metadata).Some?
    ensures GrpcService.ExtractTokenFromRequest(client.WithAuth(metadata).value) == Ok(t)
  {
    var header := Middleware.BEARER_PREFIX + t;
    assert forall i :: 0 <= i < |header| ==> IsVisibleAscii(header[i]) by {
      forall i | 0 <= i < |header| ensures IsVisibleAscii(header[i]) {
        if i >= |Middleware.BEARER_PREFIX| {
          assert header[i] == t[i - |Middleware.BEARER_PREFIX|];
        }
      }
    }
    StripPrefixOfConcat(Middleware.BEARER_PREFIX, t);
  }

  /** A token with a character outside ASCII (at position `k`) that `MetadataValue` accepts is
      sent, but the server cannot read the header as text and answers as if it were missing. */
  lemma NonAsciiTokenReadsAsMissing(client: BlogClientGrpc, metadata: map<string, string>, k: nat)
    requires client.token.Some? && k < |client.token.value| && client.token.value[k] >= '\U{80}'
    requires forall i :: 0 <= i < |client.token.value| ==> IsHeaderChar(client.token.value[i])
    ensures client.WithAuth(metadata).Some?
    ensures GrpcService.ExtractTokenFromRequest(client.WithAuth(metadata).value)
      == Err(GrpcService.Status(GrpcService.Unauthenticated, "Authorization header missing"))
  {
    var t := client.token.value;
    var header := Middleware.BEARER_PREFIX + t;
    assert |Middleware.BEARER_PREFIX| == 7;
    forall i | 0 <= i < |header| ensures IsHeaderChar(header[i]) {
      if i >= 7 {
        assert header[i] == t[i - 7];
      }
    }
    assert header[7 + k] == t[k] && !IsVisibleAscii(header[7 + k]);
  }

  /** The limit the client sends reaches the repository unchanged: clamping twice is clamping
      once. */
  lemma LimitKeptByServer(limit: Option<U32>)
    ensures PostRepository.PageLimit(Some(I32AsUsize(PageParams(limit, None).0))) == ClampedLimit(limit)
  {
  }

  /** An offset of 2^31 or more wraps to a negative `i32` in the client; the server widens it
      back to that negative value and the database refuses the query. */
  lemma LargeOffsetRefused(offset: U32)
    requires offset >= TWO_31
    ensures PostRepository.PageOffset(Some(I32AsUsize(PageParams(None, Some(offset)).1))) == offset - TWO_32 < 0
  {
    NegativeSurvivesRoundTrip(PageParams(None, Some(offset)).1);
  }
}
