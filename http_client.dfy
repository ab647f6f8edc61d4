/**
  `blog-client/src/http_client.rs`: the REST client. Besides the token in memory it keeps a
  copy in the file `.blog_token`, which a later process reads when it has no token of its
  own. The file's contents are a field here (`None`: the file cannot be read); the response
  to each request is a parameter.
*/
module HttpClient {
  import opened Wrappers
  import opened Text
  import opened MachineInts
  import opened ClientCommon
  import Middleware

  /** Rust's `Display` for an `i32`. */
  function I32Text(v: I32): (s: string)
    ensures v >= 0 ==> s == Decimal(v)
    ensures v < 0 ==> s == "-" + Decimal(-(v as int))
  {
    if v < 0 then "-" + Decimal(-(v as int)) else Decimal(v)
  }

  class BlogClientHttp {
    const baseUrl: string
    var token: Option<string>
    var tokenFile: Option<string>

    /** `connect`: every trailing `/` is dropped from the endpoint, and the client starts with
        no token in memory. */
    constructor Connect(endpoint: string, tokenFile: Option<string>)
      ensures baseUrl == TrimEndMatches(endpoint, '/')
      ensures baseUrl == [] || baseUrl[|baseUrl| - 1] != '/'
      ensures token == None && this.tokenFile == tokenFile
    {
      baseUrl := TrimEndMatches(endpoint, '/');
      token := None;
      this.tokenFile := tokenFile;
    }

    /** `token`: the token in memory only. The token file is not consulted, so a client with
        no token in memory reports none even when its requests authenticate from the file. */
    function Token(): (t: Option<string>)
      reads this
      ensures t == token
      ensures t.None? ==> (ChosenToken().Ok? <==> tokenFile.Some?)
      ensures t.Some? && t.value != [] ==> ChosenToken() == Ok(t.value)
    {
      token
    }

    /** `set_token`: the token is kept in memory and written to the token file. */
    method SetToken(t: string)
      modifies this
      ensures Token() == Some(t) && tokenFile == Some(t)
    {
      token := Some(t);
      tokenFile := Some(t);
    }

    /** The first step of `auth_header`: the token in memory when it is non-empty, else the
        trimmed contents of the token file; a file that cannot be read is `Unauthorized`. */
    function ChosenToken(): (r: Result<string, ClientError>)
      reads this
      ensures token.Some? && token.value != [] ==> r == Ok(token.value)
      ensures !(token.Some? && token.value != []) && tokenFile.None? ==> r == Err(Unauthorized)
      ensures !(token.Some? && token.value != []) && tokenFile.Some? ==> r == Ok(Trim(tokenFile.value))
    {
      if token.Some? && token.value != [] then Ok(token.value)
      else
        match tokenFile
        case None => Err(Unauthorized)
        case Some(text) => Ok(Trim(text))
    }

    /** `auth_header`: no header for an empty token; otherwise `Bearer <token>`, which must be
        a valid header value. */
    function AuthHeader(): (r: Result<Option<string>, ClientError>)
      reads this
      ensures ChosenToken().Err? ==> r == Err(ChosenToken().error)
      ensures ChosenToken() == Ok([]) ==> r == Ok(None)
      ensures r.Ok? && r.value.Some? <==>
        && ChosenToken().Ok? && ChosenToken().value != []
        && forall i :: 0 <= i < |Middleware.BEARER_PREFIX + ChosenToken().value| ==>
             IsHeaderChar((Middleware.BEARER_PREFIX + ChosenToken().value)[i])
      ensures r.Ok? && r.value.Some? ==> r.value.value == Middleware.BEARER_PREFIX + ChosenToken().value
      ensures r.Err? ==> r.error == Unauthorized
    {
      match ChosenToken()
      case Err(e) => Err(e)
      case Ok(t) =>
        if t == [] then Ok(None)
        else
          var value := Middleware.BEARER_PREFIX + t;
          if forall i :: 0 <= i < |value| ==> IsHeaderChar(value[i]) then Ok(Some(value))
          else Err(Unauthorized)
    }

    /** The URL `list_posts` requests: the paging arguments as the `i32` values the client
        computes, in decimal. */
    function ListUrl(limit: Option<U32>, offset: Option<U32>): (url: string)
      ensures url == baseUrl + "/api/posts?limit=" + Decimal(ClampedLimit(limit)) + "&offset="
                    + I32Text(PageParams(limit, offset).1)
    {
      var (l, o) := PageParams(limit, offset);
      baseUrl + "/api/posts?limit=" + I32Text(l) + "&offset=" + I32Text(o)
    }

    /** `register` and `login` after the request is sent: a 2xx reply carries the token, which
        the client keeps; any other status is an HTTP error with the body. */
    method Authenticate(reply: Result<HttpReply<string>, string>) returns (r: Result<(), ClientError>)
      modifies this
      ensures reply.Err? ==> r == Err(Request(reply.error)) && token == old(token) && tokenFile == old(tokenFile)
      ensures reply.Ok? && !IsSuccess(reply.value.status) ==>
        && r == Err(FromHttpResponse(reply.value.status, reply.value.text))
        && token == old(token) && tokenFile == old(tokenFile)
      ensures reply.Ok? && IsSuccess(reply.value.status) && reply.value.json.Err? ==>
        r == Err(Request(reply.value.json.error)) && token == old(token) && tokenFile == old(tokenFile)
      ensures reply.Ok? && IsSuccess(reply.value.status) && reply.value.json.Ok? ==>
        r == Ok(()) && Token() == Some(reply.value.json.value) && tokenFile == Some(reply.value.json.value)
    {
      match reply {
        case Err(e) => r := Err(Request(e));
        case Ok(resp) =>
          if !IsSuccess(resp.status) {
            r := Err(FromHttpResponse(resp.status, resp.text));
          } else {
            match resp.json {
              case Err(e) => r := Err(Request(e));
              case Ok(accessToken) =>
                SetToken(accessToken);
                r := Ok(());
            }
          }
      }
    }
  }

  /** After `set_token(t)` with a non-empty `t`, requests carry `Bearer t`, as long as `t`
      is a valid header value. */
  lemma HeaderAfterSetToken(client: BlogClientHttp, t: string)
    requires client.token == Some(t) && client.tokenFile == Some(t) && t != []
    requires forall i :: 0 <= i < |t| ==> IsHeaderChar(t[i])
    ensures client.AuthHeader() == Ok(Some(Middleware.BEARER_PREFIX + t))
  {
    var value := Middleware.BEARER_PREFIX + t;
    forall i | 0 <= i < |value| ensures IsHeaderChar(value[i]) {
      if i >= |Middleware.BEARER_PREFIX| {
        assert value[i] == t[i - |Middleware.BEARER_PREFIX|];
      }
    }
  }

  /** A fresh process reads the token file; whitespace around its contents, such as a final
      newline, is not sent. */
  lemma FileTokenTrimmed(client: BlogClientHttp, t: string)
    requires client.token == None && client.tokenFile == Some(t + "\n")
    requires Tight(t) && forall i :: 0 <= i < |t| ==> IsVisibleAscii(t[i])
    ensures client.AuthHeader() == Ok(Some(Middleware.BEARER_PREFIX + t))
  {
    TrimDropsFinalNewline(t);
    var value := Middleware.BEARER_PREFIX + t;
    forall i | 0 <= i < |value| ensures IsHeaderChar(value[i]) {
      if i >= |Middleware.BEARER_PREFIX| {
        assert value[i] == t[i - |Middleware.BEARER_PREFIX|];
      }
    }
  }

  /** An empty token in memory does not hide the file: the file is consulted, and an
      unreadable file makes the request fail before it is sent. */
  lemma EmptyTokenFallsBackToFile(client: BlogClientHttp)
    requires client.token == Some("") && client.tokenFile == None
    ensures client.AuthHeader() == Err(Unauthorized)
  {
  }

  /** A header the client builds from visible ASCII is read back by the server's middleware
      as the token the client chose. */
  lemma HeaderReachesServer(client: BlogClientHttp)
    requires client.AuthHeader().Ok? && client.AuthHeader().value.Some?
    requires forall i :: 0 <= i < |client.AuthHeader().value.value| ==> IsVisibleAscii(client.AuthHeader().value.value[i])
    ensures Middleware.BearerToken(Middleware.AuthorizationValue(
      map[Middleware.AUTHORIZATION := client.AuthHeader().value.value])) == Ok(client.ChosenToken().value)
  {
    StripPrefixOfConcat(Middleware.BEARER_PREFIX, client.ChosenToken().value);
  }

  /** An offset of 2^31 or more is sent as a negative number. */
  lemma LargeOffsetSentNegative(client: BlogClientHttp, limit: Option<U32>, offset: U32)
    requires offset >= TWO_31
    ensures client.ListUrl(limit, Some(offset))
      == client.baseUrl + "/api/posts?limit=" + Decimal(ClampedLimit(limit)) + "&offset=-" + Decimal(TWO_32 - offset)
  {
  }
}
