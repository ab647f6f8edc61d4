/**
  `blog-wasm/src/client.rs`: the browser client. Its fallback store is the `LocalStorage`
  entry `blog_token`, a field here (`None`: absent or not a string); the response to each
  request is a parameter.
*/
module WasmClient {
  import opened Wrappers
  import opened Text
  import opened MachineInts
  import ClientCommon
  import Middleware
  import PostRepository

  const TOKEN_KEY: string := "blog_token"

  /** `blog-wasm`'s `BlogClientError`. */
  datatype WasmClientError =
    | Http(status: nat, message: string)
    | Request(text: string)
    | NotFound
    | Unauthorized
    | InvalidRequest(message: string)

  /** `Option::filter(|s| !s.is_empty())` */
  function NonEmpty(o: Option<string>): (r: Option<string>)
    ensures r.Some? <==> o.Some? && o.value != []
    ensures r.Some? ==> r == o
  {
    if o.Some? && o.value != [] then o else None
  }

  class BlogClientHttp {
    const baseUrl: string
    var token: Option<string>
    var storage: Option<string>

    /** `connect`: every trailing `/` is dropped, and the token starts as the stored one. */
    constructor Connect(endpoint: string, storage: Option<string>)
      ensures baseUrl == TrimEndMatches(endpoint, '/')
      ensures baseUrl == [] || baseUrl[|baseUrl| - 1] != '/'
      ensures token == storage && this.storage == storage
    {
      baseUrl := TrimEndMatches(endpoint, '/');
      token := storage;
      this.storage := storage;
    }

    /** `set_token`: the field always takes the token; the storage entry does when the write
        succeeds (`stored`), and a failed write is ignored. */
    method SetToken(t: string, stored: bool)
      modifies this
      ensures token == Some(t)
      ensures storage == (if stored then Some(t) else old(storage))
      ensures t != [] ==> Token() == Some(t)
    {
      token := Some(t);
      if stored {
        storage := Some(t);
      }
    }

    /** `token`: the field when it is set, else the storage entry, and an empty string counts
        as no token. An empty field does not fall back to the storage entry. */
    function Token(): (r: Option<string>)
      reads this
      ensures r.Some? ==> r.value != []
      ensures token.Some? ==> (r.Some? <==> token.value != []) && (r.Some? ==> r.value == token.value)
      ensures token.None? ==> (r.Some? <==> storage.Some? && storage.value != [])
      ensures token.None? && r.Some? ==> r.value == storage.value
    {
      NonEmpty(if token.Some? then token else storage)
    }

    /** `auth_header`: `Bearer <token>` exactly when there is a token (its emptiness filter
        never removes anything). */
    function AuthHeader(): (r: Option<string>)
      reads this
      ensures r.Some? <==> Token().Some?
      ensures r.Some? ==> r.value == Middleware.BEARER_PREFIX + Token().value
    {
      NonEmpty(match Token() case None => None case Some(t) => Some(Middleware.BEARER_PREFIX + t))
    }

    /** The URL `list_posts` requests: the clamped limit and the offset (default 0) as `u32`s
        in decimal, with no cast. */
    function ListUrl(limit: Option<U32>, offset: Option<U32>): (url: string)
      ensures url == baseUrl + "/api/posts?limit=" + Decimal(ClientCommon.ClampedLimit(limit)) + "&offset="
                    + Decimal(offset.GetOr(0))
    {
      baseUrl + "/api/posts?limit=" + Decimal(ClientCommon.ClampedLimit(limit)) + "&offset=" + Decimal(offset.GetOr(0))
    }
  }

  /** `send`: a failed send and a body that does not decode are request errors; a status
      outside 2xx is an HTTP error with the body, or an empty message when the body cannot be
      read. */
  function Send<T>(reply: Result<ClientCommon.HttpReply<T>, string>): (r: Result<T, WasmClientError>)
    ensures reply.Err? ==> r == Err(Request(reply.error))
    ensures reply.Ok? && ClientCommon.IsSuccess(reply.value.status) ==>
      (r.Ok? <==> reply.value.json.Ok?) && (r.Ok? ==> r.value == reply.value.json.value)
    ensures reply.Ok? && !ClientCommon.IsSuccess(reply.value.status) ==>
      r == Err(Http(reply.value.status, reply.value.text.GetOr("")))
  {
    match reply
    case Err(e) => Err(Request(e))
    case Ok(resp) =>
      if ClientCommon.IsSuccess(resp.status) then
        match resp.json
        case Ok(v) => Ok(v)
        case Err(e) => Err(Request(e))
      else
        Err(Http(resp.status, resp.text.GetOr("")))
  }

  /** `register` and `login` after the request is built: `send`, then the access token of the
      reply becomes the client's token; any failure leaves the token as it was. */
  method Authenticate(client: BlogClientHttp, reply: Result<ClientCommon.HttpReply<string>, string>, stored: bool)
    returns (r: Result<(), WasmClientError>)
    modifies client
    ensures Send(reply).Err? ==>
      r == Err(Send(reply).error) && client.token == old(client.token) && client.storage == old(client.storage)
    ensures Send(reply).Ok? ==> r == Ok(()) && client.token == Some(Send(reply).value)
    ensures Send(reply).Ok? ==> client.storage == (if stored then Some(Send(reply).value) else old(client.storage))
  {
    var sent := Send(reply);
    match sent {
      case Err(e) => r := Err(e);
      case Ok(accessToken) =>
        client.SetToken(accessToken, stored);
        r := Ok(());
    }
  }

  /** An empty token in the field hides the stored one: the client sends no header. */
  lemma EmptyFieldHidesStorage(client: BlogClientHttp)
    requires client.token == Some("")
    ensures client.Token() == None && client.AuthHeader() == None
  {
  }

  /** A freshly connected client uses the stored token. */
  lemma ConnectUsesStorage(client: BlogClientHttp, t: string)
    requires client.token == client.storage == Some(t) && t != []
    ensures client.AuthHeader() == Some(Middleware.BEARER_PREFIX + t)
  {
  }

  /** Unlike the `blog-client` clients, the browser client sends every offset unchanged: the
      server reads it back as the same non-negative value. */
  lemma OffsetReachesServerIntact(offset: U32)
    ensures PostRepository.PageOffset(Some(offset)) == offset
  {
  }

  /** The browser client's clamp and the repository's agree, so the limit it asks for is the
      limit applied. */
  lemma LimitAgreesWithServer(limit: Option<U32>)
    ensures PostRepository.PageLimit(Some(ClientCommon.ClampedLimit(limit))) == ClientCommon.ClampedLimit(limit)
    ensures limit.Some? ==> PostRepository.PageLimit(Some(limit.value)) == ClientCommon.ClampedLimit(limit)
  {
  }
}
