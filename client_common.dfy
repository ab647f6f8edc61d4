/**
  What the `blog-client` crate's two clients share: `BlogClientError`
  (`blog-client/src/error.rs`), the shape of an HTTP exchange as a client sees it, and the
  paging arguments both clients derive from the caller's `Option<u32>` values.
*/
module ClientCommon {
  import opened Wrappers
  import opened MachineInts
  import GrpcService

  /** `BlogClientError`. Transport and decoding failures keep only their text. */
  datatype ClientError =
    | Http(status: nat, message: string)
    | Request(text: string)
    | Transport(text: string)
    | NotFound
    | Unauthorized
    | InvalidRequest(message: string)
    | StatusError(grpcStatus: GrpcService.Status)

  /** An HTTP response as the client reads it: the status, the body as text (`None` when it
      cannot be read), and the body decoded as JSON into the expected type. */
  datatype HttpReply<T> = HttpReply(status: nat, text: Option<string>, json: Result<T, string>)

  /** `StatusCode::is_success` (and gloo's `Response::ok`): a 2xx status. */
  function IsSuccess(status: nat): (ok: bool)
    ensures ok <==> 200 <= status < 300
  {
    200 <= status <= 299
  }

  /** `BlogClientError::from_http_response`: the status and the body, or a fixed text when
      the body cannot be read. */
  function FromHttpResponse(status: nat, text: Option<string>): (e: ClientError)
    ensures e.Http? && e.status == status
    ensures text.Some? ==> e.message == text.value
    ensures text.None? ==> e.message == "Failed to read body"
  {
    Http(status, text.GetOr("Failed to read body"))
  }

  /** `limit.unwrap_or(10).min(100)` */
  function ClampedLimit(limit: Option<U32>): (n: U32)
    ensures n <= 100
    ensures limit.None? ==> n == 10
    ensures limit.Some? && limit.value <= 100 ==> n == limit.value
    ensures limit.Some? && limit.value >= 100 ==> n == 100
  {
    var asked := limit.GetOr(10);
    if asked < 100 then asked else 100
  }

  /** The `limit` and `offset` the `blog-client` clients send: the clamped limit, and the
      offset (default 0), each cast `as i32`. An offset of 2^31 or more wraps negative. */
  function PageParams(limit: Option<U32>, offset: Option<U32>): (p: (I32, I32))
    ensures 0 <= p.0 <= 100 && p.0 == ClampedLimit(limit)
    ensures offset.GetOr(0) < TWO_31 ==> p.1 == offset.GetOr(0)
    ensures offset.GetOr(0) >= TWO_31 ==> p.1 < 0 && p.1 == offset.GetOr(0) - TWO_32
  {
    (U32AsI32(ClampedLimit(limit)), U32AsI32(offset.GetOr(0)))
  }
}
