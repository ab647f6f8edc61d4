/**
  `presentation/grpc_service.rs`: the tonic `BlogService`. Requests are checked here before the
  services see them; a failure becomes a `Status`. An `unwrap` on a UUID that does not parse
  aborts the call, which the model reports as `Panic`.
*/
module GrpcService {
  import opened Wrappers
  import opened Uuids
  import opened Text
  import opened MachineInts
  import opened Posts
  import Errors
  import opened Database
  import opened Security
  import opened PostRepository
  import opened PostServices
  import opened UserRepository
  import opened AuthServices
  import Middleware

  /** The gRPC status codes this service produces. */
  datatype Code = InvalidArgument | Unauthenticated | NotFound | Internal

  datatype Status = Status(code: Code, message: string)

  /** What an RPC ends in: a reply, a status, or an aborted call. */
  datatype Outcome<T> = Reply(value: T) | Failed(status: Status) | Panic

  datatype AuthResponse = AuthResponse(accessToken: string, expiresIn: int, tokenType: string)

  /** The protobuf `Post`: ids as text; timestamps in seconds (nanoseconds are not modelled). */
  datatype ProtoPost = ProtoPost(postId: string, title: string, content: string, authorId: string,
                                 createdAt: int, updatedAt: int)

  datatype ListPostsResponse = ListPostsResponse(posts: seq<ProtoPost>, totalCount: I32)

  datatype ProtoUpdatePostRequest = ProtoUpdatePostRequest(postId: string, title: Option<string>, content: Option<string>)

  /** `map_domain_error_to_status`. Unlike the HTTP table, `Forbidden` and `UserAlreadyExists`
      become a generic internal error. */
  function MapDomainErrorToStatus(e: Errors.DomainError): (s: Status)
    ensures s.code == Unauthenticated <==> e.Unauthorized?
    ensures s.code == NotFound <==> e.UserNotFound? || e.PostNotFound?
    ensures s.code == Internal <==> e.Internal? || e.Forbidden? || e.UserAlreadyExists?
    ensures e.Internal? ==> s.message == e.message
    ensures e.Forbidden? || e.UserAlreadyExists? ==> s.message == "Internal server error"
    ensures e.Unauthorized? ==> s.message == "Invalid credentials"
    ensures e.UserNotFound? ==> s.message == "User not found"
    ensures e.PostNotFound? ==> s.message == "Post not found"
  {
    match e
    case Unauthorized => Status(Unauthenticated, "Invalid credentials")
    case UserNotFound(_) => Status(NotFound, "User not found")
    case Internal(msg) => Status(Internal, msg)
    case PostNotFound(_) => Status(NotFound, "Post not found")
    case _ => Status(Internal, "Internal server error")
  }

  /** The two error tables agree on missing resources and bad credentials and part ways on
      `Forbidden` and `UserAlreadyExists`, which gRPC callers see as internal errors. */
  lemma ErrorTablesDiffer(e: Errors.DomainError)
    ensures Errors.StatusCode(e) == 404 <==> MapDomainErrorToStatus(e).code == NotFound
    ensures Errors.StatusCode(e) == 401 <==> MapDomainErrorToStatus(e).code == Unauthenticated
    ensures Errors.StatusCode(Errors.Forbidden) == 403 && MapDomainErrorToStatus(Errors.Forbidden).code == Internal
    ensures Errors.StatusCode(Errors.UserAlreadyExists("email already registered")) == 409
      && MapDomainErrorToStatus(Errors.UserAlreadyExists("email already registered")).code == Internal
  {
  }

  /** `extract_token_from_request`: the `authorization` metadata as text, then the `Bearer `
      prefix; the token is the rest. */
  function ExtractTokenFromRequest(metadata: map<string, string>): (r: Result<string, Status>)
    ensures r.Ok? ==>
      && Middleware.AUTHORIZATION in metadata
      && metadata[Middleware.AUTHORIZATION] == Middleware.BEARER_PREFIX + r.value
    ensures Middleware.AuthorizationValue(metadata).None? ==>
      r == Err(Status(Unauthenticated, "Authorization header missing"))
    ensures Middleware.AuthorizationValue(metadata).Some? && r.Err? ==>
      r == Err(Status(Unauthenticated, "Invalid authorization header format"))
  {
    match Middleware.AuthorizationValue(metadata)
    case None => Err(Status(Unauthenticated, "Authorization header missing"))
    case Some(auth) =>
      match StripPrefix(auth, Middleware.BEARER_PREFIX)
      case None => Err(Status(Unauthenticated, "Invalid authorization header format"))
      case Some(token) => Ok(token)
  }

  /** The gRPC and HTTP sides accept the same headers and read the same token out of them. */
  lemma SameBearerRules(metadata: map<string, string>)
    ensures ExtractTokenFromRequest(metadata).Ok? <==> Middleware.BearerToken(Middleware.AuthorizationValue(metadata)).Ok?
    ensures ExtractTokenFromRequest(metadata).Ok? ==>
      ExtractTokenFromRequest(metadata).value == Middleware.BearerToken(Middleware.AuthorizationValue(metadata)).value
  {
  }

  /** The checks of `register`, in order: username bytes, an `@` in the email, password bytes. */
  function ValidateRegister(username: string, email: string, password: string): (r: Option<Status>)
    ensures r.None? <==> Utf8Len(username) >= 6 && '@' in email && Utf8Len(password) >= 8
    ensures Utf8Len(username) < 6 ==> r == Some(Status(InvalidArgument, "Username must be \U{2265}6 chars"))
    ensures Utf8Len(username) >= 6 && '@' !in email ==> r == Some(Status(InvalidArgument, "Invalid email"))
    ensures Utf8Len(username) >= 6 && '@' in email && Utf8Len(password) < 8 ==>
      r == Some(Status(InvalidArgument, "Password must be \U{2265}8 chars"))
  {
    if Utf8Len(username) < 6 then Some(Status(InvalidArgument, "Username must be \U{2265}6 chars"))
    else if '@' !in email then Some(Status(InvalidArgument, "Invalid email"))
    else if Utf8Len(password) < 8 then Some(Status(InvalidArgument, "Password must be \U{2265}8 chars"))
    else None
  }

  /** The checks of `login`: username bytes, then password bytes. */
  function ValidateLogin(username: string, password: string): (r: Option<Status>)
    ensures r.None? <==> Utf8Len(username) >= 6 && Utf8Len(password) >= 8
    ensures Utf8Len(username) < 6 ==> r == Some(Status(InvalidArgument, "Username must be \U{2265}6 chars"))
    ensures Utf8Len(username) >= 6 && Utf8Len(password) < 8 ==>
      r == Some(Status(InvalidArgument, "Password must be \U{2265}8 chars"))
  {
    if Utf8Len(username) < 6 then Some(Status(InvalidArgument, "Username must be \U{2265}6 chars"))
    else if Utf8Len(password) < 8 then Some(Status(InvalidArgument, "Password must be \U{2265}8 chars"))
    else None
  }

  /** Byte length, not character count: a five-letter name with one two-byte letter passes. */
  lemma UsernameLengthInBytes()
    ensures |"\U{E9}abcd"| == 5 && ValidateLogin("\U{E9}abcd", "password").None?
  {
    assert Utf8Len("\U{E9}abcd") == 2 + Utf8Len("abcd");
    assert Utf8Len("abcd") == 4;
  }

  /** Both auth RPCs answer with the token, one hour and the `Bearer` type. */
  function AuthReply(token: string): (a: AuthResponse)
    ensures a.accessToken == token && a.expiresIn == TOKEN_LIFETIME_SECS && a.tokenType == "Bearer"
  {
    AuthResponse(token, 3600, "Bearer")
  }

  /** `From<Post> for ProtoPost` */
  function ProtoPostOf(p: Post): (q: ProtoPost)
    ensures Parse(q.postId) == Some(p.id) && Parse(q.authorId) == Some(p.authorId)
    ensures q.title == p.title && q.content == p.content
    ensures q.createdAt == p.createdAt && q.updatedAt == p.updatedAt
  {
    ParseToString(p.id);
    ParseToString(p.authorId);
    ProtoPost(ToString(p.id), p.title, p.content, ToString(p.authorId), p.createdAt, p.updatedAt)
  }

  /** `From<Vec<Post>> for ListPostsResponse`: same posts in the same order, and the length
      as an `i32`, which wraps for lists of 2^31 posts or more. */
  function ListPostsResponseOf(posts: seq<Post>): (r: ListPostsResponse)
    requires |posts| < TWO_64
    ensures |r.posts| == |posts| && forall i :: 0 <= i < |posts| ==> r.posts[i] == ProtoPostOf(posts[i])
    ensures |posts| < TWO_31 ==> r.totalCount == |posts|
  {
    ListPostsResponse(seq(|posts|, i requires 0 <= i < |posts| => ProtoPostOf(posts[i])), UsizeAsI32(|posts|))
  }

  /** `From<ProtoUpdatePostRequest> for UpdatePostRequest`: both options copied as they are. */
  function UpdateRequestOf(req: ProtoUpdatePostRequest): (u: UpdatePostRequest)
    ensures u.title == req.title && u.content == req.content
  {
    UpdatePostRequest(req.title, req.content)
  }

  class BlogGrpcService {
    const auth: AuthService
    const posts: PostService

    constructor (auth: AuthService, posts: PostService)
      ensures this.auth == auth && this.posts == posts
    {
      this.auth := auth;
      this.posts := posts;
    }

    /** The token gate of `create_post`, `update_post` and `delete_post`: a bearer token that
        verifies, whose subject is then unwrapped as a UUID. */
    function Caller(metadata: map<string, string>): (r: Outcome<Uuid>)
      ensures ExtractTokenFromRequest(metadata).Err? ==> r == Failed(ExtractTokenFromRequest(metadata).error)
      ensures ExtractTokenFromRequest(metadata).Ok? && VerifyToken(auth.keys, ExtractTokenFromRequest(metadata).value).Err? ==>
        r == Failed(Status(Unauthenticated, "Invalid or expired token"))
      ensures ExtractTokenFromRequest(metadata).Ok? && VerifyToken(auth.keys, ExtractTokenFromRequest(metadata).value).Ok? ==>
        var sub := VerifyToken(auth.keys, ExtractTokenFromRequest(metadata).value).value.sub;
        && (Parse(sub).None? ==> r.Panic?)
        && (Parse(sub).Some? ==> r == Reply(Parse(sub).value))
      ensures r.Reply? ==>
        && ExtractTokenFromRequest(metadata).Ok?
        && VerifyToken(auth.keys, ExtractTokenFromRequest(metadata).value).Ok?
        && Parse(VerifyToken(auth.keys, ExtractTokenFromRequest(metadata).value).value.sub) == Some(r.value)
    {
      match ExtractTokenFromRequest(metadata)
      case Err(s) => Failed(s)
      case Ok(token) =>
        match VerifyToken(auth.keys, token)
        case Err(_) => Failed(Status(Unauthenticated, "Invalid or expired token"))
        case Ok(claims) =>
          match Parse(claims.sub)
          case None => Panic
          case Some(id) => Reply(id)
    }

    /** `register`: validation, then `AuthService::register`, then a token for the new user,
        signed when the clock reads `tokenNow`. */
    method Register(username: string, email: string, password: string, hashed: Result<string, string>,
                    freshId: Uuid, now: int, dbNow: int, fault: Option<DbError>, tokenNow: int)
      returns (r: Outcome<AuthResponse>)
      requires auth.repo.Valid()
      modifies auth.repo
      ensures auth.repo.Valid()
      ensures ValidateRegister(username, email, password).Some? ==>
        r == Failed(ValidateRegister(username, email, password).value) && auth.repo.rows == old(auth.repo.rows)
      ensures ValidateRegister(username, email, password).None? && hashed.Err? ==>
        r == Failed(Status(Internal, hashed.error)) && auth.repo.rows == old(auth.repo.rows)
      ensures ValidateRegister(username, email, password).None? && hashed.Ok? ==>
        var user := Users.NewUser(username, Lowercase(email), hashed.value, freshId, now);
        var failure := InsertFailure(old(auth.repo.rows), user, fault);
        var signed := GenerateToken(auth.keys, freshId, tokenNow);
        && (failure.Some? ==>
              && r == Failed(MapDomainErrorToStatus(ClassifyInsertError(failure.value)))
              && auth.repo.rows == old(auth.repo.rows))
        && (failure.None? ==>
              && auth.repo.rows == old(auth.repo.rows) + [NewRow(user, auth.repo.defaultUsername, dbNow)]
              && (signed.Ok? ==> r == Reply(AuthReply(signed.value)))
              && (signed.Err? ==> r == Failed(Status(Internal, "JWT generation failed: " + signed.error))))
      ensures r.Reply? ==> exists token :: GenerateToken(auth.keys, freshId, tokenNow) == Ok(token) && r.value == AuthReply(token)
      ensures r.Reply? ==>
        && hashed.Ok?
        && auth.repo.rows == old(auth.repo.rows)
          + [NewRow(Users.NewUser(username, Lowercase(email), hashed.value, freshId, now), auth.repo.defaultUsername, dbNow)]
    {
      var invalid := ValidateRegister(username, email, password);
      if invalid.Some? {
        r := Failed(invalid.value);
        return;
      }
      var user := auth.Register(username, email, hashed, freshId, now, dbNow, fault);
      if user.Err? {
        r := Failed(MapDomainErrorToStatus(user.error));
        return;
      }
      match GenerateToken(auth.keys, user.value.id, tokenNow) {
        case Err(e) => r := Failed(Status(Internal, "JWT generation failed: " + e));
        case Ok(token) => r := Reply(AuthReply(token));
      }
    }

    /** `login`: validation, then `AuthService::login` with the request's username in the
        email slot. */
    function Login(username: string, password: string, now: int, fault: Option<DbError>): (r: Outcome<AuthResponse>)
      reads auth.repo
      ensures ValidateLogin(username, password).Some? ==> r == Failed(ValidateLogin(username, password).value)
      ensures ValidateLogin(username, password).None? && auth.Login(username, password, now, fault).Err? ==>
        r == Failed(MapDomainErrorToStatus(auth.Login(username, password, now, fault).error))
      ensures ValidateLogin(username, password).None? && auth.Login(username, password, now, fault).Ok? ==>
        r == Reply(AuthReply(auth.Login(username, password, now, fault).value))
      ensures r.Reply? ==> r.value == AuthReply(auth.Login(username, password, now, fault).value)
      ensures r.Reply? ==> exists i :: 0 <= i < |auth.repo.rows| && auth.repo.rows[i].email == Lowercase(username)
    {
      match ValidateLogin(username, password)
      case Some(s) => Failed(s)
      case None =>
        match auth.Login(username, password, now, fault)
        case Err(e) => Failed(MapDomainErrorToStatus(e))
        case Ok(token) => Reply(AuthReply(token))
    }

    /** `create_post`: the caller's id from the token is the author; the service is not
        reached when the gate refuses. */
    method CreatePost(metadata: map<string, string>, title: string, content: string, freshId: Uuid,
                      firstReading: int, secondReading: int, now: int, fault: Option<DbError>)
      returns (r: Outcome<ProtoPost>)
      requires posts.repo.Valid()
      modifies posts.repo
      ensures posts.repo.Valid()
      ensures !Caller(metadata).Reply? ==> posts.repo.posts == old(posts.repo.posts)
      ensures Caller(metadata).Failed? ==> r == Failed(Caller(metadata).status)
      ensures Caller(metadata).Panic? ==> r.Panic?
      ensures Caller(metadata).Reply? ==>
        var c := CreateStep(old(posts.repo.posts),
                   NewPost(Caller(metadata).value, title, content, freshId, firstReading, secondReading), now, fault);
        && posts.repo.posts == c.posts
        && (c.result.Err? ==> r == Failed(MapDomainErrorToStatus(c.result.error)))
        && (c.result.Ok? ==> r == Reply(ProtoPostOf(c.result.value)))
    {
      var caller := Caller(metadata);
      match caller {
        case Failed(s) => r := Failed(s);
        case Panic => r := Panic;
        case Reply(userId) =>
          var post := posts.CreatePost(userId, title, content, freshId, firstReading, secondReading, now, fault);
          match post {
            case Err(e) => r := Failed(MapDomainErrorToStatus(e));
            case Ok(p) =>
              r := Reply(ProtoPost(ToString(p.id), p.title, p.content, ToString(userId), p.createdAt, p.updatedAt));
          }
      }
    }

    /** `get_post`: no token needed; an id that does not parse aborts. */
    function GetPost(postId: string, fault: Option<DbError>): (r: Outcome<ProtoPost>)
      reads posts.repo
      ensures Parse(postId).None? ==> r.Panic?
      ensures r.Reply? ==> exists id :: (Parse(postId) == Some(id) && id in posts.repo.posts
                                         && r.value == ProtoPostOf(posts.repo.posts[id]))
      ensures fault.None? && Parse(postId).Some? && Parse(postId).value !in posts.repo.posts ==>
        r == Failed(Status(NotFound, "Post not found"))
      ensures fault.None? && Parse(postId).Some? && Parse(postId).value in posts.repo.posts ==>
        r == Reply(ProtoPostOf(posts.repo.posts[Parse(postId).value]))
      ensures fault.Some? && Parse(postId).Some? ==> r == Failed(Status(Internal, fault.value.text))
    {
      match Parse(postId)
      case None => Panic
      case Some(id) =>
        match posts.GetPost(id, fault)
        case Err(e) => Failed(MapDomainErrorToStatus(e))
        case Ok(p) => Reply(ProtoPostOf(p))
    }

    /** `list_posts`: the request's `i32` limit and offset become `usize` by sign extension, so
        a negative offset reaches the database as a negative `OFFSET` and fails there. */
    method ListPosts(limit: I32, offset: I32, fault: Option<DbError>)
      returns (r: Outcome<ListPostsResponse>, ghost ordered: seq<Post>)
      requires posts.repo.Valid()
      ensures ListsTable(posts.repo.posts, ordered) && NewestFirst(ordered)
      ensures fault.Some? ==> r == Failed(Status(Internal, fault.value.text))
      ensures fault.None? && offset < 0 ==> r == Failed(Status(Internal, NEGATIVE_OFFSET.text))
      ensures fault.None? && offset >= 0 ==>
        var page := Window(ordered, PageLimit(Some(I32AsUsize(limit))), offset);
        r == Reply(ListPostsResponseOf(page))
      ensures r.Reply? ==> |r.value.posts| <= 100
    {
      var page;
      page, ordered := posts.GetPosts(Some(I32AsUsize(limit)), Some(I32AsUsize(offset)), fault);
      match page {
        case Err(e) => r := Failed(MapDomainErrorToStatus(e));
        case Ok(ps) => r := Reply(ListPostsResponseOf(ps));
      }
    }

    /** `update_post`: gate, then the post id unwrapped, then
        `PostService::update_post(post_id, user_id, ..)`. */
    method UpdatePost(metadata: map<string, string>, req: ProtoUpdatePostRequest, now: int, fault: Option<DbError>)
      returns (r: Outcome<ProtoPost>)
      requires posts.repo.Valid()
      modifies posts.repo
      ensures posts.repo.Valid()
      ensures !(Caller(metadata).Reply? && Parse(req.postId).Some?) ==> posts.repo.posts == old(posts.repo.posts)
      ensures Caller(metadata).Failed? ==> r == Failed(Caller(metadata).status)
      ensures Caller(metadata).Reply? && Parse(req.postId).None? ==> r.Panic?
      ensures Caller(metadata).Reply? && Parse(req.postId).Some? ==>
        var u := UpdateStep(old(posts.repo.posts), Parse(req.postId).value, Caller(metadata).value,
                            UpdateRequestOf(req), now, fault);
        && posts.repo.posts == u.posts
        && (r.Reply? <==> u.result.Ok? && u.result.value.Some?)
        && (r.Reply? ==> r.value == ProtoPostOf(u.result.value.value))
        && (u.result.Err? ==> r == Failed(MapDomainErrorToStatus(u.result.error)))
        && (u.result == Ok(None) ==> r == Failed(Status(NotFound, "Post not found")))
    {
      var caller := Caller(metadata);
      if caller.Failed? {
        r := Failed(caller.status);
        return;
      }
      if caller.Panic? {
        r := Panic;
        return;
      }
      var postId := Parse(req.postId);
      if postId.None? {
        r := Panic;
        return;
      }
      var post := posts.UpdatePost(postId.value, caller.value, UpdateRequestOf(req), now, fault);
      match post {
        case Err(e) => r := Failed(MapDomainErrorToStatus(e));
        case Ok(p) => r := Reply(ProtoPostOf(p));
      }
    }

    /** `delete_post`: gate, then the post id unwrapped, then
        `PostService::delete_post(user_id, post_id)`. */
    method DeletePost(metadata: map<string, string>, postId: string, fault: Option<DbError>, probeFault: Option<DbError>)
      returns (r: Outcome<()>)
      requires posts.repo.Valid()
      modifies posts.repo
      ensures posts.repo.Valid()
      ensures !(Caller(metadata).Reply? && Parse(postId).Some?) ==> posts.repo.posts == old(posts.repo.posts)
      ensures Caller(metadata).Failed? ==> r == Failed(Caller(metadata).status)
      ensures Caller(metadata).Reply? && Parse(postId).None? ==> r.Panic?
      ensures Caller(metadata).Reply? && Parse(postId).Some? ==>
        var d := DeleteStep(old(posts.repo.posts), Caller(metadata).value, Parse(postId).value, fault, probeFault);
        && posts.repo.posts == d.posts
        && (d.result.Ok? ==> r == Reply(()))
        && (d.result.Err? ==> r == Failed(MapDomainErrorToStatus(d.result.error)))
    {
      var caller := Caller(metadata);
      if caller.Failed? {
        r := Failed(caller.status);
        return;
      }
      if caller.Panic? {
        r := Panic;
        return;
      }
      var id := Parse(postId);
      if id.None? {
        r := Panic;
        return;
      }
      var deleted := posts.DeletePost(caller.value, id.value, fault, probeFault);
      match deleted {
        case Err(e) => r := Failed(MapDomainErrorToStatus(e));
        case Ok(_) => r := Reply(());
      }
    }
  }

  /** Over gRPC the author of a post who deletes it is told the post does not exist. */
  lemma OwnerDeleteIsNotFound(t: Table, owner: Uuid, postId: Uuid)
    requires postId in t && t[postId].authorId == owner && owner !in t
    ensures DeleteStep(t, owner, postId, None, None).result == Err(Errors.PostNotFound(owner))
    ensures MapDomainErrorToStatus(DeleteStep(t, owner, postId, None, None).result.error)
      == Status(NotFound, "Post not found")
  {
  }

  /** Over gRPC a delete never reports `Forbidden` as such: it reaches the caller as a generic
      internal error. */
  lemma ForbiddenDeleteIsInternal(t: Table, caller: Uuid, postId: Uuid)
    requires caller in t && t[caller].authorId != postId
    ensures MapDomainErrorToStatus(DeleteStep(t, caller, postId, None, None).result.error)
      == Status(Internal, "Internal server error")
  {
  }
}
