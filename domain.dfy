/** `domain/post.rs`: the post record and its constructor. */
module Posts {
  import opened Uuids

  /** A post; timestamps are seconds on the server's clock. */
  datatype Post = Post(
    id: Uuid,
    authorId: Uuid,
    title: string,
    content: string,
    createdAt: int,
    updatedAt: int)

  /**
    `Post::new`. The id comes from the UUID generator (`freshId`); the clock is read twice,
    first for `created_at` and then for `updated_at`. Title and content are not checked.
  */
  function NewPost(authorId: Uuid, title: string, content: string,
                   freshId: Uuid, firstReading: int, secondReading: int): (p: Post)
    ensures p.id == freshId
    ensures p.authorId == authorId && p.title == title && p.content == content
    ensures p.createdAt == firstReading && p.updatedAt == secondReading
    ensures firstReading <= secondReading ==> p.createdAt <= p.updatedAt
  {
    Post(freshId, authorId, title, content, firstReading, secondReading)
  }
}

/** `domain/user.rs`: the user record, with the `username` that the services read. */
module Users {
  import opened Uuids

  datatype User = User(
    id: Uuid,
    username: string,
    email: string,
    passwordHash: string,
    createdAt: int)

  /** `User::new` as `AuthService::register` calls it: a generated id and the clock's time. */
  function NewUser(username: string, email: string, passwordHash: string,
                   freshId: Uuid, now: int): (u: User)
    ensures u.id == freshId && u.createdAt == now
    ensures u.username == username && u.email == email && u.passwordHash == passwordHash
  {
    User(freshId, username, email, passwordHash, now)
  }
}

/** `domain/error.rs`: the failure kinds and how the HTTP side reports them. */
module Errors {
  import opened Wrappers
  import opened Uuids

  datatype DomainError =
    | UserNotFound(userId: Uuid)
    | UserAlreadyExists(reason: string)
    | PostNotFound(postId: Uuid)
    | Forbidden
    | Unauthorized
    | Internal(message: string)

  /** The `Display` text derived by `thiserror`. */
  function Display(e: DomainError): (s: string)
    ensures e.UserNotFound? ==> s == "user not found: " + ToString(e.userId)
    ensures e.UserAlreadyExists? ==> s == "user already exists: " + e.reason
    ensures e.PostNotFound? ==> s == "post not found: " + ToString(e.postId)
    ensures e.Forbidden? ==> s == "forbidden"
    ensures e.Unauthorized? ==> s == "unauthorized"
    ensures e.Internal? ==> s == "internal error: " + e.message
  {
    match e
    case UserNotFound(id) => "user not found: " + ToString(id)
    case UserAlreadyExists(s) => "user already exists: " + s
    case PostNotFound(id) => "post not found: " + ToString(id)
    case Forbidden => "forbidden"
    case Unauthorized => "unauthorized"
    case Internal(m) => "internal error: " + m
  }

  /** `ResponseError::status_code`: defined for every variant. */
  function StatusCode(e: DomainError): (code: nat)
    ensures code == 404 <==> e.UserNotFound? || e.PostNotFound?
    ensures code == 401 <==> e.Unauthorized?
    ensures code == 403 <==> e.Forbidden?
    ensures code == 409 <==> e.UserAlreadyExists?
    ensures code == 500 <==> e.Internal?
  {
    match e
    case UserNotFound(_) => 404
    case PostNotFound(_) => 404
    case Unauthorized => 401
    case Forbidden => 403
    case UserAlreadyExists(_) => 409
    case Internal(_) => 500
  }

  /** The JSON `details` value: the resource id, or a fixed note keyed `"message:"`
      (the key carries the colon in the source). */
  datatype Details = Resource(resource: Uuid) | Note(key: string, text: string)

  /** `ErrorBody`; `details` is omitted from the JSON when `None`. */
  datatype ErrorBody = ErrorBody(error: string, details: Option<Details>)

  datatype ErrorResponse = ErrorResponse(status: nat, body: ErrorBody)

  const FORBIDDEN_NOTE: Details := Note("message:", "you do not have permission to delete this post")

  /** `ResponseError::error_response` */
  function ErrorResponseOf(e: DomainError): (r: ErrorResponse)
    ensures r.status == StatusCode(e)
    ensures r.body.error == Display(e)
    ensures e.PostNotFound? ==> r.body.details == Some(Resource(e.postId))
    ensures e.UserNotFound? ==> r.body.details == Some(Resource(e.userId))
    ensures e.Forbidden? ==> r.body.details == Some(FORBIDDEN_NOTE)
    ensures e.Unauthorized? || e.UserAlreadyExists? || e.Internal? ==> r.body.details.None?
  {
    var details :=
      match e
      case PostNotFound(id) => Some(Resource(id))
      case UserNotFound(id) => Some(Resource(id))
      case Forbidden => Some(FORBIDDEN_NOTE)
      case _ => None;
    ErrorResponse(StatusCode(e), ErrorBody(Display(e), details))
  }

  /** Which variant an error is. */
  function Kind(e: DomainError): nat {
    match e
    case UserNotFound(_) => 0
    case UserAlreadyExists(_) => 1
    case PostNotFound(_) => 2
    case Forbidden => 3
    case Unauthorized => 4
    case Internal(_) => 5
  }

  /** The variant a `Display` text comes from, read off its first and sixth characters. */
  function KindOf(s: string): nat {
    if |s| <= 5 then 6
    else if s[0] == 'p' then 2
    else if s[0] == 'f' then 3
    else if s[0] == 'i' then 5
    else if s[5] == 'n' then 0
    else if s[5] == 'a' then 1
    else 4
  }

  lemma KindOfDisplay(e: DomainError)
    ensures KindOf(Display(e)) == Kind(e)
  {
    var s := Display(e);
    match e
    case UserNotFound(_) =>
      assert s[0] == 'u' && s[5] == 'n';
    case UserAlreadyExists(_) =>
      assert s[0] == 'u' && s[5] == 'a';
    case PostNotFound(_) =>
      assert s[0] == 'p';
    case Forbidden =>
      assert s == "forbidden";
    case Unauthorized =>
      assert s == "unauthorized";
    case Internal(_) =>
      assert s[0] == 'i';
  }

  /** The body text tells the failures apart: different errors never render alike. */
  lemma DisplayInjective(a: DomainError, b: DomainError)
    requires Display(a) == Display(b)
    ensures a == b
  {
    KindOfDisplay(a);
    KindOfDisplay(b);
    var s := Display(a);
    match a
    case UserNotFound(x) =>
      assert ToString(x) == s[16..] == ToString(b.userId);
      ToStringInjective(x, b.userId);
    case UserAlreadyExists(x) =>
      assert x == s[21..] == b.reason;
    case PostNotFound(x) =>
      assert ToString(x) == s[16..] == ToString(b.postId);
      ToStringInjective(x, b.postId);
    case Forbidden =>
    case Unauthorized =>
    case Internal(m) =>
      assert m == s[16..] == b.message;
  }
}

/** The driver's view of a failed statement, as far as the repositories inspect it. */
module Database {
  import opened Wrappers

  /** A database error: the violated constraint's name, if any, and the error's text. */
  datatype DbError = DbError(constraint: Option<string>, text: string)

  /** PostgreSQL's default constraint names for the tables' keys; the schema itself is not part
      of this model. */
  const POSTS_PKEY: string := "posts_pkey"
  const USERS_PKEY: string := "users_pkey"
  const USERS_EMAIL_KEY: string := "users_email_key"

  /** The error an insert gets when it would duplicate a unique key. */
  function UniqueViolation(constraint: string): (e: DbError)
    ensures e.constraint == Some(constraint)
  {
    DbError(Some(constraint),
      "error returned from database: duplicate key value violates unique constraint \"" + constraint + "\"")
  }

  /** PostgreSQL refuses a negative `OFFSET`. */
  const NEGATIVE_OFFSET: DbError := DbError(None, "error returned from database: OFFSET must not be negative")
}
