/**
  `application/post_service.rs`: `PostService` over the posts repository. Arguments reach the
  repository by position: `update_post(author_id, post_id, ..)` and
  `delete_post(author_id, post_id)` hand their first argument to the repository's `id` slot
  and their second to its `author_id` slot.
*/
module PostServices {
  import opened Wrappers
  import opened Uuids
  import opened MachineInts
  import opened Posts
  import opened Errors
  import opened Database
  import opened PostRepository

  /** The `Option` to error step of `get_post` and `update_post`: `None` is `PostNotFound(id)`,
      repository errors pass through. */
  function OrNotFound(r: Result<Option<Post>, DomainError>, id: Uuid): (s: Result<Post, DomainError>)
    ensures r.Err? ==> s == Err(r.error)
    ensures r == Ok(None) ==> s == Err(PostNotFound(id))
    ensures s.Ok? <==> r.Ok? && r.value.Some?
    ensures s.Ok? ==> s.value == r.value.value
  {
    match r
    case Err(e) => Err(e)
    case Ok(None) => Err(PostNotFound(id))
    case Ok(Some(p)) => Ok(p)
  }

  class PostService {
    const repo: PostgresPostRepository

    constructor (repo: PostgresPostRepository)
      ensures this.repo == repo
    {
      this.repo := repo;
    }

    /** `get_post`: the stored post, or `PostNotFound(id)`. */
    function GetPost(id: Uuid, fault: Option<DbError>): (r: Result<Post, DomainError>)
      reads repo
      ensures fault.None? ==> (r.Ok? <==> id in repo.posts)
      ensures fault.None? && id in repo.posts ==> r == Ok(repo.posts[id])
      ensures fault.None? && id !in repo.posts ==> r == Err(PostNotFound(id))
      ensures fault.Some? ==> r == Err(Internal(fault.value.text))
    {
      OrNotFound(repo.FindById(id, fault), id)
    }

    /** `get_posts`: the repository's page, unchanged. */
    method GetPosts(limit: Option<Usize>, offset: Option<Usize>, fault: Option<DbError>)
      returns (r: Result<seq<Post>, DomainError>, ghost ordered: seq<Post>)
      requires repo.Valid()
      ensures fault.Some? ==> r == Err(Internal(fault.value.text))
      ensures fault.None? && PageOffset(offset) < 0 ==> r == Err(Internal(NEGATIVE_OFFSET.text))
      ensures ListsTable(repo.posts, ordered) && NewestFirst(ordered)
      ensures fault.None? && PageOffset(offset) >= 0 ==>
        r == Ok(Window(ordered, PageLimit(limit), PageOffset(offset)))
    {
      r, ordered := repo.GetPosts(limit, offset, fault);
    }

    /** `create_post`: builds `Post::new(author_id, title, content)` and stores it. The fresh id
        and the two clock readings of `Post::new` are arguments, as is the database's `now`. */
    method CreatePost(authorId: Uuid, title: string, content: string, freshId: Uuid,
                      firstReading: int, secondReading: int, now: int, fault: Option<DbError>)
      returns (r: Result<Post, DomainError>)
      requires repo.Valid()
      modifies repo
      ensures repo.Valid()
      ensures r == CreateStep(old(repo.posts), NewPost(authorId, title, content, freshId, firstReading, secondReading), now, fault).result
      ensures repo.posts == CreateStep(old(repo.posts), NewPost(authorId, title, content, freshId, firstReading, secondReading), now, fault).posts
    {
      var post := NewPost(authorId, title, content, freshId, firstReading, secondReading);
      r := repo.Create(post, now, fault);
    }

    /** `update_post(author_id, post_id, update)`: the repository patches the row whose id is
        `authorId` and whose author is `postId`; no such row is `PostNotFound(postId)`. */
    method UpdatePost(authorId: Uuid, postId: Uuid, update: UpdatePostRequest, now: int,
                      fault: Option<DbError>) returns (r: Result<Post, DomainError>)
      requires repo.Valid()
      modifies repo
      ensures repo.Valid()
      ensures r == OrNotFound(UpdateStep(old(repo.posts), authorId, postId, update, now, fault).result, postId)
      ensures repo.posts == UpdateStep(old(repo.posts), authorId, postId, update, now, fault).posts
    {
      var found := repo.UpdatePost(authorId, postId, update, now, fault);
      r := OrNotFound(found, postId);
    }

    /** `delete_post(author_id, post_id)`: the repository's result, with no checks of its own. */
    method DeletePost(authorId: Uuid, postId: Uuid, fault: Option<DbError>, probeFault: Option<DbError>)
      returns (r: Result<(), DomainError>)
      requires repo.Valid()
      modifies repo
      ensures repo.Valid()
      ensures r == DeleteStep(old(repo.posts), authorId, postId, fault, probeFault).result
      ensures repo.posts == DeleteStep(old(repo.posts), authorId, postId, fault, probeFault).posts
    {
      r := repo.DeletePost(authorId, postId, fault, probeFault);
    }
  }

  /** A post created by the service can be read back: the stored row carries the author, title
      and content given, both timestamps set to the database's `now`. */
  lemma CreateThenGet(t: Table, authorId: Uuid, title: string, content: string, freshId: Uuid,
                      firstReading: int, secondReading: int, now: int)
    requires freshId !in t
    ensures var s := CreateStep(t, NewPost(authorId, title, content, freshId, firstReading, secondReading), now, None);
      && s.result.Ok?
      && OrNotFound(FindStep(s.posts, freshId, None), freshId)
         == Ok(Post(freshId, authorId, title, content, now, now))
  {
  }

  /**
    The service's `update_post(a, b)` touches the row with id `a` and author `b`. Called with
    the owner's id first and the post's id second, it finds nothing whenever no post has the
    owner's id as its own id, and reports `PostNotFound` of the post id it was given.
  */
  lemma UpdateNeedsPostIdFirst(t: Table, owner: Uuid, postId: Uuid, update: UpdatePostRequest, now: int)
    requires postId in t && t[postId].authorId == owner && owner !in t
    ensures UpdateStep(t, owner, postId, update, now, None) == Step(Ok(None), t)
    ensures OrNotFound(UpdateStep(t, owner, postId, update, now, None).result, postId) == Err(PostNotFound(postId))
    ensures UpdateStep(t, postId, owner, update, now, None).result == Ok(Some(Patched(t[postId], update, now)))
  {
  }

  /** Deleting through the service with the owner's id first, as the callers do, never deletes:
      the repository looks for a post whose id is the owner's id. */
  lemma DeleteWithOwnerFirst(t: Table, owner: Uuid, postId: Uuid)
    requires postId in t && t[postId].authorId == owner && owner !in t
    ensures DeleteStep(t, owner, postId, None, None) == Step(Err(PostNotFound(owner)), t)
    ensures DeleteStep(t, postId, owner, None, None) == Step(Ok(()), t - {postId})
  {
  }
}

/**
  `application/auth_service.rs`: `AuthService` over the user repository and the token keys.
  `verify_password` (Argon2) is a function field; `hash_password` draws a random salt, so
  `register` receives its outcome as an argument.
*/
module AuthServices {
  import opened Wrappers
  import opened Uuids
  import opened Text
  import opened Users
  import opened Errors
  import opened Database
  import opened Security
  import opened UserRepository

  /** The `map_err` on a signing result: the library's error text becomes `Internal`. */
  function SigningOutcome(r: Result<string, string>): (s: Result<string, DomainError>)
    ensures s.Ok? <==> r.Ok?
    ensures r.Ok? ==> s.value == r.value
    ensures r.Err? ==> s.error == Internal(r.error)
  {
    match r
    case Ok(token) => Ok(token)
    case Err(m) => Err(Internal(m))
  }

  class AuthService {
    const repo: PostgresUserRepository
    const keys: JwtKeys
    /** `verify_password(password, stored_hash)`: whether they match, or an error for a stored
        hash that does not parse. */
    const verifyPassword: (string, string) -> Result<bool, string>

    constructor (repo: PostgresUserRepository, keys: JwtKeys,
                 verifyPassword: (string, string) -> Result<bool, string>)
      ensures this.repo == repo && this.keys == keys && this.verifyPassword == verifyPassword
    {
      this.repo := repo;
      this.keys := keys;
      this.verifyPassword := verifyPassword;
    }

    /** `get_user`: the stored user, or `UserNotFound(id)`; store errors pass through. */
    function GetUser(id: Uuid, fault: Option<DbError>): (r: Result<User, DomainError>)
      reads repo
      ensures fault.Some? ==> r == Err(Internal("database error: " + fault.value.text))
      ensures fault.None? ==> (r.Ok? <==> exists i :: 0 <= i < |repo.rows| && repo.rows[i].id == id)
      ensures fault.None? && r.Err? ==> r.error == UserNotFound(id)
      ensures r.Ok? ==> r.value.id == id && repo.FindById(id, fault) == Ok(Some(r.value))
      ensures r.Ok? ==>
        exists i :: (0 <= i < |repo.rows| && r.value == AsUser(repo.rows[i])
                     && forall j :: 0 <= j < i ==> repo.rows[j].id != id)
    {
      match repo.FindById(id, fault)
      case Err(e) => Err(e)
      case Ok(None) => Err(UserNotFound(id))
      case Ok(Some(u)) => Ok(u)
    }

    /** `register`: a failed hash is `Internal` and the store is not touched; otherwise the
        user is built with the email lowercased and the store's answer is returned as is. */
    method Register(username: string, email: string, hashed: Result<string, string>,
                    freshId: Uuid, now: int, dbNow: int, fault: Option<DbError>)
      returns (r: Result<User, DomainError>)
      requires repo.Valid()
      modifies repo
      ensures repo.Valid()
      ensures hashed.Err? ==> r == Err(Internal(hashed.error)) && repo.rows == old(repo.rows)
      ensures hashed.Ok? ==>
        var user := NewUser(username, Lowercase(email), hashed.value, freshId, now);
        var failure := InsertFailure(old(repo.rows), user, fault);
        && (failure.None? ==> r == Ok(user) && repo.rows == old(repo.rows) + [NewRow(user, repo.defaultUsername, dbNow)])
        && (failure.Some? ==> r == Err(ClassifyInsertError(failure.value)) && repo.rows == old(repo.rows))
    {
      if hashed.Err? {
        r := Err(Internal(hashed.error));
        return;
      }
      var user := NewUser(username, Lowercase(email), hashed.value, freshId, now);
      r := repo.Create(user, dbNow, fault);
    }

    /**
      `login`: the lookup uses the lowercased email. No such user, a stored hash that does not
      parse and a wrong password are the same `Unauthorized`; a store error is returned as is;
      a signing error becomes `Internal`.
    */
    function Login(email: string, password: string, now: int, fault: Option<DbError>): (r: Result<string, DomainError>)
      reads repo
      ensures fault.Some? ==> r == Err(Internal("database error: " + fault.value.text))
      ensures fault.None? && r.Err? && !r.error.Internal? ==> r.error == Unauthorized
      ensures fault.None? && !(exists i :: 0 <= i < |repo.rows| && repo.rows[i].email == Lowercase(email))
        ==> r == Err(Unauthorized)
      ensures r.Ok? ==> exists i :: (0 <= i < |repo.rows| && repo.rows[i].email == Lowercase(email)
        && verifyPassword(password, repo.rows[i].passwordHash) == Ok(true)
        && r == SigningOutcome(GenerateToken(keys, repo.rows[i].id, now)))
    {
      match repo.FindByEmail(Lowercase(email), fault)
      case Err(e) => Err(e)
      case Ok(None) => Err(Unauthorized)
      case Ok(Some(user)) =>
        match verifyPassword(password, user.passwordHash)
        case Err(_) => Err(Unauthorized)
        case Ok(false) => Err(Unauthorized)
        case Ok(true) =>
          SigningOutcome(GenerateToken(keys, user.id, now))
    }
  }

  /** Lowercasing twice is lowercasing once. */
  lemma LowercaseIdempotent(s: string)
    ensures Lowercase(Lowercase(s)) == Lowercase(s)
  {
  }

  /** Login does not depend on the case of the ASCII letters in the email it is given. */
  lemma LoginIgnoresCase(svc: AuthService, email: string, password: string, now: int, fault: Option<DbError>)
    ensures svc.Login(email, password, now, fault) == svc.Login(Lowercase(email), password, now, fault)
  {
    LowercaseIdempotent(email);
  }

  /**
    Register then log in: once the row `register` wrote is in a table that keeps its
    constraints, logging in with that email in any ASCII case and a password the stored hash
    accepts yields the token signed for the new user's id.
  */
  lemma LoginAfterRegister(svc: AuthService, username: string, email: string, typed: string,
                           password: string, hash: string, freshId: Uuid, now: int, dbNow: int, loginNow: int)
    requires svc.repo.Valid()
    requires var user := NewUser(username, Lowercase(email), hash, freshId, now);
      exists i :: 0 <= i < |svc.repo.rows| && svc.repo.rows[i] == NewRow(user, svc.repo.defaultUsername, dbNow)
    requires Lowercase(typed) == Lowercase(email)
    requires svc.verifyPassword(password, hash) == Ok(true)
    ensures svc.Login(typed, password, loginNow, None) == SigningOutcome(GenerateToken(svc.keys, freshId, loginNow))
  {
    var user := NewUser(username, Lowercase(email), hash, freshId, now);
    var i :| 0 <= i < |svc.repo.rows| && svc.repo.rows[i] == NewRow(user, svc.repo.defaultUsername, dbNow);
    LookupUniqueKey(svc.repo.rows, i, ByEmail(Lowercase(typed)));
  }

  /** The three ways to fail the credential check look the same to the caller. */
  lemma CredentialFailuresAlike(svc: AuthService, email: string, password: string, now: int)
    ensures var r := svc.Login(email, password, now, None);
      var found := Lookup(svc.repo.rows, ByEmail(Lowercase(email)));
      (found.None? || svc.verifyPassword(password, found.value.passwordHash) != Ok(true)) <==>
      r == Err(Unauthorized)
  {
  }
}
