/**
  `presentation/handlers/post.rs`: the HTTP post handlers. The caller is the
  `AuthenticatedUser` the middleware resolved. `create_post` passes the payload's title and
  content to `PostService::create_post`; `delete_post` passes the post id itself as the
  service's second argument (the call site wraps it in a request record that the service
  does not accept).
*/
module PostHandlers {
  import opened Wrappers
  import opened Uuids
  import opened MachineInts
  import opened Posts
  import opened Errors
  import opened Database
  import opened PostRepository
  import opened PostServices
  import opened PresentationUtils

  /** The JSON body of a successful response. */
  datatype Body =
    | PostJson(post: Post)
    | Text(text: string)
    | Page(posts: seq<Post>, total: nat, limit: Option<Usize>, offset: Option<Usize>)

  datatype HttpResponse = HttpResponse(status: nat, body: Body)

  /** `request_id`: the id the request-id middleware stored, or `"unknown"`. */
  function RequestIdOf(ext: Extensions): (id: string)
    ensures ext.requestId.Some? ==> id == ext.requestId.value
    ensures ext.requestId.None? ==> id == "unknown"
  {
    ext.requestId.GetOr("unknown")
  }

  /** The body of `get_posts`: the page, its length as `total`, and the query's own `limit`
      and `offset`, not the clamped values the repository used. */
  function PageResponse(posts: seq<Post>, limit: Option<Usize>, offset: Option<Usize>): (resp: HttpResponse)
    ensures resp.status == 200 && resp.body.Page?
    ensures resp.body.posts == posts && resp.body.total == |posts|
    ensures resp.body.limit == limit && resp.body.offset == offset
  {
    HttpResponse(200, Page(posts, |posts|, limit, offset))
  }

  /** `create_post` on the table: 201 with the post as `Post::new` built it. */
  function CreateHandlerStep(t: Table, user: AuthenticatedUser, title: string, content: string, freshId: Uuid,
                             firstReading: int, secondReading: int, now: int, fault: Option<DbError>)
    : (s: Step<HttpResponse>)
    ensures var c := CreateStep(t, NewPost(user.id, title, content, freshId, firstReading, secondReading), now, fault);
      && s.posts == c.posts
      && (c.result.Err? ==> s.result == Err(c.result.error))
      && (c.result.Ok? ==> s.result == Ok(HttpResponse(201, PostJson(c.result.value))))
    ensures s.result.Ok? ==> s.result.value.body.post.authorId == user.id && s.result.value.body.post.id == freshId
  {
    var c := CreateStep(t, NewPost(user.id, title, content, freshId, firstReading, secondReading), now, fault);
    match c.result
    case Err(e) => Step(Err(e), c.posts)
    case Ok(p) => Step(Ok(HttpResponse(201, PostJson(p))), c.posts)
  }

  /**
    `update_post` on the table: fetch the post (`PostNotFound` if absent), then check that
    the caller wrote it, then `update_post(post_id, user.id, ..)`. Existence is decided before
    ownership, and a refused update changes nothing.
  */
  function UpdateHandlerStep(t: Table, user: AuthenticatedUser, postId: Uuid, update: UpdatePostRequest,
                             now: int, findFault: Option<DbError>, fault: Option<DbError>)
    : (s: Step<HttpResponse>)
    ensures s.result.Err? ==> s.posts == t
    ensures findFault.None? && postId !in t ==> s.result == Err(PostNotFound(postId))
    ensures findFault.None? && postId in t && t[postId].authorId != user.id ==> s.result == Err(Unauthorized)
    ensures findFault.Some? ==> s == Step(Err(Internal(findFault.value.text)), t)
    ensures findFault.None? && postId in t && t[postId].authorId == user.id ==>
      var u := UpdateStep(t, postId, user.id, update, now, fault);
      && s.posts == u.posts
      && (u.result.Err? ==> s.result == Err(u.result.error))
      && (u.result == Ok(None) ==> s.result == Err(PostNotFound(user.id)))
      && (u.result.Ok? && u.result.value.Some? ==> s.result == Ok(HttpResponse(200, PostJson(u.result.value.value))))
    ensures findFault.None? && fault.Some? && postId in t && t[postId].authorId == user.id ==>
      s == Step(Err(Internal(fault.value.text)), t)
    ensures findFault.None? && fault.None? && postId in t && t[postId].authorId == user.id ==>
      && s.result == Ok(HttpResponse(200, PostJson(Patched(t[postId], update, now))))
      && s.posts == t[postId := Patched(t[postId], update, now)]
    ensures s.result.Ok? ==> postId in t && t[postId].authorId == user.id
  {
    match OrNotFound(FindStep(t, postId, findFault), postId)
    case Err(e) => Step(Err(e), t)
    case Ok(owner) =>
      match EnsureOwner(owner.authorId, user.id)
      case Err(e) => Step(Err(e), t)
      case Ok(_) =>
        var u := UpdateStep(t, postId, user.id, update, now, fault);
        match OrNotFound(u.result, user.id)
        case Err(e) => Step(Err(e), u.posts)
        case Ok(p) => Step(Ok(HttpResponse(200, PostJson(p))), u.posts)
  }

  /**
    `delete_post` on the table: the same fetch and ownership check, then
    `delete_post(user.id, post_id)`, which reaches the repository as id `user.id` and author
    `post_id`. The row it can remove is one whose id is the caller's id.
  */
  function DeleteHandlerStep(t: Table, user: AuthenticatedUser, postId: Uuid, findFault: Option<DbError>,
                             fault: Option<DbError>, probeFault: Option<DbError>)
    : (s: Step<HttpResponse>)
    ensures s.result.Err? ==> s.posts == t
    ensures findFault.None? && postId !in t ==> s.result == Err(PostNotFound(postId))
    ensures findFault.None? && postId in t && t[postId].authorId != user.id ==> s.result == Err(Unauthorized)
    ensures findFault.Some? ==> s == Step(Err(Internal(findFault.value.text)), t)
    ensures findFault.None? && postId in t && t[postId].authorId == user.id ==>
      var d := DeleteStep(t, user.id, postId, fault, probeFault);
      && s.posts == d.posts
      && (d.result.Err? ==> s.result == Err(d.result.error))
      && (d.result.Ok? ==> s.result == Ok(HttpResponse(204, Text("deleted"))))
    ensures findFault.None? && fault.None? && probeFault.None? && postId in t && t[postId].authorId == user.id ==>
      && (user.id !in t ==> s.result == Err(PostNotFound(user.id)))
      && (user.id in t && t[user.id].authorId != postId ==> s.result == Err(Forbidden))
    ensures s.result.Ok? ==>
      && s.result.value == HttpResponse(204, Text("deleted"))
      && postId in t && t[postId].authorId == user.id
      && user.id in t && t[user.id].authorId == postId && s.posts == t - {user.id}
  {
    match OrNotFound(FindStep(t, postId, findFault), postId)
    case Err(e) => Step(Err(e), t)
    case Ok(owner) =>
      match EnsureOwner(owner.authorId, user.id)
      case Err(e) => Step(Err(e), t)
      case Ok(_) =>
        var d := DeleteStep(t, user.id, postId, fault, probeFault);
        match d.result
        case Err(e) => Step(Err(e), d.posts)
        case Ok(_) => Step(Ok(HttpResponse(204, Text("deleted"))), d.posts)
  }

  /** The owner of a post asks to delete it: with ids that are post ids and user ids apart,
      the answer is `PostNotFound` carrying the owner's id, and the post stays. */
  lemma OwnerDeleteFails(t: Table, user: AuthenticatedUser, postId: Uuid)
    requires postId in t && t[postId].authorId == user.id && user.id !in t
    ensures DeleteHandlerStep(t, user, postId, None, None, None) == Step(Err(PostNotFound(user.id)), t)
  {
  }

  /** `create_post` */
  method CreatePost(svc: PostService, user: AuthenticatedUser, title: string, content: string, freshId: Uuid,
                    firstReading: int, secondReading: int, now: int, fault: Option<DbError>)
    returns (r: Result<HttpResponse, DomainError>)
    requires svc.repo.Valid()
    modifies svc.repo
    ensures svc.repo.Valid()
    ensures r == CreateHandlerStep(old(svc.repo.posts), user, title, content, freshId, firstReading, secondReading, now, fault).result
    ensures svc.repo.posts == CreateHandlerStep(old(svc.repo.posts), user, title, content, freshId, firstReading, secondReading, now, fault).posts
  {
    var created := svc.CreatePost(user.id, title, content, freshId, firstReading, secondReading, now, fault);
    match created {
      case Err(e) => r := Err(e);
      case Ok(p) => r := Ok(HttpResponse(201, PostJson(p)));
    }
  }

  /** `update_post` */
  method UpdatePost(svc: PostService, user: AuthenticatedUser, update: UpdatePostRequest, postId: Uuid,
                    now: int, findFault: Option<DbError>, fault: Option<DbError>)
    returns (r: Result<HttpResponse, DomainError>)
    requires svc.repo.Valid()
    modifies svc.repo
    ensures svc.repo.Valid()
    ensures r == UpdateHandlerStep(old(svc.repo.posts), user, postId, update, now, findFault, fault).result
    ensures svc.repo.posts == UpdateHandlerStep(old(svc.repo.posts), user, postId, update, now, findFault, fault).posts
  {
    var owner := svc.GetPost(postId, findFault);
    if owner.Err? {
      r := Err(owner.error);
      return;
    }
    var check := EnsureOwner(owner.value.authorId, user.id);
    if check.Err? {
      r := Err(check.error);
      return;
    }
    var post := svc.UpdatePost(postId, user.id, update, now, fault);
    match post {
      case Err(e) => r := Err(e);
      case Ok(p) => r := Ok(HttpResponse(200, PostJson(p)));
    }
  }

  /** `delete_post` */
  method DeletePost(svc: PostService, user: AuthenticatedUser, postId: Uuid, findFault: Option<DbError>,
                    fault: Option<DbError>, probeFault: Option<DbError>)
    returns (r: Result<HttpResponse, DomainError>)
    requires svc.repo.Valid()
    modifies svc.repo
    ensures svc.repo.Valid()
    ensures r == DeleteHandlerStep(old(svc.repo.posts), user, postId, findFault, fault, probeFault).result
    ensures svc.repo.posts == DeleteHandlerStep(old(svc.repo.posts), user, postId, findFault, fault, probeFault).posts
  {
    var owner := svc.GetPost(postId, findFault);
    if owner.Err? {
      r := Err(owner.error);
      return;
    }
    var check := EnsureOwner(owner.value.authorId, user.id);
    if check.Err? {
      r := Err(check.error);
      return;
    }
    var deleted := svc.DeletePost(user.id, postId, fault, probeFault);
    match deleted {
      case Err(e) => r := Err(e);
      case Ok(_) => r := Ok(HttpResponse(204, Text("deleted")));
    }
  }

  /** `get_posts` */
  method GetPosts(svc: PostService, limit: Option<Usize>, offset: Option<Usize>, fault: Option<DbError>)
    returns (r: Result<HttpResponse, DomainError>, ghost ordered: seq<Post>)
    requires svc.repo.Valid()
    ensures ListsTable(svc.repo.posts, ordered) && NewestFirst(ordered)
    ensures fault.Some? ==> r == Err(Internal(fault.value.text))
    ensures fault.None? && PageOffset(offset) < 0 ==> r == Err(Internal(NEGATIVE_OFFSET.text))
    ensures fault.None? && PageOffset(offset) >= 0 ==>
      r == Ok(PageResponse(Window(ordered, PageLimit(limit), PageOffset(offset)), limit, offset))
  {
    var posts;
    posts, ordered := svc.GetPosts(limit, offset, fault);
    match posts {
      case Err(e) => r := Err(e);
      case Ok(ps) => r := Ok(PageResponse(ps, limit, offset));
    }
  }

  /** `get_post`: 200 with the post, or `PostNotFound`. */
  function GetPost(svc: PostService, postId: Uuid, fault: Option<DbError>): (r: Result<HttpResponse, DomainError>)
    reads svc.repo
    ensures fault.None? ==> (r.Ok? <==> postId in svc.repo.posts)
    ensures r.Ok? ==> postId in svc.repo.posts && r.value == HttpResponse(200, PostJson(svc.repo.posts[postId]))
    ensures fault.None? && postId !in svc.repo.posts ==> r == Err(PostNotFound(postId))
    ensures fault.Some? ==> r == Err(Internal(fault.value.text))
  {
    match svc.GetPost(postId, fault)
    case Err(e) => Err(e)
    case Ok(p) => Ok(HttpResponse(200, PostJson(p)))
  }
}
