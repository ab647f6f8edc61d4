/**
  `data/post_repository.rs`: the `posts` table as an in-memory map from post id to row, and
  what each SQL statement of `PostgresPostRepository` does to it. The database clock (`Utc::now()`
  in the repository) is the `now` argument; a statement that fails for reasons outside the
  table's contents (connection loss, timeouts) is the `fault` argument.
*/
module PostRepository {
  import opened Wrappers
  import opened Uuids
  import opened MachineInts
  import opened Posts
  import opened Errors
  import opened Database

  /** The request record `dto::UpdatePostRequest`: an absent field means "keep". */
  datatype UpdatePostRequest = UpdatePostRequest(title: Option<string>, content: Option<string>)

  type Table = map<Uuid, Post>

  /** Every row is stored under its own id (the table's primary key). */
  ghost predicate KeyedById(t: Table) {
    forall id :: id in t ==> t[id].id == id
  }

  /** The `SET` list of the `UPDATE`: `COALESCE` keeps a column when its parameter is NULL. */
  function Patched(row: Post, update: UpdatePostRequest, now: int): (p: Post)
    ensures p.id == row.id && p.authorId == row.authorId && p.createdAt == row.createdAt
    ensures p.updatedAt == now
    ensures p.title == update.title.GetOr(row.title)
    ensures p.content == update.content.GetOr(row.content)
  {
    Post(row.id, row.authorId,
      if update.title.Some? then update.title.value else row.title,
      if update.content.Some? then update.content.value else row.content,
      row.createdAt, now)
  }

  /** Applying the same patch twice is the same as applying it once. */
  lemma PatchedIdempotent(row: Post, update: UpdatePostRequest, now: int)
    ensures Patched(Patched(row, update, now), update, now) == Patched(row, update, now)
  {
  }

  /** An empty patch only moves `updated_at`. */
  lemma EmptyPatchKeepsText(row: Post, now: int)
    ensures Patched(row, UpdatePostRequest(None, None), now) == row.(updatedAt := now)
  {
  }

  /** The `LIMIT` that `get_posts` binds: `min(limit.unwrap_or(10), 100)`; zero stays zero. */
  function PageLimit(limit: Option<Usize>): (n: nat)
    ensures n <= 100 && n <= limit.GetOr(10)
    ensures limit.GetOr(10) <= 100 ==> n == limit.GetOr(10)
    ensures limit.GetOr(10) >= 100 ==> n == 100
  {
    var asked := limit.GetOr(10);
    if asked < 100 then asked else 100
  }

  /** The `OFFSET` that `get_posts` binds: `offset.unwrap_or(0) as i64`, which wraps. */
  function PageOffset(offset: Option<Usize>): (k: I64)
    ensures offset.GetOr(0) < TWO_63 ==> k == offset.GetOr(0)
    ensures offset.GetOr(0) >= TWO_63 ==> k < 0
  {
    UsizeAsI64(offset.GetOr(0))
  }

  /** `ORDER BY created_at DESC`: no row is older than one after it. */
  ghost predicate NewestFirst(rows: seq<Post>) {
    forall i, j :: 0 <= i < j < |rows| ==> rows[i].createdAt >= rows[j].createdAt
  }

  /** Some row of `rows` carries `id`. */
  ghost predicate HasId(rows: seq<Post>, id: Uuid) {
    exists i :: 0 <= i < |rows| && rows[i].id == id
  }

  /** `rows` lists every row of `t` exactly once (in some order). */
  ghost predicate ListsTable(t: Table, rows: seq<Post>) {
    && (forall i :: 0 <= i < |rows| ==> rows[i].id in t && t[rows[i].id] == rows[i])
    && (forall i, j :: 0 <= i < j < |rows| ==> rows[i].id != rows[j].id)
    && (forall id :: id in t ==> HasId(rows, id))
  }

  /** `LIMIT limit OFFSET offset` over a result of `n` rows, for a non-negative offset. */
  function Window(rows: seq<Post>, limit: nat, offset: nat): (w: seq<Post>)
    ensures |w| <= limit
    ensures offset >= |rows| ==> w == []
    ensures offset < |rows| ==> |w| == if |rows| - offset < limit then |rows| - offset else limit
    ensures forall i :: 0 <= i < |w| ==> w[i] == rows[offset + i]
  {
    var start := if offset < |rows| then offset else |rows|;
    var stop := if start + limit < |rows| then start + limit else |rows|;
    rows[start..stop]
  }

  /** What a listing of a newest-first table yields: newest first again, rows of the table. */
  lemma WindowOfListing(t: Table, rows: seq<Post>, limit: nat, offset: nat)
    requires ListsTable(t, rows) && NewestFirst(rows)
    ensures NewestFirst(Window(rows, limit, offset))
    ensures forall p :: p in Window(rows, limit, offset) ==> p.id in t && t[p.id] == p
  {
    var w := Window(rows, limit, offset);
    forall p | p in w ensures p.id in t && t[p.id] == p {
      var i :| 0 <= i < |w| && w[i] == p;
      assert p == rows[offset + i];
    }
  }

  /** The first page of a newest-first listing starts with a newest post of the table. */
  lemma FirstPageStartsNewest(t: Table, rows: seq<Post>, limit: nat)
    requires ListsTable(t, rows) && NewestFirst(rows)
    requires limit > 0 && |t| > 0
    ensures |Window(rows, limit, 0)| > 0
    ensures forall id :: id in t ==> t[id].createdAt <= Window(rows, limit, 0)[0].createdAt
  {
    var some :| some in t;
    var i :| 0 <= i < |rows| && rows[i].id == some;
    forall id | id in t ensures t[id].createdAt <= rows[0].createdAt {
      var j :| 0 <= j < |rows| && rows[j].id == id;
      assert t[id] == rows[j];
    }
  }

  /** How many rows of a newest-first `rows` are at least as new as `p`: where `p` goes. */
  function InsertionPoint(rows: seq<Post>, p: Post): (k: nat)
    requires NewestFirst(rows)
    ensures k <= |rows|
    ensures forall i :: 0 <= i < k ==> rows[i].createdAt >= p.createdAt
    ensures forall i :: k <= i < |rows| ==> rows[i].createdAt < p.createdAt
  {
    if rows == [] || rows[0].createdAt < p.createdAt then 0
    else 1 + InsertionPoint(rows[1..], p)
  }

  /** The status of the last statement, as far as the model distinguishes it. */
  datatype Step<T> = Step(result: Result<T, DomainError>, posts: Table)

  /** `create`: the `INSERT` with both timestamps bound to one clock reading. */
  function CreateStep(t: Table, post: Post, now: int, fault: Option<DbError>): (s: Step<Post>)
    ensures s.result.Ok? <==> fault.None? && post.id !in t
    ensures s.result.Ok? ==> s.result.value == post
    ensures s.result.Ok? ==> s.posts == t[post.id := post.(createdAt := now, updatedAt := now)]
    ensures s.result.Err? ==> s.posts == t && s.result.error.Internal?
    ensures fault.Some? ==> s.result == Err(Internal("database error: " + fault.value.text))
    ensures fault.None? && post.id in t ==>
      s.result == Err(Internal("database error: " + UniqueViolation(POSTS_PKEY).text))
  {
    if fault.Some? then Step(Err(Internal("database error: " + fault.value.text)), t)
    else if post.id in t then Step(Err(Internal("database error: " + UniqueViolation(POSTS_PKEY).text)), t)
    else Step(Ok(post), t[post.id := post.(createdAt := now, updatedAt := now)])
  }

  /** `find_by_id`: the row with that id, if there is one. */
  function FindStep(t: Table, id: Uuid, fault: Option<DbError>): (r: Result<Option<Post>, DomainError>)
    ensures fault.Some? ==> r == Err(Internal(fault.value.text))
    ensures fault.None? ==> r.Ok? && (r.value.Some? <==> id in t)
    ensures fault.None? && id in t ==> r.value == Some(t[id])
  {
    if fault.Some? then Err(Internal(fault.value.text))
    else if id in t then Ok(Some(t[id]))
    else Ok(None)
  }

  /** `update_post`: the `UPDATE ... WHERE id = $4 AND author_id = $5 RETURNING ...`. */
  function UpdateStep(t: Table, id: Uuid, authorId: Uuid, update: UpdatePostRequest, now: int,
                      fault: Option<DbError>): (s: Step<Option<Post>>)
    ensures fault.Some? ==> s.result == Err(Internal(fault.value.text)) && s.posts == t
    ensures fault.None? ==> s.result.Ok?
    ensures fault.None? ==> (s.result.value.Some? <==> id in t && t[id].authorId == authorId)
    ensures s.result == Ok(None) ==> s.posts == t
    ensures s.result.Ok? && s.result.value.Some? ==>
      s.result.value.value == Patched(t[id], update, now) && s.posts == t[id := Patched(t[id], update, now)]
  {
    if fault.Some? then Step(Err(Internal(fault.value.text)), t)
    else if id in t && t[id].authorId == authorId then
      var p := Patched(t[id], update, now);
      Step(Ok(Some(p)), t[id := p])
    else Step(Ok(None), t)
  }

  /** `delete_post`: the guarded `DELETE`, then, when nothing was deleted, the `EXISTS` probe
      that tells a foreign post from a missing one. */
  function DeleteStep(t: Table, id: Uuid, authorId: Uuid, fault: Option<DbError>,
                      probeFault: Option<DbError>): (s: Step<()>)
    ensures fault.Some? ==> s.result == Err(Internal(fault.value.text)) && s.posts == t
    ensures s.result.Ok? <==> fault.None? && id in t && t[id].authorId == authorId
    ensures s.result.Ok? ==> s.posts == t - {id}
    ensures s.result.Err? ==> s.posts == t
    ensures fault.None? && probeFault.None? && id in t && t[id].authorId != authorId ==>
      s.result == Err(Forbidden)
    ensures fault.None? && probeFault.None? && id !in t ==> s.result == Err(PostNotFound(id))
    ensures fault.None? && probeFault.Some? && !(id in t && t[id].authorId == authorId) ==>
      s.result == Err(Internal(probeFault.value.text))
  {
    if fault.Some? then Step(Err(Internal(fault.value.text)), t)
    else if id in t && t[id].authorId == authorId then Step(Ok(()), t - {id})
    else if probeFault.Some? then Step(Err(Internal(probeFault.value.text)), t)
    else if id in t then Step(Err(Forbidden), t)
    else Step(Err(PostNotFound(id)), t)
  }

  /** The repository over its table. */
  class PostgresPostRepository {
    var posts: Table

    ghost predicate Valid() reads this {
      KeyedById(posts)
    }

    constructor ()
      ensures Valid() && posts == map[]
    {
      posts := map[];
    }

    /** `create`: stores the post with `created_at == updated_at == now`, returns it as given. */
    method Create(post: Post, now: int, fault: Option<DbError>) returns (r: Result<Post, DomainError>)
      requires Valid()
      modifies this
      ensures Valid()
      ensures r == CreateStep(old(posts), post, now, fault).result
      ensures posts == CreateStep(old(posts), post, now, fault).posts
    {
      if fault.Some? {
        r := Err(Internal("database error: " + fault.value.text));
      } else if post.id in posts {
        r := Err(Internal("database error: " + UniqueViolation(POSTS_PKEY).text));
      } else {
        posts := posts[post.id := post.(createdAt := now, updatedAt := now)];
        r := Ok(post);
      }
    }

    /** `find_by_id`, a read-only query. */
    function FindById(id: Uuid, fault: Option<DbError>): (r: Result<Option<Post>, DomainError>)
      reads this
      ensures r == FindStep(posts, id, fault)
      ensures fault.None? ==> r.Ok? && (r.value.Some? <==> id in posts)
    {
      FindStep(posts, id, fault)
    }

    /** `update_post`: patches the one row whose id and author both match. */
    method UpdatePost(id: Uuid, authorId: Uuid, update: UpdatePostRequest, now: int,
                      fault: Option<DbError>) returns (r: Result<Option<Post>, DomainError>)
      requires Valid()
      modifies this
      ensures Valid()
      ensures r == UpdateStep(old(posts), id, authorId, update, now, fault).result
      ensures posts == UpdateStep(old(posts), id, authorId, update, now, fault).posts
    {
      if fault.Some? {
        r := Err(Internal(fault.value.text));
      } else if id in posts && posts[id].authorId == authorId {
        var p := Patched(posts[id], update, now);
        posts := posts[id := p];
        r := Ok(Some(p));
      } else {
        r := Ok(None);
      }
    }

    /** `delete_post`: `fault` is the `DELETE`'s, `probeFault` the `EXISTS` query's. */
    method DeletePost(id: Uuid, authorId: Uuid, fault: Option<DbError>, probeFault: Option<DbError>)
      returns (r: Result<(), DomainError>)
      requires Valid()
      modifies this
      ensures Valid()
      ensures r == DeleteStep(old(posts), id, authorId, fault, probeFault).result
      ensures posts == DeleteStep(old(posts), id, authorId, fault, probeFault).posts
    {
      if fault.Some? {
        r := Err(Internal(fault.value.text));
        return;
      }
      var deleted := id in posts && posts[id].authorId == authorId;
      if deleted {
        posts := posts - {id};
        r := Ok(());
        return;
      }
      if probeFault.Some? {
        r := Err(Internal(probeFault.value.text));
      } else if id in posts {
        r := Err(Forbidden);
      } else {
        r := Err(PostNotFound(id));
      }
    }

    /**
      `get_posts`: the rows newest first, then `OFFSET`, then `LIMIT`. Rows with equal
      `created_at` come in an order the database chooses; `ordered` is the order it chose.
      PostgreSQL refuses the negative offset that a `usize` of 2^63 or more becomes.
    */
    method GetPosts(limit: Option<Usize>, offset: Option<Usize>, fault: Option<DbError>)
      returns (r: Result<seq<Post>, DomainError>, ghost ordered: seq<Post>)
      requires Valid()
      ensures fault.Some? ==> r == Err(Internal(fault.value.text))
      ensures fault.None? && PageOffset(offset) < 0 ==> r == Err(Internal(NEGATIVE_OFFSET.text))
      ensures ListsTable(posts, ordered) && NewestFirst(ordered)
      ensures fault.None? && PageOffset(offset) >= 0 ==>
        r == Ok(Window(ordered, PageLimit(limit), PageOffset(offset)))
      ensures r.Ok? ==> |r.value| <= PageLimit(limit) && NewestFirst(r.value)
      ensures r.Ok? ==> forall p :: p in r.value ==> p.id in posts && posts[p.id] == p
    {
      var rows: seq<Post> := [];
      var left := posts.Keys;
      ghost var seen: set<Uuid> := {};
      while left != {}
        invariant left + seen == posts.Keys && left !! seen
        invariant ListsTable(map id | id in seen :: posts[id], rows) && NewestFirst(rows)
        decreases left
      {
        var id :| id in left;
        var p := posts[id];
        var k := InsertionPoint(rows, p);
        ghost var before := rows;
        rows := rows[..k] + [p] + rows[k..];
        InsertKeepsListing(map i | i in seen :: posts[i], before, k, p);
        assert (map i | i in seen :: posts[i])[id := p] == map i | i in seen + {id} :: posts[i];
        left := left - {id};
        seen := seen + {id};
      }
      assert (map id | id in seen :: posts[id]) == posts;
      assert ListsTable(posts, rows);
      ordered := rows;
      var off := PageOffset(offset);
      if fault.Some? {
        r := Err(Internal(fault.value.text));
      } else if off < 0 {
        r := Err(Internal(NEGATIVE_OFFSET.text));
      } else {
        r := Ok(Window(rows, PageLimit(limit), off));
        WindowOfListing(posts, rows, PageLimit(limit), off);
      }
    }
  }

  /** Placing a new row at its insertion point keeps the listing complete, duplicate-free and
      newest first. */
  lemma InsertKeepsListing(t: Table, rows: seq<Post>, k: nat, p: Post)
    requires ListsTable(t, rows) && NewestFirst(rows) && p.id !in t
    requires k <= |rows|
    requires forall i :: 0 <= i < k ==> rows[i].createdAt >= p.createdAt
    requires forall i :: k <= i < |rows| ==> rows[i].createdAt < p.createdAt
    ensures ListsTable(t[p.id := p], rows[..k] + [p] + rows[k..])
    ensures NewestFirst(rows[..k] + [p] + rows[k..])
  {
    var r := rows[..k] + [p] + rows[k..];
    InsertedAt(rows, k, p);
    forall i | 0 <= i < |r| ensures r[i].id in t[p.id := p] && t[p.id := p][r[i].id] == r[i] {
      if i != k { assert r[i] in rows; }
    }
    forall i, j | 0 <= i < j < |r| ensures r[i].id != r[j].id {
      if i != k && j != k {
        assert r[i] == rows[if i < k then i else i - 1];
        assert r[j] == rows[if j < k then j else j - 1];
      } else {
        assert r[i] in rows || r[j] in rows;
      }
    }
    forall id | id in t[p.id := p] ensures HasId(r, id) {
      if id == p.id {
        assert r[k].id == id;
      } else {
        assert HasId(rows, id);
        var j :| 0 <= j < |rows| && rows[j].id == id;
        if j < k { assert r[j].id == id; } else { assert r[j + 1].id == id; }
      }
    }
    forall i, j | 0 <= i < j < |r| ensures r[i].createdAt >= r[j].createdAt {
      if i != k && j != k {
        assert r[i] == rows[if i < k then i else i - 1];
        assert r[j] == rows[if j < k then j else j - 1];
      }
    }
  }

  /** Where the rows of `rows[..k] + [p] + rows[k..]` come from. */
  lemma InsertedAt(rows: seq<Post>, k: nat, p: Post)
    requires k <= |rows|
    ensures |rows[..k] + [p] + rows[k..]| == |rows| + 1
    ensures forall i :: 0 <= i < k ==> (rows[..k] + [p] + rows[k..])[i] == rows[i]
    ensures (rows[..k] + [p] + rows[k..])[k] == p
    ensures forall i :: k < i <= |rows| ==> (rows[..k] + [p] + rows[k..])[i] == rows[i - 1]
  {
  }
}
