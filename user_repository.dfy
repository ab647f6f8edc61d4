/**
  `data/user_repository.rs`: the `users` table as its rows in the database's scan order, so that
  `fetch_optional` (the first matching row) is a function of the table. The table's schema is not
  part of this model: the primary key on `id` and the unique `email` constraint are the ones the
  code relies on, and the columns the `INSERT` leaves out (`username`, `created_at`) take a
  column default and the database clock.
*/
module UserRepository {
  import opened Wrappers
  import opened Uuids
  import opened Text
  import opened Users
  import opened Errors
  import opened Database

  /** A row of `users`. */
  datatype UserRow = UserRow(id: Uuid, username: string, email: string, passwordHash: string, createdAt: int)

  function AsUser(row: UserRow): (u: User)
    ensures u.id == row.id && u.username == row.username && u.email == row.email
    ensures u.passwordHash == row.passwordHash && u.createdAt == row.createdAt
  {
    User(row.id, row.username, row.email, row.passwordHash, row.createdAt)
  }

  /** The `WHERE` clauses of the three finders: plain equality, no case folding. */
  datatype Key = ById(id: Uuid) | ByEmail(email: string) | ByUsername(username: string)

  predicate Matches(row: UserRow, key: Key) {
    match key
    case ById(id) => row.id == id
    case ByEmail(e) => row.email == e
    case ByUsername(n) => row.username == n
  }

  /** The first row that matches, as `fetch_optional` returns it. */
  function Lookup(rows: seq<UserRow>, key: Key): (r: Option<UserRow>)
    ensures r.Some? <==> exists i :: 0 <= i < |rows| && Matches(rows[i], key)
    ensures r.Some? ==> Matches(r.value, key) && r.value in rows
    ensures r.Some? ==> exists i :: (0 <= i < |rows| && rows[i] == r.value
                                     && forall j :: 0 <= j < i ==> !Matches(rows[j], key))
  {
    if rows == [] then None
    else if Matches(rows[0], key) then Some(rows[0])
    else
      var r := Lookup(rows[1..], key);
      assert forall i :: 1 <= i < |rows| ==> rows[i] == rows[1..][i - 1];
      if r.Some? then
        ghost var i :| 0 <= i < |rows[1..]| && rows[1..][i] == r.value
          && forall j :: 0 <= j < i ==> !Matches(rows[1..][j], key);
        assert rows[i + 1] == r.value;
        assert forall j :: 0 <= j < i + 1 ==> !Matches(rows[j], key) by {
          forall j | 0 <= j < i + 1 ensures !Matches(rows[j], key) {
            if j > 0 { assert rows[j] == rows[1..][j - 1]; }
          }
        }
        r
      else
        r
  }

  /** The `map_err` of `create`: a violation of a constraint whose name mentions `users_email`
      is a conflict, everything else an internal error carrying the driver's text. */
  function ClassifyInsertError(e: DbError): (d: DomainError)
    ensures d.UserAlreadyExists? <==> e.constraint.Some? && ContainsStr(e.constraint.value, "users_email")
    ensures d.UserAlreadyExists? ==> d.reason == "email already registered"
    ensures !d.UserAlreadyExists? ==> d == Internal("database error: " + e.text)
  {
    if e.constraint.Some? && ContainsStr(e.constraint.value, "users_email") then
      UserAlreadyExists("email already registered")
    else
      Internal("database error: " + e.text)
  }

  /** The unique constraints of the table: one row per id and one per email. */
  ghost predicate Unique(rows: seq<UserRow>) {
    && (forall i, j :: 0 <= i < j < |rows| ==> rows[i].id != rows[j].id)
    && (forall i, j :: 0 <= i < j < |rows| ==> rows[i].email != rows[j].email)
  }

  /** The row the `INSERT` writes: only `id`, `email` and `password_hash` come from the user. */
  function NewRow(user: User, defaultUsername: string, dbNow: int): (row: UserRow)
    ensures row.id == user.id && row.email == user.email && row.passwordHash == user.passwordHash
    ensures row.username == defaultUsername && row.createdAt == dbNow
  {
    UserRow(user.id, defaultUsername, user.email, user.passwordHash, dbNow)
  }

  /** What the `INSERT` reports, if it fails: the primary key is checked before the email. */
  function InsertFailure(rows: seq<UserRow>, user: User, fault: Option<DbError>): (f: Option<DbError>)
    ensures fault.Some? ==> f == fault
    ensures fault.None? ==> (f.None? <==>
      (forall i :: 0 <= i < |rows| ==> rows[i].id != user.id && rows[i].email != user.email))
    ensures fault.None? && IdTaken(rows, user.id) ==> f == Some(UniqueViolation(USERS_PKEY))
    ensures fault.None? && !IdTaken(rows, user.id) && EmailTaken(rows, user.email) ==>
      f == Some(UniqueViolation(USERS_EMAIL_KEY))
  {
    if fault.Some? then fault
    else if IdTaken(rows, user.id) then Some(UniqueViolation(USERS_PKEY))
    else if EmailTaken(rows, user.email) then Some(UniqueViolation(USERS_EMAIL_KEY))
    else None
  }

  /** Some stored row has this id. */
  predicate IdTaken(rows: seq<UserRow>, id: Uuid) {
    exists i :: 0 <= i < |rows| && rows[i].id == id
  }

  /** Some stored row has this email. */
  predicate EmailTaken(rows: seq<UserRow>, email: string) {
    exists i :: 0 <= i < |rows| && rows[i].email == email
  }

  /** A fresh id with a taken email is reported as an existing user. */
  lemma DuplicateEmailIsConflict(rows: seq<UserRow>, user: User, i: nat)
    requires i < |rows| && rows[i].email == user.email
    requires forall j :: 0 <= j < |rows| ==> rows[j].id != user.id
    ensures InsertFailure(rows, user, None) == Some(UniqueViolation(USERS_EMAIL_KEY))
    ensures ClassifyInsertError(UniqueViolation(USERS_EMAIL_KEY)) == UserAlreadyExists("email already registered")
  {
    EmailKeyIsConflict();
    var e := UniqueViolation(USERS_EMAIL_KEY);
    assert e.constraint == Some(USERS_EMAIL_KEY);
  }

  lemma EmailKeyIsConflict()
    ensures ContainsStr(USERS_EMAIL_KEY, "users_email")
  {
    assert USERS_EMAIL_KEY[0..11] == "users_email";
    assert OccursAt(USERS_EMAIL_KEY, "users_email", 0);
  }

  /** A taken id is not a conflict: the primary-key name does not mention `users_email`. */
  lemma DuplicateIdIsInternal()
    ensures ClassifyInsertError(UniqueViolation(USERS_PKEY)).Internal?
  {
    assert |USERS_PKEY| < |"users_email"|;
  }

  class PostgresUserRepository {
    var rows: seq<UserRow>
    /** The value the schema gives `username` when an `INSERT` leaves it out. */
    const defaultUsername: string

    ghost predicate Valid() reads this {
      Unique(rows)
    }

    constructor (defaultUsername: string)
      ensures Valid() && rows == [] && this.defaultUsername == defaultUsername
    {
      rows := [];
      this.defaultUsername := defaultUsername;
    }

    /** `create`: appends the new row unless a constraint or a fault stops it; returns the
        argument user unchanged on success. */
    method Create(user: User, dbNow: int, fault: Option<DbError>) returns (r: Result<User, DomainError>)
      requires Valid()
      modifies this
      ensures Valid()
      ensures InsertFailure(old(rows), user, fault).None? ==>
        r == Ok(user) && rows == old(rows) + [NewRow(user, defaultUsername, dbNow)]
      ensures InsertFailure(old(rows), user, fault).Some? ==>
        r == Err(ClassifyInsertError(InsertFailure(old(rows), user, fault).value)) && rows == old(rows)
    {
      var failure := InsertFailure(rows, user, fault);
      if failure.Some? {
        r := Err(ClassifyInsertError(failure.value));
      } else {
        rows := rows + [NewRow(user, defaultUsername, dbNow)];
        r := Ok(user);
      }
    }

    /** The three finders: the first matching row, or the driver's error as `Internal`. */
    function Find(key: Key, fault: Option<DbError>): (r: Result<Option<User>, DomainError>)
      reads this
      ensures fault.Some? ==> r == Err(Internal("database error: " + fault.value.text))
      ensures fault.None? ==> r.Ok? && (r.value.Some? <==> exists i :: 0 <= i < |rows| && Matches(rows[i], key))
      ensures fault.None? && r.value.Some? ==>
        exists i :: (0 <= i < |rows| && AsUser(rows[i]) == r.value.value && Matches(rows[i], key)
                     && forall j :: 0 <= j < i ==> !Matches(rows[j], key))
    {
      if fault.Some? then Err(Internal("database error: " + fault.value.text))
      else match Lookup(rows, key)
        case None => Ok(None)
        case Some(row) => Ok(Some(AsUser(row)))
    }

    /** `find_by_email`: an exact match on the stored email. */
    function FindByEmail(email: string, fault: Option<DbError>): (r: Result<Option<User>, DomainError>)
      reads this
      ensures fault.None? ==> r.Ok?
      ensures fault.Some? ==> r == Err(Internal("database error: " + fault.value.text))
      ensures r.Ok? && r.value.Some? ==> r.value.value.email == email
      ensures fault.None? ==> (r.value.Some? <==> exists i :: 0 <= i < |rows| && rows[i].email == email)
      ensures fault.None? && r.value.Some? ==>
        exists i :: (0 <= i < |rows| && r.value.value == AsUser(rows[i])
                     && forall j :: 0 <= j < i ==> rows[j].email != email)
    {
      Find(ByEmail(email), fault)
    }

    /** `find_by_username` */
    function FindByUsername(username: string, fault: Option<DbError>): (r: Result<Option<User>, DomainError>)
      reads this
      ensures fault.None? ==> r.Ok?
      ensures fault.Some? ==> r == Err(Internal("database error: " + fault.value.text))
      ensures r.Ok? && r.value.Some? ==> r.value.value.username == username
      ensures fault.None? ==> (r.value.Some? <==> exists i :: 0 <= i < |rows| && rows[i].username == username)
      ensures fault.None? && r.value.Some? ==>
        exists i :: (0 <= i < |rows| && r.value.value == AsUser(rows[i])
                     && forall j :: 0 <= j < i ==> rows[j].username != username)
    {
      Find(ByUsername(username), fault)
    }

    /** `find_by_id` */
    function FindById(id: Uuid, fault: Option<DbError>): (r: Result<Option<User>, DomainError>)
      reads this
      ensures fault.None? ==> r.Ok?
      ensures fault.Some? ==> r == Err(Internal("database error: " + fault.value.text))
      ensures r.Ok? && r.value.Some? ==> r.value.value.id == id
      ensures fault.None? ==> (r.value.Some? <==> exists i :: 0 <= i < |rows| && rows[i].id == id)
      ensures fault.None? && r.value.Some? ==>
        exists i :: (0 <= i < |rows| && r.value.value == AsUser(rows[i])
                     && forall j :: 0 <= j < i ==> rows[j].id != id)
    {
      Find(ById(id), fault)
    }
  }

  /** In a table that keeps its constraints, the row found by email or by id is the only one
      with that email or id, so the finders return what was inserted. */
  lemma {:induction false} LookupUniqueKey(rows: seq<UserRow>, i: nat, key: Key)
    requires Unique(rows) && i < |rows| && Matches(rows[i], key) && !key.ByUsername?
    ensures Lookup(rows, key) == Some(rows[i])
  {
    var r := Lookup(rows, key);
    var k :| 0 <= k < |rows| && rows[k] == r.value && forall j :: 0 <= j < k ==> !Matches(rows[j], key);
    if k != i {
      assert false;
    }
  }

  /** Register then look up: after a successful insert, both the email finder and the id
      finder return the new row. */
  lemma InsertThenFind(rows: seq<UserRow>, user: User, defaultUsername: string, dbNow: int)
    requires Unique(rows) && InsertFailure(rows, user, None).None?
    ensures Unique(rows + [NewRow(user, defaultUsername, dbNow)])
    ensures Lookup(rows + [NewRow(user, defaultUsername, dbNow)], ByEmail(user.email))
      == Some(NewRow(user, defaultUsername, dbNow))
    ensures Lookup(rows + [NewRow(user, defaultUsername, dbNow)], ById(user.id))
      == Some(NewRow(user, defaultUsername, dbNow))
  {
    var s := rows + [NewRow(user, defaultUsername, dbNow)];
    assert s[|rows|] == NewRow(user, defaultUsername, dbNow);
    LookupUniqueKey(s, |rows|, ByEmail(user.email));
    LookupUniqueKey(s, |rows|, ById(user.id));
  }
}
