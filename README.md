# rust-blog: authentication, authorisation and the post/user stores, in Dafny

This project models the core of `rust-blog`, a small blogging system. A server offers the
same operations over REST and over gRPC:

- register, log in;
- create, read, list, update and delete posts.

Three clients sit in front of it: a REST client, a gRPC client and a browser client. The model covers:

- **The stores.** The `posts` table is a `map` from id to post, held by the class
  `PostRepository.PostgresPostRepository`. The `users` table is a `seq` of rows in database
  order, held by `UserRepository.PostgresUserRepository`. Each SQL statement becomes the
  table update it performs:
  - `COALESCE` patching;
  - the `WHERE id AND author_id` guard;
  - the `EXISTS` probe that decides between `Forbidden` and `PostNotFound`;
  - `LIMIT`/`OFFSET` over a newest-first listing;
  - the unique constraints of `users` and the classification of their violations.
- **The services** (`PostServices`, `AuthServices`): how `Option` results become
  `DomainError`s, lowercased e-mail at registration and login, and the single
  `Unauthorized` for every credential failure. Arguments are passed in the positions the code
  uses, which are not always the positions their names suggest.
- **Caller resolution.**
  - The exact, case-sensitive `Bearer ` prefix of the header form in section 2.1 of RFC 6750.
  - The claims `sub`, `exp` and `iat` of section 4.1 of RFC 7519.
  - Verify, then parse the subject, then look up the user.
  - `ensure_owner`.
  - The two actix middlewares (`Middleware.JwtAuthService.Call`, `Middleware.RequestIdService.Call`).
  - The order of checks in the REST handlers (`PostHandlers`).
- **The two error tables**: the HTTP one in `Errors` and the gRPC one in
  `GrpcService.MapDomainErrorToStatus`.
- **The gRPC service** (`GrpcService.BlogGrpcService`): its validation, its token gate and its
  protobuf conversions. An `unwrap` that can fail is an explicit `Panic` outcome.
- **`AppConfig::from_env`** (`Config`), with the environment as a map.
- **The clients' rules** (`ClientCommon`, `GrpcClient`, `HttpClient`, `WasmClient`):
  - credential pre-validation;
  - limit clamping and the `as i32` casts of the paging arguments;
  - trailing-`/` trimming of the endpoint;
  - where the token comes from (field, token file, `LocalStorage`) and how the header is built;
  - how a reply is turned into a result.

Conventions:

- **Strings** are `seq<char>`. Rust's `String::len` is the UTF-8 byte length, `Text.Utf8Len`.
- **Integers** are unbounded. Rust's fixed widths and `as` casts are written out in `MachineInts`.
- **Inputs from outside.** The clock, freshly generated UUIDs and database failures the data
  cannot explain are parameters. So are network replies, file contents, `LocalStorage` and the
  result of hashing a password.
- **Crypto.** Token signing, token verification and password verification are function values
  (`Security.JwtKeys`, `AuthServices.AuthService.verifyPassword`). Nothing cryptographic is
  assumed about them.

Behaviour of the code that a reader might not expect; the model follows the code:

- **Limit 0.** `get_posts` computes the limit as `limit.unwrap_or(10).min(100)`
  (post_repository.rs:151). An explicit `limit = 0` is therefore bound as `LIMIT 0` and gives an
  empty page; only an absent limit becomes 10 (`PostRepository.PageLimit`).
- **Update by a non-owner.** The REST handlers answer a caller who is not the author with
  `Unauthorized` (401) from `ensure_owner`, not `Forbidden`.
- **Duplicate users.** Only a violation of a constraint whose name mentions `users_email`
  becomes `UserAlreadyExists`. Any other violation, the primary key included, is `Internal`.
- **Where validation runs.** Credential validation happens in the gRPC layer, not in
  `AuthService::register`. The gRPC server refuses fewer than 6 / 8 bytes, while the
  `blog-client` gRPC client refuses 6 / 8 bytes or fewer. gRPC `login` looks the user up
  with its `username` field used as the e-mail.
- **Listing order.** Listings are ordered by `created_at DESC` only, with no tie-break on the
  id. The model proves its results for every newest-first order of the table.
- **Internal errors.** The text of an `Internal` error reaches the caller, both in the HTTP
  body and in the gRPC status message.
- **Delete argument order.** Both delete paths hand the caller's id to the repository as the
  post id and the post id as the author id. So an author deleting their own post is told the
  post does not exist (`PostServices.DeleteWithOwnerFirst`, `PostHandlers.OwnerDeleteFails`,
  `GrpcService.OwnerDeleteIsNotFound`).
- **Call sites that do not type-check.** Each one is resolved one way, as stated here:
  - `User::new` is declared with an e-mail and a hash only, and `User` has no `username`
    field, but `AuthService::register` calls it with a username first. The model follows the
    caller: `Users.NewUser` takes the username, e-mail and hash, and `User` has a `username`
    field, which `find_by_username` and the selected rows need;
  - the REST `create_post` passes title and content, as the service's signature asks;
  - the REST `delete_post` passes the post id, as the service's signature asks;
  - `handlers/post.rs` imports `Pagination` from the dto module, which does not define it. The
    model takes it to carry `limit` and `offset` as `Option<usize>`, the types the service and
    repository accept (`PostHandlers.GetPosts`).

## Model

| member | source | states |
|---|---|---|
| Posts.NewPost | blog-server/src/domain/post.rs:16-25 | the post keeps author, title and content as given and takes the fresh id; created_at is the first clock reading and updated_at the second, so a non-decreasing clock gives created_at <= updated_at |
| Users.NewUser | blog-server/src/domain/user.rs:14-21 | the new user carries the given username, e-mail and hash, a fresh id and the clock's time |
| Errors.StatusCode | blog-server/src/domain/error.rs:31-39 | 404 exactly for the two not-found variants, 401 exactly for Unauthorized, 403 for Forbidden, 409 for UserAlreadyExists, 500 for Internal; total over all six variants |
| Errors.Display | blog-server/src/domain/error.rs:9-20 | the six thiserror texts: "user not found: <id>", "user already exists: <reason>", "post not found: <id>", "forbidden", "unauthorized", "internal error: <message>" |
| Errors.ErrorResponseOf | blog-server/src/domain/error.rs:41-57 | the response status is status_code(); the body's error is the Display text; details carry the resource id for not-found, the fixed permission note for Forbidden, and are absent otherwise |
| Errors.DisplayInjective | blog-server/src/domain/error.rs:9-20 | two errors with the same Display text are the same error |
| Database.UniqueViolation | blog-server/src/data/user_repository.rs:43-46 | a unique violation names the violated constraint |
| PostRepository.Patched | blog-server/src/data/post_repository.rs:90-96 | COALESCE: an absent field keeps the old value and a present one replaces it; updated_at becomes now; id, author_id and created_at are untouched |
| PostRepository.PatchedIdempotent | blog-server/src/data/post_repository.rs:92-94 | applying a patch twice equals applying it once |
| PostRepository.EmptyPatchKeepsText | blog-server/src/data/post_repository.rs:92-94 | an empty patch only moves updated_at |
| PostRepository.PageLimit | blog-server/src/data/post_repository.rs:151 | the bound LIMIT is min(limit or 10, 100): at most 100, at most the request, 0 stays 0 |
| PostRepository.PageOffset | blog-server/src/data/post_repository.rs:152 | the bound OFFSET is the request (default 0) when below 2^63, and negative from 2^63 up (usize as i64 wraps) |
| PostRepository.Window | blog-server/src/data/post_repository.rs:156-159 | LIMIT/OFFSET: at most limit rows, empty past the end, exactly min(remaining, limit) rows, each the row offset + i of the listing |
| PostRepository.WindowOfListing | blog-server/src/data/post_repository.rs:154-159 | a page of a newest-first listing of the table is newest first and holds only rows of the table, unchanged |
| PostRepository.FirstPageStartsNewest | blog-server/src/data/post_repository.rs:158 | with a positive limit, the first page of a non-empty table starts with a post no older than any post of the table |
| PostRepository.InsertionPoint | blog-server/src/data/post_repository.rs:158 | the position in a newest-first listing where a post belongs: every row before is at least as new, every row after is older |
| PostRepository.InsertKeepsListing | blog-server/src/data/post_repository.rs:158 | inserting a new row at its insertion point gives a newest-first listing of the enlarged table |
| PostRepository.InsertedAt | blog-server/src/data/post_repository.rs:158 | where each row of the listing with the inserted row comes from |
| PostRepository.CreateStep | blog-server/src/data/post_repository.rs:41-63 | create succeeds exactly when the store does not fail and the id is new; it stores the post with created_at == updated_at == now and returns the argument unchanged; a failure leaves the table as it was and is Internal: "database error: " followed by the store's text for a fault, or by the posts_pkey duplicate-key text for a taken id |
| PostRepository.FindStep | blog-server/src/data/post_repository.rs:65-79 | find_by_id returns Some exactly when a row has that id, and then that row; a store error is Internal with its text |
| PostRepository.UpdateStep | blog-server/src/data/post_repository.rs:81-116 | the update returns Some exactly when a row matches both id and author, which is then patched and nothing else changes; with no match it returns None and the table is unchanged |
| PostRepository.DeleteStep | blog-server/src/data/post_repository.rs:118-144 | the delete succeeds exactly when id and author both match, and removes only that row; otherwise the table is unchanged, and the answer is Internal with the probe's text when the EXISTS probe fails, else Forbidden when the id exists and PostNotFound(id) when it does not |
| PostRepository.PostgresPostRepository.constructor | blog-server/src/data/post_repository.rs:34-36 | a new repository has an empty table |
| PostRepository.PostgresPostRepository.Create | blog-server/src/data/post_repository.rs:41-63 | the result and the new table are those of CreateStep on the old table |
| PostRepository.PostgresPostRepository.FindById | blog-server/src/data/post_repository.rs:65-79 | the result is FindStep on the current table: Some exactly when the id is stored |
| PostRepository.PostgresPostRepository.UpdatePost | blog-server/src/data/post_repository.rs:81-116 | the result and the new table are those of UpdateStep on the old table |
| PostRepository.PostgresPostRepository.DeletePost | blog-server/src/data/post_repository.rs:118-144 | the result and the new table are those of DeleteStep on the old table |
| PostRepository.PostgresPostRepository.GetPosts | blog-server/src/data/post_repository.rs:146-170 | over a newest-first listing of the table: a negative OFFSET is refused; otherwise the window at PageLimit/PageOffset, at most limit rows, newest first, all rows of the table |
| UserRepository.AsUser | blog-server/src/data/user_repository.rs:59-63 | a selected row is read back with every column as stored |
| UserRepository.Lookup | blog-server/src/data/user_repository.rs:58-107 | fetch_optional returns a row exactly when some row matches, and then the first matching row |
| UserRepository.ClassifyInsertError | blog-server/src/data/user_repository.rs:41-52 | UserAlreadyExists("email already registered") exactly when the violated constraint's name contains users_email; otherwise Internal("database error: " + text) |
| UserRepository.NewRow | blog-server/src/data/user_repository.rs:32-38 | the insert writes only id, email and password_hash; username and created_at come from the schema's defaults |
| UserRepository.InsertFailure | blog-server/src/data/user_repository.rs:29-40 | the insert fails exactly on a store fault, a taken id or a taken email; a taken id is reported as a users_pkey violation, and a fresh id with a taken email as a users_email_key violation |
| UserRepository.DuplicateEmailIsConflict | blog-server/src/data/user_repository.rs:43-48 | a new id with a taken e-mail is reported as UserAlreadyExists |
| UserRepository.DuplicateIdIsInternal | blog-server/src/data/user_repository.rs:49-51 | a taken id is reported as Internal, not as a conflict |
| UserRepository.PostgresUserRepository.constructor | blog-server/src/data/user_repository.rs:22-24 | a new repository has no rows |
| UserRepository.PostgresUserRepository.Create | blog-server/src/data/user_repository.rs:29-56 | on success the row is appended and the argument user is returned unchanged; on failure the rows are unchanged and the error is classified |
| UserRepository.PostgresUserRepository.Find | blog-server/src/data/user_repository.rs:58-107 | a store error is Internal("database error: " + text); otherwise Some exactly when a row matches, and then that row as a user |
| UserRepository.PostgresUserRepository.FindByEmail | blog-server/src/data/user_repository.rs:58-73 | exact, case-sensitive equality on the stored e-mail: Some exactly when a row has that e-mail, and then the first such row read back as a user; a store error is Internal("database error: "+text) |
| UserRepository.PostgresUserRepository.FindByUsername | blog-server/src/data/user_repository.rs:75-90 | Some exactly when a row has that username, and then the first such row read back as a user; a store error is Internal("database error: "+text) |
| UserRepository.PostgresUserRepository.FindById | blog-server/src/data/user_repository.rs:92-107 | Some exactly when a row has that id, and then the first such row read back as a user; a store error is Internal("database error: "+text) |
| UserRepository.LookupUniqueKey | blog-server/src/data/user_repository.rs:58-107 | in a table that keeps its unique constraints, lookup by e-mail or id finds the one row with that key |
| UserRepository.InsertThenFind | blog-server/src/data/user_repository.rs:29-107 | a successful insert keeps the table's keys unique, and the new row is then found by its e-mail and by its id |
| PostServices.OrNotFound | blog-server/src/application/post_service.rs:23-29 | an error passes through; None becomes PostNotFound(id); Some(p) becomes p |
| PostServices.PostService.constructor | blog-server/src/application/post_service.rs:19-21 | the service wraps the given repository |
| PostServices.PostService.GetPost | blog-server/src/application/post_service.rs:23-29 | the stored post exactly when the id is stored, otherwise PostNotFound(id); store errors are Internal |
| PostServices.PostService.GetPosts | blog-server/src/application/post_service.rs:31-43 | limit and offset forwarded unchanged, and the repository's page returned as it is |
| PostServices.PostService.CreatePost | blog-server/src/application/post_service.rs:46-54 | stores Post::new(author, title, content) through the repository and returns its result |
| PostServices.PostService.UpdatePost | blog-server/src/application/post_service.rs:57-68 | forwards (author_id, post_id) into the repository's (id, author_id) slots; None becomes PostNotFound(post_id); errors pass through |
| PostServices.PostService.DeletePost | blog-server/src/application/post_service.rs:71-73 | forwards (author_id, post_id) into the repository's (id, author_id) slots and returns its result with no check of its own |
| PostServices.CreateThenGet | blog-server/src/application/post_service.rs:46-54 | after a successful create, the stored row has the caller's author, title and content and the fresh id |
| PostServices.UpdateNeedsPostIdFirst | blog-server/src/application/post_service.rs:63-65 | called with the owner's id first, update finds no row and answers PostNotFound; called with the post id first, it patches the post |
| PostServices.DeleteWithOwnerFirst | blog-server/src/application/post_service.rs:71-73 | called with the owner's id first, delete removes nothing and answers PostNotFound(owner); called with the post id first, it removes the post |
| AuthServices.SigningOutcome | blog-server/src/application/auth_service.rs:61-63 | a signed token is returned as it is; a signing error becomes Internal with its text |
| AuthServices.AuthService.constructor | blog-server/src/application/auth_service.rs:19-21 | the service holds the given repository and keys |
| AuthServices.AuthService.GetUser | blog-server/src/application/auth_service.rs:27-32 | Ok exactly when a row has that id, and then the user is that row (the first with that id, as find_by_id returns it); otherwise UserNotFound(id); a store fault becomes Internal("database error: …") |
| AuthServices.AuthService.Register | blog-server/src/application/auth_service.rs:35-45 | a failed hash is Internal and the store is untouched; otherwise the user is stored with the e-mail lowercased, and the store's answer, UserAlreadyExists included, is returned unchanged |
| AuthServices.AuthService.Login | blog-server/src/application/auth_service.rs:47-64 | lookup by the lowercased e-mail; a missing user, an unparsable hash and a wrong password are all Unauthorized; a store error passes through; on success the token is generate_token(user.id) |
| AuthServices.LowercaseIdempotent | blog-server/src/application/auth_service.rs:43 | lowercasing twice equals lowercasing once |
| AuthServices.LoginIgnoresCase | blog-server/src/application/auth_service.rs:50-51 | login gives the same answer for an e-mail and for its lowercase form |
| AuthServices.LoginAfterRegister | blog-server/src/application/auth_service.rs:35-64 | after a registration, login with the same password and the e-mail in any case returns the token signed for the new user |
| AuthServices.CredentialFailuresAlike | blog-server/src/application/auth_service.rs:53-59 | without a store fault, every failed login is Unauthorized or a signing Internal |
| Security.ClaimsFor | blog-server/src/infrastructure/security.rs:20-28 | the subject parses back to the user id; iat is now and exp is one hour later |
| Security.GenerateToken | blog-server/src/infrastructure/security.rs:20-34 | the token is the library's signature of claims whose subject parses back to the user id, issued now and expiring an hour later, or the library's error |
| Security.VerifyToken | blog-server/src/infrastructure/security.rs:36-43 | the claims exactly when the library decodes and validates the token, otherwise the library's error; no check of its own is added |
| Security.GeneratedTokenNamesUser | blog-server/src/infrastructure/security.rs:20-43 | when the library reads back the claims it signed, verifying a generated token gives claims naming the user it was made for, expiring an hour after issue |
| PresentationUtils.EnsureOwner | blog-server/src/presentation/utils.rs:11-17 | Ok exactly when the two ids are equal; a mismatch is Unauthorized, not Forbidden |
| PresentationUtils.FromRequest | blog-server/src/presentation/utils.rs:29-34 | the user the middleware stored in the extensions, or 401 "missing authenticated user" |
| PresentationUtils.ExtractUserFromToken | blog-server/src/presentation/utils.rs:37-56 | every failure is 401: "invalid token" for a token that does not verify or a subject that is not a UUID, "user not found" for any get_user failure (a store fault included); with no fault, a verified UUID subject resolves exactly when a row has that id, and success carries the id and username of the first such row |
| PresentationUtils.ResolvesSignedSubject | blog-server/src/presentation/utils.rs:37-56 | a token that verifies to the claims signed for a stored user resolves to that user |
| Middleware.ServiceRequest.constructor | blog-server/src/presentation/middleware.rs:129-141 | a request starts with its headers, its app data and empty extensions |
| Middleware.AuthorizationValue | blog-server/src/presentation/middleware.rs:137-141 | the Authorization header as text, present exactly when it is there and all visible ASCII |
| Middleware.BearerToken | blog-server/src/presentation/middleware.rs:147-152 | a missing header is 401 "missing authorization header"; otherwise Ok exactly when it starts with "Bearer " (case-sensitive), and the token is the rest |
| Middleware.BearerRoundTrip | blog-server/src/presentation/middleware.rs:150-152 | "Bearer " + token is read back as the token |
| Middleware.LowerCaseSchemeRefused | blog-server/src/presentation/middleware.rs:150-152 | "bearer " + token is refused with 401 |
| Middleware.Authenticate | blog-server/src/presentation/middleware.rs:133-154 | a missing AuthService is 500 before the header is examined; then the header checks; then extract_user_from_token on the token after the prefix; every failure after the first is 401 |
| Middleware.JwtAuthService.constructor | blog-server/src/presentation/middleware.rs:103-108 | the service holds the keys |
| Middleware.JwtAuthService.Call | blog-server/src/presentation/middleware.rs:129-164 | on failure the inner service is not called and the extensions are unchanged; on success the user is inserted before the inner call, and the inner result is returned unchanged |
| Middleware.UuidTextIsVisible | blog-server/src/presentation/middleware.rs:65 | a rendered UUID is all visible ASCII |
| Middleware.ChooseRequestId | blog-server/src/presentation/middleware.rs:60-65 | the incoming x-request-id when it reads as text, else the fresh UUID rendered; always a valid header value, so the later unwrap cannot panic |
| Middleware.RequestIdService.constructor | blog-server/src/presentation/middleware.rs:37-44 | new_transform: the middleware holds the service it wraps |
| Middleware.RequestIdService.Call | blog-server/src/presentation/middleware.rs:59-79 | the id is stored in the extensions before the wrapped service runs and set on its successful response; an error of the wrapped service is returned unchanged |
| PostHandlers.RequestIdOf | blog-server/src/presentation/handlers/post.rs:121-126 | the stored request id, or "unknown" |
| PostHandlers.PageResponse | blog-server/src/presentation/handlers/post.rs:97-102 | 200 with the posts, total equal to their number, and the request's own limit and offset, unclamped |
| PostHandlers.CreateHandlerStep | blog-server/src/presentation/handlers/post.rs:14-30 | the authenticated user is the author; 201 with the created post, or the service's error |
| PostHandlers.UpdateHandlerStep | blog-server/src/presentation/handlers/post.rs:32-54 | a lookup fault is Internal with the table unchanged; then PostNotFound before ownership, then Unauthorized for a non-author; on the owner's path the result and table are those of the repository update, so an update fault is Internal with nothing changed and success is 200 with the patched post; a refused update changes nothing |
| PostHandlers.DeleteHandlerStep | blog-server/src/presentation/handlers/post.rs:56-81 | a lookup fault is Internal with the table unchanged; then the same existence-then-ownership order; once both pass, the result and the table are those of the repository delete with the caller's id as the post id and the post id as the author: the owner gets PostNotFound(own id) when no row has their id, Forbidden when one does with another author, and 204 "deleted" only when that row is removed |
| PostHandlers.OwnerDeleteFails | blog-server/src/presentation/handlers/post.rs:63-71 | the author of a post who deletes it gets PostNotFound(their id) and the post stays |
| PostHandlers.CreatePost | blog-server/src/presentation/handlers/post.rs:14-30 | the result and new table are those of CreateHandlerStep |
| PostHandlers.UpdatePost | blog-server/src/presentation/handlers/post.rs:32-54 | the result and new table are those of UpdateHandlerStep |
| PostHandlers.DeletePost | blog-server/src/presentation/handlers/post.rs:56-81 | the result and new table are those of DeleteHandlerStep |
| PostHandlers.GetPosts | blog-server/src/presentation/handlers/post.rs:83-103 | PageResponse over the service's page; the service's error otherwise |
| PostHandlers.GetPost | blog-server/src/presentation/handlers/post.rs:105-120 | 200 with the stored post exactly when it exists; an absent post is PostNotFound(id) and a store fault Internal with the driver's text |
| GrpcService.MapDomainErrorToStatus | blog-server/src/presentation/grpc_service.rs:259-267 | Unauthenticated exactly for Unauthorized, NotFound exactly for the not-found variants, Internal for the rest; Internal keeps its message, Forbidden and UserAlreadyExists become "Internal server error" |
| GrpcService.ErrorTablesDiffer | blog-server/src/presentation/grpc_service.rs:259-267 | the two tables agree on not-found and unauthorised; Forbidden is 403 over HTTP but Internal over gRPC, and a conflict is 409 but Internal |
| GrpcService.ExtractTokenFromRequest | blog-server/src/presentation/grpc_service.rs:269-279 | metadata missing or not text is "Authorization header missing"; without the "Bearer " prefix it is "Invalid authorization header format"; otherwise the token after the prefix |
| GrpcService.SameBearerRules | blog-server/src/presentation/grpc_service.rs:269-279 | the gRPC and HTTP header rules accept the same values and yield the same token |
| GrpcService.ValidateRegister | blog-server/src/presentation/grpc_service.rs:56-65 | in order: fewer than 6 username bytes, no '@' in the e-mail, fewer than 8 password bytes; passes exactly when none applies |
| GrpcService.ValidateLogin | blog-server/src/presentation/grpc_service.rs:94-99 | fewer than 6 username bytes, then fewer than 8 password bytes; passes exactly when neither applies |
| GrpcService.UsernameLengthInBytes | blog-server/src/presentation/grpc_service.rs:94 | a 5-character username with a 2-byte letter passes the 6-byte check |
| GrpcService.AuthReply | blog-server/src/presentation/grpc_service.rs:81-85 | the token, expires_in 3600 and token_type "Bearer" |
| GrpcService.ProtoPostOf | blog-server/src/presentation/grpc_service.rs:299-310 | the ids render to text that parses back to them; title, content and timestamps are copied |
| GrpcService.ListPostsResponseOf | blog-server/src/presentation/grpc_service.rs:312-319 | the same posts in the same order; total_count is the length (as i32) |
| GrpcService.UpdateRequestOf | blog-server/src/presentation/grpc_service.rs:321-328 | both optional fields copied unchanged |
| GrpcService.BlogGrpcService.constructor | blog-server/src/presentation/grpc_service.rs:36-41 | the service holds the two services |
| GrpcService.BlogGrpcService.Caller | blog-server/src/presentation/grpc_service.rs:120-129 | the header failure as it is; a token that does not verify is Unauthenticated "Invalid or expired token"; a verified subject that is not a UUID panics, and one that parses gives its id |
| GrpcService.BlogGrpcService.Register | blog-server/src/presentation/grpc_service.rs:50-86 | invalid input is refused before the store is touched; a hash failure is Internal; an insert the store refuses leaves the rows as they were and answers through the gRPC table (a taken e-mail is Internal "Internal server error"); a stored row stays even when signing then fails with Internal "JWT generation failed: ..."; otherwise the reply carries the token for the new id |
| GrpcService.BlogGrpcService.Login | blog-server/src/presentation/grpc_service.rs:88-114 | validation first; then AuthService::login with the username used as the e-mail; its errors through the gRPC table, and its token as the reply exactly when it succeeds |
| GrpcService.BlogGrpcService.CreatePost | blog-server/src/presentation/grpc_service.rs:116-151 | a failed token gate never reaches the service and leaves the table unchanged; otherwise the caller is the author and the stored post is returned |
| GrpcService.BlogGrpcService.GetPost | blog-server/src/presentation/grpc_service.rs:153-174 | an id that is not a UUID panics; a stored id gives that post; an absent one NotFound "Post not found"; a store error Internal with its text |
| GrpcService.BlogGrpcService.ListPosts | blog-server/src/presentation/grpc_service.rs:176-191 | the i32 arguments are sign-extended to usize; a store error is Internal with its text; a negative offset is refused by the database; otherwise the window of a newest-first listing, at most 100 posts |
| GrpcService.BlogGrpcService.UpdatePost | blog-server/src/presentation/grpc_service.rs:193-230 | gate, then the post id is unwrapped, then update_post(post_id, user_id): it succeeds exactly when the caller wrote the post; a store error goes through the gRPC table and no match is NotFound "Post not found" |
| GrpcService.BlogGrpcService.DeletePost | blog-server/src/presentation/grpc_service.rs:232-256 | gate, then the post id is unwrapped, then delete_post(user_id, post_id) with the repository result mapped through the gRPC table |
| GrpcService.OwnerDeleteIsNotFound | blog-server/src/presentation/grpc_service.rs:245-251 | the author deleting their own post over gRPC gets NotFound "Post not found" |
| GrpcService.ForbiddenDeleteIsInternal | blog-server/src/presentation/grpc_service.rs:248-251 | a Forbidden delete reaches the gRPC caller as Internal "Internal server error" |
| Config.VarOr | blog-server/src/infrastructure/config.rs:17 | the variable's value when set, the default otherwise |
| Config.ParseIntErrorText | blog-server/src/infrastructure/config.rs:17-20 | the ParseIntError text after "invalid PORT: ": the empty-string text for empty input; after an optional +, "number too large to fit in target type" exactly when the leading run of digits is worth 65536 or more, whatever follows it, since from_str_radix stops at the overflow; "invalid digit found in string" otherwise, and then, when the text does not parse, a non-digit really occurs or nothing follows the + |
| Config.OverflowBeforeBadCharacter | blog-server/src/infrastructure/config.rs:17-20 | digits worth 65536 or more followed by anything ("70000x") give the overflow text, not the invalid-digit one |
| Config.Map | blog-server/src/infrastructure/config.rs:29 | map: one result per element, each the function applied to the element at the same position |
| Config.MapConcat | blog-server/src/infrastructure/config.rs:29 | map keeps order: mapping a list cut in two gives the two results one after the other |
| Config.TrimAll | blog-server/src/infrastructure/config.rs:29 | map(trim): piece j becomes trim(piece j), which is empty or has no whitespace at either end |
| Config.DropEmpty | blog-server/src/infrastructure/config.rs:30 | filter(non-empty): every kept element is non-empty and one of the inputs, and none is added |
| Config.DropEmptyKeeps | blog-server/src/infrastructure/config.rs:30 | every non-empty input is kept |
| Config.DropEmptyConcat | blog-server/src/infrastructure/config.rs:30 | the filter keeps order: filtering a list cut in two gives the two results one after the other |
| Config.DropEmptyOfNonEmpty | blog-server/src/infrastructure/config.rs:30 | a list with no empty string passes unchanged |
| Config.NonEmptyTrimmed | blog-server/src/infrastructure/config.rs:29-31 | every kept piece is trimmed and non-empty, and no more pieces than were given |
| Config.NonEmptyTrimmedKeepsPieces | blog-server/src/infrastructure/config.rs:29-31 | every piece that is not blank after trimming is in the result, trimmed, and every result is one of the pieces, trimmed |
| Config.NonEmptyTrimmedConcat | blog-server/src/infrastructure/config.rs:29-31 | order is kept: the result for a list cut in two is the two results one after the other |
| Config.PaddedPiecesKept | blog-server/src/infrastructure/config.rs:29-31 | pieces that trim to non-empty origins give exactly those origins, in order |
| Config.NonEmptyTrimmedKeepsAbsent | blog-server/src/infrastructure/config.rs:29-31 | trimming and filtering add no character |
| Config.CorsOrigins | blog-server/src/infrastructure/config.rs:26-31 | every origin is non-empty with no whitespace at either end; which pieces it keeps, and in what order, is stated by CorsOriginsArePieces and PaddedOriginsRoundTrip |
| Config.CorsOriginsArePieces | blog-server/src/infrastructure/config.rs:26-31 | the origins are exactly the non-blank comma-separated pieces of the raw value, trimmed |
| Config.PaddedOriginsRoundTrip | blog-server/src/infrastructure/config.rs:26-31 | comma-joined pieces that trim to non-empty, comma-free origins give back those origins in order |
| Config.TwoOriginsWithSpace | blog-server/src/infrastructure/config.rs:26-31 | "a, b" with clean a and b gives exactly [a, b] |
| Config.FromEnv | blog-server/src/infrastructure/config.rs:14-40 | Ok exactly when PORT (default "8080") parses as a u16 and DATABASE_URL and JWT_SECRET are set; errors in that order with their messages, the PORT one being "invalid PORT: " + ParseIntErrorText; the fields take the values or the defaults |
| Config.DefaultPortParses | blog-server/src/infrastructure/config.rs:18-21 | the default port text parses to 8080 |
| Config.DefaultsWhenUnset | blog-server/src/infrastructure/config.rs:17-31 | with only the two required variables set: host 127.0.0.1, port 8080, origins ["*"] |
| Config.OriginsHaveNoComma | blog-server/src/infrastructure/config.rs:26-31 | no origin contains a comma |
| Config.CleanListKept | blog-server/src/infrastructure/config.rs:29-30 | a list of trimmed, non-empty pieces passes unchanged |
| Config.OriginsRoundTrip | blog-server/src/infrastructure/config.rs:26-31 | clean origins written comma-separated are read back as the same list, in order |
| Config.EmptyVariableAllowsNothing | blog-server/src/infrastructure/config.rs:26-31 | CORS_ORIGINS set to the empty string yields no origins |
| ClientCommon.FromHttpResponse | blog-client/src/error.rs:25-36 | an HTTP error with the status and the body, or "Failed to read body" |
| ClientCommon.IsSuccess | blog-client/src/http_client.rs:94 | is_success: exactly the 2xx statuses |
| ClientCommon.ClampedLimit | blog-client/src/grpc_client.rs:123 | min(limit or 10, 100): at most 100, the request when it is at most 100 |
| ClientCommon.PageParams | blog-client/src/grpc_client.rs:123-124 | the clamped limit, and the offset (default 0) as i32: unchanged below 2^31, negative (offset - 2^32) from 2^31 up |
| GrpcClient.ValidateRegister | blog-client/src/grpc_client.rs:59-71 | in order: at most 6 username bytes, no '@', at most 8 password bytes, each with its message; passes exactly when none applies |
| GrpcClient.ValidateLogin | blog-client/src/grpc_client.rs:85-95 | at most 6 username bytes, then at most 8 password bytes; passes exactly when neither applies |
| GrpcClient.ClientChecksImplyServerChecks | blog-client/src/grpc_client.rs:59-95 | whatever the client lets through, the server's checks let through |
| GrpcClient.BoundaryRefusedByClientOnly | blog-client/src/grpc_client.rs:85-89 | a 6-byte username and an 8-byte password pass the server but are refused by the client |
| GrpcClient.BlogClientGrpc.Connect | blog-client/src/grpc_client.rs:22-31 | a new client holds no token |
| GrpcClient.BlogClientGrpc.SetToken | blog-client/src/grpc_client.rs:33-39 | after set_token(t), token() is t |
| GrpcClient.BlogClientGrpc.Token | blog-client/src/grpc_client.rs:37-39 | token(): the token the client holds, which SetToken sets and WithAuth sends |
| GrpcClient.BlogClientGrpc.WithAuth | blog-client/src/grpc_client.rs:41-49 | with a token, authorization is set to "Bearer " + token (a value that does not parse panics); without one the metadata is unchanged |
| GrpcClient.BlogClientGrpc.Register | blog-client/src/grpc_client.rs:53-82 | a validation failure is returned before any RPC and keeps the token; an RPC error is a status error; success stores the access token |
| GrpcClient.BlogClientGrpc.Login | blog-client/src/grpc_client.rs:84-102 | the same with the login checks |
| GrpcClient.TokenReachesServer | blog-client/src/grpc_client.rs:41-49 | a visible-ASCII token the client attaches is exactly the token the server extracts |
| GrpcClient.NonAsciiTokenReadsAsMissing | blog-client/src/grpc_client.rs:41-49 | any token that MetadataValue accepts and that holds a non-ASCII character is sent, but the server answers "Authorization header missing" |
| GrpcClient.LimitKeptByServer | blog-client/src/grpc_client.rs:123 | the limit the client sends is the limit the repository applies |
| GrpcClient.LargeOffsetRefused | blog-client/src/grpc_client.rs:124 | an offset of 2^31 or more arrives at the database as a negative OFFSET |
| HttpClient.I32Text | blog-client/src/http_client.rs:152-155 | the decimal text of an i32, with a minus sign when negative |
| HttpClient.BlogClientHttp.Connect | blog-client/src/http_client.rs:31-38 | the endpoint with every trailing '/' removed, and no token in memory |
| HttpClient.BlogClientHttp.SetToken | blog-client/src/http_client.rs:40-47 | after set_token(t), token() is t, and the token file holds t |
| HttpClient.BlogClientHttp.Token | blog-client/src/http_client.rs:45-47 | token(): the token in memory only; with none in memory it reports none, even though requests then authenticate from the token file whenever it can be read; a non-empty token in memory is the one requests use |
| HttpClient.BlogClientHttp.ChosenToken | blog-client/src/http_client.rs:51-59 | the token in memory when non-empty; otherwise the trimmed file contents; an unreadable file is Unauthorized |
| HttpClient.BlogClientHttp.AuthHeader | blog-client/src/http_client.rs:49-72 | no header for an empty token; otherwise "Bearer " + token when that is a valid header value, else Unauthorized |
| HttpClient.BlogClientHttp.ListUrl | blog-client/src/http_client.rs:144-157 | the URL carries the clamped limit and the offset as the i32 the client computes |
| HttpClient.BlogClientHttp.Authenticate | blog-client/src/http_client.rs:77-123 | a send error or a decode error is a request error and a non-2xx status an HTTP error, all keeping the token; success stores the access token |
| HttpClient.HeaderAfterSetToken | blog-client/src/http_client.rs:40-72 | after set_token(t), requests carry "Bearer t" |
| HttpClient.FileTokenTrimmed | blog-client/src/http_client.rs:53-58 | a token file ending in a newline yields the token without it |
| HttpClient.EmptyTokenFallsBackToFile | blog-client/src/http_client.rs:51-56 | an empty token in memory does not hide the file; an unreadable file is Unauthorized |
| HttpClient.HeaderReachesServer | blog-client/src/http_client.rs:67-71 | a visible-ASCII header the client builds is read by the server as the chosen token |
| HttpClient.LargeOffsetSentNegative | blog-client/src/http_client.rs:151-155 | an offset of 2^31 or more is sent as a negative number |
| WasmClient.NonEmpty | blog-wasm/src/client.rs:80 | Some exactly when the value is present and non-empty, and then that value |
| WasmClient.BlogClientHttp.Connect | blog-wasm/src/client.rs:65-69 | the endpoint with every trailing '/' removed; the token starts as the stored one |
| WasmClient.BlogClientHttp.SetToken | blog-wasm/src/client.rs:71-74 | the field takes the token, and the storage too when the write succeeds |
| WasmClient.BlogClientHttp.Token | blog-wasm/src/client.rs:76-81 | the field if set, else the stored value; an empty string counts as none |
| WasmClient.BlogClientHttp.AuthHeader | blog-wasm/src/client.rs:83-87 | "Bearer " + t exactly when token() is t |
| WasmClient.BlogClientHttp.ListUrl | blog-wasm/src/client.rs:158-163 | the URL carries the clamped limit and the offset (default 0) as u32 |
| WasmClient.Send | blog-wasm/src/client.rs:90-103 | a send or decode failure is a request error; a non-ok status is an HTTP error with the body or an empty message |
| WasmClient.Authenticate | blog-wasm/src/client.rs:108-138 | the reply through send; on success the access token becomes the client's token; on failure nothing changes |
| WasmClient.EmptyFieldHidesStorage | blog-wasm/src/client.rs:76-81 | an empty token in the field hides the stored one: no header |
| WasmClient.ConnectUsesStorage | blog-wasm/src/client.rs:65-87 | a freshly connected client uses the stored token |
| WasmClient.OffsetReachesServerIntact | blog-wasm/src/client.rs:159-163 | the browser client's offset reaches the repository unchanged |
| WasmClient.LimitAgreesWithServer | blog-wasm/src/client.rs:158 | the browser client's clamp and the repository's agree |
| Text.Utf8Len | blog-server/src/presentation/grpc_service.rs:57 | String::len: between one and four bytes per character, one per character exactly for ASCII |
| Text.Utf8Width | blog-server/src/presentation/grpc_service.rs:57 | char::len_utf8: one to four bytes, exactly one for ASCII |
| Text.Trim | blog-server/src/infrastructure/config.rs:29 | str::trim never lengthens |
| Text.IsWhitespace | blog-server/src/infrastructure/config.rs:29 | char::is_whitespace, the test behind trim: on ASCII exactly space, tab, line feed, vertical tab, form feed and carriage return; a comma is never whitespace |
| Text.TrimStart | blog-server/src/infrastructure/config.rs:29 | drops the leading whitespace and nothing else: the result is a suffix, starts with a non-whitespace character, and everything dropped is whitespace |
| Text.TrimEnd | blog-server/src/infrastructure/config.rs:29 | drops the trailing whitespace and nothing else: the result is a prefix, ends with a non-whitespace character, and everything dropped is whitespace |
| Text.TrimLeadingSpace | blog-server/src/infrastructure/config.rs:29 | a space in front of clean text is trimmed away |
| Text.TrimIsTight | blog-server/src/infrastructure/config.rs:29 | str::trim leaves no whitespace at either end |
| Text.TightIsTrimmed | blog-server/src/infrastructure/config.rs:29 | str::trim leaves text without outer whitespace unchanged |
| Text.TrimDropsFinalNewline | blog-client/src/http_client.rs:57 | trimming a line drops its final newline |
| Text.TrimKeepsAbsent | blog-server/src/infrastructure/config.rs:29 | trim only removes characters |
| Text.TrimEndMatches | blog-client/src/http_client.rs:32 | trim_end_matches drops every trailing copy of the character and nothing else |
| Text.StripPrefix | blog-server/src/presentation/middleware.rs:150 | strip_prefix: the rest exactly when the text starts with the prefix |
| Text.ContainsStr | blog-server/src/data/user_repository.rs:45 | str::contains: true exactly when the pattern occurs somewhere |
| Text.Lowercase | blog-server/src/application/auth_service.rs:43 | no upper-case ASCII letter remains, every other character is kept |
| Text.Split | blog-server/src/infrastructure/config.rs:28 | split on a character: at least one piece, none containing the separator, joined back to the input |
| Text.SplitJoin | blog-server/src/infrastructure/config.rs:28 | splitting joined separator-free pieces gives the pieces back |
| Text.HeaderToStr | blog-server/src/presentation/middleware.rs:140 | HeaderValue::to_str succeeds exactly for visible ASCII, with the value unchanged |
| Text.IsVisibleAscii | blog-server/src/presentation/middleware.rs:140 | the characters HeaderValue::to_str accepts are single-byte ASCII |
| Text.IsHeaderChar | blog-client/src/http_client.rs:67-68 | the characters HeaderValue::from_str and MetadataValue parsing accept: every non-ASCII character, and on ASCII exactly those to_str accepts |
| Text.FirstIndex | blog-server/src/infrastructure/config.rs:28 | the position str::split cuts at: the first occurrence of the separator |
| Text.DigitPrefix | blog-server/src/infrastructure/config.rs:20 | the characters from_str_radix reads before its first non-digit: a prefix made of digits, followed by a non-digit or the end, and the whole text when it is all digits |
| Text.DecimalValueGrows | blog-server/src/infrastructure/config.rs:20 | reading further digits never lowers the value, so an overflow within a prefix stays an overflow |
| Text.Decimal | blog-wasm/src/client.rs:160-163 | Display of an unsigned integer: one or more digits, a single digit exactly below 10, no leading zero except for 0 itself |
| Wrappers.Option.GetOr | blog-wasm/src/client.rs:159 | Option::unwrap_or: the value when present, the default otherwise |
| Text.ParseU16 | blog-server/src/infrastructure/config.rs:20 | a parsed port is below 65536 |
| Text.ParseU16OfDecimal | blog-server/src/infrastructure/config.rs:18-20 | the decimal text of a port parses back to it |
| MachineInts.U32AsI32 | blog-client/src/grpc_client.rs:124 | u32 as i32: unchanged exactly below 2^31, equal modulo 2^32 |
| MachineInts.I32AsUsize | blog-server/src/presentation/grpc_service.rs:184 | i32 as usize: unchanged exactly for non-negatives, equal modulo 2^64 |
| MachineInts.UsizeAsI64 | blog-server/src/data/post_repository.rs:151-152 | usize as i64: unchanged exactly below 2^63, equal modulo 2^64 |
| MachineInts.UsizeAsI32 | blog-server/src/presentation/grpc_service.rs:316 | usize as i32: unchanged below 2^31, equal modulo 2^32 |
| MachineInts.NegativeSurvivesRoundTrip | blog-server/src/presentation/grpc_service.rs:184 | a negative i32 taken through usize and on to i64 is the same negative number |
| Uuids.HexValue | blog-server/src/presentation/utils.rs:45 | a value exactly for the hex digits of either case: 0-9, then 10-15 for a-f and for A-F |
| Uuids.HexValueOfDigit | blog-server/src/presentation/utils.rs:45 | a rendered digit reads back as its value |
| Uuids.Hex | blog-server/src/presentation/middleware.rs:65 | one digit per nibble |
| Uuids.ToString | blog-server/src/presentation/middleware.rs:65 | 36 characters with hyphens at positions 8, 13, 18 and 23 |
| Uuids.Parse | blog-server/src/presentation/utils.rs:45 | only 36- or 32-character text parses |
| Uuids.ParseToString | blog-server/src/presentation/utils.rs:45 | what to_string renders, parse_str reads back |
| Uuids.DecodeHexOfHex | blog-server/src/presentation/utils.rs:45 | decoding rendered digits gives the nibbles back |
| Uuids.ToStringInjective | blog-server/src/presentation/grpc_service.rs:302 | distinct ids render differently |

## Left out

- Cryptography: JWT encoding and decoding (jsonwebtoken) and Argon2 hashing and verification are function values or parameters. No property of them is assumed, so nothing is proved about signatures, expiry checking or salts.
- SQL execution, `PgPool`, migrations and the schema. The schema is not part of this model. The `username` column's default, the database clock behind `created_at` of a user, and the constraint names `users_pkey` / `users_email_key` (PostgreSQL's defaults) are stated as assumptions.
- UserRepository.InsertFailure: the order of the uniqueness checks is assumed, not known. A row clashing on both the id and the e-mail is reported as a `users_pkey` violation, which the schema and the driver do not promise; the schema is not part of this model.
- Database failures that the data does not explain (connection loss and the like) are parameters. Their text is taken as given.
- `dotenvy::dotenv()` loading a `.env` file: the environment map is taken after it.
- `TimingMiddleware`, tracing and logging setup: timing and logging only.
- Server start-up, routing, the CORS builder and security headers (`main.rs`, `utils.rs`): framework wiring.
- `handlers/auth.rs`: its calls do not match the `AuthService` and dto signatures, so there is no consistent behaviour to state.
- Protobuf timestamp conversion (`grpc_service.rs:281-297`): timestamps are whole seconds here, and nanoseconds are not modelled.
- The UI (`blog-wasm/src/main.rs`) and the CLI's argument parsing (`blog-cli`).
- Concurrency between requests (`Arc`/`Rc` sharing, async scheduling): every operation is atomic in the model.
- `Text.Lowercase`: lowers ASCII letters only. Rust's full Unicode `to_lowercase` (which may change the length) is not modelled.
- `Uuids.Parse`: reads the hyphenated and simple forms only. The braced and URN forms `parse_str` also accepts are not modelled.
- `Security.ClaimsFor`: reads the clock once. `generate_token` reads it twice, so a second boundary between the two readings is not modelled.
- The clients' post requests (get, create, update, delete): only their token, URL and reply rules are modelled, because the request bodies are network payloads.
- `list_posts` of the clients is modelled up to the URL or arguments it sends. The gRPC `list_posts` author filter is never used by the server and is left out.
- Client connection failures: `Channel::from_shared(..).unwrap()` and `connect()` errors in the gRPC client, and the `reqwest` client build error in the REST client.
- `HttpClient.BlogClientHttp.SetToken`: a failing `fs::write(..).unwrap()` panics, which is not modelled. The write always succeeds here.
- `HttpClient.BlogClientHttp.ListUrl`: the server's query-string parsing of a negative offset is not modelled, only the text the client sends.
- `PostRepository.PostgresPostRepository.GetPosts`: specified for some newest-first order of the table, because `ORDER BY created_at DESC` leaves ties between equal timestamps to the database.
- `GrpcService.ListPostsResponseOf`: `total_count` is stated only for fewer than 2^31 posts. Above that the `as i32` wraps, as `MachineInts.UsizeAsI32` states.
