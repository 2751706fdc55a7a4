# Refresh sessions and access decisions of a FastAPI news service

This project models, in Dafny, the authentication core of a small FastAPI
news service: how refresh sessions are created, rotated, listed and revoked,
and how each request is admitted or refused. It proves properties of that
model.

- `Gateway` models the identity router `app/api/auth_router.py`. It is a
  class holding the database, the cache and an id counter. Its methods are
  register, login, refresh with rotation, logout, logout from every device,
  the session listing and the GitHub callback. Every method keeps the
  invariant `SessionsConsistent`: each stored session is well formed and
  listed under its owner, a listed token with a session belongs to that
  list's user, and every token in the cache carries an id below the counter.
- `Cache` models `CacheService`. The Redis keyspace is four maps, keyed by
  the full key strings (`news:<id>`, `user:<id>`, `session:<token>`,
  `user_sessions:<id>`). The list updates and `delete_all_user_sessions`
  are methods.
- `Store` models the table-backed user and refresh-session functions of the
  second copy's `app/crud.py`. Tables are sequences of records in insertion
  order; the queries are filters and the writes are `Database` methods. A
  write whose commit a table constraint rejects (a NULL in a NOT NULL
  column, a taken primary key or email) is the 500 SQLAlchemy's
  `IntegrityError` becomes, and stores nothing.
- `Access` models both `app/deps.py` files: the bearer-claim checks, the
  cache-first user lookup (which writes the cache on a miss), the role
  checks and the ownership checks.
- `Content` models the news and comment handlers with their own, stricter
  rules, over a `ContentStore` of news and comments.
- `Schemas` models the pydantic length constraints and the `Token` default.
- `Codec` models the JWT codec and the password hasher of `app/auth.py`.
  `Text` and `Common` are shared helpers: decimal printing and parsing,
  splitting, `Option`/`Result` and the HTTP error shape.

Tokens are concrete strings, `type.user_id.exp.jti`. Decoding returns the
claims until the expiry second. Equal claims give equal tokens, as HS256
over equal claims does. A refresh token is accepted while its JWT has not
expired and its session document is in the cache: no handler reads the
session's own `expires_at`, and the model reads it only in the session
listing.

The clock is a parameter `now`, in whole seconds, read once per handler;
ISO times in session documents become those integers. Request headers
(`user-agent`) and GitHub's `verify_and_process` are parameters too.

The router imports `schemas` and `crud`. Its use of `get_user_by_email`,
`UserLogin`, `Token` and the password column matches only the second
copy's `schemas.py` and `crud.py`, so the model uses those. The news and
comment handlers are modelled with the first copy's `crud.py` and
`schemas.py`: `create_comment` takes the author id from the request body,
and neither body has a length constraint. `Schemas.NewsCreateErrors` and
`Schemas.CommentCreateErrors` record the second copy's constraints, which
no modelled handler applies.

## Model

| member | source | states |
|---|---|---|
| Codec.Encode | lab1_Yason_V/app/auth.py:45 | parsing the token text of a claim set whose type has no dot gives back exactly that claim set |
| Codec.ParseClaims | lab1_Yason_V/app/auth.py:56 | a parsed token has exactly four dot-separated fields, so its type has no dot |
| Codec.Decode | lab1_Yason_V/app/auth.py:54-59 | a decoded payload is one whose expiry has not passed, and it is the token's own claim set |
| Codec.DecodeEncode | lab1_Yason_V/app/auth.py:44-45 | a token decodes to exactly the claims it was issued with up to its expiry second, and to nothing after |
| Codec.EncodeInjective | lab1_Yason_V/app/auth.py:45 | different claim sets give different tokens |
| Codec.IssueAccess | lab1_Yason_V/app/auth.py:37-46 | the access token decodes to type "access", the user id and an expiry 30 minutes on, and is refused one second after that |
| Codec.IssueRefreshAsWritten | lab1_Yason_V/app/auth.py:48-52 | the refresh token as written decodes to type "refresh" and an expiry 7 days on, with no user id and no unique id |
| Codec.RefreshTokenDeterminedBySecond | lab1_Yason_V/app/auth.py:48-52 | as written, two refresh tokens are equal exactly when they are issued in the same second |
| Codec.IssueRefresh | lab1_Yason_V/app/auth.py:48-52 | the corrected refresh token decodes like the original and also carries the given unique id |
| Codec.IssuedRefreshTokensDistinct | lab1_Yason_V/app/auth.py:48-52 | corrected refresh tokens with different ids differ, whatever the second |
| Codec.TokenKindsDiffer | lab1_Yason_V/app/auth.py:44-50 | an access token never decodes as a refresh token, and the other way round |
| Codec.Hash | lab1_Yason_V/app/auth.py:34-35 | the hash is never the password itself and is longer than it |
| Codec.Verify | lab1_Yason_V/app/auth.py:31-32 | a password verifies only against a stored value that is not the password itself |
| Codec.VerifyHash | lab1_Yason_V/app/auth.py:31-35 | a stored hash verifies exactly the password it was made from |
| Schemas.UserCreateErrors | lav1_Yanson_V_3346/lab1_Yason_V/app/schemas.py:6-11 | "name" fails exactly when the name is not 1 to 128 characters long, "password" exactly when it is shorter than 6 characters, and nothing else fails |
| Schemas.UserLoginErrors | lav1_Yanson_V_3346/lab1_Yason_V/app/schemas.py:13-15 | a login body has no length constraint |
| Schemas.LoginLaxerThanRegistration | lav1_Yanson_V_3346/lab1_Yason_V/app/schemas.py:11-15 | an empty password passes login validation but never registration validation |
| Schemas.NewsCreateErrors | lav1_Yanson_V_3346/lab1_Yason_V/app/schemas.py:44-47 | a news body is valid exactly when its title is 1 to 255 characters long |
| Schemas.CommentCreateErrors | lav1_Yanson_V_3346/lab1_Yason_V/app/schemas.py:60-64 | a comment body is valid exactly when its text is not empty |
| Schemas.MakeToken | lav1_Yanson_V_3346/lab1_Yason_V/app/schemas.py:32-35 | the token pair carries the two tokens and `token_type` "bearer" |
| Store.GetUser | lav1_Yanson_V_3346/lab1_Yason_V/app/crud.py:35-36 | the user found has that id; none is found exactly when no row has it |
| Store.GetUserByEmail | lav1_Yanson_V_3346/lab1_Yason_V/app/crud.py:29-30 | the user found is a row with that email; none is found exactly when no row has it |
| Store.GetUserByGithubId | lav1_Yanson_V_3346/lab1_Yason_V/app/crud.py:32-33 | the user found carries that GitHub id; none is found exactly when no row does |
| Store.FirstIndex | lav1_Yanson_V_3346/lab1_Yason_V/app/crud.py:30 | `.first()`: the first matching row, and no earlier row matches; none only when no row matches |
| Store.ListUsers | lav1_Yanson_V_3346/lab1_Yason_V/app/crud.py:38-39 | offset/limit: the rows from `skip` on, at most `limit` of them, in order |
| Store.SetAttr | lav1_Yanson_V_3346/lab1_Yason_V/app/crud.py:46-49 | the named column takes a value of its kind (the primary key included), a non-empty "password" is stored as its hash, `hashed_password`, `avatar` and `github_id` take text or NULL, every other column keeps its value, and a key that is neither a column nor "password" leaves the record as it is (a relationship name fails the request when the patch is stored) |
| Store.SetAttrAsWritten | lav1_Yanson_V_3346/lab1_Yason_V/app/crud.py:47-49 | as written, a "password" key changes nothing stored |
| Store.PasswordPatchLostAsWritten | lav1_Yanson_V_3346/lab1_Yason_V/app/crud.py:47-49 | as written, after the patch the new password does not verify against the stored hash |
| Store.PasswordPatchTakesEffect | lav1_Yanson_V_3346/lab1_Yason_V/app/crud.py:47-49 | corrected, after the patch exactly the new password verifies |
| Store.ApplyPatchKeys | lav1_Yanson_V_3346/lab1_Yason_V/app/crud.py:46-49 | after `ApplyPatch` (the `setattr` loop, key by key) the id, the name and the email each hold the last value given for them, and keep their value when not named |
| Store.ApplyPatchHash | lav1_Yanson_V_3346/lab1_Yason_V/app/crud.py:46-49 | after `ApplyPatch` the hash is what the last entry writing it leaves (`LastHashWrite`: a text or NULL `hashed_password`, or the hash of a non-empty text `password`), and is kept when no entry writes it |
| Store.LastHashWrite | lav1_Yanson_V_3346/lab1_Yason_V/app/crud.py:47-49 | when it finds no hash-writing entry, no `password` entry of the patch is non-empty text |
| Store.ApplyPatchRoles | lav1_Yanson_V_3346/lab1_Yason_V/app/crud.py:46-49 | after `ApplyPatch` each role flag holds the last value given for it and is kept when not named |
| Store.ApplyPatchProfile | lav1_Yanson_V_3346/lab1_Yason_V/app/crud.py:46-49 | after `ApplyPatch` the avatar and the GitHub id hold the last text given, become none after a final NULL, and are kept when not named |
| Store.PatchOverwritesRoles | lav1_Yanson_V_3346/lab1_Yason_V/app/crud.py:46-49 | there is no allow-list: a patch that ends by setting `is_admin` and `is_author` leaves those values, whatever came before |
| Store.Database.CreateUser | lav1_Yanson_V_3346/lab1_Yason_V/app/crud.py:6-16 | a taken email fails the commit with a 500 and stores nothing; otherwise appends a row with a fresh id, the name, the email and the password's hash, with both roles false; emails stay unique |
| Store.Database.CreateOAuthUser | lav1_Yanson_V_3346/lab1_Yason_V/app/crud.py:18-27 | a taken email fails the commit with a 500 and stores nothing; otherwise appends a row with a fresh id, the GitHub id and no password hash |
| Store.Database.UpdateUser | lav1_Yanson_V_3346/lab1_Yason_V/app/crud.py:41-53 | a missing id gives None and changes nothing; a truthy `password` value that is not text (`HashRaises`) makes the hasher raise, a 500 with nothing changed; otherwise, as `UserPatchCommits` says, a patch naming a relationship, leaving a NOT NULL column NULL or giving the row another row's id or email fails the commit with a 500 and changes nothing; otherwise the row becomes the patch applied key by key and ids and emails stay unique |
| Store.Database.CreateRefreshSession | lav1_Yanson_V_3346/lab1_Yason_V/app/crud.py:102-113 | appends a session with a fresh id that expires 7 days after `now`, findable by its token when that token is new |
| Store.GetRefreshSession | lav1_Yanson_V_3346/lab1_Yason_V/app/crud.py:115-118 | the session found has that token; none is found exactly when no row has it |
| Store.WithoutSession | lav1_Yanson_V_3346/lab1_Yason_V/app/crud.py:120-124 | removes the first session with that token when there is one, keeps every other row, and is a no-op otherwise |
| Store.DeletedTokenIsGone | lav1_Yanson_V_3346/lab1_Yason_V/app/crud.py:120-124 | after the delete no session has the token, when tokens are unique |
| Store.DeleteSessionIdempotent | lav1_Yanson_V_3346/lab1_Yason_V/app/crud.py:120-124 | deleting twice equals deleting once, when tokens are unique |
| Store.Database.DeleteRefreshSession | lav1_Yanson_V_3346/lab1_Yason_V/app/crud.py:120-124 | the session table becomes `WithoutSession` of the old one; users are untouched |
| Store.WithoutUserSessions | lav1_Yanson_V_3346/lab1_Yason_V/app/crud.py:126-130 | keeps exactly the sessions of other users |
| Store.DeleteAllUserSessionsEffect | lav1_Yanson_V_3346/lab1_Yason_V/app/crud.py:126-135 | afterwards the user has no session, any other user's sessions are as before, and repeating the delete changes nothing |
| Store.WithoutUserSessionsKeepsIds | lav1_Yanson_V_3346/lab1_Yason_V/app/crud.py:126-130 | the bulk delete keeps session ids unique |
| Store.Database.DeleteAllUserSessions | lav1_Yanson_V_3346/lab1_Yason_V/app/crud.py:126-130 | the session table becomes `WithoutUserSessions` of the old one |
| Store.GetUserSessions | lav1_Yanson_V_3346/lab1_Yason_V/app/crud.py:132-135 | returns exactly the sessions whose owner is the user |
| Store.SessionsPartitionByUser | lav1_Yanson_V_3346/lab1_Yason_V/app/crud.py:126-135 | one user's sessions and the sessions the bulk delete keeps together make up the whole table |
| Cache.NewsKey | lab1_Yason_V/app/cache_service.py:13-14 | the key starts with "news:" |
| Cache.UserKey | lab1_Yason_V/app/cache_service.py:17-18 | the key starts with "user:" |
| Cache.SessionKey | lab1_Yason_V/app/cache_service.py:21-22 | the key is "session:" followed by the token |
| Cache.UserSessionsKey | lab1_Yason_V/app/cache_service.py:25-26 | the key starts with "user_sessions:" |
| Cache.KeyKindsDisjoint | lab1_Yason_V/app/cache_service.py:13-26 | keys of different kinds never collide |
| Cache.KeysInjective | lab1_Yason_V/app/cache_service.py:13-26 | keys of one kind are equal exactly when their arguments are |
| Cache.SafeNews | lab1_Yason_V/app/cache_service.py:33-45 | the stored document has exactly the allowed news fields plus `cached_at`, read from the given data |
| Cache.SafeNewsIgnoresOtherFields | lab1_Yason_V/app/cache_service.py:36-44 | fields outside the allow-list never reach the cache |
| Cache.CacheService.GetNews | lab1_Yason_V/app/cache_service.py:28-31 | the document stored under the news key, or nothing exactly when the key is absent |
| Cache.CacheService.SetNews | lab1_Yason_V/app/cache_service.py:33-45 | stores `SafeNews` under the news key and changes no other map |
| Cache.CacheService.DeleteNews | lab1_Yason_V/app/cache_service.py:47-50 | removes the news key and reports whether it was there |
| Cache.UserSnapshot | lab1_Yason_V/app/cache_service.py:57-70 | the snapshot has exactly id, name, email, roles, avatar, GitHub id and `cached_at`, never the password hash |
| Cache.UserSnapshotHidesHash | lab1_Yason_V/app/cache_service.py:60-69 | the snapshot does not depend on the stored hash |
| Cache.CacheService.GetUser | lab1_Yason_V/app/cache_service.py:52-55 | the snapshot stored under the user key, or nothing exactly when the key is absent |
| Cache.CacheService.SetUser | lab1_Yason_V/app/cache_service.py:57-70 | stores `UserSnapshot` under the user key |
| Cache.CacheService.DeleteUser | lab1_Yason_V/app/cache_service.py:72-75 | removes the user key and reports whether it was there |
| Cache.CacheService.GetSession | lab1_Yason_V/app/cache_service.py:77-80 | the document under "session:" plus the token, if any |
| Cache.CacheService.SetSession | lab1_Yason_V/app/cache_service.py:82-86 | stores the data with `cached_at` added, under that token only |
| Cache.CachedAtKeepsSession | lab1_Yason_V/app/cache_service.py:84 | adding `cached_at` keeps a session document well formed and keeps its owner |
| Cache.CacheService.DeleteSession | lab1_Yason_V/app/cache_service.py:88-91 | removes that token's session only |
| Cache.CacheService.GetUserSessions | lab1_Yason_V/app/cache_service.py:93-97 | the stored list, or the empty list when the key is absent; never a duplicate |
| Cache.CacheService.AddUserSession | lab1_Yason_V/app/cache_service.py:99-106 | appends the token only when absent, writes nothing when present, and returns true either way |
| Cache.AppendKeepsNoDup | lab1_Yason_V/app/cache_service.py:103-104 | appending an absent token keeps the list free of duplicates |
| Cache.RemoveFirst | lab1_Yason_V/app/cache_service.py:113 | `list.remove`: a list without the token is returned unchanged |
| Cache.RemoveFirstIsSplice | lab1_Yason_V/app/cache_service.py:113 | removal cuts out the first occurrence and keeps the other tokens in order |
| Cache.RemoveFirstContents | lab1_Yason_V/app/cache_service.py:113 | removal takes away exactly one copy of the token and nothing else |
| Cache.RemoveFirstNoDup | lab1_Yason_V/app/cache_service.py:112-113 | in a list without duplicates the token is gone afterwards and the list stays duplicate-free |
| Cache.AddThenRemove | lab1_Yason_V/app/cache_service.py:99-115 | removing the token just appended gives back the list |
| Cache.CacheService.RemoveUserSession | lab1_Yason_V/app/cache_service.py:108-115 | removes the token when present, writes nothing when absent, returns true either way, and leaves other lists alone |
| Cache.CacheService.DeleteAllUserSessions | lab1_Yason_V/app/cache_service.py:117-125 | every listed token loses its session, no other session changes, and the user's list key goes |
| Cache.SessionData | lab1_Yason_V/app/api/auth_router.py:26-31 | the session document names the user and expires 7 days after it was created |
| Access.AccessClaim | lab1_Yason_V/app/deps.py:29-36 | accepts exactly a live access token carrying a user id, and returns that id; everything else is the same 401 |
| Access.AccessClaimOfIssued | lab1_Yason_V/app/deps.py:29-36 | an access token is accepted during its lifetime for its user; a refresh token never is |
| Access.CurrentUserFromDb | lav1_Yanson_V_3346/lab1_Yason_V/app/deps.py:17-41 | succeeds exactly when the claim is accepted and the database has that user, and returns that user; otherwise 401 |
| Access.UserFromSnapshot | lab1_Yason_V/app/deps.py:41-50 | a user rebuilt from a snapshot has the snapshot's id and no password hash |
| Access.SnapshotRoundTrip | lab1_Yason_V/app/deps.py:41-50 | rebuilding a snapshot gives back the user without the hash |
| Access.ResolveUser | lab1_Yason_V/app/deps.py:39-60 | on a cache miss it succeeds exactly when the database has the user, and returns that user |
| Access.CacheHitSkipsDb | lab1_Yason_V/app/deps.py:39-51 | on a cache hit the answer does not depend on the database |
| Access.CachedAgreesWithDb | lab1_Yason_V/app/deps.py:39-60 | a fresh snapshot gives the database's user minus the hash, and a stale snapshot wins over the database |
| Access.CachedCurrentUser | lab1_Yason_V/app/deps.py:18-60 | a refused claim is the 401; on a cache miss it succeeds exactly when the database has the claimed user and returns that user; a user from the cache has no password hash |
| Access.GetCurrentUser | lab1_Yason_V/app/deps.py:18-60 | returns the cache-first lookup; writes the user's snapshot only on a miss that finds the user, and no session or news entry changes |
| Access.RequireAdmin | lab1_Yason_V/app/deps.py:62-68 | 403 exactly when the user is not an admin |
| Access.RequireAuthorOrAdmin | lab1_Yason_V/app/deps.py:70-76 | 403 exactly when the user is neither author nor admin |
| Access.CheckNewsPermission | lab1_Yason_V/app/deps.py:79-93 | 404 for missing news, then success exactly for the author or an admin, otherwise 403 |
| Access.CheckCommentPermission | lab1_Yason_V/app/deps.py:96-110 | 404 for a missing comment, then success exactly for the author or an admin, otherwise 403 |
| Access.NotFoundBeforeForbidden | lav1_Yanson_V_3346/lab1_Yason_V/app/deps.py:60-91 | a missing resource gives the same 404 whoever asks |
| Access.HandlersStricterThanDependencies | lab1_Yason_V/app/api/news.py:11-41 | whatever the handlers allow the dependencies allow too, but an admin who is not the author passes the dependencies and fails the handlers |
| Content.CreateNewsCheck | lab1_Yason_V/app/api/news.py:11-12 | creating news succeeds exactly for an author; otherwise 403 |
| Content.ContentStore.CreateNews | lab1_Yason_V/app/api/news.py:9-17 | a non-author gets 403 and nothing is stored; otherwise the news is stored with a fresh id and the caller as author |
| Content.ContentStore.GetNews | lab1_Yason_V/app/crud.py:26-27 | the item stored under that id, or nothing exactly when there is none |
| Content.ContentStore.GetComment | lab1_Yason_V/app/crud.py:49-50 | the comment stored under that id, or nothing exactly when there is none |
| Content.ContentStore.ReadNews | lab1_Yason_V/app/api/news.py:19-24 | the stored news item, or 404 when there is none |
| Content.NewsWriteCheck | lab1_Yason_V/app/api/news.py:28-32 | 404 for missing news first, then success exactly for the author, otherwise 403 |
| Content.ContentStore.UpdateNews | lab1_Yason_V/app/api/news.py:26-33 | refused as `NewsWriteCheck` says with nothing changed; as `NewsPatchCommits` says, a patch naming a relationship, leaving a NOT NULL column NULL or moving the item to another item's id fails the commit with a 500 and changes nothing; otherwise the item becomes the patch applied to it, stored under its possibly new id |
| Content.PatchNews | lab1_Yason_V/app/crud.py:29-35 | every column the patch names holds the last value given for it, the id included, and every column it does not name keeps its value |
| Content.SetNewsAttr | lab1_Yason_V/app/crud.py:30-31 | the named column takes a value of its kind, the primary key included, `content` takes any value, and every other column keeps its value |
| Content.PatchCanReassignNews | lab1_Yason_V/app/crud.py:29-35 | a patch may hand the news item to another author |
| Content.ContentStore.DeleteNews | lab1_Yason_V/app/api/news.py:35-43 | refused as `NewsWriteCheck` says; otherwise the item and its comments go and the answer is ok |
| Content.CommentCreateCheck | lab1_Yason_V/app/api/comments.py:11-16 | 403 for an author-id mismatch before 404 for missing news; success exactly when neither applies |
| Content.ContentStore.CreateComment | lab1_Yason_V/app/api/comments.py:9-17 | refused as `CommentCreateCheck` says; otherwise the comment is stored with the given fields and a fresh id |
| Content.CommentWriteCheck | lab1_Yason_V/app/api/comments.py:21-25 | 404 for a missing comment first, then success exactly for the author, otherwise 403 |
| Content.ContentStore.UpdateComment | lab1_Yason_V/app/api/comments.py:19-26 | refused as `CommentWriteCheck` says; as `CommentPatchCommits` says, a patch naming a relationship, leaving a NOT NULL column NULL or moving the comment to another comment's id fails the commit with a 500 and changes nothing; otherwise the comment becomes the patch applied to it, stored under its possibly new id |
| Content.PatchComment | lab1_Yason_V/app/crud.py:52-58 | every column the patch names holds the last value given for it, the id included, and every column it does not name keeps its value |
| Content.SetCommentAttr | lab1_Yason_V/app/crud.py:53-54 | the named column takes a value of its kind, the primary key included, and every other column keeps its value |
| Content.PatchCanReassignComment | lab1_Yason_V/app/crud.py:52-58 | a patch may move a comment under another news item and hand it to another author |
| Content.ContentStore.DeleteComment | lab1_Yason_V/app/api/comments.py:28-36 | refused as `CommentWriteCheck` says; otherwise the comment goes and the answer is ok |
| Content.AdminGetsNoExemption | lab1_Yason_V/app/api/news.py:11-41 | being an admin changes no handler decision |
| Gateway.Authenticate | lab1_Yason_V/app/api/auth_router.py:44-55 | succeeds only with the first user holding that email and a hash the password verifies; every failure is the same 401 |
| Gateway.LoginErrorIsUniform | lab1_Yason_V/app/api/auth_router.py:44-55 | no such user and no password hash both give the same 401, and success holds exactly when the user, the hash and the password check are all there |
| Gateway.RegisteredPasswordLogsIn | lab1_Yason_V/app/api/auth_router.py:44-55 | an account logs in with the password it was registered with and with no other |
| Gateway.OAuthName | lab1_Yason_V/app/api/auth_router.py:172 | the display name when there is one, else the email up to its first '@', and nothing when there is neither |
| Gateway.Row | lab1_Yason_V/app/api/auth_router.py:143-148 | a listing row carries its position as id and expires 7 days after it was created |
| Gateway.Listing | lab1_Yason_V/app/api/auth_router.py:137-150 | at most one row per listed token, with ids between 1 and the list length, strictly increasing |
| Gateway.ListingRowsShowSessions | lab1_Yason_V/app/api/auth_router.py:140-148 | each row shows the session of the token at its position |
| Gateway.ListingCoversSessions | lab1_Yason_V/app/api/auth_router.py:140-148 | a listed token has a row exactly when its session is still there, so ids have gaps where sessions are gone |
| Gateway.InsertKeepsConsistent | lab1_Yason_V/app/api/auth_router.py:33-34 | storing a well-formed session for a never-issued token and listing it under its owner keeps every session listed under its owner, every list entry with a session owned by that list's user, and every token issued |
| Gateway.RemoveKeepsConsistent | lab1_Yason_V/app/api/auth_router.py:96-97 | deleting a token's session and taking the token off its owner's list keeps the same three facts and keeps every document well formed |
| Gateway.DeleteAllKeepsConsistent | lab1_Yason_V/app/cache_service.py:117-125 | deleting a user's listed sessions and the list keeps the same facts, leaves no session owned by that user, and keeps every other user's sessions |
| Gateway.AuthRouter.InsertSession | lab1_Yason_V/app/api/auth_router.py:33-34 | the fresh token gets the document with `cached_at`, joins exactly its owner's list, and no other session or list changes |
| Gateway.AuthRouter.StartSession | lab1_Yason_V/app/api/auth_router.py:22-34 | issues a never-used refresh token, stores its session for the user, adds it to the user's list and touches nothing else |
| Gateway.AuthRouter.Register | lab1_Yason_V/app/api/auth_router.py:11-40 | 422 for an invalid body and 400 for a taken email, with nothing created; otherwise a user with the password's hash and a session owned by and listed under that user, with every other session, every other list and the news and user caches unchanged |
| Gateway.AuthRouter.Login | lab1_Yason_V/app/api/auth_router.py:42-75 | the same 401 on any failure, with nothing changed; otherwise a session owned by and listed under the authenticated user, with every other session, every other list and the news and user caches unchanged |
| Gateway.AuthRouter.Refresh | lab1_Yason_V/app/api/auth_router.py:77-114 | 401 for a token that is not a live refresh token or has no session, with nothing changed; otherwise the old token loses its session and its list entry, a new token owned by the same user takes both, and every other session, list entry and list is kept |
| Gateway.RefreshClaimOk | lab1_Yason_V/app/api/auth_router.py:79-80 | a token passes the first check only when it parses as a refresh token whose `exp` has not passed |
| Gateway.AuthRouter.EndSession | lab1_Yason_V/app/api/auth_router.py:96-97 | the token's session and its entry in the owner's list go; nothing else changes |
| Gateway.AuthRouter.Logout | lab1_Yason_V/app/api/auth_router.py:116-122 | always the success message; the token has no session afterwards, and a token without one changes nothing |
| Gateway.AuthRouter.LogoutAll | lab1_Yason_V/app/api/auth_router.py:124-130 | every listed session of the caller goes, the list is empty, no session of the caller is left, and other users keep theirs; the news cache is unchanged, and the user cache changes only by the caller's snapshot, written on a miss that finds the caller |
| Gateway.AuthRouter.EndAllSessions | lab1_Yason_V/app/api/auth_router.py:129 | every listed session of the user goes, the list is empty, no session of the user is left, and every other user's sessions and lists stay |
| Gateway.AuthRouter.ListSessions | lab1_Yason_V/app/api/auth_router.py:132-150 | the answer is `Listing` of the caller's token list; sessions and lists are unchanged, the news cache too, and the user cache changes only by the caller's snapshot, written on a miss that finds the caller |
| Gateway.AuthRouter.ListRows | lab1_Yason_V/app/api/auth_router.py:140-148 | the loop builds exactly `Listing` of the tokens |
| Gateway.AuthRouter.GitHubCallback | lab1_Yason_V/app/api/auth_router.py:157-196 | 401 when GitHub reports no identity; a 500 with nothing changed when a first-use account has no email or a taken one; otherwise a session for the account bound to the GitHub id, created with no password on first use, with every other session and list unchanged |
| Gateway.RefreshIsSingleUse | lab1_Yason_V/app/api/auth_router.py:86-97 | a refresh token that was exchanged once is refused with 401 the second time |
| Gateway.LogoutIsIdempotent | lab1_Yason_V/app/api/auth_router.py:116-122 | logging out twice answers the same, and the cache's sessions and lists after the second call are those after the first |
| Gateway.LogoutAllRevokesRefresh | lab1_Yason_V/app/api/auth_router.py:124-130 | after logging out everywhere, the caller's refresh tokens are refused |
| Gateway.StartSessionAsWritten | lab1_Yason_V/app/api/auth_router.py:22-34 | the shipped session minting, with the refresh token of `create_refresh_token()` |
| Gateway.SameSecondLoginsShareSession | lab1_Yason_V/app/api/auth_router.py:57-69 | as written, two users logging in the same second share one refresh token, and it refreshes into the second user's access token |

## Left out

- Redis itself: connection failures that `redis_client.py` turns into `None` or `False`, and TTL eviction. The cache never fails and never forgets.
- JWT signatures and secrets: every well-formed token text decodes. Forged tokens are not modelled.
- argon2 salts: `Codec.Hash` is an injective tag, so equal passwords give equal hashes.
- `EmailStr` validation: emails are plain strings.
- Datetimes: times are whole seconds; ISO formatting and parsing are not modelled.
- Concurrency: handlers run one at a time, so races between refreshes are not modelled.
- The background notification tasks, Celery and their scheduling: I/O.
- `github_login`: it only redirects to GitHub.
- `get_db`, `HTTPBearer`, FastAPI routing and `main.py`. In the first copy `main.py` does not mount the auth router; the model treats it as mounted.
- `app/api/users.py` and the first copy's user functions in `crud.py`: thin pass-throughs covered by `Store`.
- The ORM models: only record shapes, the NOT NULL and unique constraints of `models.py` and the news-to-comments cascade are used. The second copy's `models.py` is not part of this model; its user table is taken to have the first copy's constraints on `name` and `email`.
- Store.SetAttr, Content.SetNewsAttr and Content.SetCommentAttr: a value of a kind its column does not hold (a number for `title`, text for `author_id`) is not written, and NULL into a nullable typed column (`published_at`, `is_author`, `is_admin`) is ignored. What SQLAlchemy makes of these depends on the database engine, which is not part of this model.
- Content.PatchNews: a key naming a relationship (`author`, `comments`) is not applied to the record, and `Content.ContentStore.UpdateNews` answers such a patch with a 500 and stores nothing. In the source a value that is not an ORM object raises at `setattr`, also storing nothing. But NULL into `author` detaches the item: at flush either its NOT NULL `author_id` is refused, or the author's delete-orphan cascade deletes the item and its comments before `db.refresh` fails. The model does not capture that deletion. An empty list for `comments` cannot be written as a model value; in the source it orphans and deletes the item's comments.
- Content.PatchComment: the same holds for `news` and `author`; NULL into either can delete the comment through the parent's delete-orphan cascade, which `Content.ContentStore.UpdateComment` does not capture.
- Store.SetAttr, Content.SetNewsAttr and Content.SetCommentAttr: a relationship name leaves the record unchanged; the refusal is in `Store.UserPatchCommits`, `Content.NewsPatchCommits` and `Content.CommentPatchCommits`. The user relationships `news` and `comments` are the first copy's.
- Content.ContentStore.UpdateNews and Content.ContentStore.UpdateComment: a NULL written to a relationship (`author` of a news item, `news` or `author` of a comment) is answered with a 500 and nothing changed, but in the source the parent's delete-orphan cascade can delete the row (and a news item's comments) first; that deletion is not modelled. Foreign keys are not checked. A rewritten news id leaves its comments' `news_id` as it was, and a comment may be moved under a news id or author id that does not exist; both depend on the engine's foreign-key enforcement.
- Store.Database.UpdateUser, Content.ContentStore.UpdateNews and Content.ContentStore.UpdateComment: a rewritten id at or above the next id moves the next id past it, as an autoincrementing key does; other sequence behaviour is not modelled.
- Each patch is a sequence of key/value pairs and the last value for a key wins; a request body is a dict, whose keys are distinct.
- Gateway.AuthRouter.Refresh and Gateway.AuthRouter.Logout: a session document without a `user_id` would raise `KeyError` (a 500). Every stored document has one, as `Gateway.SessionsConsistent` keeps, so that path is proved unreachable rather than modelled.
- Access.UserFromSnapshot: a malformed cached snapshot gives a 500 in the model. The source differs: a missing field raises `KeyError` at its subscript (deps.py:43-49), also a 500, but a field of the wrong kind raises nothing and the source returns a user holding that value. Every snapshot `set_user` writes is well formed (`Access.SnapshotRoundTrip`).
- Access.GetCurrentUser: the new cached snapshot is used only by later requests. Its `registered_at` field is not modelled.

## Findings

| source | as written | input that shows it | evidently intended | confidence | as-written member | corrected member |
|---|---|---|---|---|---|---|
| lab1_Yason_V/app/auth.py:48-52 | the refresh token's claims are only `type` and `exp`, so it is a function of the issuing second | two users log in within the same second: both get the same token, the second login overwrites the session, and the first user's refresh yields the second user's access token | every refresh token is distinct, for example by a unique `jti` claim | high, not executed | Gateway.SameSecondLoginsShareSession | Gateway.AuthRouter.StartSession |
| lav1_Yanson_V_3346/lab1_Yason_V/app/crud.py:47-49 | `update_user` hashes a "password" value but writes it to an attribute named `password`, while the column is `hashed_password` | `update_user(db, id, {"password": "newpass"})`: the stored hash is unchanged and "newpass" does not log in | the new hash goes to `hashed_password` | medium (the second copy's `models.py` is not part of this model), not executed | Store.PasswordPatchLostAsWritten | Store.PasswordPatchTakesEffect |
