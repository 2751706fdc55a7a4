/** The access dependencies of the two `app/deps.py` copies: the bearer-claim
    checks, the user lookup (straight to the database in one copy, cache
    first in the other), the role checks and the news and comment
    permission checks. Everything but the cache-first lookup, which writes a
    snapshot on a miss, is a pure decision. */
module Access {
  import opened Common
  import Codec
  import Store
  import Cache
  import Content

  const CredentialsDetail := "Could not validate credentials"
  const NotEnoughPermissions := "Not enough permissions"
  const AuthorOrAdminDetail := "User is not verified as author"

  const CredentialsError := HttpError(Unauthorized, CredentialsDetail)

  /** The claim checks of `get_current_user`: a token that decodes, is of
      type "access" and carries a `user_id`; 401 otherwise. */
  function AccessClaim(token: string, now: int): (r: Result<int>)
    ensures r.Ok? <==> && Codec.Decode(token, now).Some?
                       && Codec.Decode(token, now).value.typ == Codec.AccessType
                       && Codec.Decode(token, now).value.userId.Some?
    ensures r.Ok? ==> r.value == Codec.Decode(token, now).value.userId.value
    ensures r.Err? ==> r.error == CredentialsError
  {
    match Codec.Decode(token, now)
    case None => Err(CredentialsError)
    case Some(c) =>
      if c.typ != Codec.AccessType then Err(CredentialsError)
      else match c.userId
        case None => Err(CredentialsError)
        case Some(uid) => Ok(uid)
  }

  /** An access token is accepted for its lifetime and names its user; after
      that, and for any refresh token, the claim check fails. */
  lemma AccessClaimOfIssued(userId: int, issuedAt: int, at: int, jti: nat)
    ensures AccessClaim(Codec.IssueAccess(userId, issuedAt), at)
            == if at <= issuedAt + Codec.AccessTokenLifetime then Ok(userId) else Err(CredentialsError)
    ensures AccessClaim(Codec.IssueRefresh(issuedAt, jti), at).Err?
  {
    Codec.DecodeEncode(Codec.Claims(Codec.AccessType, Some(userId), issuedAt + Codec.AccessTokenLifetime, None), at);
    Codec.TokenKindsDiffer(userId, issuedAt, jti, at);
  }

  /** `get_current_user` of the uncached copy: the claimed user from the
      database, or 401 when there is none. */
  function CurrentUserFromDb(users: seq<Store.User>, token: string, now: int): (r: Result<Store.User>)
    ensures r.Ok? <==> AccessClaim(token, now).Ok? && Store.GetUser(users, AccessClaim(token, now).value).Some?
    ensures r.Ok? ==> r.value in users && r.value.id == AccessClaim(token, now).value
    ensures r.Err? ==> r.error == CredentialsError
  {
    match AccessClaim(token, now)
    case Err(e) => Err(e)
    case Ok(uid) =>
      match Store.GetUser(users, uid)
      case None => Err(CredentialsError)
      case Some(u) => Ok(u)
  }

  /** A stored scalar read back as an optional string. */
  function TextOrNone(v: Value): Option<string>
  {
    if v.Text? then Some(v.s) else None
  }

  /** The user `get_current_user` builds from a cached snapshot: every public
      field, and no password hash. `None` when a field is missing or of the
      wrong kind (the handler would fail with an error then). */
  function UserFromSnapshot(m: map<string, Value>): (r: Option<Store.User>)
    ensures r.Some? ==> r.value.hashedPassword.None? && "id" in m && m["id"] == Num(r.value.id)
  {
    if && "id" in m && m["id"].Num? && "name" in m && m["name"].Text? && "email" in m && m["email"].Text?
       && "is_author" in m && m["is_author"].Flag? && "is_admin" in m && m["is_admin"].Flag?
       && "avatar" in m && "github_id" in m
    then Some(Store.User(m["id"].n, m["name"].s, m["email"].s, None, m["is_author"].b, m["is_admin"].b,
                         TextOrNone(m["avatar"]), TextOrNone(m["github_id"])))
    else None
  }

  /** Round trip: a snapshot `set_user` wrote reads back as the same user,
      without the hash the snapshot never held. */
  lemma SnapshotRoundTrip(u: Store.User, now: int)
    ensures UserFromSnapshot(Cache.UserSnapshot(u, now)) == Some(u.(hashedPassword := None))
  {
  }

  /** The lookup after the claim checks, cache first: a cached snapshot wins
      and the database is not consulted; on a miss the database decides. */
  function ResolveUser(snapshot: Option<map<string, Value>>, users: seq<Store.User>, userId: int): (r: Result<Store.User>)
    ensures !Cache.Found(snapshot) ==> (r.Ok? <==> Store.GetUser(users, userId).Some?)
    ensures !Cache.Found(snapshot) && r.Ok? ==> Store.GetUser(users, userId) == Some(r.value)
    ensures r.Err? ==> r.error == CredentialsError || r.error.status == InternalError
  {
    if Cache.Found(snapshot) then
      match UserFromSnapshot(snapshot.value)
      case None => Err(HttpError(InternalError, "malformed cached user"))
      case Some(u) => Ok(u)
    else
      match Store.GetUser(users, userId)
      case None => Err(CredentialsError)
      case Some(u) => Ok(u)
  }

  /** `get_current_user` of the cached copy, as a function of the cache and
      the database before the call. */
  function CachedCurrentUser(cache: Cache.CacheService, users: seq<Store.User>, token: string, now: int): (r: Result<Store.User>)
    reads cache`users
    ensures AccessClaim(token, now).Err? ==> r == Err(CredentialsError)
    ensures AccessClaim(token, now).Ok? && !Cache.Found(cache.GetUser(AccessClaim(token, now).value)) ==>
              (r.Ok? <==> Store.GetUser(users, AccessClaim(token, now).value).Some?)
              && (r.Ok? ==> Store.GetUser(users, AccessClaim(token, now).value) == Some(r.value))
    ensures AccessClaim(token, now).Ok? && Cache.Found(cache.GetUser(AccessClaim(token, now).value)) && r.Ok? ==>
              r.value.hashedPassword.None?
    ensures r.Err? ==> r.error == CredentialsError || r.error.status == InternalError
  {
    match AccessClaim(token, now)
    case Err(e) => Err(e)
    case Ok(uid) => ResolveUser(cache.GetUser(uid), users, uid)
  }

  /** On a hit the database plays no part: whatever it holds, even nothing,
      the cached user is returned. */
  lemma CacheHitSkipsDb(snapshot: Option<map<string, Value>>, a: seq<Store.User>, b: seq<Store.User>, userId: int)
    requires Cache.Found(snapshot)
    ensures ResolveUser(snapshot, a, userId) == ResolveUser(snapshot, b, userId)
  {
  }

  /** A cache that holds the database's row gives what the uncached copy
      gives, minus the hash; a stale snapshot is returned as it is, so a role
      revoked in the database stays in force until the entry goes. */
  lemma CachedAgreesWithDb(users: seq<Store.User>, token: string, now: int, u: Store.User, stale: Store.User, t: int)
    requires CurrentUserFromDb(users, token, now) == Ok(u)
    ensures ResolveUser(None, users, u.id) == Ok(u)
    ensures ResolveUser(Some(Cache.UserSnapshot(u, t)), users, u.id) == Ok(u.(hashedPassword := None))
    ensures ResolveUser(Some(Cache.UserSnapshot(stale, t)), users, u.id) == Ok(stale.(hashedPassword := None))
  {
    SnapshotRoundTrip(u, t);
    SnapshotRoundTrip(stale, t);
    assert Cache.UserSnapshot(u, t) != map[] by {
      assert Cache.CachedAt in Cache.UserSnapshot(u, t);
    }
    assert Cache.UserSnapshot(stale, t) != map[] by {
      assert Cache.CachedAt in Cache.UserSnapshot(stale, t);
    }
  }

  /** `get_current_user` of the cached copy. A snapshot is written only on a
      miss that finds the user; nothing else in the cache changes. */
  method GetCurrentUser(cache: Cache.CacheService, users: seq<Store.User>, token: string, now: int)
    returns (r: Result<Store.User>)
    requires cache.Valid()
    modifies cache
    ensures cache.Valid()
    ensures r == old(CachedCurrentUser(cache, users, token, now))
    ensures cache.sessions == old(cache.sessions) && cache.userSessions == old(cache.userSessions)
    ensures cache.news == old(cache.news)
    ensures AccessClaim(token, now).Err? || Cache.Found(old(cache.GetUser(AccessClaim(token, now).value))) || r.Err?
            ==> cache.users == old(cache.users)
    ensures AccessClaim(token, now).Ok? && !Cache.Found(old(cache.GetUser(AccessClaim(token, now).value))) && r.Ok?
            ==> cache.users == old(cache.users)[Cache.UserKey(r.value.id) := Cache.UserSnapshot(r.value, now)]
  {
    var claim := AccessClaim(token, now);
    if claim.Err? {
      return Err(claim.error);
    }
    var uid := claim.value;
    var cached := cache.GetUser(uid);
    if Cache.Found(cached) {
      var u := UserFromSnapshot(cached.value);
      if u.None? {
        return Err(HttpError(InternalError, "malformed cached user"));
      }
      return Ok(u.value);
    }
    var found := Store.GetUser(users, uid);
    if found.None? {
      return Err(CredentialsError);
    }
    var written := cache.SetUser(found.value, now);
    r := Ok(found.value);
  }

  // Role checks (identical in both copies)

  /** `get_current_admin_user`. */
  function RequireAdmin(user: Store.User): (r: Result<Store.User>)
    ensures r.Err? <==> !user.isAdmin
    ensures r.Err? ==> r.error == HttpError(Forbidden, NotEnoughPermissions)
    ensures r.Ok? ==> r.value == user
  {
    if !user.isAdmin then Err(HttpError(Forbidden, NotEnoughPermissions)) else Ok(user)
  }

  /** `get_current_author_or_admin_user`. */
  function RequireAuthorOrAdmin(user: Store.User): (r: Result<Store.User>)
    ensures r.Err? <==> !user.isAuthor && !user.isAdmin
    ensures r.Err? ==> r.error == HttpError(Forbidden, AuthorOrAdminDetail)
    ensures r.Ok? ==> r.value == user
  {
    if !user.isAuthor && !user.isAdmin then Err(HttpError(Forbidden, AuthorOrAdminDetail)) else Ok(user)
  }

  // Permission checks (identical in both copies)

  /** `check_news_permission`: 404 for a missing item before any ownership
      check; then 403 unless the caller is the author or an admin. */
  function CheckNewsPermission(n: Option<Content.News>, user: Store.User): (r: Result<Content.News>)
    ensures n.None? ==> r == Err(HttpError(NotFound, Content.NewsNotFoundDetail))
    ensures r.Ok? <==> n.Some? && (n.value.authorId == user.id || user.isAdmin)
    ensures r.Ok? ==> r.value == n.value
    ensures n.Some? && r.Err? ==> r.error == HttpError(Forbidden, NotEnoughPermissions)
  {
    match n
    case None => Err(HttpError(NotFound, Content.NewsNotFoundDetail))
    case Some(item) =>
      if item.authorId != user.id && !user.isAdmin then Err(HttpError(Forbidden, NotEnoughPermissions))
      else Ok(item)
  }

  /** `check_comment_permission`, on the same terms. */
  function CheckCommentPermission(c: Option<Content.Comment>, user: Store.User): (r: Result<Content.Comment>)
    ensures c.None? ==> r == Err(HttpError(NotFound, Content.CommentNotFoundDetail))
    ensures r.Ok? <==> c.Some? && (c.value.authorId == user.id || user.isAdmin)
    ensures r.Ok? ==> r.value == c.value
    ensures c.Some? && r.Err? ==> r.error == HttpError(Forbidden, NotEnoughPermissions)
  {
    match c
    case None => Err(HttpError(NotFound, Content.CommentNotFoundDetail))
    case Some(item) =>
      if item.authorId != user.id && !user.isAdmin then Err(HttpError(Forbidden, NotEnoughPermissions))
      else Ok(item)
  }

  /** The handlers' own checks are stricter than these dependencies: what a
      handler allows the dependency allows, and an admin who is not the
      author (or, for publishing, not an author) is allowed only by the
      dependency. */
  lemma HandlersStricterThanDependencies(user: Store.User, n: Option<Content.News>, c: Option<Content.Comment>, forbidden: string)
    ensures Content.NewsWriteCheck(n, user, forbidden).Ok? ==> CheckNewsPermission(n, user).Ok?
    ensures Content.CommentWriteCheck(c, user, forbidden).Ok? ==> CheckCommentPermission(c, user).Ok?
    ensures Content.CreateNewsCheck(user).Ok? ==> RequireAuthorOrAdmin(user).Ok?
    ensures user.isAdmin && n.Some? && n.value.authorId != user.id ==>
              CheckNewsPermission(n, user).Ok? && Content.NewsWriteCheck(n, user, forbidden).Err?
    ensures user.isAdmin && c.Some? && c.value.authorId != user.id ==>
              CheckCommentPermission(c, user).Ok? && Content.CommentWriteCheck(c, user, forbidden).Err?
    ensures user.isAdmin && !user.isAuthor ==> RequireAuthorOrAdmin(user).Ok? && Content.CreateNewsCheck(user).Err?
  {
  }

  /** In both permission checks a missing item is a 404 whoever asks. */
  lemma NotFoundBeforeForbidden(a: Store.User, b: Store.User)
    ensures CheckNewsPermission(None, a) == CheckNewsPermission(None, b)
    ensures CheckCommentPermission(None, a) == CheckCommentPermission(None, b)
    ensures CheckNewsPermission(None, a).error.status == NotFound
  {
  }
}
