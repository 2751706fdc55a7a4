/** The identity gateway of `app/api/auth_router.py`: register, login,
    refresh with rotation, logout, logout everywhere, the session listing and
    the GitHub callback. Users live in the database (`Store.Database`);
    refresh sessions live only in the cache, as a document per token and a
    list of tokens per user. A refresh token is accepted while its JWT has
    not expired and its session document is in the cache: no handler reads
    the session's own `expires_at`.

    Each handler reads the clock once (`now`, whole seconds). The refresh
    tokens issued here carry a fresh id (see the finding on
    `Codec.IssueRefreshAsWritten`); `StartSessionAsWritten` keeps the
    original behaviour for comparison. */
module Gateway {
  import opened Common
  import Text
  import Codec
  import Schemas
  import Store
  import Cache
  import Access

  const UnprocessableEntity := 422
  const EmailTakenDetail := "Email already registered"
  const BadCredentialsDetail := "Incorrect email or password"
  const InvalidRefreshDetail := "Invalid refresh token"
  const RefreshNotFoundDetail := "Refresh token not found"
  const AuthFailedDetail := "Authentication failed"
  const LoggedOutMessage := "Successfully logged out"
  const LoggedOutAllMessage := "Successfully logged out from all devices"

  const LoginError := HttpError(Unauthorized, BadCredentialsDetail)

  /** What GitHub reports about the account: its id, display name and email.
      The email is absent when the account keeps it private. */
  datatype GithubIdentity = GithubIdentity(id: string, displayName: Option<string>, email: Option<string>)

  // Login

  /** `login`'s checks: the first user with that email, holding a password
      hash that the given password verifies against. */
  function Authenticate(users: seq<Store.User>, email: string, password: string): (r: Result<Store.User>)
    ensures r.Ok? ==> Store.GetUserByEmail(users, email) == Some(r.value)
                      && r.value.hashedPassword.Some? && Codec.Verify(password, r.value.hashedPassword.value)
    ensures r.Err? ==> r.error == LoginError
  {
    match Store.GetUserByEmail(users, email)
    case None => Err(LoginError)
    case Some(u) =>
      if u.hashedPassword.None? || u.hashedPassword.value == "" then Err(LoginError)
      else if !Codec.Verify(password, u.hashedPassword.value) then Err(LoginError)
      else Ok(u)
  }

  /** The answer does not tell the causes apart: no such user, an account
      without a password (made through GitHub) and a wrong password all give
      the same 401, and only a verifying password succeeds. */
  lemma LoginErrorIsUniform(users: seq<Store.User>, email: string, password: string)
    ensures Store.GetUserByEmail(users, email).None? ==> Authenticate(users, email, password) == Err(LoginError)
    ensures Store.GetUserByEmail(users, email).Some? && Store.GetUserByEmail(users, email).value.hashedPassword.None?
            ==> Authenticate(users, email, password) == Err(LoginError)
    ensures Authenticate(users, email, password).Ok?
            <==> && Store.GetUserByEmail(users, email).Some?
                 && Store.GetUserByEmail(users, email).value.hashedPassword.Some?
                 && Codec.Verify(password, Store.GetUserByEmail(users, email).value.hashedPassword.value)
  {
  }

  /** The password an account was registered with logs in, and no other. */
  lemma RegisteredPasswordLogsIn(users: seq<Store.User>, email: string, password: string, attempt: string)
    requires Store.GetUserByEmail(users, email).Some?
    requires Store.GetUserByEmail(users, email).value.hashedPassword == Some(Codec.Hash(password))
    ensures Authenticate(users, email, attempt).Ok? <==> attempt == password
  {
    Codec.VerifyHash(attempt, password);
    LoginErrorIsUniform(users, email, attempt);
  }

  /** The name of a new GitHub account: the display name, or else the part
      of the email before the first '@'; `None` where `email.split` would be
      called on a missing email. */
  function OAuthName(info: GithubIdentity): (name: Option<string>)
    ensures info.displayName.Some? && info.displayName.value != "" ==> name == Some(info.displayName.value)
    ensures !(info.displayName.Some? && info.displayName.value != "") && info.email.None? ==> name.None?
    ensures !(info.displayName.Some? && info.displayName.value != "") && info.email.Some? ==>
              && name.Some?
              && name.value == Text.Split(info.email.value, '@')[0] && '@' !in name.value
              && |name.value| <= |info.email.value| && name.value == info.email.value[..|name.value|]
  {
    if info.displayName.Some? && info.displayName.value != "" then Some(info.displayName.value)
    else if info.email.None? then None
    else
      Text.BeforeFirstIsFirstPiece(info.email.value, '@');
      Some(Text.BeforeFirst(info.email.value, '@'))
  }

  /** The decoded refresh token passes `refresh_token`'s first check: it
      parses, is of the refresh kind, and is accepted only up to its `exp`. */
  predicate RefreshClaimOk(token: string, now: int): (ok: bool)
    ensures ok ==> Codec.ParseClaims(token).Some? && Codec.ParseClaims(token).value.typ == Codec.RefreshType
                   && now <= Codec.ParseClaims(token).value.exp
  {
    Codec.Decode(token, now).Some? && Codec.Decode(token, now).value.typ == Codec.RefreshType
  }

  // Session listing

  /** One row of `get_my_sessions`. */
  function Row(position: int, d: map<string, Value>): (row: Schemas.SessionRead)
    requires Cache.SessionWellFormed(d)
    ensures row.id == position
    ensures row.expiresAt == row.createdAt + Codec.RefreshTokenLifetime
  {
    Schemas.SessionRead(position, Access.TextOrNone(Lookup(d, "user_agent")), d["created_at"].n, d["expires_at"].n)
  }

  /** The listing for a list of tokens: a row for each token that still has
      a session, numbered by the token's 1-based position in the list. */
  function Listing(sessions: map<string, map<string, Value>>, tokens: seq<string>): (rows: seq<Schemas.SessionRead>)
    requires Cache.WellFormedSessions(sessions)
    ensures |rows| <= |tokens|
    ensures forall k :: 0 <= k < |rows| ==> 1 <= rows[k].id <= |tokens|
    ensures forall k, l :: 0 <= k < l < |rows| ==> rows[k].id < rows[l].id
  {
    if tokens == [] then []
    else
      var n := |tokens|;
      var here := Cache.SessionIn(sessions, tokens[n - 1]);
      Listing(sessions, tokens[..n - 1]) + (if Cache.Found(here) then [Row(n, here.value)] else [])
  }

  /** The row shows the session of the token at its position. */
  ghost predicate RowShows(sessions: map<string, map<string, Value>>, tokens: seq<string>, row: Schemas.SessionRead)
    requires Cache.WellFormedSessions(sessions)
  {
    && 1 <= row.id <= |tokens|
    && Cache.Found(Cache.SessionIn(sessions, tokens[row.id - 1]))
    && row == Row(row.id, Cache.SessionIn(sessions, tokens[row.id - 1]).value)
  }

  /** Each row shows the session of the token at its position. */
  lemma {:induction false} ListingRowsShowSessions(sessions: map<string, map<string, Value>>, tokens: seq<string>)
    requires Cache.WellFormedSessions(sessions)
    ensures forall k :: 0 <= k < |Listing(sessions, tokens)| ==> RowShows(sessions, tokens, Listing(sessions, tokens)[k])
  {
    if tokens != [] {
      var n := |tokens|;
      var pre := tokens[..n - 1];
      ListingRowsShowSessions(sessions, pre);
      var rows := Listing(sessions, tokens);
      var head := Listing(sessions, pre);
      forall k | 0 <= k < |rows|
        ensures RowShows(sessions, tokens, rows[k])
      {
        if k < |head| {
          assert rows[k] == head[k];
          assert RowShows(sessions, pre, head[k]);
          assert pre[head[k].id - 1] == tokens[head[k].id - 1];
        }
      }
    }
  }

  /** The ids of the rows, in order. */
  function Ids(rows: seq<Schemas.SessionRead>): seq<int>
  {
    if rows == [] then [] else Ids(rows[..|rows| - 1]) + [rows[|rows| - 1].id]
  }

  /** The id sequence lists each row's id at the row's place. */
  lemma {:induction false} IdsAt(rows: seq<Schemas.SessionRead>)
    ensures |Ids(rows)| == |rows| && forall k :: 0 <= k < |rows| ==> Ids(rows)[k] == rows[k].id
  {
    if rows != [] {
      var front := rows[..|rows| - 1];
      IdsAt(front);
      forall k | 0 <= k < |rows| - 1 ensures Ids(rows)[k] == rows[k].id {
        assert front[k] == rows[k];
      }
    }
  }

  /** Appending a row appends its id. */
  lemma IdsAppend(rows: seq<Schemas.SessionRead>, row: Schemas.SessionRead)
    ensures Ids(rows + [row]) == Ids(rows) + [row.id]
  {
    var r := rows + [row];
    assert r[..|r| - 1] == rows && r[|r| - 1] == row;
  }

  /** No row of a listing carries a position past the end of the list. */
  lemma ListingIdsBelow(sessions: map<string, map<string, Value>>, tokens: seq<string>)
    requires Cache.WellFormedSessions(sessions)
    ensures |tokens| + 1 !in Ids(Listing(sessions, tokens))
  {
    var rows := Listing(sessions, tokens);
    var ids := Ids(rows);
    IdsAt(rows);
    forall k | 0 <= k < |ids| ensures ids[k] != |tokens| + 1 {
      assert ids[k] == rows[k].id;
    }
  }

  /** Listing one more token whose session is there adds its position to
      the ids. */
  lemma ListingStepFound(sessions: map<string, map<string, Value>>, tokens: seq<string>)
    requires Cache.WellFormedSessions(sessions) && tokens != []
    requires Cache.Found(Cache.SessionIn(sessions, tokens[|tokens| - 1]))
    ensures Ids(Listing(sessions, tokens)) == Ids(Listing(sessions, tokens[..|tokens| - 1])) + [|tokens|]
  {
    var n := |tokens|;
    var head := Listing(sessions, tokens[..n - 1]);
    var row := Row(n, Cache.SessionIn(sessions, tokens[n - 1]).value);
    assert Listing(sessions, tokens) == head + [row];
    IdsAppend(head, row);
  }

  /** Listing one more token whose session is gone adds nothing. */
  lemma ListingStepMissing(sessions: map<string, map<string, Value>>, tokens: seq<string>)
    requires Cache.WellFormedSessions(sessions) && tokens != []
    requires !Cache.Found(Cache.SessionIn(sessions, tokens[|tokens| - 1]))
    ensures Listing(sessions, tokens) == Listing(sessions, tokens[..|tokens| - 1])
  {
    assert Listing(sessions, tokens) == Listing(sessions, tokens[..|tokens| - 1]) + [];
  }

  /** A listed token has a row exactly when its session is still there, so
      the ids have gaps where sessions are gone. */
  lemma {:induction false} ListingCoversSessions(sessions: map<string, map<string, Value>>, tokens: seq<string>)
    requires Cache.WellFormedSessions(sessions)
    ensures forall i :: 0 <= i < |tokens| ==>
              (Cache.Found(Cache.SessionIn(sessions, tokens[i])) <==> i + 1 in Ids(Listing(sessions, tokens)))
  {
    if tokens != [] {
      var n := |tokens|;
      var pre := tokens[..n - 1];
      ListingCoversSessions(sessions, pre);
      ListingIdsBelow(sessions, pre);
      var found := Cache.Found(Cache.SessionIn(sessions, tokens[n - 1]));
      if found {
        ListingStepFound(sessions, tokens);
      } else {
        ListingStepMissing(sessions, tokens);
      }
      var ids := Ids(Listing(sessions, tokens));
      var earlier := Ids(Listing(sessions, pre));
      assert ids == earlier + (if found then [n] else []);
      forall i | 0 <= i < n
        ensures Cache.Found(Cache.SessionIn(sessions, tokens[i])) <==> i + 1 in ids
      {
        if i < n - 1 {
          assert pre[i] == tokens[i];
          assert Cache.Found(Cache.SessionIn(sessions, pre[i])) <==> i + 1 in earlier;
        }
      }
    }
  }

  /** A token that has a session is listed under its owner. */
  ghost predicate SessionsListed(s: map<string, map<string, Value>>, l: map<string, seq<string>>)
  {
    forall t :: Cache.OwnerIn(s, t).Some? ==> t in Cache.ListIn(l, Cache.OwnerIn(s, t).value)
  }

  /** A listed token that has a session is listed under its owner only. */
  ghost predicate ListsOwned(s: map<string, map<string, Value>>, l: map<string, seq<string>>)
  {
    forall u, t :: t in Cache.ListIn(l, u) && Cache.OwnerIn(s, t).Some? ==> Cache.OwnerIn(s, t) == Some(u)
  }

  /** Every token in the cache was issued with an id below `issued`. */
  ghost predicate TokensIssued(s: map<string, map<string, Value>>, l: map<string, seq<string>>, issued: int)
  {
    && (forall t :: Cache.SessionIn(s, t).Some? ==> Codec.JtiOf(t).Some? && Codec.JtiOf(t).value < issued)
    && (forall u, t :: t in Cache.ListIn(l, u) ==> Codec.JtiOf(t).Some? && Codec.JtiOf(t).value < issued)
  }

  /** What the handlers keep true of the session keyspace and the lists. */
  ghost predicate SessionsConsistent(s: map<string, map<string, Value>>, l: map<string, seq<string>>, issued: int)
  {
    Cache.WellFormedSessions(s) && SessionsListed(s, l) && ListsOwned(s, l) && TokensIssued(s, l, issued)
  }

  /** Storing a well-formed session for a fresh token and listing the token
      under the session's owner keeps the keyspace consistent. */
  lemma InsertKeepsConsistent(s0: map<string, map<string, Value>>, l0: map<string, seq<string>>,
                              s1: map<string, map<string, Value>>, l1: map<string, seq<string>>,
                              issued: int, token: string, uid: int)
    requires SessionsConsistent(s0, l0, issued)
    requires Cache.SessionIn(s0, token).None? && forall u :: token !in Cache.ListIn(l0, u)
    requires Codec.JtiOf(token).Some? && Codec.JtiOf(token).value < issued
    requires Cache.SessionIn(s1, token).Some? && Cache.SessionWellFormed(Cache.SessionIn(s1, token).value)
    requires Cache.OwnerIn(s1, token) == Some(uid)
    requires forall x :: x != token ==> Cache.SessionIn(s1, x) == Cache.SessionIn(s0, x)
    requires forall x :: x in Cache.ListIn(l1, uid) <==> x in Cache.ListIn(l0, uid) || x == token
    requires forall u :: u != uid ==> Cache.ListIn(l1, u) == Cache.ListIn(l0, u)
    ensures SessionsConsistent(s1, l1, issued)
  {
    forall x | Cache.OwnerIn(s1, x).Some?
      ensures x in Cache.ListIn(l1, Cache.OwnerIn(s1, x).value)
    {
      if x != token {
        assert Cache.OwnerIn(s1, x) == Cache.OwnerIn(s0, x);
      }
    }
    forall u, x | x in Cache.ListIn(l1, u) && Cache.OwnerIn(s1, x).Some?
      ensures Cache.OwnerIn(s1, x) == Some(u)
    {
      if x != token {
        assert Cache.OwnerIn(s1, x) == Cache.OwnerIn(s0, x);
        assert x in Cache.ListIn(l0, u);
      }
    }
    forall u, x | x in Cache.ListIn(l1, u)
      ensures Codec.JtiOf(x).Some? && Codec.JtiOf(x).value < issued
    {
      if x != token {
        assert x in Cache.ListIn(l0, u);
      }
    }
  }

  /** Deleting the session of a token and taking the token off its owner's
      list keeps the keyspace consistent. */
  lemma RemoveKeepsConsistent(s0: map<string, map<string, Value>>, l0: map<string, seq<string>>,
                              s1: map<string, map<string, Value>>, l1: map<string, seq<string>>,
                              issued: int, token: string, uid: int)
    requires SessionsConsistent(s0, l0, issued)
    requires Cache.OwnerIn(s0, token) == Some(uid)
    requires Cache.SessionIn(s1, token).None? && token !in Cache.ListIn(l1, uid)
    requires forall x :: x != token ==> Cache.SessionIn(s1, x) == Cache.SessionIn(s0, x)
    requires forall x :: x != token ==> (x in Cache.ListIn(l1, uid) <==> x in Cache.ListIn(l0, uid))
    requires forall u :: u != uid ==> Cache.ListIn(l1, u) == Cache.ListIn(l0, u)
    ensures SessionsConsistent(s1, l1, issued)
  {
    forall x | Cache.OwnerIn(s1, x).Some?
      ensures x in Cache.ListIn(l1, Cache.OwnerIn(s1, x).value)
    {
      assert Cache.OwnerIn(s1, x) == Cache.OwnerIn(s0, x);
    }
    forall u, x | x in Cache.ListIn(l1, u) && Cache.OwnerIn(s1, x).Some?
      ensures Cache.OwnerIn(s1, x) == Some(u)
    {
      assert Cache.OwnerIn(s1, x) == Cache.OwnerIn(s0, x);
      assert x in Cache.ListIn(l0, u);
    }
    forall u, x | x in Cache.ListIn(l1, u)
      ensures Codec.JtiOf(x).Some? && Codec.JtiOf(x).value < issued
    {
      assert x in Cache.ListIn(l0, u);
    }
    forall x | Cache.SessionIn(s1, x).Some?
      ensures Cache.SessionWellFormed(Cache.SessionIn(s1, x).value)
    {
      assert Cache.SessionIn(s1, x) == Cache.SessionIn(s0, x);
    }
  }

  /** Deleting every listed session of a user and the list itself keeps the
      keyspace consistent and, because each session is listed under its
      owner, leaves no session of that user; every other user's session stays. */
  lemma DeleteAllKeepsConsistent(s0: map<string, map<string, Value>>, l0: map<string, seq<string>>,
                                 s1: map<string, map<string, Value>>, l1: map<string, seq<string>>,
                                 issued: int, uid: int)
    requires SessionsConsistent(s0, l0, issued)
    requires forall t :: Cache.SessionIn(s1, t) == if t in Cache.ListIn(l0, uid) then None else Cache.SessionIn(s0, t)
    requires Cache.ListIn(l1, uid) == []
    requires forall u :: u != uid ==> Cache.ListIn(l1, u) == Cache.ListIn(l0, u)
    ensures SessionsConsistent(s1, l1, issued)
    ensures forall t :: Cache.OwnerIn(s1, t) != Some(uid)
    ensures forall t :: Cache.OwnerIn(s0, t).Some? && Cache.OwnerIn(s0, t) != Some(uid) ==>
              Cache.SessionIn(s1, t) == Cache.SessionIn(s0, t)
  {
    ghost var listed := Cache.ListIn(l0, uid);
    forall t ensures Cache.OwnerIn(s1, t) != Some(uid) {
      if t !in listed {
        assert Cache.SessionIn(s1, t) == Cache.SessionIn(s0, t);
        assert Cache.OwnerIn(s0, t) != Some(uid);
      }
    }
    forall t | Cache.OwnerIn(s0, t).Some? && Cache.OwnerIn(s0, t) != Some(uid)
      ensures Cache.SessionIn(s1, t) == Cache.SessionIn(s0, t)
    {
      assert t !in listed;
    }
    forall x | Cache.OwnerIn(s1, x).Some?
      ensures x in Cache.ListIn(l1, Cache.OwnerIn(s1, x).value)
    {
      assert Cache.OwnerIn(s1, x) == Cache.OwnerIn(s0, x);
    }
    forall u, x | x in Cache.ListIn(l1, u) && Cache.OwnerIn(s1, x).Some?
      ensures Cache.OwnerIn(s1, x) == Some(u)
    {
      assert Cache.OwnerIn(s1, x) == Cache.OwnerIn(s0, x);
    }
    forall x | Cache.SessionIn(s1, x).Some?
      ensures Cache.SessionWellFormed(Cache.SessionIn(s1, x).value)
    {
      assert Cache.SessionIn(s1, x) == Cache.SessionIn(s0, x);
    }
  }

  class AuthRouter {
    const db: Store.Database
    const cache: Cache.CacheService
    /** The id the next refresh token carries. */
    var nextJti: nat

    ghost predicate Valid()
      reads this, db, cache
    {
      && db.Valid() && cache.Valid() && SessionsConsistent(cache.sessions, cache.userSessions, nextJti)
    }

    constructor ()
      ensures Valid() && fresh(db) && fresh(cache)
      ensures db.users == [] && cache.sessions == map[] && cache.userSessions == map[]
    {
      db := new Store.Database();
      cache := new Cache.CacheService();
      nextJti := 0;
    }

    /** A session document that is there is never empty. */
    lemma StoredSessionIsFound(t: string)
      requires cache.SessionsWellFormed()
      ensures Cache.Found(cache.GetSession(t)) <==> cache.GetSession(t).Some?
      ensures cache.GetSession(t).Some? ==> cache.SessionOwnerOf(t).Some?
    {
      if cache.GetSession(t).Some? {
        assert "user_id" in cache.GetSession(t).value;
      }
    }

    /** The session-minting tail of register, login, refresh and the GitHub
        callback: a new access token for the user, a refresh token never
        issued before, its session document, and the token on the user's list. */
    method StartSession(userId: int, userAgent: Option<string>, now: int) returns (t: Schemas.TokenPair)
      requires Valid()
      modifies this, cache
      ensures Valid()
      ensures t == Schemas.MakeToken(Codec.IssueAccess(userId, now), Codec.IssueRefresh(now, old(nextJti)))
      ensures Codec.JtiOf(t.refreshToken) == Some(old(nextJti) as int) && nextJti == old(nextJti) + 1
      ensures old(cache.GetSession(t.refreshToken)).None?
      ensures forall u :: t.refreshToken !in old(cache.GetUserSessions(u))
      ensures cache.GetSession(t.refreshToken) == Some(Cache.SessionData(userId, userAgent, now)[Cache.CachedAt := Num(now)])
      ensures cache.SessionOwnerOf(t.refreshToken) == Some(userId)
      ensures forall x :: x != t.refreshToken ==> cache.GetSession(x) == old(cache.GetSession(x))
      ensures forall x :: x in cache.GetUserSessions(userId) <==> x in old(cache.GetUserSessions(userId)) || x == t.refreshToken
      ensures forall u :: u != userId ==> cache.GetUserSessions(u) == old(cache.GetUserSessions(u))
      ensures cache.users == old(cache.users) && cache.news == old(cache.news)
    {
      var access := Codec.IssueAccess(userId, now);
      var refresh := Codec.IssueRefresh(now, nextJti);
      assert cache.GetSession(refresh).None?;
      assert forall u :: refresh !in cache.GetUserSessions(u);
      nextJti := nextJti + 1;
      var data := Cache.SessionData(userId, userAgent, now);
      Cache.CachedAtKeepsSession(data, now);
      InsertSession(refresh, userId, data, now);
      t := Schemas.MakeToken(access, refresh);
    }

    /** Stores the session document of a fresh token and lists the token
        under the document's owner: `set_session` then `add_user_session`. */
    method InsertSession(token: string, userId: int, data: map<string, Value>, now: int)
      requires Valid()
      requires cache.GetSession(token).None? && forall u :: token !in cache.GetUserSessions(u)
      requires Codec.JtiOf(token).Some? && Codec.JtiOf(token).value < nextJti
      requires Cache.SessionWellFormed(data[Cache.CachedAt := Num(now)])
      requires Cache.SessionOwner(data[Cache.CachedAt := Num(now)]) == Some(userId)
      modifies cache
      ensures Valid()
      ensures cache.GetSession(token) == Some(data[Cache.CachedAt := Num(now)])
      ensures forall x :: x != token ==> cache.GetSession(x) == old(cache.GetSession(x))
      ensures forall x :: x in cache.GetUserSessions(userId) <==> x in old(cache.GetUserSessions(userId)) || x == token
      ensures forall u :: u != userId ==> cache.GetUserSessions(u) == old(cache.GetUserSessions(u))
      ensures cache.users == old(cache.users) && cache.news == old(cache.news)
    {
      forall u ensures token !in Cache.ListIn(cache.userSessions, u) {
        assert token !in cache.GetUserSessions(u);
      }
      var stored := cache.SetSession(token, data, now);
      var listed := cache.AddUserSession(userId, token);
      InsertKeepsConsistent(old(cache.sessions), old(cache.userSessions), cache.sessions, cache.userSessions,
                            nextJti, token, userId);
    }

    /** `register`: 422 for a body that fails validation, 400 for a taken
        email (no user, no session); otherwise a new user holding the
        password's hash, and a session for that user. */
    method Register(userIn: Schemas.UserCreate, userAgent: Option<string>, now: int) returns (r: Result<Schemas.TokenPair>)
      requires Valid()
      modifies this, db, cache
      ensures Valid()
      ensures !Schemas.ValidUserCreate(userIn) ==> r.Err? && r.error.status == UnprocessableEntity
      ensures Schemas.ValidUserCreate(userIn) && Store.GetUserByEmail(old(db.users), userIn.email).Some? ==>
                r == Err(HttpError(BadRequest, EmailTakenDetail))
      ensures r.Err? ==> unchanged(db) && unchanged(cache) && nextJti == old(nextJti)
      ensures r.Ok? <==> Schemas.ValidUserCreate(userIn) && Store.GetUserByEmail(old(db.users), userIn.email).None?
      ensures r.Ok? ==>
                var uid := old(db.nextUserId);
                && db.users == old(db.users) + [Store.User(uid, userIn.name, userIn.email, Some(Codec.Hash(userIn.password)),
                                                           false, false, None, None)]
                && cache.SessionOwnerOf(r.value.refreshToken) == Some(uid)
                && r.value.refreshToken in cache.GetUserSessions(uid)
                && Access.AccessClaim(r.value.accessToken, now) == Ok(uid)
                && r.value.tokenType == Schemas.DefaultTokenType
      ensures r.Ok? ==> forall x :: x != r.value.refreshToken ==> cache.GetSession(x) == old(cache.GetSession(x))
      ensures r.Ok? ==>
                var uid := old(db.nextUserId);
                && (forall u :: u != uid ==> cache.GetUserSessions(u) == old(cache.GetUserSessions(u)))
                && (forall x :: x in cache.GetUserSessions(uid) <==> x in old(cache.GetUserSessions(uid)) || x == r.value.refreshToken)
      ensures cache.users == old(cache.users) && cache.news == old(cache.news)
      ensures db.sessions == old(db.sessions)
    {
      var errors := Schemas.UserCreateErrors(userIn);
      if errors != [] {
        return Err(HttpError(UnprocessableEntity, errors[0]));
      }
      var existing := Store.GetUserByEmail(db.users, userIn.email);
      if existing.Some? {
        return Err(HttpError(BadRequest, EmailTakenDetail));
      }
      var created := db.CreateUser(userIn);
      var user := created.value;
      var pair := StartSession(user.id, userAgent, now);
      Access.AccessClaimOfIssued(user.id, now, now, 0);
      r := Ok(pair);
    }

    /** `login`: the same 401 whatever went wrong; otherwise a new session
        for the user the email names. */
    method Login(userIn: Schemas.UserLogin, userAgent: Option<string>, now: int) returns (r: Result<Schemas.TokenPair>)
      requires Valid()
      modifies this, cache
      ensures Valid()
      ensures r.Err? ==> r == Err(LoginError) && unchanged(cache) && nextJti == old(nextJti)
      ensures r.Ok? <==> Authenticate(db.users, userIn.email, userIn.password).Ok?
      ensures r.Ok? ==>
                var uid := Authenticate(db.users, userIn.email, userIn.password).value.id;
                && cache.SessionOwnerOf(r.value.refreshToken) == Some(uid)
                && r.value.refreshToken in cache.GetUserSessions(uid)
                && Access.AccessClaim(r.value.accessToken, now) == Ok(uid)
      ensures r.Ok? ==> forall x :: x != r.value.refreshToken ==> cache.GetSession(x) == old(cache.GetSession(x))
      ensures r.Ok? ==> forall u :: u != Authenticate(db.users, userIn.email, userIn.password).value.id ==> cache.GetUserSessions(u) == old(cache.GetUserSessions(u))
      ensures r.Ok? ==> forall x :: x in cache.GetUserSessions(Authenticate(db.users, userIn.email, userIn.password).value.id) <==> x in old(cache.GetUserSessions(Authenticate(db.users, userIn.email, userIn.password).value.id)) || x == r.value.refreshToken
      ensures cache.users == old(cache.users) && cache.news == old(cache.news)
    {
      assert Schemas.UserLoginErrors(userIn) == [];
      var user := Authenticate(db.users, userIn.email, userIn.password);
      if user.Err? {
        return Err(user.error);
      }
      var pair := StartSession(user.value.id, userAgent, now);
      Access.AccessClaimOfIssued(user.value.id, now, now, 0);
      r := Ok(pair);
    }

    /** `refresh_token`: 401 for a token that is not a live refresh token or
        has no session. Otherwise the rotation: the old token loses its
        session and its place in the owner's list, and a new token with a
        session for the same owner takes both. */
    method Refresh(token: string, userAgent: Option<string>, now: int) returns (r: Result<Schemas.TokenPair>)
      requires Valid()
      modifies this, cache
      ensures Valid()
      ensures !RefreshClaimOk(token, now) ==> r == Err(HttpError(Unauthorized, InvalidRefreshDetail))
      ensures RefreshClaimOk(token, now) && old(cache.GetSession(token)).None? ==>
                r == Err(HttpError(Unauthorized, RefreshNotFoundDetail))
      ensures r.Err? ==> unchanged(cache) && nextJti == old(nextJti)
      ensures r.Ok? <==> RefreshClaimOk(token, now) && old(cache.GetSession(token)).Some?
      ensures r.Ok? ==> old(cache.SessionOwnerOf(token)).Some?
      ensures r.Ok? && old(cache.SessionOwnerOf(token)).Some? ==>
                var uid := old(cache.SessionOwnerOf(token)).value;
                && cache.GetSession(token).None?
                && token !in cache.GetUserSessions(uid)
                && r.value.refreshToken != token
                && cache.SessionOwnerOf(r.value.refreshToken) == Some(uid)
                && r.value.refreshToken in cache.GetUserSessions(uid)
                && Access.AccessClaim(r.value.accessToken, now) == Ok(uid)
      ensures r.Ok? ==> forall x :: x != token && x != r.value.refreshToken ==> cache.GetSession(x) == old(cache.GetSession(x))
      ensures r.Ok? && old(cache.SessionOwnerOf(token)).Some? ==>
                var uid := old(cache.SessionOwnerOf(token)).value;
                && (forall u :: u != uid ==> cache.GetUserSessions(u) == old(cache.GetUserSessions(u)))
                && (forall x :: x != token && x != r.value.refreshToken ==>
                      (x in cache.GetUserSessions(uid) <==> x in old(cache.GetUserSessions(uid))))
      ensures cache.users == old(cache.users) && cache.news == old(cache.news)
    {
      if !RefreshClaimOk(token, now) {
        return Err(HttpError(Unauthorized, InvalidRefreshDetail));
      }
      var session := cache.GetSession(token);
      StoredSessionIsFound(token);
      if !Cache.Found(session) {
        return Err(HttpError(Unauthorized, RefreshNotFoundDetail));
      }
      var uid := EndSession(token);
      var pair := StartSession(uid, userAgent, now);
      Access.AccessClaimOfIssued(uid, now, now, 0);
      r := Ok(pair);
    }

    /** The revocation step of `refresh_token` and `logout`: the session
        document goes and the token leaves its owner's list. The owner is
        read from the document; every stored document names one, so the
        lookup of `user_id` cannot fail. */
    method EndSession(token: string) returns (uid: int)
      requires Valid() && cache.GetSession(token).Some?
      modifies cache
      ensures Valid()
      ensures old(cache.SessionOwnerOf(token)) == Some(uid)
      ensures cache.GetSession(token).None? && token !in cache.GetUserSessions(uid)
      ensures forall x :: x != token ==> cache.GetSession(x) == old(cache.GetSession(x))
      ensures forall x :: x != token ==> (x in cache.GetUserSessions(uid) <==> x in old(cache.GetUserSessions(uid)))
      ensures forall u :: u != uid ==> cache.GetUserSessions(u) == old(cache.GetUserSessions(u))
      ensures cache.users == old(cache.users) && cache.news == old(cache.news)
    {
      var session := cache.GetSession(token);
      var deleted := cache.DeleteSession(token);
      uid := Cache.SessionOwner(session.value).value;
      var removed := cache.RemoveUserSession(uid, token);
      RemoveKeepsConsistent(old(cache.sessions), old(cache.userSessions), cache.sessions, cache.userSessions,
                            nextJti, token, uid);
    }

    /** `logout`: always the success message. A token with a session loses
        it and its place in the owner's list; any other call changes nothing. */
    method Logout(token: string) returns (r: Result<string>)
      requires Valid()
      modifies cache
      ensures Valid()
      ensures r == Ok(LoggedOutMessage)
      ensures old(cache.GetSession(token)).None? ==> unchanged(cache)
      ensures cache.GetSession(token).None?
      ensures old(cache.SessionOwnerOf(token)).Some? ==> token !in cache.GetUserSessions(old(cache.SessionOwnerOf(token)).value)
      ensures forall x :: x != token ==> cache.GetSession(x) == old(cache.GetSession(x))
      ensures forall u :: old(cache.SessionOwnerOf(token)) != Some(u) ==> cache.GetUserSessions(u) == old(cache.GetUserSessions(u))
      ensures cache.users == old(cache.users) && cache.news == old(cache.news)
    {
      var session := cache.GetSession(token);
      StoredSessionIsFound(token);
      if Cache.Found(session) {
        var uid := EndSession(token);
      }
      r := Ok(LoggedOutMessage);
    }

    /** `logout_all`: for the caller the access token names, every listed
        session is deleted and the list goes; since every session is listed
        under its owner, none of the caller's sessions is left, while other
        users' sessions and lists stay as they were. */
    method LogoutAll(accessToken: string, now: int) returns (r: Result<string>)
      requires Valid()
      modifies cache
      ensures Valid()
      ensures r.Err? ==> old(Access.CachedCurrentUser(cache, db.users, accessToken, now)) == Err(r.error)
                         && cache.sessions == old(cache.sessions) && cache.userSessions == old(cache.userSessions)
      ensures r.Ok? <==> old(Access.CachedCurrentUser(cache, db.users, accessToken, now)).Ok?
      ensures r.Ok? ==> r.value == LoggedOutAllMessage
      ensures r.Ok? ==>
                var uid := old(Access.CachedCurrentUser(cache, db.users, accessToken, now)).value.id;
                && (forall t :: t in old(cache.GetUserSessions(uid)) ==> cache.GetSession(t).None?)
                && cache.GetUserSessions(uid) == []
      ensures r.Ok? ==>
                var uid := old(Access.CachedCurrentUser(cache, db.users, accessToken, now)).value.id;
                forall t :: cache.SessionOwnerOf(t) != Some(uid)
      ensures r.Ok? ==>
                var uid := old(Access.CachedCurrentUser(cache, db.users, accessToken, now)).value.id;
                forall t :: old(cache.SessionOwnerOf(t)).Some? && old(cache.SessionOwnerOf(t)) != Some(uid) ==>
                  cache.GetSession(t) == old(cache.GetSession(t))
      ensures r.Ok? ==>
                var uid := old(Access.CachedCurrentUser(cache, db.users, accessToken, now)).value.id;
                forall u :: u != uid ==> cache.GetUserSessions(u) == old(cache.GetUserSessions(u))
      ensures cache.news == old(cache.news)
      ensures Access.AccessClaim(accessToken, now).Err? || Cache.Found(old(cache.GetUser(Access.AccessClaim(accessToken, now).value)))
              || old(Access.CachedCurrentUser(cache, db.users, accessToken, now)).Err?
              ==> cache.users == old(cache.users)
      ensures Access.AccessClaim(accessToken, now).Ok? && !Cache.Found(old(cache.GetUser(Access.AccessClaim(accessToken, now).value)))
              && old(Access.CachedCurrentUser(cache, db.users, accessToken, now)).Ok?
              ==> var u := old(Access.CachedCurrentUser(cache, db.users, accessToken, now)).value;
                  cache.users == old(cache.users)[Cache.UserKey(u.id) := Cache.UserSnapshot(u, now)]
    {
      var current := Access.GetCurrentUser(cache, db.users, accessToken, now);
      if current.Err? {
        return Err(current.error);
      }
      EndAllSessions(current.value.id);
      r := Ok(LoggedOutAllMessage);
    }

    /** `delete_all_user_sessions` for one user, with what it means for the
        invariant: every session of that user is gone, listed or not. */
    method EndAllSessions(uid: int)
      requires Valid()
      modifies cache
      ensures Valid()
      ensures forall t :: t in Cache.ListIn(old(cache.userSessions), uid) ==> Cache.SessionIn(cache.sessions, t).None?
      ensures Cache.ListIn(cache.userSessions, uid) == []
      ensures forall t :: Cache.OwnerIn(cache.sessions, t) != Some(uid)
      ensures forall t :: Cache.OwnerIn(old(cache.sessions), t).Some? && Cache.OwnerIn(old(cache.sessions), t) != Some(uid) ==>
                Cache.SessionIn(cache.sessions, t) == Cache.SessionIn(old(cache.sessions), t)
      ensures forall u :: u != uid ==> Cache.ListIn(cache.userSessions, u) == Cache.ListIn(old(cache.userSessions), u)
      ensures cache.users == old(cache.users) && cache.news == old(cache.news)
    {
      var existed := cache.DeleteAllUserSessions(uid);
      DeleteAllKeepsConsistent(old(cache.sessions), old(cache.userSessions), cache.sessions, cache.userSessions,
                               nextJti, uid);
    }

    /** `get_my_sessions`: the listing of the caller's token list. */
    method ListSessions(accessToken: string, now: int) returns (r: Result<seq<Schemas.SessionRead>>)
      requires Valid()
      modifies cache
      ensures Valid()
      ensures r.Err? ==> old(Access.CachedCurrentUser(cache, db.users, accessToken, now)) == Err(r.error)
      ensures r.Ok? <==> old(Access.CachedCurrentUser(cache, db.users, accessToken, now)).Ok?
      ensures r.Ok? ==>
                r.value == Listing(cache.sessions, cache.GetUserSessions(old(Access.CachedCurrentUser(cache, db.users, accessToken, now)).value.id))
      ensures cache.sessions == old(cache.sessions) && cache.userSessions == old(cache.userSessions)
      ensures cache.news == old(cache.news)
      ensures Access.AccessClaim(accessToken, now).Err? || Cache.Found(old(cache.GetUser(Access.AccessClaim(accessToken, now).value)))
              || old(Access.CachedCurrentUser(cache, db.users, accessToken, now)).Err?
              ==> cache.users == old(cache.users)
      ensures Access.AccessClaim(accessToken, now).Ok? && !Cache.Found(old(cache.GetUser(Access.AccessClaim(accessToken, now).value)))
              && old(Access.CachedCurrentUser(cache, db.users, accessToken, now)).Ok?
              ==> var u := old(Access.CachedCurrentUser(cache, db.users, accessToken, now)).value;
                  cache.users == old(cache.users)[Cache.UserKey(u.id) := Cache.UserSnapshot(u, now)]
    {
      var current := Access.GetCurrentUser(cache, db.users, accessToken, now);
      if current.Err? {
        return Err(current.error);
      }
      var rows := ListRows(cache.GetUserSessions(current.value.id));
      r := Ok(rows);
    }

    /** The loop of `get_my_sessions`: a row for each token whose session
        is there, numbered by the token's position. */
    method ListRows(tokens: seq<string>) returns (rows: seq<Schemas.SessionRead>)
      requires cache.SessionsWellFormed()
      ensures rows == Listing(cache.sessions, tokens)
    {
      rows := [];
      var i := 0;
      while i < |tokens|
        invariant 0 <= i <= |tokens|
        invariant rows == Listing(cache.sessions, tokens[..i])
      {
        var data := cache.GetSession(tokens[i]);
        if Cache.Found(data) {
          rows := rows + [Row(i + 1, data.value)];
        }
        assert tokens[..i + 1][..i] == tokens[..i];
        i := i + 1;
      }
      assert tokens[..|tokens|] == tokens;
    }

    /** `github_callback`: 401 when GitHub reports no identity; otherwise
        the account bound to the GitHub id, created on first use with no
        password, and a session for it. A first use without an email fails
        (`UserOAuthCreate` requires one) and so does one whose email is
        taken (the column is unique). */
    method GitHubCallback(info: Option<GithubIdentity>, userAgent: Option<string>, now: int)
      returns (r: Result<Schemas.TokenPair>)
      requires Valid()
      modifies this, db, cache
      ensures Valid()
      ensures info.None? ==> r == Err(HttpError(Unauthorized, AuthFailedDetail))
                             && unchanged(db) && unchanged(cache) && nextJti == old(nextJti)
      ensures info.Some? && Store.GetUserByGithubId(old(db.users), info.value.id).None? && info.value.email.None? ==>
                r == Err(UnhandledError) && unchanged(db) && unchanged(cache) && nextJti == old(nextJti)
      ensures info.Some? && Store.GetUserByGithubId(old(db.users), info.value.id).None? && info.value.email.Some?
              && Store.GetUserByEmail(old(db.users), info.value.email.value).Some? ==>
                r == Err(CommitError) && unchanged(db) && unchanged(cache) && nextJti == old(nextJti)
      ensures r.Ok? <==> info.Some? && (Store.GetUserByGithubId(old(db.users), info.value.id).Some?
                                        || (info.value.email.Some? && Store.GetUserByEmail(old(db.users), info.value.email.value).None?))
      ensures info.Some? && Store.GetUserByGithubId(old(db.users), info.value.id).Some? ==> db.users == old(db.users)
      ensures r.Ok? && Store.GetUserByGithubId(old(db.users), info.value.id).None? ==>
                && info.value.email.Some? && OAuthName(info.value).Some?
                && db.users == old(db.users) + [Store.User(old(db.nextUserId), OAuthName(info.value).value, info.value.email.value,
                                                           None, false, false, None, Some(info.value.id))]
      ensures r.Ok? ==>
                && Store.GetUserByGithubId(db.users, info.value.id).Some?
                && var uid := Store.GetUserByGithubId(db.users, info.value.id).value.id;
                && cache.SessionOwnerOf(r.value.refreshToken) == Some(uid)
                && r.value.refreshToken in cache.GetUserSessions(uid)
                && Access.AccessClaim(r.value.accessToken, now) == Ok(uid)
                && (forall x :: x != r.value.refreshToken ==> cache.GetSession(x) == old(cache.GetSession(x)))
                && (forall u :: u != uid ==> cache.GetUserSessions(u) == old(cache.GetUserSessions(u)))
                && (forall x :: x in cache.GetUserSessions(uid) <==> x in old(cache.GetUserSessions(uid)) || x == r.value.refreshToken)
      ensures cache.users == old(cache.users) && cache.news == old(cache.news)
      ensures db.sessions == old(db.sessions)
    {
      if info.None? {
        return Err(HttpError(Unauthorized, AuthFailedDetail));
      }
      var found := Store.GetUserByGithubId(db.users, info.value.id);
      var user: Store.User;
      if found.Some? {
        user := found.value;
      } else {
        if info.value.email.None? {
          return Err(UnhandledError);
        }
        var name := OAuthName(info.value);
        var created := db.CreateOAuthUser(name.value, info.value.email.value, info.value.id);
        if created.Err? {
          return Err(CommitError);
        }
        user := created.value;
        assert Store.GetUserByGithubId(db.users, info.value.id) == Some(user) by {
          var g := Store.GetUserByGithubId(db.users, info.value.id);
          assert user in db.users;
          assert g.Some? && g.value in db.users;
          assert g.value !in old(db.users);
        }
      }
      var pair := StartSession(user.id, userAgent, now);
      Access.AccessClaimOfIssued(user.id, now, now, 0);
      r := Ok(pair);
    }
  }

  // Client-level consequences

  /** Rotation makes a refresh token single-use: once it has been exchanged,
      presenting it again is refused with a 401, at any later time. */
  method RefreshIsSingleUse(g: AuthRouter, token: string, ua: Option<string>, now: int, later: int)
    returns (first: Result<Schemas.TokenPair>, second: Result<Schemas.TokenPair>)
    requires g.Valid()
    modifies g, g.cache
    ensures g.Valid()
    ensures first.Ok? ==> second.Err? && second.error.status == Unauthorized
    ensures first.Ok? && RefreshClaimOk(token, later) ==> second == Err(HttpError(Unauthorized, RefreshNotFoundDetail))
  {
    first := g.Refresh(token, ua, now);
    second := g.Refresh(token, ua, later);
  }

  /** Logging out twice leaves the cache as logging out once did: the first
      call leaves the token without a session, and `Logout` changes nothing
      for such a token. `sessions` and `lists` are the cache's maps after
      the first call. */
  method LogoutIsIdempotent(g: AuthRouter, token: string)
    returns (first: Result<string>, second: Result<string>,
             ghost sessions: map<string, map<string, Value>>, ghost lists: map<string, seq<string>>)
    requires g.Valid()
    modifies g.cache
    ensures g.Valid()
    ensures first == second == Ok(LoggedOutMessage)
    ensures g.cache.GetSession(token).None?
    ensures g.cache.sessions == sessions && g.cache.userSessions == lists
  {
    first := g.Logout(token);
    sessions, lists := g.cache.sessions, g.cache.userSessions;
    second := g.Logout(token);
  }

  /** After logging out everywhere, none of the caller's refresh tokens can
      be exchanged any more. */
  method LogoutAllRevokesRefresh(g: AuthRouter, accessToken: string, refreshToken: string, ua: Option<string>, now: int, later: int)
    returns (out: Result<string>, refreshed: Result<Schemas.TokenPair>)
    requires g.Valid()
    requires Access.CachedCurrentUser(g.cache, g.db.users, accessToken, now).Ok?
    requires g.cache.SessionOwnerOf(refreshToken) == Some(Access.CachedCurrentUser(g.cache, g.db.users, accessToken, now).value.id)
    modifies g, g.cache
    ensures g.Valid()
    ensures out == Ok(LoggedOutAllMessage)
    ensures refreshed.Err? && refreshed.error.status == Unauthorized
  {
    out := g.LogoutAll(accessToken, now);
    refreshed := g.Refresh(refreshToken, ua, later);
  }

  // The session minting as written

  /** The session-minting tail as written: the refresh token is
      `create_refresh_token()`, which depends on the second only. */
  method StartSessionAsWritten(cache: Cache.CacheService, userId: int, userAgent: Option<string>, now: int)
    returns (t: Schemas.TokenPair)
    requires cache.Valid()
    modifies cache
    ensures cache.Valid()
    ensures t == Schemas.MakeToken(Codec.IssueAccess(userId, now), Codec.IssueRefreshAsWritten(now))
    ensures cache.SessionOwnerOf(t.refreshToken) == Some(userId)
    ensures forall x :: x in cache.GetUserSessions(userId) <==> x in old(cache.GetUserSessions(userId)) || x == t.refreshToken
    ensures forall u :: u != userId ==> cache.GetUserSessions(u) == old(cache.GetUserSessions(u))
  {
    var access := Codec.IssueAccess(userId, now);
    var refresh := Codec.IssueRefreshAsWritten(now);
    var data := Cache.SessionData(userId, userAgent, now);
    Cache.CachedAtKeepsSession(data, now);
    var stored := cache.SetSession(refresh, data, now);
    var listed := cache.AddUserSession(userId, refresh);
    t := Schemas.MakeToken(access, refresh);
  }

  /** As written, two users who log in within the same second get the same
      refresh token: the second login takes over the first user's session,
      and the token on the first user's list now refreshes into an access
      token for the second user. */
  method SameSecondLoginsShareSession(cache: Cache.CacheService, alice: int, bob: int, ua: Option<string>, now: int)
    returns (a: Schemas.TokenPair, b: Schemas.TokenPair)
    requires cache.Valid() && alice != bob
    modifies cache
    ensures a.refreshToken == b.refreshToken
    ensures a.refreshToken in cache.GetUserSessions(alice)
    ensures cache.SessionOwnerOf(a.refreshToken) == Some(bob)
    ensures Access.AccessClaim(Codec.IssueAccess(cache.SessionOwnerOf(a.refreshToken).value, now), now) == Ok(bob)
  {
    a := StartSessionAsWritten(cache, alice, ua, now);
    b := StartSessionAsWritten(cache, bob, ua, now);
    Access.AccessClaimOfIssued(bob, now, now, 0);
  }
}
