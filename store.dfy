/** The durable user and refresh-session tables of `app/crud.py` (the
    table-backed copy). Tables are sequences of rows in storage order; a
    query's `.first()` is the first matching row in that order. Reads are
    pure filters over a table; the class `Database` owns the tables and its
    methods are the writing functions. */
module Store {
  import opened Common
  import Codec
  import Schemas

  datatype User = User(
    id: int,
    name: string,
    email: string,
    hashedPassword: Option<string>,
    isAuthor: bool,
    isAdmin: bool,
    avatar: Option<string>,
    githubId: Option<string>)

  datatype RefreshSession = RefreshSession(
    id: int,
    userId: int,
    refreshToken: string,
    userAgent: Option<string>,
    createdAt: int,
    expiresAt: int)

  /** `timedelta(days=7)` in seconds. */
  const SessionLifetime := 7 * 24 * 60 * 60

  // Generic table queries

  /** The index of the first row satisfying `p`. */
  function FirstIndex<T>(rows: seq<T>, p: T -> bool): (r: Option<nat>)
    ensures r.Some? ==> r.value < |rows| && p(rows[r.value])
    ensures r.Some? ==> forall j :: 0 <= j < r.value ==> !p(rows[j])
    ensures r.None? ==> forall j :: 0 <= j < |rows| ==> !p(rows[j])
  {
    if rows == [] then None
    else if p(rows[0]) then Some(0)
    else match FirstIndex(rows[1..], p)
      case None => None
      case Some(k) => Some(k + 1)
  }

  // USERS: reads

  function UserIndex(users: seq<User>, userId: int): Option<nat>
  {
    FirstIndex(users, (u: User) => u.id == userId)
  }

  /** `get_user(db, user_id)`. */
  function GetUser(users: seq<User>, userId: int): (r: Option<User>)
    ensures r.Some? ==> r.value in users && r.value.id == userId
    ensures r.None? <==> forall u :: u in users ==> u.id != userId
  {
    match UserIndex(users, userId)
    case None => None
    case Some(i) => Some(users[i])
  }

  /** `get_user_by_email(db, email)`: the first user with this email. */
  function GetUserByEmail(users: seq<User>, email: string): (r: Option<User>)
    ensures r.Some? ==> exists i :: 0 <= i < |users| && users[i] == r.value && r.value.email == email
                                   && forall j :: 0 <= j < i ==> users[j].email != email
    ensures r.None? <==> forall u :: u in users ==> u.email != email
  {
    match FirstIndex(users, (u: User) => u.email == email)
    case None => None
    case Some(i) => Some(users[i])
  }

  /** `get_user_by_github_id(db, github_id)`: SQL equality never matches a
      user whose `github_id` is NULL. */
  function GetUserByGithubId(users: seq<User>, githubId: string): (r: Option<User>)
    ensures r.Some? ==> r.value in users && r.value.githubId == Some(githubId)
    ensures r.None? <==> forall u :: u in users ==> u.githubId != Some(githubId)
  {
    match FirstIndex(users, (u: User) => u.githubId == Some(githubId))
    case None => None
    case Some(i) => Some(users[i])
  }

  /** `list_users(db, skip, limit)`: `OFFSET skip LIMIT limit`. */
  function ListUsers(users: seq<User>, skip: nat, limit: nat): (r: seq<User>)
    ensures |r| == if skip >= |users| then 0 else if |users| - skip < limit then |users| - skip else limit
    ensures forall i :: 0 <= i < |r| ==> r[i] == users[skip + i]
  {
    if skip >= |users| then []
    else if |users| - skip < limit then users[skip..]
    else users[skip..skip + limit]
  }

  // USERS: patches

  /** The columns of a user row; every other attribute name is transient. */
  const UserColumns := {"id", "name", "email", "hashed_password", "is_author", "is_admin", "avatar", "github_id"}

  /** The user columns that reject NULL: the primary key, the name and the email. */
  const UserNotNull := {"id", "name", "email"}

  /** The ORM relationships of a user row. No request value is an ORM object,
      so `setattr` under one of these names fails the request with a 500. */
  const UserRelations := {"news", "comments"}

  /** `setattr(user, key, value)` on a user row, with the corrected handling
      of `password` (the hash goes into `hashed_password`). Every column can
      be written, the primary key included; a value of a kind its column does
      not hold is not written. */
  function SetAttr(u: User, key: string, v: Value): (r: User)
    ensures key != "id" ==> r.id == u.id
    ensures key == "id" && v.Num? ==> r.id == v.n
    ensures key != "name" ==> r.name == u.name
    ensures key == "name" && v.Text? ==> r.name == v.s
    ensures key != "email" ==> r.email == u.email
    ensures key == "email" && v.Text? ==> r.email == v.s
    ensures key != "hashed_password" && key != "password" ==> r.hashedPassword == u.hashedPassword
    ensures key == "hashed_password" && v.Text? ==> r.hashedPassword == Some(v.s)
    ensures key == "hashed_password" && v.Null? ==> r.hashedPassword == None
    ensures key == "password" && v.Text? && v.s != "" ==> r.hashedPassword == Some(Codec.Hash(v.s))
    ensures key != "is_admin" ==> r.isAdmin == u.isAdmin
    ensures key == "is_admin" && v.Flag? ==> r.isAdmin == v.b
    ensures key != "is_author" ==> r.isAuthor == u.isAuthor
    ensures key == "is_author" && v.Flag? ==> r.isAuthor == v.b
    ensures key != "avatar" ==> r.avatar == u.avatar
    ensures key == "avatar" && v.Text? ==> r.avatar == Some(v.s)
    ensures key == "avatar" && v.Null? ==> r.avatar == None
    ensures key != "github_id" ==> r.githubId == u.githubId
    ensures key == "github_id" && v.Text? ==> r.githubId == Some(v.s)
    ensures key == "github_id" && v.Null? ==> r.githubId == None
    ensures key !in UserColumns && key != "password" ==> r == u
  {
    match (key, v)
    case ("id", Num(n)) => u.(id := n)
    case ("name", Text(s)) => u.(name := s)
    case ("email", Text(s)) => u.(email := s)
    case ("hashed_password", Text(s)) => u.(hashedPassword := Some(s))
    case ("hashed_password", Null) => u.(hashedPassword := None)
    case ("is_author", Flag(b)) => u.(isAuthor := b)
    case ("is_admin", Flag(b)) => u.(isAdmin := b)
    case ("avatar", Text(s)) => u.(avatar := Some(s))
    case ("avatar", Null) => u.(avatar := None)
    case ("github_id", Text(s)) => u.(githubId := Some(s))
    case ("github_id", Null) => u.(githubId := None)
    case ("password", Text(s)) => if s != "" then u.(hashedPassword := Some(Codec.Hash(s))) else u
    case _ => u
  }

  /** `setattr` as written: `password` is not a column of the user row (the
      column is `hashed_password`), so the hash assigned to it is not stored. */
  function SetAttrAsWritten(u: User, key: string, v: Value): (r: User)
    ensures key == "password" ==> r == u
    ensures key != "password" ==> r == SetAttr(u, key, v)
  {
    if key == "password" then u else SetAttr(u, key, v)
  }

  /** As written, a password change through `update_user` leaves the stored
      hash as it was, so the new password does not log in. */
  lemma PasswordPatchLostAsWritten(u: User, password: string)
    requires password != "" && u.hashedPassword.Some? && u.hashedPassword.value != Codec.Hash(password)
    ensures SetAttrAsWritten(u, "password", Text(password)).hashedPassword == u.hashedPassword
    ensures !Codec.Verify(password, SetAttrAsWritten(u, "password", Text(password)).hashedPassword.value)
  {
  }

  /** Corrected: after the patch the new password verifies and only it does. */
  lemma PasswordPatchTakesEffect(u: User, password: string, attempt: string)
    requires password != ""
    ensures SetAttr(u, "password", Text(password)).hashedPassword == Some(Codec.Hash(password))
    ensures Codec.Verify(attempt, SetAttr(u, "password", Text(password)).hashedPassword.value) <==> attempt == password
  {
    Codec.VerifyHash(attempt, password);
  }

  /** The row after applying `data.items()` in order. */
  function ApplyPatch(u: User, data: seq<(string, Value)>): User
  {
    if data == [] then u
    else
      var last := data[|data| - 1];
      SetAttr(ApplyPatch(u, data[..|data| - 1]), last.0, last.1)
  }

  /** Every column the patch names ends up with the last value given for it,
      and every column it does not name keeps its value; one lemma per group
      of columns. The id, the name and the email follow this rule. */
  lemma {:induction false} ApplyPatchKeys(u: User, data: seq<(string, Value)>)
    ensures FinalValue(data, "id").None? ==> ApplyPatch(u, data).id == u.id
    ensures FinalValue(data, "id").Some? && FinalValue(data, "id").value.Num? ==> ApplyPatch(u, data).id == FinalValue(data, "id").value.n
    ensures FinalValue(data, "name").None? ==> ApplyPatch(u, data).name == u.name
    ensures FinalValue(data, "name").Some? && FinalValue(data, "name").value.Text? ==> ApplyPatch(u, data).name == FinalValue(data, "name").value.s
    ensures FinalValue(data, "email").None? ==> ApplyPatch(u, data).email == u.email
    ensures FinalValue(data, "email").Some? && FinalValue(data, "email").value.Text? ==> ApplyPatch(u, data).email == FinalValue(data, "email").value.s
  {
    if data != [] {
      ApplyPatchKeys(u, data[..|data| - 1]);
    }
  }

  /** What the last entry of a patch that writes the password hash leaves
      there: a text or NULL `hashed_password`, or the hash of a non-empty
      text `password`; none when no entry writes the hash. */
  function LastHashWrite(data: seq<(string, Value)>): (w: Option<Option<string>>)
    ensures w.None? ==> forall i :: 0 <= i < |data| && data[i].0 == "password" ==> !(data[i].1.Text? && data[i].1.s != "")
  {
    if data == [] then None
    else
      var prefix := data[..|data| - 1];
      match data[|data| - 1]
      case ("hashed_password", Text(s)) => Some(Some(s))
      case ("hashed_password", Null) => Some(None)
      case ("password", Text(s)) => if s != "" then Some(Some(Codec.Hash(s))) else LastHashWrite(prefix)
      case _ => LastHashWrite(prefix)
  }

  /** The password hash, written through `hashed_password` or, hashed, through
      `password`, is what the last entry that writes it leaves, and is kept
      when no entry does; in particular it follows the same rule when only
      one of the two keys is named. */
  lemma {:induction false} ApplyPatchHash(u: User, data: seq<(string, Value)>)
    ensures LastHashWrite(data).Some? ==> ApplyPatch(u, data).hashedPassword == LastHashWrite(data).value
    ensures LastHashWrite(data).None? ==> ApplyPatch(u, data).hashedPassword == u.hashedPassword
    ensures FinalValue(data, "hashed_password").None? && FinalValue(data, "password").None? ==> ApplyPatch(u, data).hashedPassword == u.hashedPassword
    ensures FinalValue(data, "password").None? && FinalValue(data, "hashed_password").Some? && FinalValue(data, "hashed_password").value.Text? ==>
              ApplyPatch(u, data).hashedPassword == Some(FinalValue(data, "hashed_password").value.s)
    ensures FinalValue(data, "password").None? && FinalValue(data, "hashed_password") == Some(Null) ==> ApplyPatch(u, data).hashedPassword == None
    ensures FinalValue(data, "hashed_password").None? && FinalValue(data, "password").Some? && FinalValue(data, "password").value.Text?
            && FinalValue(data, "password").value.s != "" ==>
              ApplyPatch(u, data).hashedPassword == Some(Codec.Hash(FinalValue(data, "password").value.s))
  {
    if data != [] {
      ApplyPatchHash(u, data[..|data| - 1]);
    }
  }

  /** The role flags follow the same rule. */
  lemma {:induction false} ApplyPatchRoles(u: User, data: seq<(string, Value)>)
    ensures FinalValue(data, "is_admin").None? ==> ApplyPatch(u, data).isAdmin == u.isAdmin
    ensures FinalValue(data, "is_admin").Some? && FinalValue(data, "is_admin").value.Flag? ==> ApplyPatch(u, data).isAdmin == FinalValue(data, "is_admin").value.b
    ensures FinalValue(data, "is_author").None? ==> ApplyPatch(u, data).isAuthor == u.isAuthor
    ensures FinalValue(data, "is_author").Some? && FinalValue(data, "is_author").value.Flag? ==> ApplyPatch(u, data).isAuthor == FinalValue(data, "is_author").value.b
  {
    if data != [] {
      ApplyPatchRoles(u, data[..|data| - 1]);
    }
  }

  /** The avatar and the GitHub id follow the same rule. */
  lemma {:induction false} ApplyPatchProfile(u: User, data: seq<(string, Value)>)
    ensures FinalValue(data, "avatar").None? ==> ApplyPatch(u, data).avatar == u.avatar
    ensures FinalValue(data, "avatar").Some? && FinalValue(data, "avatar").value.Text? ==> ApplyPatch(u, data).avatar == Some(FinalValue(data, "avatar").value.s)
    ensures FinalValue(data, "avatar") == Some(Null) ==> ApplyPatch(u, data).avatar == None
    ensures FinalValue(data, "github_id").None? ==> ApplyPatch(u, data).githubId == u.githubId
    ensures FinalValue(data, "github_id").Some? && FinalValue(data, "github_id").value.Text? ==> ApplyPatch(u, data).githubId == Some(FinalValue(data, "github_id").value.s)
    ensures FinalValue(data, "github_id") == Some(Null) ==> ApplyPatch(u, data).githubId == None
  {
    if data != [] {
      ApplyPatchProfile(u, data[..|data| - 1]);
    }
  }

  /** Some `password` entry holds a truthy value that is not text: passlib's
      hasher refuses it with a `TypeError`, which FastAPI answers with a 500. */
  predicate HashRaises(data: seq<(string, Value)>)
  {
    exists i :: 0 <= i < |data| && data[i].0 == "password" && Truthy(data[i].1) && !data[i].1.Text?
  }

  /** The patch of row `i` is stored: it names no relationship, no NOT NULL
      column is left NULL, and the patched row's id and email are no other
      row's. */
  predicate UserPatchCommits(users: seq<User>, i: nat, data: seq<(string, Value)>)
    requires i < |users|
  {
    var p := ApplyPatch(users[i], data);
    && !NamesAny(data, UserRelations)
    && !WritesNull(data, UserNotNull)
    && forall j :: 0 <= j < |users| && j != i ==> users[j].id != p.id && users[j].email != p.email
  }

  /** No allow-list: a patch can grant or revoke the admin and author flags. */
  lemma {:induction false} PatchOverwritesRoles(u: User, data: seq<(string, Value)>, admin: bool, author: bool)
    ensures ApplyPatch(u, data + [("is_admin", Flag(admin)), ("is_author", Flag(author))]).isAdmin == admin
    ensures ApplyPatch(u, data + [("is_admin", Flag(admin)), ("is_author", Flag(author))]).isAuthor == author
  {
    var d1 := data + [("is_admin", Flag(admin))];
    var d2 := d1 + [("is_author", Flag(author))];
    assert data + [("is_admin", Flag(admin)), ("is_author", Flag(author))] == d2;
    assert d2[..|d2| - 1] == d1;
    assert d1[..|d1| - 1] == data;
  }

  // REFRESH SESSIONS: reads

  function SessionIndex(rows: seq<RefreshSession>, token: string): Option<nat>
  {
    FirstIndex(rows, (s: RefreshSession) => s.refreshToken == token)
  }

  /** `get_refresh_session(db, token)`. */
  function GetRefreshSession(rows: seq<RefreshSession>, token: string): (r: Option<RefreshSession>)
    ensures r.Some? ==> r.value in rows && r.value.refreshToken == token
    ensures r.None? <==> forall s :: s in rows ==> s.refreshToken != token
  {
    match SessionIndex(rows, token)
    case None => None
    case Some(i) => Some(rows[i])
  }

  /** `get_user_sessions(db, user_id)`: exactly this user's sessions, in order. */
  function GetUserSessions(rows: seq<RefreshSession>, userId: int): (r: seq<RefreshSession>)
    ensures |r| <= |rows|
    ensures forall s :: s in r <==> s in rows && s.userId == userId
  {
    if rows == [] then []
    else (if rows[0].userId == userId then [rows[0]] else []) + GetUserSessions(rows[1..], userId)
  }

  // REFRESH SESSIONS: the tables the writes leave

  /** The table after `delete_refresh_session(db, token)`: the matching row
      goes, nothing else does, and nothing happens when no row matches. */
  function WithoutSession(rows: seq<RefreshSession>, token: string): (r: seq<RefreshSession>)
    ensures GetRefreshSession(rows, token).None? ==> r == rows
    ensures GetRefreshSession(rows, token).Some? ==> |r| == |rows| - 1
    ensures forall s :: s in rows && s.refreshToken != token ==> s in r
    ensures forall s :: s in r ==> s in rows
  {
    match SessionIndex(rows, token)
    case None => rows
    case Some(i) => rows[..i] + rows[i + 1..]
  }

  /** The table after `delete_all_user_sessions(db, user_id)`: the other
      users' sessions, in order. */
  function WithoutUserSessions(rows: seq<RefreshSession>, userId: int): (r: seq<RefreshSession>)
    ensures |r| <= |rows|
    ensures forall s :: s in r <==> s in rows && s.userId != userId
  {
    if rows == [] then []
    else (if rows[0].userId != userId then [rows[0]] else []) + WithoutUserSessions(rows[1..], userId)
  }

  ghost predicate UniqueTokens(rows: seq<RefreshSession>)
  {
    forall i, j :: 0 <= i < j < |rows| ==> rows[i].refreshToken != rows[j].refreshToken
  }

  /** With unique tokens, a deleted token has no session left. */
  lemma DeletedTokenIsGone(rows: seq<RefreshSession>, token: string)
    requires UniqueTokens(rows)
    ensures GetRefreshSession(WithoutSession(rows, token), token).None?
  {
    match SessionIndex(rows, token)
    case None =>
    case Some(i) =>
      var r := rows[..i] + rows[i + 1..];
      forall s | s in r ensures s.refreshToken != token {
        var k :| 0 <= k < |r| && r[k] == s;
        if k < i {
          assert s == rows[k];
        } else {
          assert s == rows[k + 1];
        }
      }
  }

  /** `delete_refresh_session` is idempotent. */
  lemma DeleteSessionIdempotent(rows: seq<RefreshSession>, token: string)
    requires UniqueTokens(rows)
    ensures WithoutSession(WithoutSession(rows, token), token) == WithoutSession(rows, token)
  {
    DeletedTokenIsGone(rows, token);
  }

  /** `delete_all_user_sessions` leaves no session of that user and every
      other user's sessions exactly as they were, in order; applying it
      twice is the same as once. */
  lemma {:induction false} DeleteAllUserSessionsEffect(rows: seq<RefreshSession>, userId: int, other: int)
    requires other != userId
    ensures GetUserSessions(WithoutUserSessions(rows, userId), userId) == []
    ensures GetUserSessions(WithoutUserSessions(rows, userId), other) == GetUserSessions(rows, other)
    ensures WithoutUserSessions(WithoutUserSessions(rows, userId), userId) == WithoutUserSessions(rows, userId)
  {
    if rows != [] {
      DeleteAllUserSessionsEffect(rows[1..], userId, other);
      var rest := WithoutUserSessions(rows[1..], userId);
      if rows[0].userId != userId {
        assert WithoutUserSessions(rows, userId) == [rows[0]] + rest;
        assert ([rows[0]] + rest)[1..] == rest;
      } else {
        assert WithoutUserSessions(rows, userId) == rest;
      }
    }
  }

  /** A user's sessions and everybody else's together make up the table. */
  lemma {:induction false} SessionsPartitionByUser(rows: seq<RefreshSession>, userId: int)
    ensures multiset(GetUserSessions(rows, userId)) + multiset(WithoutUserSessions(rows, userId)) == multiset(rows)
  {
    if rows != [] {
      var tail := rows[1..];
      SessionsPartitionByUser(tail, userId);
      var mine := GetUserSessions(tail, userId);
      var theirs := WithoutUserSessions(tail, userId);
      assert rows == [rows[0]] + tail;
      assert multiset(rows) == multiset{rows[0]} + multiset(tail);
      if rows[0].userId == userId {
        assert GetUserSessions(rows, userId) == [rows[0]] + mine;
        assert multiset([rows[0]] + mine) == multiset{rows[0]} + multiset(mine);
        assert WithoutUserSessions(rows, userId) == [] + theirs;
      } else {
        assert GetUserSessions(rows, userId) == [] + mine;
        assert WithoutUserSessions(rows, userId) == [rows[0]] + theirs;
        assert multiset([rows[0]] + theirs) == multiset{rows[0]} + multiset(theirs);
      }
    }
  }

  // The database

  /** The user table's keys: ids below `next` and unique, emails unique. */
  ghost predicate UsersKeyed(users: seq<User>, next: int)
  {
    && (forall i :: 0 <= i < |users| ==> users[i].id < next)
    && (forall i, j :: 0 <= i < j < |users| ==> users[i].id != users[j].id)
    && (forall i, j :: 0 <= i < j < |users| ==> users[i].email != users[j].email)
  }

  /** Replacing a row by one whose id and email no other row has keeps the
      keys, with the next id moved past the new one when needed. */
  lemma ReplaceKeepsKeys(users: seq<User>, next: int, i: nat, p: User)
    requires UsersKeyed(users, next) && i < |users|
    requires forall j :: 0 <= j < |users| && j != i ==> users[j].id != p.id && users[j].email != p.email
    ensures UsersKeyed(users[i := p], if p.id < next then next else p.id + 1)
  {
  }

  /** Appending a row with a fresh id and an untaken email keeps the keys. */
  lemma AppendKeepsKeys(users: seq<User>, next: int, u: User)
    requires UsersKeyed(users, next) && u.id == next && GetUserByEmail(users, u.email).None?
    ensures UsersKeyed(users + [u], next + 1)
  {
  }

  class Database {
    var users: seq<User>
    var sessions: seq<RefreshSession>
    var nextUserId: int
    var nextSessionId: int

    /** Primary keys are unique and below the next key handed out, and no
        two users share an email (the column is unique). */
    ghost predicate Valid()
      reads this
    {
      && 1 <= nextSessionId
      && UsersKeyed(users, nextUserId)
      && (forall s :: s in sessions ==> 1 <= s.id < nextSessionId)
      && UniqueSessionIds(sessions)
    }

    constructor ()
      ensures Valid() && users == [] && sessions == []
    {
      users, sessions := [], [];
      nextUserId, nextSessionId := 1, 1;
    }

    /** `create_user(db, user_in)`: stores the hash of the password, never the
        password, with the given name and email and no role. A taken email
        fails the commit and nothing is stored. */
    method CreateUser(userIn: Schemas.UserCreate) returns (r: Result<User>)
      requires Valid()
      modifies this
      ensures Valid()
      ensures r.Err? <==> GetUserByEmail(old(users), userIn.email).Some?
      ensures r.Err? ==> r.error == CommitError && unchanged(this)
      ensures r.Ok? ==> r.value == User(old(nextUserId), userIn.name, userIn.email, Some(Codec.Hash(userIn.password)),
                                        false, false, None, None)
                        && GetUser(old(users), r.value.id).None?
                        && users == old(users) + [r.value]
      ensures sessions == old(sessions) && nextSessionId == old(nextSessionId)
    {
      if GetUserByEmail(users, userIn.email).Some? {
        return Err(CommitError);
      }
      var hashed := Codec.Hash(userIn.password);
      var user := User(nextUserId, userIn.name, userIn.email, Some(hashed), false, false, None, None);
      users := users + [user];
      nextUserId := nextUserId + 1;
      r := Ok(user);
    }

    /** `create_oauth_user(db, user_in)`: bound to the GitHub id, no password.
        A taken email fails the commit and nothing is stored. */
    method CreateOAuthUser(name: string, email: string, githubId: string) returns (r: Result<User>)
      requires Valid()
      modifies this
      ensures Valid()
      ensures r.Err? <==> GetUserByEmail(old(users), email).Some?
      ensures r.Err? ==> r.error == CommitError && unchanged(this)
      ensures r.Ok? ==> r.value == User(old(nextUserId), name, email, None, false, false, None, Some(githubId))
                        && GetUser(old(users), r.value.id).None?
                        && users == old(users) + [r.value]
      ensures sessions == old(sessions) && nextSessionId == old(nextSessionId)
    {
      if GetUserByEmail(users, email).Some? {
        return Err(CommitError);
      }
      var user := User(nextUserId, name, email, None, false, false, None, Some(githubId));
      users := users + [user];
      nextUserId := nextUserId + 1;
      r := Ok(user);
    }

    /** `update_user(db, user_id, data)`: `None` and no change for an unknown
        id; otherwise every item of `data` is applied in order and committed.
        A commit that a constraint rejects is a 500 and stores nothing. A
        rewritten primary key above every key handed out moves the next key
        past it. */
    method UpdateUser(userId: int, data: seq<(string, Value)>) returns (r: Result<Option<User>>)
      requires Valid()
      modifies this
      ensures Valid()
      ensures sessions == old(sessions) && nextSessionId == old(nextSessionId)
      ensures UserIndex(old(users), userId).None? ==> r == Ok(None) && users == old(users) && nextUserId == old(nextUserId)
      ensures UserIndex(old(users), userId).Some? && HashRaises(data) ==>
                r == Err(UnhandledError) && users == old(users) && nextUserId == old(nextUserId)
      ensures UserIndex(old(users), userId).Some? && !HashRaises(data) && !UserPatchCommits(old(users), UserIndex(old(users), userId).value, data) ==>
                r == Err(CommitError) && users == old(users) && nextUserId == old(nextUserId)
      ensures UserIndex(old(users), userId).Some? && !HashRaises(data) && UserPatchCommits(old(users), UserIndex(old(users), userId).value, data) ==>
                var i := UserIndex(old(users), userId).value;
                var p := ApplyPatch(old(users)[i], data);
                && r == Ok(Some(p)) && users == old(users)[i := p]
                && nextUserId == if p.id < old(nextUserId) then old(nextUserId) else p.id + 1
    {
      var idx := UserIndex(users, userId);
      if idx.None? {
        return Ok(None);
      }
      var i := idx.value;
      var user := users[i];
      var k := 0;
      while k < |data|
        invariant 0 <= k <= |data|
        invariant user == ApplyPatch(old(users)[i], data[..k])
        invariant !HashRaises(data[..k])
      {
        var (key, value) := data[k];
        if key == "password" && Truthy(value) && !value.Text? {
          assert data[k] == (key, value);
          return Err(UnhandledError);
        }
        assert data[..k + 1][..k] == data[..k];
        user := SetAttr(user, key, value);
        k := k + 1;
      }
      assert data[..|data|] == data;
      if !UserPatchCommits(users, i, data) {
        return Err(CommitError);
      }
      ReplaceKeepsKeys(users, nextUserId, i, user);
      users := users[i := user];
      if nextUserId <= user.id {
        nextUserId := user.id + 1;
      }
      r := Ok(Some(user));
    }

    /** `create_refresh_session(db, user_id, token, user_agent)`: a new row
        that expires seven days after `now`. */
    method CreateRefreshSession(userId: int, token: string, userAgent: Option<string>, now: int)
      returns (session: RefreshSession)
      requires Valid()
      modifies this
      ensures Valid()
      ensures session == RefreshSession(old(nextSessionId), userId, token, userAgent, now, now + SessionLifetime)
      ensures sessions == old(sessions) + [session] && users == old(users)
      ensures nextUserId == old(nextUserId)
      ensures GetRefreshSession(old(sessions), token).None? ==> GetRefreshSession(sessions, token) == Some(session)
    {
      session := RefreshSession(nextSessionId, userId, token, userAgent, now, now + SessionLifetime);
      sessions := sessions + [session];
      nextSessionId := nextSessionId + 1;
      ghost var p := (s: RefreshSession) => s.refreshToken == token;
      if GetRefreshSession(old(sessions), token).None? {
        assert forall j :: 0 <= j < |old(sessions)| ==> !p(sessions[j]);
      }
    }

    /** `delete_refresh_session(db, token)`. */
    method DeleteRefreshSession(token: string)
      requires Valid()
      modifies this
      ensures Valid()
      ensures sessions == WithoutSession(old(sessions), token) && users == old(users)
      ensures nextUserId == old(nextUserId) && nextSessionId == old(nextSessionId)
    {
      var idx := SessionIndex(sessions, token);
      if idx.Some? {
        var i := idx.value;
        SpliceKeepsIds(sessions, i);
        sessions := sessions[..i] + sessions[i + 1..];
      }
    }

    /** `delete_all_user_sessions(db, user_id)`. */
    method DeleteAllUserSessions(userId: int)
      requires Valid()
      modifies this
      ensures Valid()
      ensures sessions == WithoutUserSessions(old(sessions), userId) && users == old(users)
      ensures nextUserId == old(nextUserId) && nextSessionId == old(nextSessionId)
    {
      WithoutUserSessionsKeepsIds(sessions, userId);
      sessions := WithoutUserSessions(sessions, userId);
    }
  }

  ghost predicate UniqueSessionIds(rows: seq<RefreshSession>)
  {
    forall i, j :: 0 <= i < j < |rows| ==> rows[i].id != rows[j].id
  }

  /** The rows after the first have unique ids, none of them the first's. */
  lemma UniqueIdsTail(rows: seq<RefreshSession>)
    requires UniqueSessionIds(rows) && rows != []
    ensures UniqueSessionIds(rows[1..])
    ensures forall s :: s in rows[1..] ==> s.id != rows[0].id
  {
    var tail := rows[1..];
    forall i, j | 0 <= i < j < |tail| ensures tail[i].id != tail[j].id {
      assert tail[i] == rows[i + 1] && tail[j] == rows[j + 1];
    }
    forall s | s in tail ensures s.id != rows[0].id {
      var k :| 0 <= k < |tail| && tail[k] == s;
      assert rows[k + 1] == s;
    }
  }

  /** A row whose id no other row has can go in front. */
  lemma UniqueIdsCons(a: RefreshSession, rest: seq<RefreshSession>)
    requires UniqueSessionIds(rest) && forall s :: s in rest ==> s.id != a.id
    ensures UniqueSessionIds([a] + rest)
  {
    var r := [a] + rest;
    forall i, j | 0 <= i < j < |r| ensures r[i].id != r[j].id {
      assert r[j] == rest[j - 1] && r[j] in rest;
      if i > 0 {
        assert r[i] == rest[i - 1];
      }
    }
  }

  /** Cutting one row out keeps session ids unique. */
  lemma SpliceKeepsIds(rows: seq<RefreshSession>, i: nat)
    requires UniqueSessionIds(rows) && i < |rows|
    ensures UniqueSessionIds(rows[..i] + rows[i + 1..])
  {
    var r := rows[..i] + rows[i + 1..];
    forall a, b | 0 <= a < b < |r| ensures r[a].id != r[b].id {
      var a' := if a < i then a else a + 1;
      var b' := if b < i then b else b + 1;
      assert r[a] == rows[a'] && r[b] == rows[b'];
    }
  }

  /** A bulk delete keeps session ids unique. */
  lemma {:induction false} WithoutUserSessionsKeepsIds(rows: seq<RefreshSession>, userId: int)
    requires UniqueSessionIds(rows)
    ensures UniqueSessionIds(WithoutUserSessions(rows, userId))
  {
    if rows != [] {
      var tail := rows[1..];
      UniqueIdsTail(rows);
      WithoutUserSessionsKeepsIds(tail, userId);
      var rest := WithoutUserSessions(tail, userId);
      if rows[0].userId != userId {
        UniqueIdsCons(rows[0], rest);
      }
    }
  }
}
