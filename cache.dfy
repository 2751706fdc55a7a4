/** `app/cache_service.py`: the Redis-backed cache of news items, user
    snapshots, refresh sessions and per-user session lists.

    The one Redis keyspace is split into four maps, one per key prefix, each
    keyed by the full key string the key builders produce; the key lemmas
    below show that the prefixes never collide, so the split loses nothing.
    A stored entry is the JSON document the service wrote (a map of scalar
    values, or a list of tokens for a session list). Redis failures, which the
    client swallows into `None` and `False`, and TTL expiry are not part of
    this model: every write succeeds and every entry stays until deleted. */
module Cache {
  import opened Common
  import Text
  import Codec
  import Store

  const NewsPrefix := "news:"
  const UserPrefix := "user:"
  const SessionPrefix := "session:"
  const UserSessionsPrefix := "user_sessions:"

  /** The field every write of a snapshot or a session adds. */
  const CachedAt := "cached_at"

  // Key builders

  function NewsKey(newsId: int): (k: string)
    ensures |k| > |NewsPrefix| && k[..|NewsPrefix|] == NewsPrefix
  {
    NewsPrefix + Text.IntToString(newsId)
  }

  function UserKey(userId: int): (k: string)
    ensures |k| > |UserPrefix| && k[..|UserPrefix|] == UserPrefix
  {
    UserPrefix + Text.IntToString(userId)
  }

  function SessionKey(token: string): (k: string)
    ensures |k| == |SessionPrefix| + |token| && k[..|SessionPrefix|] == SessionPrefix
  {
    SessionPrefix + token
  }

  function UserSessionsKey(userId: int): (k: string)
    ensures |k| > |UserSessionsPrefix| && k[..|UserSessionsPrefix|] == UserSessionsPrefix
  {
    UserSessionsPrefix + Text.IntToString(userId)
  }

  /** Keys of different kinds never collide. */
  lemma KeyKindsDisjoint(n: int, u: int, t: string, v: int)
    ensures NewsKey(n) != UserKey(u) && NewsKey(n) != SessionKey(t) && NewsKey(n) != UserSessionsKey(v)
    ensures UserKey(u) != SessionKey(t) && UserKey(u) != UserSessionsKey(v)
    ensures SessionKey(t) != UserSessionsKey(v)
  {
    assert NewsKey(n)[0] == 'n' && UserKey(u)[0] == 'u' && SessionKey(t)[0] == 's' && UserSessionsKey(v)[0] == 'u';
    assert UserKey(u)[4] == ':' && UserSessionsKey(v)[4] == '_';
  }

  /** Each key builder is injective, so distinct ids or tokens get distinct
      entries. */
  lemma KeysInjective(a: int, b: int, s: string, t: string)
    ensures NewsKey(a) == NewsKey(b) <==> a == b
    ensures UserKey(a) == UserKey(b) <==> a == b
    ensures UserSessionsKey(a) == UserSessionsKey(b) <==> a == b
    ensures SessionKey(s) == SessionKey(t) <==> s == t
  {
    Text.IntToStringInjective(a, b);
    assert NewsKey(a)[|NewsPrefix|..] == Text.IntToString(a) && NewsKey(b)[|NewsPrefix|..] == Text.IntToString(b);
    assert UserKey(a)[|UserPrefix|..] == Text.IntToString(a) && UserKey(b)[|UserPrefix|..] == Text.IntToString(b);
    assert UserSessionsKey(a)[|UserSessionsPrefix|..] == Text.IntToString(a);
    assert UserSessionsKey(b)[|UserSessionsPrefix|..] == Text.IntToString(b);
    assert SessionKey(s)[|SessionPrefix|..] == s && SessionKey(t)[|SessionPrefix|..] == t;
  }

  /** The quantified forms the map-frame proofs below need. */
  lemma SessionKeyInjective()
    ensures forall s, t :: SessionKey(s) == SessionKey(t) ==> s == t
  {
    forall s, t | SessionKey(s) == SessionKey(t) ensures s == t {
      KeysInjective(0, 0, s, t);
    }
  }

  lemma UserSessionsKeyInjective()
    ensures forall a, b :: UserSessionsKey(a) == UserSessionsKey(b) ==> a == b
  {
    forall a, b | UserSessionsKey(a) == UserSessionsKey(b) ensures a == b {
      KeysInjective(a, b, "", "");
    }
  }

  // Session lists

  predicate NoDup(s: seq<string>)
  {
    forall i, j :: 0 <= i < j < |s| ==> s[i] != s[j]
  }

  /** The position of the first `x` in `s`. */
  function IndexOf(s: seq<string>, x: string): (i: nat)
    requires x in s
    ensures i < |s| && s[i] == x && x !in s[..i]
  {
    if s[0] == x then 0
    else
      var k := IndexOf(s[1..], x);
      assert s[..k + 1] == [s[0]] + s[1..][..k];
      k + 1
  }

  /** `list.remove(x)`: the first occurrence of `x` goes; a list without `x`
      is returned as it is (the service never calls it then). */
  function RemoveFirst(s: seq<string>, x: string): (r: seq<string>)
    ensures x !in s ==> r == s
  {
    if s == [] then []
    else if s[0] == x then s[1..]
    else [s[0]] + RemoveFirst(s[1..], x)
  }

  /** The removal cuts out exactly the first `x` and leaves every other
      element in order. */
  lemma {:induction false} RemoveFirstIsSplice(s: seq<string>, x: string)
    requires x in s
    ensures RemoveFirst(s, x) == s[..IndexOf(s, x)] + s[IndexOf(s, x) + 1..]
  {
    if s[0] != x {
      var tail := s[1..];
      RemoveFirstIsSplice(tail, x);
      var i := IndexOf(tail, x);
      assert IndexOf(s, x) == i + 1;
      var left, right := s[..i + 1], s[i + 2..];
      assert left == [s[0]] + tail[..i];
      assert right == tail[i + 1..];
      assert RemoveFirst(s, x) == [s[0]] + (tail[..i] + tail[i + 1..]);
      assert [s[0]] + (tail[..i] + tail[i + 1..]) == left + right;
    }
  }

  /** The removal takes one copy of `x` out of the list's contents and keeps
      every other element. */
  lemma {:induction false} RemoveFirstMultiset(s: seq<string>, x: string)
    ensures multiset(RemoveFirst(s, x)) == multiset(s) - multiset{x}
  {
    if s != [] {
      var tail := s[1..];
      assert s == [s[0]] + tail;
      assert multiset(s) == multiset{s[0]} + multiset(tail);
      if s[0] != x {
        RemoveFirstMultiset(tail, x);
        var rest := RemoveFirst(tail, x);
        assert RemoveFirst(s, x) == [s[0]] + rest;
        assert multiset(RemoveFirst(s, x)) == multiset{s[0]} + multiset(rest);
      }
    }
  }

  /** Hence the length drops by one exactly when `x` was there, and every
      other element stays in or out. */
  lemma RemoveFirstContents(s: seq<string>, x: string)
    ensures multiset(RemoveFirst(s, x)) == multiset(s) - multiset{x}
    ensures x in s ==> |RemoveFirst(s, x)| == |s| - 1
    ensures forall y :: y != x ==> (y in RemoveFirst(s, x) <==> y in s)
  {
    RemoveFirstMultiset(s, x);
    var r := RemoveFirst(s, x);
    if x in s {
      assert multiset(s) == multiset(r) + multiset{x};
      assert |multiset(s)| == |multiset(r)| + 1;
    }
    forall y | y != x ensures y in r <==> y in s {
      assert y in r <==> y in multiset(r);
      assert y in s <==> y in multiset(s);
    }
  }


  /** The tail of a duplicate-free list is duplicate-free and lacks the head. */
  lemma NoDupTail(s: seq<string>)
    requires NoDup(s) && s != []
    ensures NoDup(s[1..]) && s[0] !in s[1..]
  {
    var tail := s[1..];
    forall i, j | 0 <= i < j < |tail| ensures tail[i] != tail[j] {
      assert tail[i] == s[i + 1] && tail[j] == s[j + 1];
    }
    forall k | 0 <= k < |tail| ensures tail[k] != s[0] {
      assert tail[k] == s[k + 1];
    }
  }

  /** Putting an absent element in front keeps a list duplicate-free. */
  lemma NoDupCons(a: string, rest: seq<string>)
    requires NoDup(rest) && a !in rest
    ensures NoDup([a] + rest)
  {
    var r := [a] + rest;
    forall i, j | 0 <= i < j < |r| ensures r[i] != r[j] {
      if i == 0 {
        assert r[j] == rest[j - 1];
      } else {
        assert r[i] == rest[i - 1] && r[j] == rest[j - 1];
      }
    }
  }

  /** In a duplicate-free list the removal takes the element out entirely and
      keeps the list duplicate-free. */
  lemma {:induction false} RemoveFirstNoDup(s: seq<string>, x: string)
    requires NoDup(s)
    ensures x !in RemoveFirst(s, x)
    ensures NoDup(RemoveFirst(s, x))
  {
    if s != [] {
      var tail := s[1..];
      NoDupTail(s);
      if s[0] != x {
        RemoveFirstNoDup(tail, x);
        RemoveFirstContents(tail, x);
        NoDupCons(s[0], RemoveFirst(tail, x));
      }
    }
  }

  /** Adding an absent token and removing it again gives back the list. */
  lemma {:induction false} AddThenRemove(s: seq<string>, x: string)
    requires x !in s
    ensures RemoveFirst(s + [x], x) == s
  {
    if s != [] {
      assert (s + [x])[0] == s[0] && (s + [x])[1..] == s[1..] + [x];
      AddThenRemove(s[1..], x);
      assert [s[0]] + s[1..] == s;
    }
  }

  /** Appending an absent token keeps a list duplicate-free. */
  lemma AppendKeepsNoDup(s: seq<string>, x: string)
    requires NoDup(s) && x !in s
    ensures NoDup(s + [x])
  {
    var r := s + [x];
    forall i, j | 0 <= i < j < |r| ensures r[i] != r[j] {
      assert r[i] == s[i];
      if j < |s| {
        assert r[j] == s[j];
      }
    }
  }

  // Snapshots

  /** The fields `set_news` copies from the news item; nothing else is cached. */
  const NewsFields := {"id", "title", "content", "published_at", "author_id", "cover"}

  /** The document `set_news` stores: the allow-listed fields (`None` where the
      item has none) and the time of caching. */
  function SafeNews(data: map<string, Value>, now: int): (r: map<string, Value>)
    ensures r.Keys == NewsFields + {CachedAt}
    ensures forall k :: k in NewsFields ==> r[k] == Lookup(data, k)
    ensures r[CachedAt] == Num(now)
  {
    map["id" := Lookup(data, "id"), "title" := Lookup(data, "title"),
        "content" := Lookup(data, "content"), "published_at" := Lookup(data, "published_at"),
        "author_id" := Lookup(data, "author_id"), "cover" := Lookup(data, "cover"),
        CachedAt := Num(now)]
  }

  /** Only the allow-listed fields reach the cache: two items that agree on
      them are cached identically, whatever else they carry. */
  lemma SafeNewsIgnoresOtherFields(a: map<string, Value>, b: map<string, Value>, now: int)
    requires forall k :: k in NewsFields ==> Lookup(a, k) == Lookup(b, k)
    ensures SafeNews(a, now) == SafeNews(b, now)
  {
  }

  /** The fields `set_user` copies from the user row. */
  const UserSnapshotFields := {"id", "name", "email", "is_author", "is_admin", "avatar", "github_id"}

  /** The document `set_user` stores: the public fields and the time of
      caching, never the password hash. */
  function UserSnapshot(u: Store.User, now: int): (r: map<string, Value>)
    ensures r.Keys == UserSnapshotFields + {CachedAt}
    ensures "hashed_password" !in r
    ensures r["id"] == Num(u.id) && r["is_admin"] == Flag(u.isAdmin) && r["is_author"] == Flag(u.isAuthor)
  {
    map["id" := Num(u.id), "name" := Text(u.name), "email" := Text(u.email),
        "is_author" := Flag(u.isAuthor), "is_admin" := Flag(u.isAdmin),
        "avatar" := OptText(u.avatar), "github_id" := OptText(u.githubId),
        CachedAt := Num(now)]
  }

  /** Two rows that differ only in their password hash are cached identically. */
  lemma UserSnapshotHidesHash(u: Store.User, h: Option<string>, now: int)
    ensures UserSnapshot(u, now) == UserSnapshot(u.(hashedPassword := h), now)
  {
  }

  // Session documents

  /** The document the handlers build for a new refresh session: the owner,
      the client's user agent, and creation and expiry seven days apart. */
  function SessionData(userId: int, userAgent: Option<string>, now: int): (d: map<string, Value>)
    ensures SessionWellFormed(d) && SessionOwner(d) == Some(userId)
    ensures d["created_at"] == Num(now) && d["expires_at"] == Num(now + Codec.RefreshTokenLifetime)
  {
    map["user_id" := Num(userId), "user_agent" := OptText(userAgent),
        "created_at" := Num(now), "expires_at" := Num(now + Codec.RefreshTokenLifetime)]
  }

  /** `session["user_id"]`, when it is there and is a number. */
  function SessionOwner(d: map<string, Value>): Option<int>
  {
    if "user_id" in d && d["user_id"].Num? then Some(d["user_id"].n) else None
  }

  /** A session document as the handlers write it: a numeric owner, a user
      agent that is a string or null, and an expiry seven days after creation. */
  predicate SessionWellFormed(d: map<string, Value>)
  {
    && SessionOwner(d).Some?
    && (Lookup(d, "user_agent").Null? || Lookup(d, "user_agent").Text?)
    && "created_at" in d && d["created_at"].Num?
    && "expires_at" in d && d["expires_at"] == Num(d["created_at"].n + Codec.RefreshTokenLifetime)
  }

  /** Adding `cached_at` keeps a session document well formed and its owner. */
  lemma CachedAtKeepsSession(d: map<string, Value>, now: int)
    requires SessionWellFormed(d)
    ensures SessionWellFormed(d[CachedAt := Num(now)])
    ensures SessionOwner(d[CachedAt := Num(now)]) == SessionOwner(d)
  {
  }

  /** Python truthiness of a `cache.get` result: a document that is there and
      is not empty. */
  predicate Found(o: Option<map<string, Value>>)
  {
    o.Some? && o.value != map[]
  }

  /** The session document stored for a token in a session keyspace. */
  function SessionIn(sessions: map<string, map<string, Value>>, token: string): Option<map<string, Value>>
  {
    if SessionKey(token) in sessions then Some(sessions[SessionKey(token)]) else None
  }

  /** The token list stored for a user, or the empty list. */
  function ListIn(lists: map<string, seq<string>>, userId: int): seq<string>
  {
    if UserSessionsKey(userId) in lists then lists[UserSessionsKey(userId)] else []
  }

  /** The owner recorded in a token's session document, if any. */
  function OwnerIn(sessions: map<string, map<string, Value>>, token: string): Option<int>
  {
    match SessionIn(sessions, token)
    case None => None
    case Some(d) => SessionOwner(d)
  }

  /** Every session document in a session keyspace is one the handlers could have written. */
  ghost predicate WellFormedSessions(sessions: map<string, map<string, Value>>)
  {
    forall t :: SessionIn(sessions, t).Some? ==> SessionWellFormed(SessionIn(sessions, t).value)
  }

  class CacheService {
    var news: map<string, map<string, Value>>
    var users: map<string, map<string, Value>>
    var sessions: map<string, map<string, Value>>
    var userSessions: map<string, seq<string>>

    /** Every session list is duplicate-free. */
    ghost predicate Valid()
      reads this`userSessions
    {
      forall k :: k in userSessions ==> NoDup(userSessions[k])
    }

    /** Every stored session document is one the handlers could have written. */
    ghost predicate SessionsWellFormed()
      reads this`sessions
    {
      WellFormedSessions(sessions)
    }

    constructor ()
      ensures Valid()
      ensures news == map[] && users == map[] && sessions == map[] && userSessions == map[]
    {
      news, users, sessions, userSessions := map[], map[], map[], map[];
    }

    /** `get_news(news_id)`. */
    function GetNews(newsId: int): (r: Option<map<string, Value>>)
      reads this`news
      ensures r.Some? <==> NewsKey(newsId) in news
      ensures r.Some? ==> r.value == news[NewsKey(newsId)]
    {
      if NewsKey(newsId) in news then Some(news[NewsKey(newsId)]) else None
    }

    /** `get_user(user_id)`. */
    function GetUser(userId: int): (r: Option<map<string, Value>>)
      reads this`users
      ensures r.Some? <==> UserKey(userId) in users
      ensures r.Some? ==> r.value == users[UserKey(userId)]
    {
      if UserKey(userId) in users then Some(users[UserKey(userId)]) else None
    }

    /** `get_session(refresh_token)`. */
    function GetSession(token: string): (r: Option<map<string, Value>>)
      reads this`sessions
      ensures r.Some? <==> SessionKey(token) in sessions
      ensures r.Some? ==> r.value == sessions[SessionKey(token)]
    {
      SessionIn(sessions, token)
    }

    /** `get_user_sessions(user_id)`: the stored list, or the empty list when
      the key is absent. */
    function GetUserSessions(userId: int): (r: seq<string>)
      reads this`userSessions
      ensures UserSessionsKey(userId) !in userSessions ==> r == []
      ensures UserSessionsKey(userId) in userSessions ==> r == userSessions[UserSessionsKey(userId)]
      ensures Valid() ==> NoDup(r)
    {
      ListIn(userSessions, userId)
    }

    /** The owner recorded in a token's session, if it has one. */
    function SessionOwnerOf(token: string): (r: Option<int>)
      reads this`sessions
      ensures r.Some? ==> SessionKey(token) in sessions
    {
      OwnerIn(sessions, token)
    }

    /** `set_news(news_id, news_data)`. */
    method SetNews(newsId: int, data: map<string, Value>, now: int) returns (ok: bool)
      requires Valid()
      modifies this
      ensures Valid() && ok
      ensures news == old(news)[NewsKey(newsId) := SafeNews(data, now)]
      ensures users == old(users) && sessions == old(sessions) && userSessions == old(userSessions)
    {
      news := news[NewsKey(newsId) := SafeNews(data, now)];
      ok := true;
    }

    /** `delete_news(news_id)`: true when there was an entry to delete. */
    method DeleteNews(newsId: int) returns (existed: bool)
      requires Valid()
      modifies this
      ensures Valid() && existed == (NewsKey(newsId) in old(news))
      ensures news == old(news) - {NewsKey(newsId)}
      ensures users == old(users) && sessions == old(sessions) && userSessions == old(userSessions)
    {
      existed := NewsKey(newsId) in news;
      news := news - {NewsKey(newsId)};
    }

    /** `set_user(user)`: the snapshot, under the user's own key. */
    method SetUser(user: Store.User, now: int) returns (ok: bool)
      requires Valid()
      modifies this
      ensures Valid() && ok
      ensures users == old(users)[UserKey(user.id) := UserSnapshot(user, now)]
      ensures news == old(news) && sessions == old(sessions) && userSessions == old(userSessions)
    {
      users := users[UserKey(user.id) := UserSnapshot(user, now)];
      ok := true;
    }

    /** `delete_user(user_id)`. */
    method DeleteUser(userId: int) returns (existed: bool)
      requires Valid()
      modifies this
      ensures Valid() && existed == (UserKey(userId) in old(users))
      ensures users == old(users) - {UserKey(userId)}
      ensures news == old(news) && sessions == old(sessions) && userSessions == old(userSessions)
    {
      existed := UserKey(userId) in users;
      users := users - {UserKey(userId)};
    }

    /** `set_session(refresh_token, session_data)`: the document plus
        `cached_at`; no other token's session changes. */
    method SetSession(token: string, data: map<string, Value>, now: int) returns (ok: bool)
      requires Valid()
      modifies this
      ensures Valid() && ok
      ensures sessions == old(sessions)[SessionKey(token) := data[CachedAt := Num(now)]]
      ensures GetSession(token) == Some(data[CachedAt := Num(now)])
      ensures forall t :: t != token ==> SessionIn(sessions, t) == SessionIn(old(sessions), t)
      ensures news == old(news) && users == old(users) && userSessions == old(userSessions)
    {
      sessions := sessions[SessionKey(token) := data[CachedAt := Num(now)]];
      SessionKeyInjective();
      ok := true;
    }

    /** `delete_session(refresh_token)`: true when there was a session. */
    method DeleteSession(token: string) returns (existed: bool)
      requires Valid()
      modifies this
      ensures Valid() && existed == old(GetSession(token)).Some?
      ensures sessions == old(sessions) - {SessionKey(token)}
      ensures GetSession(token).None?
      ensures forall t :: t != token ==> SessionIn(sessions, t) == SessionIn(old(sessions), t)
      ensures news == old(news) && users == old(users) && userSessions == old(userSessions)
    {
      existed := SessionKey(token) in sessions;
      sessions := sessions - {SessionKey(token)};
      SessionKeyInjective();
    }

    /** `add_user_session(user_id, refresh_token)`: appends the token unless it
        is listed already, in which case nothing is written. */
    method AddUserSession(userId: int, token: string) returns (ok: bool)
      requires Valid()
      modifies this
      ensures Valid() && ok
      ensures token in old(GetUserSessions(userId)) ==> userSessions == old(userSessions)
      ensures token !in old(GetUserSessions(userId)) ==>
                userSessions == old(userSessions)[UserSessionsKey(userId) := old(GetUserSessions(userId)) + [token]]
      ensures forall t :: t in ListIn(userSessions, userId) <==> t in ListIn(old(userSessions), userId) || t == token
      ensures forall u :: u != userId ==> ListIn(userSessions, u) == ListIn(old(userSessions), u)
      ensures news == old(news) && users == old(users) && sessions == old(sessions)
    {
      var key := UserSessionsKey(userId);
      var list := GetUserSessions(userId);
      UserSessionsKeyInjective();
      if token !in list {
        AppendKeepsNoDup(list, token);
        list := list + [token];
        userSessions := userSessions[key := list];
      }
      ok := true;
    }

    /** `remove_user_session(user_id, refresh_token)`: removes the token when
        it is listed, in which case every other token stays in order;
        otherwise nothing is written. */
    method RemoveUserSession(userId: int, token: string) returns (ok: bool)
      requires Valid()
      modifies this
      ensures Valid() && ok
      ensures token !in old(GetUserSessions(userId)) ==> userSessions == old(userSessions)
      ensures token in old(GetUserSessions(userId)) ==>
                userSessions == old(userSessions)[UserSessionsKey(userId) := RemoveFirst(old(GetUserSessions(userId)), token)]
      ensures token !in GetUserSessions(userId)
      ensures forall t :: t != token ==> (t in ListIn(userSessions, userId) <==> t in ListIn(old(userSessions), userId))
      ensures forall u :: u != userId ==> ListIn(userSessions, u) == ListIn(old(userSessions), u)
      ensures news == old(news) && users == old(users) && sessions == old(sessions)
    {
      var key := UserSessionsKey(userId);
      var list := GetUserSessions(userId);
      UserSessionsKeyInjective();
      if token in list {
        RemoveFirstNoDup(list, token);
        RemoveFirstContents(list, token);
        list := RemoveFirst(list, token);
        userSessions := userSessions[key := list];
      }
      ok := true;
    }

    /** `delete_all_user_sessions(user_id)`: deletes the session of every
        listed token, one at a time, then the list itself. Unlisted sessions
        and other users' lists stay. */
    method DeleteAllUserSessions(userId: int) returns (existed: bool)
      requires Valid()
      modifies this
      ensures Valid() && existed == (UserSessionsKey(userId) in old(userSessions))
      ensures forall t :: SessionIn(sessions, t) == if t in ListIn(old(userSessions), userId) then None else SessionIn(old(sessions), t)
      ensures userSessions == old(userSessions) - {UserSessionsKey(userId)}
      ensures GetUserSessions(userId) == []
      ensures forall u :: u != userId ==> ListIn(userSessions, u) == ListIn(old(userSessions), u)
      ensures news == old(news) && users == old(users)
    {
      var key := UserSessionsKey(userId);
      var tokens := GetUserSessions(userId);
      var i := 0;
      while i < |tokens|
        invariant 0 <= i <= |tokens|
        invariant Valid()
        invariant forall t :: SessionIn(sessions, t) == if t in tokens[..i] then None else SessionIn(old(sessions), t)
        invariant news == old(news) && users == old(users) && userSessions == old(userSessions)
      {
        ghost var before := sessions;
        var gone := DeleteSession(tokens[i]);
        assert tokens[..i + 1] == tokens[..i] + [tokens[i]];
        forall t ensures SessionIn(sessions, t) == if t in tokens[..i + 1] then None else SessionIn(old(sessions), t) {
          if t != tokens[i] {
            assert SessionIn(sessions, t) == SessionIn(before, t);
          }
        }
        i := i + 1;
      }
      assert tokens[..|tokens|] == tokens;
      existed := key in userSessions;
      userSessions := userSessions - {key};
      UserSessionsKeyInjective();
    }
  }
}
