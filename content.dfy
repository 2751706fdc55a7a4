/** The news and comment handlers of `app/api/news.py` and
    `app/api/comments.py`, over the news and comment tables they reach through
    `app/crud.py`. Each handler receives the already-resolved current user
    (the `get_current_user` dependency is modelled in `Access`); it checks,
    then acts. These handlers apply their own rules, stricter than the
    permission dependencies: creating news needs author status, and only the
    author of an item may change or delete it, admins included. */
module Content {
  import opened Common
  import Store
  import Schemas

  datatype News = News(id: int, title: string, content: Value, publishedAt: int, authorId: int, cover: Option<string>)

  datatype Comment = Comment(id: int, text: string, newsId: int, authorId: int, publishedAt: int)

  /** The comment body these handlers accept: the client names the author. */
  datatype CommentIn = CommentIn(text: string, newsId: int, authorId: int)

  const NotAuthorDetail := "User is not verified as author"
  const NewsNotFoundDetail := "News not found"
  const CommentNotFoundDetail := "Comment not found"
  const OnlyAuthorUpdate := "Only author can update"
  const OnlyAuthorDelete := "Only author can delete"
  const AuthorMismatchDetail := "Author id mismatch"

  // Patches (`crud.update_news` / `crud.update_comment`: `setattr` per item)

  /** The news columns that reject NULL. `content` is not among them: a JSON
      column stores `None` as the JSON value `null`. */
  const NewsNotNull := {"id", "title", "author_id"}

  /** The comment columns that reject NULL. */
  const CommentNotNull := {"id", "text", "news_id", "author_id"}

  /** The ORM relationships of a news item and of a comment. No request value
      is an ORM object or a list of them, so `setattr` under one of these names
      fails the request with a 500. */
  const NewsRelations := {"author", "comments"}
  const CommentRelations := {"news", "author"}

  /** `setattr(news, key, value)`: any column can be written, the primary key
      included; a value of a kind its column does not hold is not written.
      There is no allow-list: the author column can be rewritten. */
  function SetNewsAttr(n: News, key: string, v: Value): (r: News)
    ensures key != "id" ==> r.id == n.id
    ensures key == "id" && v.Num? ==> r.id == v.n
    ensures key != "title" ==> r.title == n.title
    ensures key == "title" && v.Text? ==> r.title == v.s
    ensures key != "content" ==> r.content == n.content
    ensures key == "content" ==> r.content == v
    ensures key != "published_at" ==> r.publishedAt == n.publishedAt
    ensures key == "published_at" && v.Num? ==> r.publishedAt == v.n
    ensures key != "author_id" ==> r.authorId == n.authorId
    ensures key == "author_id" && v.Num? ==> r.authorId == v.n
    ensures key != "cover" ==> r.cover == n.cover
    ensures key == "cover" && v.Text? ==> r.cover == Some(v.s)
    ensures key == "cover" && v.Null? ==> r.cover == None
  {
    match (key, v)
    case ("id", Num(k)) => n.(id := k)
    case ("title", Text(s)) => n.(title := s)
    case ("content", _) => n.(content := v)
    case ("published_at", Num(t)) => n.(publishedAt := t)
    case ("author_id", Num(a)) => n.(authorId := a)
    case ("cover", Text(s)) => n.(cover := Some(s))
    case ("cover", Null) => n.(cover := None)
    case _ => n
  }

  /** The item after `for k, v in data.items(): setattr(...)`: each column the
      patch names holds the last value given for it, and the others keep
      theirs. */
  function PatchNews(n: News, data: seq<(string, Value)>): (r: News)
    ensures FinalValue(data, "id").None? ==> r.id == n.id
    ensures FinalValue(data, "id").Some? && FinalValue(data, "id").value.Num? ==> r.id == FinalValue(data, "id").value.n
    ensures FinalValue(data, "title").None? ==> r.title == n.title
    ensures FinalValue(data, "title").Some? && FinalValue(data, "title").value.Text? ==> r.title == FinalValue(data, "title").value.s
    ensures FinalValue(data, "content").None? ==> r.content == n.content
    ensures FinalValue(data, "content").Some? ==> r.content == FinalValue(data, "content").value
    ensures FinalValue(data, "published_at").None? ==> r.publishedAt == n.publishedAt
    ensures FinalValue(data, "published_at").Some? && FinalValue(data, "published_at").value.Num? ==>
              r.publishedAt == FinalValue(data, "published_at").value.n
    ensures FinalValue(data, "author_id").None? ==> r.authorId == n.authorId
    ensures FinalValue(data, "author_id").Some? && FinalValue(data, "author_id").value.Num? ==>
              r.authorId == FinalValue(data, "author_id").value.n
    ensures FinalValue(data, "cover").None? ==> r.cover == n.cover
    ensures FinalValue(data, "cover").Some? && FinalValue(data, "cover").value.Text? ==> r.cover == Some(FinalValue(data, "cover").value.s)
    ensures FinalValue(data, "cover") == Some(Null) ==> r.cover == None
  {
    if data == [] then n
    else SetNewsAttr(PatchNews(n, data[..|data| - 1]), data[|data| - 1].0, data[|data| - 1].1)
  }

  /** `setattr(comment, key, value)`, on the same terms. */
  function SetCommentAttr(c: Comment, key: string, v: Value): (r: Comment)
    ensures key != "id" ==> r.id == c.id
    ensures key == "id" && v.Num? ==> r.id == v.n
    ensures key != "text" ==> r.text == c.text
    ensures key == "text" && v.Text? ==> r.text == v.s
    ensures key != "news_id" ==> r.newsId == c.newsId
    ensures key == "news_id" && v.Num? ==> r.newsId == v.n
    ensures key != "author_id" ==> r.authorId == c.authorId
    ensures key == "author_id" && v.Num? ==> r.authorId == v.n
    ensures key != "published_at" ==> r.publishedAt == c.publishedAt
    ensures key == "published_at" && v.Num? ==> r.publishedAt == v.n
  {
    match (key, v)
    case ("id", Num(k)) => c.(id := k)
    case ("text", Text(s)) => c.(text := s)
    case ("news_id", Num(i)) => c.(newsId := i)
    case ("author_id", Num(a)) => c.(authorId := a)
    case ("published_at", Num(t)) => c.(publishedAt := t)
    case _ => c
  }

  /** The comment after the patch loop, on the same terms as `PatchNews`. */
  function PatchComment(c: Comment, data: seq<(string, Value)>): (r: Comment)
    ensures FinalValue(data, "id").None? ==> r.id == c.id
    ensures FinalValue(data, "id").Some? && FinalValue(data, "id").value.Num? ==> r.id == FinalValue(data, "id").value.n
    ensures FinalValue(data, "text").None? ==> r.text == c.text
    ensures FinalValue(data, "text").Some? && FinalValue(data, "text").value.Text? ==> r.text == FinalValue(data, "text").value.s
    ensures FinalValue(data, "news_id").None? ==> r.newsId == c.newsId
    ensures FinalValue(data, "news_id").Some? && FinalValue(data, "news_id").value.Num? ==> r.newsId == FinalValue(data, "news_id").value.n
    ensures FinalValue(data, "author_id").None? ==> r.authorId == c.authorId
    ensures FinalValue(data, "author_id").Some? && FinalValue(data, "author_id").value.Num? ==>
              r.authorId == FinalValue(data, "author_id").value.n
    ensures FinalValue(data, "published_at").None? ==> r.publishedAt == c.publishedAt
    ensures FinalValue(data, "published_at").Some? && FinalValue(data, "published_at").value.Num? ==>
              r.publishedAt == FinalValue(data, "published_at").value.n
  {
    if data == [] then c
    else SetCommentAttr(PatchComment(c, data[..|data| - 1]), data[|data| - 1].0, data[|data| - 1].1)
  }

  /** A news patch is stored: it names no relationship, no NOT NULL column is
      left NULL, and the item's id, if rewritten, is no other item's. */
  predicate NewsPatchCommits(news: map<int, News>, newsId: int, data: seq<(string, Value)>)
    requires newsId in news
  {
    var p := PatchNews(news[newsId], data);
    !NamesAny(data, NewsRelations) && !WritesNull(data, NewsNotNull) && (p.id == newsId || p.id !in news)
  }

  /** The same for a comment patch. */
  predicate CommentPatchCommits(comments: map<int, Comment>, commentId: int, data: seq<(string, Value)>)
    requires commentId in comments
  {
    var p := PatchComment(comments[commentId], data);
    !NamesAny(data, CommentRelations) && !WritesNull(data, CommentNotNull) && (p.id == commentId || p.id !in comments)
  }

  /** A patch ending in `author_id` hands the item to another user, after
      which its first author can no longer change it. */
  lemma {:induction false} PatchCanReassignNews(n: News, data: seq<(string, Value)>, newAuthor: int)
    ensures PatchNews(n, data + [("author_id", Num(newAuthor))]).authorId == newAuthor
  {
    var d := data + [("author_id", Num(newAuthor))];
    assert d[..|d| - 1] == data;
  }

  /** The same holds for comments; a comment can also be moved under another
      news item. */
  lemma {:induction false} PatchCanReassignComment(c: Comment, data: seq<(string, Value)>, newAuthor: int, newsId: int)
    ensures PatchComment(c, data + [("news_id", Num(newsId)), ("author_id", Num(newAuthor))]).authorId == newAuthor
    ensures PatchComment(c, data + [("news_id", Num(newsId)), ("author_id", Num(newAuthor))]).newsId == newsId
  {
    var d := data + [("news_id", Num(newsId)), ("author_id", Num(newAuthor))];
    assert d[..|d| - 1] == data + [("news_id", Num(newsId))];
    assert d[..|d| - 1][..|d| - 2] == data;
  }

  // The checks, in the order the handlers make them

  /** `create_news`: only a verified author may publish; the admin flag does
      not count. */
  function CreateNewsCheck(user: Store.User): (r: Result<Store.User>)
    ensures r.Ok? <==> user.isAuthor
    ensures r.Err? ==> r.error == HttpError(Forbidden, NotAuthorDetail)
  {
    if !user.isAuthor then Err(HttpError(Forbidden, NotAuthorDetail)) else Ok(user)
  }

  /** `update_news` / `delete_news`: 404 for a missing item, checked first;
      then 403 unless the caller is its author. */
  function NewsWriteCheck(n: Option<News>, user: Store.User, forbidden: string): (r: Result<News>)
    ensures n.None? ==> r == Err(HttpError(NotFound, NewsNotFoundDetail))
    ensures r.Ok? <==> n.Some? && n.value.authorId == user.id
    ensures r.Ok? ==> r.value == n.value
    ensures n.Some? && r.Err? ==> r.error == HttpError(Forbidden, forbidden)
  {
    match n
    case None => Err(HttpError(NotFound, NewsNotFoundDetail))
    case Some(item) => if item.authorId != user.id then Err(HttpError(Forbidden, forbidden)) else Ok(item)
  }

  /** `create_comment`: an author-id mismatch gives 403 before the news item
      is looked up at all; a missing news item then gives 404. */
  function CommentCreateCheck(c: CommentIn, user: Store.User, newsExists: bool): (r: Result<CommentIn>)
    ensures c.authorId != user.id ==> r == Err(HttpError(Forbidden, AuthorMismatchDetail))
    ensures c.authorId == user.id && !newsExists ==> r == Err(HttpError(NotFound, NewsNotFoundDetail))
    ensures r.Ok? <==> c.authorId == user.id && newsExists
  {
    if c.authorId != user.id then Err(HttpError(Forbidden, AuthorMismatchDetail))
    else if !newsExists then Err(HttpError(NotFound, NewsNotFoundDetail))
    else Ok(c)
  }

  /** `update_comment` / `delete_comment`: 404 first, then author only. */
  function CommentWriteCheck(c: Option<Comment>, user: Store.User, forbidden: string): (r: Result<Comment>)
    ensures c.None? ==> r == Err(HttpError(NotFound, CommentNotFoundDetail))
    ensures r.Ok? <==> c.Some? && c.value.authorId == user.id
    ensures r.Ok? ==> r.value == c.value
    ensures c.Some? && r.Err? ==> r.error == HttpError(Forbidden, forbidden)
  {
    match c
    case None => Err(HttpError(NotFound, CommentNotFoundDetail))
    case Some(item) => if item.authorId != user.id then Err(HttpError(Forbidden, forbidden)) else Ok(item)
  }

  /** Being an admin changes none of these decisions. */
  lemma AdminGetsNoExemption(user: Store.User, admin: bool, n: Option<News>, c: Option<Comment>, ci: CommentIn,
                             newsExists: bool, forbidden: string)
    ensures CreateNewsCheck(user.(isAdmin := admin)).Ok? == CreateNewsCheck(user).Ok?
    ensures NewsWriteCheck(n, user.(isAdmin := admin), forbidden) == NewsWriteCheck(n, user, forbidden)
    ensures CommentWriteCheck(c, user.(isAdmin := admin), forbidden) == CommentWriteCheck(c, user, forbidden)
    ensures CommentCreateCheck(ci, user.(isAdmin := admin), newsExists) == CommentCreateCheck(ci, user, newsExists)
  {
  }

  /** The news and comment tables. */
  class ContentStore {
    var news: map<int, News>
    var comments: map<int, Comment>
    var nextNewsId: int
    var nextCommentId: int

    /** Each row is stored under its own id, below the next id handed out. */
    ghost predicate Valid()
      reads this
    {
      && 1 <= nextNewsId && 1 <= nextCommentId
      && (forall id :: id in news ==> news[id].id == id && id < nextNewsId)
      && (forall id :: id in comments ==> comments[id].id == id && id < nextCommentId)
    }

    constructor ()
      ensures Valid() && news == map[] && comments == map[]
    {
      news, comments := map[], map[];
      nextNewsId, nextCommentId := 1, 1;
    }

    function GetNews(newsId: int): (r: Option<News>)
      reads this
      ensures r.Some? <==> newsId in news
      ensures r.Some? ==> r.value == news[newsId]
    {
      if newsId in news then Some(news[newsId]) else None
    }

    function GetComment(commentId: int): (r: Option<Comment>)
      reads this
      ensures r.Some? <==> commentId in comments
      ensures r.Some? ==> r.value == comments[commentId]
    {
      if commentId in comments then Some(comments[commentId]) else None
    }

    /** `read_news(news_id)`: public; 404 for a missing id. */
    function ReadNews(newsId: int): (r: Result<News>)
      reads this
      ensures r.Ok? <==> newsId in news
      ensures r.Ok? ==> r.value == news[newsId]
      ensures Valid() && r.Ok? ==> r.value.id == newsId
      ensures r.Err? ==> r.error == HttpError(NotFound, NewsNotFoundDetail)
    {
      if newsId in news then Ok(news[newsId]) else Err(HttpError(NotFound, NewsNotFoundDetail))
    }

    /** `create_news(news_in)`: 403 for a caller who is not a verified author;
        otherwise a new item whose author is the caller. */
    method CreateNews(newsIn: Schemas.NewsCreate, user: Store.User, now: int) returns (r: Result<News>)
      requires Valid()
      modifies this
      ensures Valid()
      ensures r.Ok? <==> user.isAuthor
      ensures !user.isAuthor ==> r == Err(HttpError(Forbidden, NotAuthorDetail)) && news == old(news)
      ensures r.Ok? ==> r.value == News(old(nextNewsId), newsIn.title, newsIn.content, now, user.id, newsIn.cover)
                        && old(nextNewsId) !in old(news) && news == old(news)[r.value.id := r.value]
      ensures comments == old(comments) && nextCommentId == old(nextCommentId)
    {
      var check := CreateNewsCheck(user);
      if check.Err? {
        return Err(check.error);
      }
      var n := News(nextNewsId, newsIn.title, newsIn.content, now, user.id, newsIn.cover);
      news := news[n.id := n];
      nextNewsId := nextNewsId + 1;
      r := Ok(n);
    }

    /** `update_news(news_id, news_in)`: the checks, then the patch and the
        commit. A commit that a constraint rejects is a 500 and stores
        nothing; a rewritten id moves the item to its new key. */
    method UpdateNews(newsId: int, data: seq<(string, Value)>, user: Store.User) returns (r: Result<News>)
      requires Valid()
      modifies this
      ensures Valid()
      ensures NewsWriteCheck(old(GetNews(newsId)), user, OnlyAuthorUpdate).Err? ==>
                r == NewsWriteCheck(old(GetNews(newsId)), user, OnlyAuthorUpdate)
      ensures NewsWriteCheck(old(GetNews(newsId)), user, OnlyAuthorUpdate).Ok? && !NewsPatchCommits(old(news), newsId, data) ==>
                r == Err(CommitError)
      ensures r.Err? ==> news == old(news) && nextNewsId == old(nextNewsId)
      ensures r.Ok? <==> NewsWriteCheck(old(GetNews(newsId)), user, OnlyAuthorUpdate).Ok? && NewsPatchCommits(old(news), newsId, data)
      ensures r.Ok? ==> r.value == PatchNews(old(news)[newsId], data)
                        && news == (old(news) - {newsId})[r.value.id := r.value]
                        && nextNewsId == if r.value.id < old(nextNewsId) then old(nextNewsId) else r.value.id + 1
      ensures comments == old(comments) && nextCommentId == old(nextCommentId)
    {
      var check := NewsWriteCheck(GetNews(newsId), user, OnlyAuthorUpdate);
      if check.Err? {
        return check;
      }
      if !NewsPatchCommits(news, newsId, data) {
        return Err(CommitError);
      }
      var n := PatchNews(check.value, data);
      news := (news - {newsId})[n.id := n];
      if nextNewsId <= n.id {
        nextNewsId := n.id + 1;
      }
      r := Ok(n);
    }

    /** `delete_news(news_id)`: on success the item goes, together with its
        comments (the ORM cascade), and the result is `{"ok": True}`. */
    method DeleteNews(newsId: int, user: Store.User) returns (r: Result<bool>)
      requires Valid()
      modifies this
      ensures Valid()
      ensures r.Err? ==> NewsWriteCheck(old(GetNews(newsId)), user, OnlyAuthorDelete) == Err(r.error)
                         && news == old(news) && comments == old(comments)
      ensures r.Ok? <==> NewsWriteCheck(old(GetNews(newsId)), user, OnlyAuthorDelete).Ok?
      ensures r.Ok? ==> r.value && news == old(news) - {newsId}
                        && (forall id :: id in comments <==> id in old(comments) && old(comments)[id].newsId != newsId)
                        && (forall id :: id in comments ==> comments[id] == old(comments)[id])
      ensures nextNewsId == old(nextNewsId) && nextCommentId == old(nextCommentId)
    {
      var check := NewsWriteCheck(GetNews(newsId), user, OnlyAuthorDelete);
      if check.Err? {
        return Err(check.error);
      }
      news := news - {newsId};
      comments := map id | id in comments && comments[id].newsId != newsId :: comments[id];
      r := Ok(true);
    }

    /** `create_comment(comment_in)`. */
    method CreateComment(commentIn: CommentIn, user: Store.User, now: int) returns (r: Result<Comment>)
      requires Valid()
      modifies this
      ensures Valid()
      ensures r.Err? ==> CommentCreateCheck(commentIn, user, commentIn.newsId in old(news)) == Err(r.error)
                         && comments == old(comments)
      ensures r.Ok? <==> CommentCreateCheck(commentIn, user, commentIn.newsId in old(news)).Ok?
      ensures r.Ok? ==> r.value == Comment(old(nextCommentId), commentIn.text, commentIn.newsId, commentIn.authorId, now)
                        && old(nextCommentId) !in old(comments) && comments == old(comments)[r.value.id := r.value]
      ensures news == old(news) && nextNewsId == old(nextNewsId)
    {
      var check := CommentCreateCheck(commentIn, user, GetNews(commentIn.newsId).Some?);
      if check.Err? {
        return Err(check.error);
      }
      var c := Comment(nextCommentId, commentIn.text, commentIn.newsId, commentIn.authorId, now);
      comments := comments[c.id := c];
      nextCommentId := nextCommentId + 1;
      r := Ok(c);
    }

    /** `update_comment(comment_id, payload)`, on the terms of `UpdateNews`. */
    method UpdateComment(commentId: int, data: seq<(string, Value)>, user: Store.User) returns (r: Result<Comment>)
      requires Valid()
      modifies this
      ensures Valid()
      ensures CommentWriteCheck(old(GetComment(commentId)), user, OnlyAuthorUpdate).Err? ==>
                r == CommentWriteCheck(old(GetComment(commentId)), user, OnlyAuthorUpdate)
      ensures CommentWriteCheck(old(GetComment(commentId)), user, OnlyAuthorUpdate).Ok? && !CommentPatchCommits(old(comments), commentId, data) ==>
                r == Err(CommitError)
      ensures r.Err? ==> comments == old(comments) && nextCommentId == old(nextCommentId)
      ensures r.Ok? <==> CommentWriteCheck(old(GetComment(commentId)), user, OnlyAuthorUpdate).Ok?
                         && CommentPatchCommits(old(comments), commentId, data)
      ensures r.Ok? ==> r.value == PatchComment(old(comments)[commentId], data)
                        && comments == (old(comments) - {commentId})[r.value.id := r.value]
                        && nextCommentId == if r.value.id < old(nextCommentId) then old(nextCommentId) else r.value.id + 1
      ensures news == old(news) && nextNewsId == old(nextNewsId)
    {
      var check := CommentWriteCheck(GetComment(commentId), user, OnlyAuthorUpdate);
      if check.Err? {
        return check;
      }
      if !CommentPatchCommits(comments, commentId, data) {
        return Err(CommitError);
      }
      var c := PatchComment(check.value, data);
      comments := (comments - {commentId})[c.id := c];
      if nextCommentId <= c.id {
        nextCommentId := c.id + 1;
      }
      r := Ok(c);
    }

    /** `delete_comment(comment_id)`. */
    method DeleteComment(commentId: int, user: Store.User) returns (r: Result<bool>)
      requires Valid()
      modifies this
      ensures Valid()
      ensures r.Err? ==> CommentWriteCheck(old(GetComment(commentId)), user, OnlyAuthorDelete) == Err(r.error)
                         && comments == old(comments)
      ensures r.Ok? <==> CommentWriteCheck(old(GetComment(commentId)), user, OnlyAuthorDelete).Ok?
      ensures r.Ok? ==> r.value && comments == old(comments) - {commentId}
      ensures news == old(news) && nextNewsId == old(nextNewsId) && nextCommentId == old(nextCommentId)
    {
      var check := CommentWriteCheck(GetComment(commentId), user, OnlyAuthorDelete);
      if check.Err? {
        return Err(check.error);
      }
      comments := comments - {commentId};
      r := Ok(true);
    }
  }
}
