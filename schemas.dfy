/** The request and response shapes of `app/schemas.py` and the length
    constraints its pydantic fields declare. A request body reaches a handler
    only after these checks pass; the error list below is what the framework
    reports instead (one entry per failing field, in declaration order).
    `EmailStr` checking is not part of this model. */
module Schemas {
  import opened Common

  /** A `Field(min_length=..., max_length=...)` constraint on a string. */
  datatype StrField = StrField(minLength: nat, maxLength: Option<nat>)

  predicate Satisfies(s: string, f: StrField)
  {
    f.minLength <= |s| && (f.maxLength.None? || |s| <= f.maxLength.value)
  }

  const UserNameField := StrField(1, Some(128))
  const PasswordField := StrField(6, None)
  const NewsTitleField := StrField(1, Some(255))
  const CommentTextField := StrField(1, None)

  datatype UserCreate = UserCreate(name: string, email: string, password: string)
  datatype UserLogin = UserLogin(email: string, password: string)
  datatype NewsCreate = NewsCreate(title: string, content: Value, cover: Option<string>)
  datatype CommentCreate = CommentCreate(text: string, newsId: int)

  /** The failing fields of a registration body (`UserBase` + `UserCreate`). */
  function UserCreateErrors(u: UserCreate): (errors: seq<string>)
    ensures "name" in errors <==> !(1 <= |u.name| <= 128)
    ensures "password" in errors <==> |u.password| < 6
    ensures forall e :: e in errors ==> e == "name" || e == "password"
  {
    (if Satisfies(u.name, UserNameField) then [] else ["name"])
    + (if Satisfies(u.password, PasswordField) then [] else ["password"])
  }

  predicate ValidUserCreate(u: UserCreate)
  {
    UserCreateErrors(u) == []
  }

  /** `UserLogin` declares no length constraint: every password is accepted
      in the body, even one too short to register with. */
  function UserLoginErrors(u: UserLogin): (errors: seq<string>)
    ensures errors == []
  {
    []
  }

  /** The failing fields of a news body (`NewsBase`). */
  function NewsCreateErrors(n: NewsCreate): (errors: seq<string>)
    ensures errors == [] <==> 1 <= |n.title| <= 255
    ensures forall e :: e in errors ==> e == "title"
  {
    if Satisfies(n.title, NewsTitleField) then [] else ["title"]
  }

  /** The failing fields of a comment body (`CommentBase`). */
  function CommentCreateErrors(c: CommentCreate): (errors: seq<string>)
    ensures errors == [] <==> |c.text| >= 1
    ensures forall e :: e in errors ==> e == "text"
  {
    if Satisfies(c.text, CommentTextField) then [] else ["text"]
  }

  /** A registration that passes validation also passes login validation,
      but not the other way round. */
  lemma LoginLaxerThanRegistration(name: string, email: string)
    ensures ValidUserCreate(UserCreate(name, email, "123456")) <==> 1 <= |name| <= 128
    ensures UserLoginErrors(UserLogin(email, "")) == []
    ensures !ValidUserCreate(UserCreate(name, email, ""))
  {
    assert "password" in UserCreateErrors(UserCreate(name, email, ""));
  }

  /** `Token`: the pair returned by register, login, refresh and the OAuth callback. */
  datatype TokenPair = TokenPair(accessToken: string, refreshToken: string, tokenType: string)

  const DefaultTokenType := "bearer"

  /** `Token(access_token=a, refresh_token=r)` with `token_type` left to its default. */
  function MakeToken(access: string, refresh: string): (t: TokenPair)
    ensures t.tokenType == "bearer"
    ensures t.accessToken == access && t.refreshToken == refresh
  {
    TokenPair(access, refresh, DefaultTokenType)
  }

  /** `SessionRead`: one row of the session listing. */
  datatype SessionRead = SessionRead(id: int, userAgent: Option<string>, createdAt: int, expiresAt: int)
}
