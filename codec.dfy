/** The token codec and the password hasher of `app/auth.py`, abstracted.

    A token is the text of its claim set: `typ.user_id.exp.jti`, decimal
    numbers, an empty field for an absent claim. The HS256 signature is not
    modelled: every well-formed text decodes. What matters to the callers is
    kept: decoding returns the issued claims until `exp`, and `None` for
    anything malformed or expired; and, as with a deterministic signature over
    the same claims, equal claim sets give equal tokens. Times are whole
    seconds since the epoch, as python-jose encodes `exp`. */
module Codec {
  import opened Common
  import Text

  const AccessTokenExpireMinutes := 30
  const RefreshTokenExpireDays := 7
  const AccessTokenLifetime := AccessTokenExpireMinutes * 60
  const RefreshTokenLifetime := RefreshTokenExpireDays * 24 * 60 * 60

  const AccessType := "access"
  const RefreshType := "refresh"

  /** A decoded payload: the `type`, `user_id`, `exp` and `jti` claims. */
  datatype Claims = Claims(typ: string, userId: Option<int>, exp: int, jti: Option<int>)

  predicate Encodable(c: Claims)
  {
    '.' !in c.typ
  }

  function OptionalField(o: Option<int>): (s: string)
    ensures '.' !in s
  {
    match o
    case None => ""
    case Some(i) => Text.IntToString(i)
  }

  function ParseOptionalField(s: string): Option<Option<int>>
  {
    if s == "" then Some(None)
    else match Text.ParseInt(s)
      case None => None
      case Some(i) => Some(Some(i))
  }

  lemma ParseOptionalFieldOf(o: Option<int>)
    ensures ParseOptionalField(OptionalField(o)) == Some(o)
  {
    if o.Some? {
      Text.ParseIntToString(o.value);
    }
  }

  /** The token text of a claim set, from which parsing recovers that claim
      set exactly. */
  function Encode(c: Claims): (t: string)
    ensures Encodable(c) ==> ParseClaims(t) == Some(c)
  {
    var u, e, j := OptionalField(c.userId), Text.IntToString(c.exp), OptionalField(c.jti);
    var t := c.typ + "." + u + "." + e + "." + j;
    if Encodable(c) then
      assert t == c.typ + ['.'] + (u + ['.'] + (e + ['.'] + j));
      Text.SplitJoin(c.typ, '.', u + ['.'] + (e + ['.'] + j));
      Text.SplitJoin(u, '.', e + ['.'] + j);
      Text.SplitJoin(e, '.', j);
      Text.SplitWithoutSeparator(j, '.');
      assert Text.Split(t, '.') == [c.typ, u, e, j];
      ParseOptionalFieldOf(c.userId);
      ParseOptionalFieldOf(c.jti);
      Text.ParseIntToString(c.exp);
      t
    else t
  }

  /** The claim set a token text carries, whatever its expiry: four
      dot-separated fields, so the type it reads has no dot in it. */
  function ParseClaims(token: string): (r: Option<Claims>)
    ensures r.Some? ==> |Text.Split(token, '.')| == 4 && Encodable(r.value)
  {
    var parts := Text.Split(token, '.');
    if |parts| != 4 then None
    else match (ParseOptionalField(parts[1]), Text.ParseInt(parts[2]), ParseOptionalField(parts[3]))
      case (Some(uid), Some(exp), Some(jti)) => Some(Claims(parts[0], uid, exp, jti))
      case _ => None
  }

  /** `decode_token`: the payload of a well-formed token that has not expired,
      `None` otherwise (python-jose rejects a token once `exp < now`). */
  function Decode(token: string, now: int): (r: Option<Claims>)
    ensures r.Some? ==> now <= r.value.exp && ParseClaims(token) == r
  {
    match ParseClaims(token)
    case None => None
    case Some(c) => if c.exp < now then None else Some(c)
  }

  /** Round trip: a token decodes to exactly the claims it was issued with,
      up to and including its expiry second, and to nothing afterwards. */
  lemma DecodeEncode(c: Claims, now: int)
    requires Encodable(c)
    ensures Decode(Encode(c), now) == if now <= c.exp then Some(c) else None
  {
  }

  /** Distinct claim sets give distinct tokens. */
  lemma EncodeInjective(c: Claims, d: Claims)
    requires Encodable(c) && Encodable(d)
    ensures Encode(c) == Encode(d) ==> c == d
  {
  }

  /** `create_access_token({"user_id": uid})` at time `now`. */
  function IssueAccess(userId: int, now: int): (token: string)
    ensures Decode(token, now) == Some(Claims(AccessType, Some(userId), now + AccessTokenLifetime, None))
    ensures Decode(token, now + AccessTokenLifetime + 1) == None
  {
    var c := Claims(AccessType, Some(userId), now + AccessTokenLifetime, None);
    DecodeEncode(c, now);
    DecodeEncode(c, now + AccessTokenLifetime + 1);
    Encode(c)
  }

  /** `create_refresh_token()` as written: the claims are only `type` and
      `exp`, so the token is a function of the second it is issued in. */
  function IssueRefreshAsWritten(now: int): (token: string)
    ensures Decode(token, now) == Some(Claims(RefreshType, None, now + RefreshTokenLifetime, None))
  {
    var c := Claims(RefreshType, None, now + RefreshTokenLifetime, None);
    DecodeEncode(c, now);
    Encode(c)
  }

  /** The corrected refresh token: the same claims plus a `jti` that the
      issuer never repeats, so two tokens are equal only if their ids are. */
  function IssueRefresh(now: int, jti: nat): (token: string)
    ensures Decode(token, now) == Some(Claims(RefreshType, None, now + RefreshTokenLifetime, Some(jti)))
    ensures JtiOf(token) == Some(jti as int)
  {
    var c := Claims(RefreshType, None, now + RefreshTokenLifetime, Some(jti));
    DecodeEncode(c, now);
    Encode(c)
  }

  /** Refresh tokens with different ids differ, even within one second. */
  lemma IssuedRefreshTokensDistinct(now: int, later: int, a: nat, b: nat)
    ensures IssueRefresh(now, a) == IssueRefresh(later, b) ==> a == b
  {
  }

  /** The unique id a token carries, if it is well formed and has one. */
  function JtiOf(token: string): Option<int>
  {
    match ParseClaims(token)
    case None => None
    case Some(c) => c.jti
  }

  /** As written, a refresh token is determined by the second it is issued
      in and nothing else: two issued in the same second are equal, whoever
      they are for, and two issued in different seconds differ. */
  lemma RefreshTokenDeterminedBySecond(a: int, b: int)
    ensures IssueRefreshAsWritten(a) == IssueRefreshAsWritten(b) <==> a == b
  {
    EncodeInjective(Claims(RefreshType, None, a + RefreshTokenLifetime, None),
                    Claims(RefreshType, None, b + RefreshTokenLifetime, None));
  }

  /** An access token is never accepted where a refresh token is expected,
      and the other way round. */
  lemma TokenKindsDiffer(userId: int, now: int, jti: nat, at: int)
    ensures Decode(IssueAccess(userId, now), at).Some? ==> Decode(IssueAccess(userId, now), at).value.typ == AccessType
    ensures Decode(IssueRefresh(now, jti), at).Some? ==> Decode(IssueRefresh(now, jti), at).value.typ == RefreshType
  {
    DecodeEncode(Claims(AccessType, Some(userId), now + AccessTokenLifetime, None), at);
    DecodeEncode(Claims(RefreshType, None, now + RefreshTokenLifetime, Some(jti)), at);
  }

  // Password hashing (argon2 through passlib), modelled as an injective tag.

  const HashScheme := "$argon2id$"

  /** `get_password_hash(password)`. */
  function Hash(password: string): (h: string)
    ensures h != password
    ensures |h| > |password|
  {
    HashScheme + password
  }

  /** `verify_password(plain, hashed)`: never fails, false on any mismatch;
      in particular a password stored unhashed never verifies. */
  predicate Verify(plain: string, hashed: string): (ok: bool)
    ensures ok ==> hashed != plain && |hashed| > |plain|
  {
    hashed == Hash(plain)
  }

  /** A stored hash verifies exactly the password it was made from. */
  lemma VerifyHash(plain: string, password: string)
    ensures Verify(plain, Hash(password)) <==> plain == password
  {
    if Verify(plain, Hash(password)) {
      assert plain == Hash(plain)[|HashScheme|..];
      assert password == Hash(password)[|HashScheme|..];
    }
  }
}
