/** The claim sets of the three token kinds and the signed encoding around them.
    The signature scheme (HS256 under the shared secret) is an abstract codec:
    `encode` signs a claim set, `decode` returns the claim set of a string that
    carries a valid signature and None for anything else. */
module AuthTokens {
  import opened Outcomes

  datatype ClaimValue = Str(s: string) | Num(n: int) | Null

  type Claims = map<string, ClaimValue>

  datatype Codec = Codec(encode: Claims -> string, decode: string -> Option<Claims>)

  /** What the signing library guarantees: a claim set it signed decodes back. */
  ghost predicate RoundTrips(codec: Codec) {
    forall c {:trigger codec.encode(c)} :: codec.decode(codec.encode(c)) == Some(c)
  }

  // Default lifetimes, in seconds.
  const JwtExpirationSeconds: int := 3600
  const RefreshTokenExpirationSeconds: int := 7 * 24 * 60 * 60
  const EmailTokenLifetimeSeconds: int := 7 * 24 * 60 * 60

  const AccessKind: string := "access"
  const RefreshKind: string := "refresh"

  /** The lifetime a token builder applies: an `expires_delta` that is None or 0
      is falsy, so the default is used. */
  function Lifetime(expiresDelta: Option<int>, default: int): (seconds: int)
    ensures expiresDelta == None || expiresDelta == Some(0) ==> seconds == default
    ensures expiresDelta.Some? && expiresDelta.value != 0 ==> seconds == expiresDelta.value
  {
    if expiresDelta.Some? && expiresDelta.value != 0 then expiresDelta.value else default
  }

  /** A copy of `data` with `exp`, `iat` and `token_type` set; `data` itself, a
      value, is untouched. */
  function SessionClaims(data: Claims, kind: string, lifetime: int, now: int): (c: Claims)
    ensures c.Keys == data.Keys + {"exp", "iat", "token_type"}
    ensures forall k :: k in data && k != "exp" && k != "iat" && k != "token_type" ==> c[k] == data[k]
    ensures c["exp"] == Num(now + lifetime) && c["iat"] == Num(now) && c["token_type"] == Str(kind)
  {
    data["exp" := Num(now + lifetime)]["iat" := Num(now)]["token_type" := Str(kind)]
  }

  /** The claims of `create_access_token`. */
  function AccessClaims(data: Claims, expiresDelta: Option<int>, now: int): (c: Claims)
    ensures c.Keys == data.Keys + {"exp", "iat", "token_type"}
    ensures forall k :: k in data && k != "exp" && k != "iat" && k != "token_type" ==> c[k] == data[k]
    ensures c["token_type"] == Str(AccessKind) && c["iat"] == Num(now)
    ensures c["exp"] == Num(now + Lifetime(expiresDelta, JwtExpirationSeconds))
  {
    SessionClaims(data, AccessKind, Lifetime(expiresDelta, JwtExpirationSeconds), now)
  }

  /** The claims of `create_refresh_token`. */
  function RefreshClaims(data: Claims, expiresDelta: Option<int>, now: int): (c: Claims)
    ensures c.Keys == data.Keys + {"exp", "iat", "token_type"}
    ensures forall k :: k in data && k != "exp" && k != "iat" && k != "token_type" ==> c[k] == data[k]
    ensures c["token_type"] == Str(RefreshKind) && c["iat"] == Num(now)
    ensures c["exp"] == Num(now + Lifetime(expiresDelta, RefreshTokenExpirationSeconds))
  {
    SessionClaims(data, RefreshKind, Lifetime(expiresDelta, RefreshTokenExpirationSeconds), now)
  }

  /** The claims of `create_email_token`: seven days, and no `token_type`. */
  function EmailClaims(data: Claims, now: int): (c: Claims)
    ensures c.Keys == data.Keys + {"exp", "iat"}
    ensures forall k :: k in data && k != "exp" && k != "iat" ==> c[k] == data[k]
    ensures c["exp"] == Num(now + EmailTokenLifetimeSeconds) && c["iat"] == Num(now)
    ensures "token_type" in c <==> "token_type" in data
  {
    data["iat" := Num(now)]["exp" := Num(now + EmailTokenLifetimeSeconds)]
  }

  /** `create_access_token`: the signed access claims. */
  function CreateAccessToken(codec: Codec, data: Claims, expiresDelta: Option<int>, now: int): (t: string)
    ensures RoundTrips(codec) ==> codec.decode(t) == Some(AccessClaims(data, expiresDelta, now))
  {
    var c := AccessClaims(data, expiresDelta, now);
    assert RoundTrips(codec) ==> codec.decode(codec.encode(c)) == Some(c);
    codec.encode(c)
  }

  /** `create_refresh_token`: the signed refresh claims. */
  function CreateRefreshToken(codec: Codec, data: Claims, expiresDelta: Option<int>, now: int): (t: string)
    ensures RoundTrips(codec) ==> codec.decode(t) == Some(RefreshClaims(data, expiresDelta, now))
  {
    var c := RefreshClaims(data, expiresDelta, now);
    assert RoundTrips(codec) ==> codec.decode(codec.encode(c)) == Some(c);
    codec.encode(c)
  }

  /** `create_email_token`: the signed email claims. */
  function CreateEmailToken(codec: Codec, data: Claims, now: int): (t: string)
    ensures RoundTrips(codec) ==> codec.decode(t) == Some(EmailClaims(data, now))
  {
    var c := EmailClaims(data, now);
    assert RoundTrips(codec) ==> codec.decode(codec.encode(c)) == Some(c);
    codec.encode(c)
  }

  /** The claim set `{"sub": subject}` the application signs. */
  function SubjectData(subject: string): Claims {
    map["sub" := Str(subject)]
  }

  /** The library's expiry check: a token with an `exp` claim is refused once
      the clock is past it, or when `exp` is not an integer. */
  predicate ExpiryAccepts(c: Claims, now: int) {
    "exp" !in c || (c["exp"].Num? && now <= c["exp"].n)
  }

  /** The library's subject check: a `sub` claim, when present, must be a
      string (a JSON null or a number is refused). */
  predicate SubjectAccepts(c: Claims) {
    "sub" !in c || c["sub"].Str?
  }

  /** The library's issued-at check: an `iat` claim, when present, must be an integer. */
  predicate IssuedAtAccepts(c: Claims) {
    "iat" !in c || c["iat"].Num?
  }

  /** The library's not-before check: an `nbf` claim, when present, must be an
      integer no later than the clock. */
  predicate NotBeforeAccepts(c: Claims, now: int) {
    "nbf" !in c || (c["nbf"].Num? && c["nbf"].n <= now)
  }

  /** The library's audience check: the application names no audience, so a
      token that carries an `aud` claim is refused whatever it holds. */
  predicate AudienceAccepts(c: Claims) {
    "aud" !in c
  }

  /** The library's token-id check: a `jti` claim, when present, must be a string. */
  predicate TokenIdAccepts(c: Claims) {
    "jti" !in c || c["jti"].Str?
  }

  /** The library's `at_hash` check: the application passes no access token to
      compare against, so a token that carries `at_hash` is refused. */
  predicate AtHashAccepts(c: Claims) {
    "at_hash" !in c
  }

  /** The checks on the claims a token builder copies from its data unchanged
      (every default check except those on `exp` and `iat`, which it sets itself). */
  predicate DataClaimsAccepted(c: Claims, now: int) {
    && NotBeforeAccepts(c, now)
    && AudienceAccepts(c)
    && SubjectAccepts(c)
    && TokenIdAccepts(c)
    && AtHashAccepts(c)
  }

  /** Every claim check `jwt.decode` runs by default when given no audience,
      issuer, subject or access token. */
  predicate ClaimsAccepted(c: Claims, now: int) {
    IssuedAtAccepts(c) && ExpiryAccepts(c, now) && DataClaimsAccepted(c, now)
  }

  /** An accepted token stays accepted at every earlier instant, and one
      with an integer `exp` is refused from the second after it on. */
  lemma ExpiryIsInclusive(c: Claims, now: int, later: int)
    requires now <= later && ExpiryAccepts(c, later)
    ensures ExpiryAccepts(c, now)
    ensures "exp" in c ==> !ExpiryAccepts(c, c["exp"].n + 1)
  {
  }

  /** `jwt.decode`: the signature check, then the default claim checks. */
  function Decode(codec: Codec, token: string, now: int): (r: Option<Claims>)
    ensures r.Some? <==>
              && codec.decode(token).Some?
              && IssuedAtAccepts(codec.decode(token).value)
              && NotBeforeAccepts(codec.decode(token).value, now)
              && ExpiryAccepts(codec.decode(token).value, now)
              && AudienceAccepts(codec.decode(token).value)
              && SubjectAccepts(codec.decode(token).value)
              && TokenIdAccepts(codec.decode(token).value)
              && AtHashAccepts(codec.decode(token).value)
    ensures r.Some? ==> codec.decode(token) == r
  {
    match codec.decode(token)
    case None => None
    case Some(c) => if ClaimsAccepted(c, now) then Some(c) else None
  }

  /** An access token whose data passes the checks on the claims it copies decodes to
      its claims until its expiry, and not after. */
  lemma AccessTokenLifetime(codec: Codec, data: Claims, expiresDelta: Option<int>, now: int, later: int)
    requires RoundTrips(codec) && DataClaimsAccepted(data, later)
    ensures var t := CreateAccessToken(codec, data, expiresDelta, now);
            Decode(codec, t, later) ==
              if later <= now + Lifetime(expiresDelta, JwtExpirationSeconds)
              then Some(AccessClaims(data, expiresDelta, now)) else None
  {
    var c := AccessClaims(data, expiresDelta, now);
    assert codec.decode(codec.encode(c)) == Some(c);
  }

  /** A refresh token whose data passes the checks on the claims it copies decodes to
      its claims until its expiry, and not after. */
  lemma RefreshTokenLifetime(codec: Codec, data: Claims, expiresDelta: Option<int>, now: int, later: int)
    requires RoundTrips(codec) && DataClaimsAccepted(data, later)
    ensures var t := CreateRefreshToken(codec, data, expiresDelta, now);
            Decode(codec, t, later) ==
              if later <= now + Lifetime(expiresDelta, RefreshTokenExpirationSeconds)
              then Some(RefreshClaims(data, expiresDelta, now)) else None
  {
    var c := RefreshClaims(data, expiresDelta, now);
    assert codec.decode(codec.encode(c)) == Some(c);
  }

  /** An email token whose data passes the checks on the claims it copies decodes to
      its claims for seven days, and not after. */
  lemma EmailTokenLifetime(codec: Codec, data: Claims, now: int, later: int)
    requires RoundTrips(codec) && DataClaimsAccepted(data, later)
    ensures var t := CreateEmailToken(codec, data, now);
            Decode(codec, t, later) ==
              if later <= now + EmailTokenLifetimeSeconds then Some(EmailClaims(data, now)) else None
  {
    var c := EmailClaims(data, now);
    assert codec.decode(codec.encode(c)) == Some(c);
  }

  /** The token kinds are distinguishable: an access token is never a refresh token. */
  lemma AccessTokenIsNotRefreshToken(codec: Codec, d1: Claims, e1: Option<int>, n1: int,
                                     d2: Claims, e2: Option<int>, n2: int)
    requires RoundTrips(codec)
    ensures CreateAccessToken(codec, d1, e1, n1) != CreateRefreshToken(codec, d2, e2, n2)
  {
    var a, r := AccessClaims(d1, e1, n1), RefreshClaims(d2, e2, n2);
    assert codec.decode(codec.encode(a)) == Some(a);
    assert codec.decode(codec.encode(r)) == Some(r);
    assert a["token_type"] != r["token_type"];
  }

  /** A zero delta is falsy: it gives the same claims as no delta. */
  lemma ZeroDeltaMeansDefault(data: Claims, now: int)
    ensures AccessClaims(data, Some(0), now) == AccessClaims(data, None, now)
    ensures RefreshClaims(data, Some(0), now) == RefreshClaims(data, None, now)
  {
  }
}
