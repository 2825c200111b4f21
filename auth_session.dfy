/** Identity resolution: the refresh-token check, the cache-then-store lookup
    behind every authenticated route, and the admin gate. */
module AuthSession {
  import opened Outcomes
  import opened Models
  import opened UserRepository
  import opened AuthTokens

  /** `credentials_exception`. */
  const CredentialsError: ApiError := HttpError(401, "Could not validate credentials")
  /** `payload["sub"]` on a payload without a subject: a KeyError, which the
      `except JWTError` clause does not catch. */
  const MissingSubject: ApiError := ServerError("KeyError: 'sub'")
  /** `user.refresh_token` on a missing user: an AttributeError. */
  const MissingUser: ApiError := ServerError("AttributeError: 'NoneType' object has no attribute 'refresh_token'")
  const ForbiddenError: ApiError := HttpError(403, "User does not have enough permissions")

  /** The lifetime of a cached session, in seconds. */
  const SessionTtlSeconds: int := 3600

  /** A decoded token together with the username in its `sub` claim. */
  datatype Subject = Subject(claims: Claims, username: string)

  /** The step both resolvers begin with: decode the token and read `sub`.
      The library has already refused a `sub` that is not a string, so the
      `username is None` test in the source never fires. */
  function DecodeSubject(codec: Codec, token: string, now: int): (r: Result<Subject, ApiError>)
    ensures Decode(codec, token, now).None? ==> r == Failure(CredentialsError)
    ensures (Decode(codec, token, now).Some? && "sub" !in Decode(codec, token, now).value) ==> r == Failure(MissingSubject)
    ensures r.Success? <==> Decode(codec, token, now).Some? && "sub" in Decode(codec, token, now).value
    ensures r.Success? ==> Decode(codec, token, now) == Some(r.value.claims)
                           && r.value.claims["sub"] == Str(r.value.username)
    ensures r.Failure? ==> r.error == CredentialsError || r.error == MissingSubject
  {
    match Decode(codec, token, now)
    case None => Failure(CredentialsError)
    case Some(claims) =>
      if "sub" !in claims then Failure(MissingSubject)
      else Success(Subject(claims, claims["sub"].s))
  }

  /** Whether a decoded payload says it is a refresh token (`payload.get("token_type")`). */
  predicate IsRefreshKind(claims: Claims) {
    "token_type" in claims && claims["token_type"] == Str(RefreshKind)
  }

  /** `verify_refresh_token` as written: a subject without a row crashes on
      `user.refresh_token`. */
  function VerifyRefreshTokenAsWritten(codec: Codec, token: string, now: int, users: seq<User>): (r: Result<User, ApiError>)
    ensures r.Success? ==> r.value in users && r.value.refreshToken == Some(token)
    ensures r.Failure? ==> r.error == CredentialsError || r.error == MissingSubject || r.error == MissingUser
    ensures r == Failure(MissingUser) <==>
              && DecodeSubject(codec, token, now).Success?
              && IsRefreshKind(DecodeSubject(codec, token, now).value.claims)
              && GetUserByUsername(users, DecodeSubject(codec, token, now).value.username).None?
  {
    match DecodeSubject(codec, token, now)
    case Failure(e) => Failure(e)
    case Success(subject) =>
      if !IsRefreshKind(subject.claims) then Failure(CredentialsError)
      else match GetUserByUsername(users, subject.username)
        case None => Failure(MissingUser)
        case Some(u) => if u.refreshToken != Some(token) then Failure(CredentialsError) else Success(u)
  }

  /** `verify_refresh_token`, with a subject that has no row refused like any
      other bad token. A token is accepted exactly when it decodes, names a
      subject, is of the refresh kind and is the very string stored on that user. */
  function VerifyRefreshToken(codec: Codec, token: string, now: int, users: seq<User>): (r: Result<User, ApiError>)
    ensures DecodeSubject(codec, token, now).Failure? ==> r == Failure(DecodeSubject(codec, token, now).error)
    ensures (DecodeSubject(codec, token, now).Success? && !IsRefreshKind(DecodeSubject(codec, token, now).value.claims))
              ==> r == Failure(CredentialsError)
    ensures r.Success? <==>
              && DecodeSubject(codec, token, now).Success?
              && IsRefreshKind(DecodeSubject(codec, token, now).value.claims)
              && GetUserByUsername(users, DecodeSubject(codec, token, now).value.username).Some?
              && GetUserByUsername(users, DecodeSubject(codec, token, now).value.username).value.refreshToken == Some(token)
    ensures r.Success? ==> r.value in users && r.value.refreshToken == Some(token)
                           && r.value == GetUserByUsername(users, DecodeSubject(codec, token, now).value.username).value
    ensures r.Failure? ==> r.error == CredentialsError || r.error == MissingSubject
  {
    match DecodeSubject(codec, token, now)
    case Failure(e) => Failure(e)
    case Success(subject) =>
      if !IsRefreshKind(subject.claims) then Failure(CredentialsError)
      else match GetUserByUsername(users, subject.username)
        case None => Failure(CredentialsError)
        case Some(u) => if u.refreshToken != Some(token) then Failure(CredentialsError) else Success(u)
  }

  /** The two versions differ exactly on a refresh token whose subject has no
      row: the written one answers 500 where the corrected one answers 401. */
  lemma {:induction false} AsWrittenDiffersOnlyOnMissingUser(codec: Codec, token: string, now: int, users: seq<User>)
    ensures VerifyRefreshTokenAsWritten(codec, token, now, users) != VerifyRefreshToken(codec, token, now, users) <==>
              && DecodeSubject(codec, token, now).Success?
              && IsRefreshKind(DecodeSubject(codec, token, now).value.claims)
              && GetUserByUsername(users, DecodeSubject(codec, token, now).value.username).None?
    ensures VerifyRefreshTokenAsWritten(codec, token, now, users) != VerifyRefreshToken(codec, token, now, users) ==>
              VerifyRefreshTokenAsWritten(codec, token, now, users) == Failure(MissingUser)
              && VerifyRefreshToken(codec, token, now, users) == Failure(CredentialsError)
  {
  }

  /** A concrete input: a validly signed refresh token for "ghost" against a
      table with no such user crashes the written version. */
  lemma UnknownSubjectCrashesAsWritten()
    ensures var codec := Codec(
              (c: Claims) => "t",
              (s: string) => if s == "t" then Some(map["sub" := Str("ghost"), "token_type" := Str(RefreshKind)]) else None);
            && VerifyRefreshTokenAsWritten(codec, "t", 0, []) == Failure(MissingUser)
            && VerifyRefreshToken(codec, "t", 0, []) == Failure(CredentialsError)
  {
  }

  /** Only the refresh token currently stored on a user verifies for that user. */
  lemma {:induction false} OnlyStoredTokenVerifies(codec: Codec, token: string, now: int, users: seq<User>, u: User)
    requires UniqueKeys(users) && u in users
    requires DecodeSubject(codec, token, now).Success? && DecodeSubject(codec, token, now).value.username == u.username
    ensures VerifyRefreshToken(codec, token, now, users).Success? ==> u.refreshToken == Some(token)
  {
    assert GetUserByUsername(users, u.username) == Some(u);
  }

  /** The refresh token issued at `now` for a user whose row stores it verifies
      until it expires. */
  lemma {:induction false} IssuedRefreshTokenVerifies(codec: Codec, now: int, later: int, users: seq<User>, u: User)
    requires RoundTrips(codec) && UniqueKeys(users) && u in users
    requires now <= later <= now + RefreshTokenExpirationSeconds
    requires u.refreshToken == Some(CreateRefreshToken(codec, SubjectData(u.username), None, now))
    ensures VerifyRefreshToken(codec, CreateRefreshToken(codec, SubjectData(u.username), None, now), later, users) == Success(u)
  {
    RefreshTokenLifetime(codec, SubjectData(u.username), None, now, later);
    assert GetUserByUsername(users, u.username) == Some(u);
  }

  /** A cached session: the user snapshot (the serialised form is taken to
      round-trip) and, once `expire` has run, the instant the key disappears. */
  datatype CacheEntry = CacheEntry(snapshot: User, expiresAt: Option<int>)

  /** What `r.get(key)` returns at `now`. */
  function CachedUser(entries: map<string, CacheEntry>, key: string, now: int): (r: Option<User>)
    ensures r.Some? <==> key in entries && (entries[key].expiresAt.None? || now < entries[key].expiresAt.value)
    ensures r.Some? ==> r.value == entries[key].snapshot
  {
    if key in entries && (entries[key].expiresAt.None? || now < entries[key].expiresAt.value)
    then Some(entries[key].snapshot) else None
  }

  /** The outcome of `get_current_user` and the cache it leaves behind. */
  datatype Resolution = Resolution(result: Result<User, ApiError>, entries: map<string, CacheEntry>)

  /** `get_current_user`: decode, then a cache hit is returned as it is; on a
      miss the user is read from the store and cached for the session TTL.
      The token's kind is never looked at. */
  function Authenticate(codec: Codec, token: string, now: int,
                        entries: map<string, CacheEntry>, users: seq<User>): (res: Resolution)
    ensures DecodeSubject(codec, token, now).Failure? ==>
              res == Resolution(Failure(DecodeSubject(codec, token, now).error), entries)
    ensures res.result.Failure? ==> res.entries == entries
    ensures res.result.Failure? ==> res.result.error == CredentialsError || res.result.error == MissingSubject
    ensures res.result.Success? ==> DecodeSubject(codec, token, now).Success?
    ensures res.entries != entries ==>
              var name := DecodeSubject(codec, token, now).value.username;
              && CachedUser(entries, name, now).None?
              && GetUserByUsername(users, name).Some?
              && res.result == Success(GetUserByUsername(users, name).value)
              && res.entries == entries[name := CacheEntry(res.result.value, Some(now + SessionTtlSeconds))]
  {
    match DecodeSubject(codec, token, now)
    case Failure(e) => Resolution(Failure(e), entries)
    case Success(subject) =>
      match CachedUser(entries, subject.username, now)
      case Some(snapshot) => Resolution(Success(snapshot), entries)
      case None =>
        match GetUserByUsername(users, subject.username)
        case None => Resolution(Failure(CredentialsError), entries)
        case Some(u) =>
          Resolution(Success(u), entries[subject.username := CacheEntry(u, Some(now + SessionTtlSeconds))])
  }

  /** On a cache hit the store is not consulted: the answer is the cached
      snapshot whatever the store holds. */
  lemma CacheHitIgnoresStore(codec: Codec, token: string, now: int, entries: map<string, CacheEntry>,
                             users: seq<User>, name: string)
    requires DecodeSubject(codec, token, now).Success? && DecodeSubject(codec, token, now).value.username == name
    requires CachedUser(entries, name, now).Some?
    ensures Authenticate(codec, token, now, entries, users) == Resolution(Success(entries[name].snapshot), entries)
  {
  }

  /** On a miss the store decides: no row is a 401; a row is returned and
      cached under the username for 3600 seconds. */
  lemma CacheMissConsultsStore(codec: Codec, token: string, now: int, entries: map<string, CacheEntry>,
                               users: seq<User>, name: string)
    requires DecodeSubject(codec, token, now).Success? && DecodeSubject(codec, token, now).value.username == name
    requires CachedUser(entries, name, now).None?
    ensures GetUserByUsername(users, name).None? ==>
              Authenticate(codec, token, now, entries, users) == Resolution(Failure(CredentialsError), entries)
    ensures GetUserByUsername(users, name).Some? ==>
              var u := GetUserByUsername(users, name).value;
              Authenticate(codec, token, now, entries, users)
                == Resolution(Success(u), entries[name := CacheEntry(u, Some(now + SessionTtlSeconds))])
  {
  }

  /** A second resolution of the same token within the TTL is a cache hit: it
      returns the first answer and leaves the cache alone, whatever the store
      holds by then. */
  lemma {:induction false} SecondCallWithinTtlHitsCache(codec: Codec, token: string, now: int, later: int,
                                                        entries: map<string, CacheEntry>, users: seq<User>, users': seq<User>)
    requires Authenticate(codec, token, now, entries, users).result.Success?
    requires now <= later < now + SessionTtlSeconds
    requires DecodeSubject(codec, token, later).Success?
    requires CachedUser(entries, DecodeSubject(codec, token, now).value.username, now).None?
    ensures var first := Authenticate(codec, token, now, entries, users);
            Authenticate(codec, token, later, first.entries, users') == first
  {
    var name := DecodeSubject(codec, token, now).value.username;
    assert DecodeSubject(codec, token, later).value.username == name;
    var first := Authenticate(codec, token, now, entries, users);
    assert first.entries == entries[name := CacheEntry(first.result.value, Some(now + SessionTtlSeconds))];
    assert CachedUser(first.entries, name, later) == Some(first.result.value);
  }

  /** The token kind is not checked: a refresh token, presented as a bearer
      token, resolves to its user just as an access token does. */
  lemma {:induction false} RefreshTokenPassesAsBearer(codec: Codec, now: int, later: int,
                                                      entries: map<string, CacheEntry>, users: seq<User>, name: string)
    requires RoundTrips(codec)
    requires now <= later <= now + JwtExpirationSeconds
    ensures Authenticate(codec, CreateRefreshToken(codec, SubjectData(name), None, now), later, entries, users)
         == Authenticate(codec, CreateAccessToken(codec, SubjectData(name), None, now), later, entries, users)
  {
    RefreshTokenLifetime(codec, SubjectData(name), None, now, later);
    AccessTokenLifetime(codec, SubjectData(name), None, now, later);
  }

  /** A snapshot of a stored account: the store holds a row with its email,
      and that row has the snapshot's id and username. */
  predicate Stored(users: seq<User>, s: User) {
    GetUserByEmail(users, s.email).Some? && SameIdentity(GetUserByEmail(users, s.email).value, s)
  }

  /** Every cached snapshot belongs to a stored account. */
  ghost predicate Coherent(entries: map<string, CacheEntry>, users: seq<User>) {
    forall k :: k in entries ==> Stored(users, entries[k].snapshot)
  }

  /** Resolving a token keeps the cache coherent with the store. */
  lemma AuthenticateKeepsCoherent(codec: Codec, token: string, now: int,
                                  entries: map<string, CacheEntry>, users: seq<User>)
    requires UniqueKeys(users) && Coherent(entries, users)
    ensures Coherent(Authenticate(codec, token, now, entries, users).entries, users)
  {
    var res := Authenticate(codec, token, now, entries, users);
    if res.entries != entries {
      var u := res.result.value;
      assert GetUserByEmail(users, u.email) == Some(u);
    }
  }

  /** A field update never changes who is stored. */
  lemma {:induction false} CoherentAfterUpdate(entries: map<string, CacheEntry>, users: seq<User>, email: string, f: FieldUpdate)
    requires Coherent(entries, users)
    ensures Coherent(entries, UpdateByEmail(users, email, f))
  {
    forall k | k in entries ensures Stored(UpdateByEmail(users, email, f), entries[k].snapshot) {
      FindAfterUpdate(users, email, f, ByEmail(entries[k].snapshot.email));
    }
  }

  /** An insertion that keeps the keys unique never changes who is stored. */
  lemma CoherentAfterInsert(entries: map<string, CacheEntry>, users: seq<User>, v: User)
    requires UniqueKeys(users + [v]) && Coherent(entries, users)
    ensures Coherent(entries, users + [v])
  {
    forall k | k in entries ensures Stored(users + [v], entries[k].snapshot) {
      var s := entries[k].snapshot;
      var u := GetUserByEmail(users, s.email).value;
      assert u in users + [v];
    }
  }

  /** The session cache (the Redis connection, injected). */
  class SessionCache {
    var entries: map<string, CacheEntry>

    constructor ()
      ensures entries == map[]
    {
      entries := map[];
    }

    /** `r.set(key, value)`: overwrite, with no expiry. */
    method Set(key: string, snapshot: User)
      modifies this
      ensures entries == old(entries)[key := CacheEntry(snapshot, None)]
    {
      entries := entries[key := CacheEntry(snapshot, None)];
    }

    /** `r.expire(key, seconds)`: a live key disappears `seconds` from now; an
        absent key is left alone. */
    method Expire(key: string, seconds: int, now: int)
      modifies this
      ensures CachedUser(old(entries), key, now).Some? ==>
                entries == old(entries)[key := CacheEntry(old(entries)[key].snapshot, Some(now + seconds))]
      ensures CachedUser(old(entries), key, now).None? ==> entries == old(entries)
    {
      if CachedUser(entries, key, now).Some? {
        entries := entries[key := CacheEntry(entries[key].snapshot, Some(now + seconds))];
      }
    }
  }

  /** `r.set` followed by `r.expire(key, 3600)`: `r.get` returns the
      snapshot until the hour is up and nothing from then on; without the
      expiry it would be returned for ever. */
  lemma SetThenExpireLastsOneSession(entries: map<string, CacheEntry>, key: string, snapshot: User, now: int, t: int)
    ensures var written := entries[key := CacheEntry(snapshot, None)];
            && CachedUser(written, key, t) == Some(snapshot)
            && var expired := written[key := CacheEntry(written[key].snapshot, Some(now + SessionTtlSeconds))];
               CachedUser(expired, key, t) == if t < now + SessionTtlSeconds then Some(snapshot) else None
  {
  }

  /** `get_current_user`, against the cache it updates and the store it reads. */
  method GetCurrentUser(codec: Codec, token: string, now: int, cache: SessionCache, users: seq<User>)
    returns (r: Result<User, ApiError>)
    modifies cache
    ensures Resolution(r, cache.entries) == Authenticate(codec, token, now, old(cache.entries), users)
  {
    var subject := DecodeSubject(codec, token, now);
    if subject.Failure? {
      return Failure(subject.error);
    }
    var name := subject.value.username;
    var cached := CachedUser(cache.entries, name, now);
    if cached.Some? {
      return Success(cached.value);
    }
    var found := GetUserByUsername(users, name);
    if found.None? {
      return Failure(CredentialsError);
    }
    cache.Set(name, found.value);
    cache.Expire(name, SessionTtlSeconds, now);
    r := Success(found.value);
  }

  /** `get_current_admin_user`: 403 exactly for a non-admin, otherwise the same user. */
  function GetCurrentAdminUser(current: User): (r: Result<User, ApiError>)
    ensures r.Failure? <==> current.role != ADMIN
    ensures r.Failure? ==> r.error == ForbiddenError
    ensures r.Success? ==> r.value == current
  {
    if current.role != ADMIN then Failure(ForbiddenError) else Success(current)
  }
}
