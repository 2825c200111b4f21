/** The user endpoints: `me`, the password change and the admin-only avatar
    change. Each resolves the caller through the session cache first. */
module UsersApi {
  import opened Outcomes
  import opened Models
  import opened UserRepository
  import opened AuthHash
  import opened AuthSession
  import opened AuthApi

  /** `me`: exactly the identity `get_current_user` resolves. */
  method Me(codec: AuthTokens.Codec, token: string, now: int, cache: SessionCache, users: seq<User>)
    returns (r: Result<User, ApiError>)
    modifies cache
    ensures Resolution(r, cache.entries) == Authenticate(codec, token, now, old(cache.entries), users)
  {
    r := GetCurrentUser(codec, token, now, cache, users);
  }

  /** Whatever a coherent cache resolves to is a stored account. */
  lemma ResolvedUserIsStored(codec: AuthTokens.Codec, token: string, now: int,
                             entries: map<string, CacheEntry>, users: seq<User>)
    requires UniqueKeys(users) && Coherent(entries, users)
    ensures var res := Authenticate(codec, token, now, entries, users);
            res.result.Success? ==> Stored(users, res.result.value)
  {
    var res := Authenticate(codec, token, now, entries, users);
    if res.result.Success? && res.entries == entries {
      var name := DecodeSubject(codec, token, now).value.username;
      assert name in entries && res.result.value == entries[name].snapshot;
    } else if res.result.Success? {
      var u := res.result.value;
      assert GetUserByEmail(users, u.email) == Some(u);
    }
  }

  /** The outcome of `update_user_password`: the resolution of the caller and
      the table afterwards. */
  datatype PasswordChange = PasswordChange(session: Resolution, users: seq<User>)

  /** `update_user_password`: the old password is checked against the hash of
      the resolved user (the cached snapshot on a hit), and only when it
      verifies does the row take the hash of the new password. A wrong old
      password is not an error: the user is returned all the same. */
  function ChangePassword(codec: AuthTokens.Codec, token: string, now: int, entries: map<string, CacheEntry>,
                          users: seq<User>, oldPassword: string, newPassword: string, salt: Salt): (c: PasswordChange)
    ensures c.session == Authenticate(codec, token, now, entries, users)
    ensures c.session.result.Failure? ==> c.users == users
    ensures c.session.result.Success? && !Verify(oldPassword, c.session.result.value.hashedPassword) ==> c.users == users
    ensures c.session.result.Success? && Verify(oldPassword, c.session.result.value.hashedPassword) ==>
              c.users == UpdateByEmail(users, c.session.result.value.email, SetHashedPassword(Hash(newPassword, salt)))
  {
    var session := Authenticate(codec, token, now, entries, users);
    match session.result
    case Failure(_) => PasswordChange(session, users)
    case Success(u) =>
      if Verify(oldPassword, u.hashedPassword)
      then PasswordChange(session, UpdateByEmail(users, u.email, SetHashedPassword(Hash(newPassword, salt))))
      else PasswordChange(session, users)
  }

  /** The handler, against the cache and the repository it updates. */
  method UpdateUserPassword(codec: AuthTokens.Codec, token: string, now: int, cache: SessionCache, repo: Repository,
                            oldPassword: string, newPassword: string, salt: Salt)
    returns (r: Result<User, ApiError>)
    requires repo.Valid() && Coherent(cache.entries, repo.users)
    modifies cache, repo
    ensures repo.Valid() && Coherent(cache.entries, repo.users) && repo.nextId == old(repo.nextId)
    ensures PasswordChange(Resolution(r, cache.entries), repo.users)
         == ChangePassword(codec, token, now, old(cache.entries), old(repo.users), oldPassword, newPassword, salt)
  {
    ResolvedUserIsStored(codec, token, now, cache.entries, repo.users);
    AuthenticateKeepsCoherent(codec, token, now, cache.entries, repo.users);
    r := GetCurrentUser(codec, token, now, cache, repo.users);
    if r.Success? && Verify(oldPassword, r.value.hashedPassword) {
      CoherentAfterUpdate(cache.entries, repo.users, r.value.email, SetHashedPassword(Hash(newPassword, salt)));
      repo.UpdateHashedPassword(r.value.email, Hash(newPassword, salt));
    }
  }

  /** Storing the hash of a new password on a stored row: that row now
      verifies the new password and no other, and the rest of the table reads
      back as before. */
  lemma {:induction false} NewHashTakesEffect(users: seq<User>, email: string, oldPassword: string,
                                              newPassword: string, salt: Salt, k: Key)
    requires UniqueKeys(users) && GetUserByEmail(users, email).Some?
    ensures var after := UpdateByEmail(users, email, SetHashedPassword(Hash(newPassword, salt)));
            && GetUserByEmail(after, email).Some?
            && Verify(newPassword, GetUserByEmail(after, email).value.hashedPassword)
            && (Significant(oldPassword) != Significant(newPassword) ==>
                  !Verify(oldPassword, GetUserByEmail(after, email).value.hashedPassword))
            && (Find(users, k).Some? && Find(users, k).value.email != email ==> Find(after, k) == Find(users, k))
  {
    var f := SetHashedPassword(Hash(newPassword, salt));
    var after := UpdateByEmail(users, email, f);
    var u := GetUserByEmail(users, email).value;
    assert Find(users, ByEmail(email)) == Some(u);
    FindAfterUpdate(users, email, f, ByEmail(email));
    assert GetUserByEmail(after, email) == Find(after, ByEmail(email)) == Some(Apply(u, f));
    assert Apply(u, f).hashedPassword == Hash(newPassword, salt);
    FindAfterUpdate(users, email, f, k);
    HashVerifiesSamePrefix(newPassword, oldPassword, salt);
  }

  /** A change whose old password verifies takes effect on the caller's row:
      the new password verifies against it, the old one (if different) no
      longer does, and every other account reads back as before. */
  lemma {:induction false} PasswordChangeTakesEffect(codec: AuthTokens.Codec, token: string, now: int,
                                                     entries: map<string, CacheEntry>, users: seq<User>,
                                                     oldPassword: string, newPassword: string, salt: Salt, k: Key)
    requires UniqueKeys(users) && Coherent(entries, users)
    requires Authenticate(codec, token, now, entries, users).result.Success?
    requires Verify(oldPassword, Authenticate(codec, token, now, entries, users).result.value.hashedPassword)
    ensures var c := ChangePassword(codec, token, now, entries, users, oldPassword, newPassword, salt);
            var email := c.session.result.value.email;
            && GetUserByEmail(c.users, email).Some?
            && Verify(newPassword, GetUserByEmail(c.users, email).value.hashedPassword)
            && (Significant(oldPassword) != Significant(newPassword) ==>
                  !Verify(oldPassword, GetUserByEmail(c.users, email).value.hashedPassword))
            && (Find(users, k).Some? && Find(users, k).value.email != email ==> Find(c.users, k) == Find(users, k))
  {
    var c := ChangePassword(codec, token, now, entries, users, oldPassword, newPassword, salt);
    var email := c.session.result.value.email;
    ResolvedUserIsStored(codec, token, now, entries, users);
    assert c.users == UpdateByEmail(users, email, SetHashedPassword(Hash(newPassword, salt)));
    NewHashTakesEffect(users, email, oldPassword, newPassword, salt, k);
  }

  /** The first change of a session that starts on a cache miss: it resolves
      the stored row, caches that snapshot for the session TTL, and, the old
      password being right, stores the new hash. */
  lemma FirstChangeOnMiss(
    codec: AuthTokens.Codec, token: string, now: int, entries: map<string, CacheEntry>, users: seq<User>,
    name: string, p0: string, p1: string, s0: Salt, s1: Salt)
    requires DecodeSubject(codec, token, now).Success? && DecodeSubject(codec, token, now).value.username == name
    requires CachedUser(entries, name, now).None?
    requires GetUserByUsername(users, name).Some? && GetUserByUsername(users, name).value.hashedPassword == Hash(p0, s0)
    ensures var u := GetUserByUsername(users, name).value;
            var first := ChangePassword(codec, token, now, entries, users, p0, p1, s1);
            && first.session.result == Success(u)
            && first.session.entries == entries[name := CacheEntry(u, Some(now + SessionTtlSeconds))]
            && first.users == UpdateByEmail(users, u.email, SetHashedPassword(Hash(p1, s1)))
  {
    CacheMissConsultsStore(codec, token, now, entries, users, name);
  }

  /** A token that decodes at two instants names the same subject at both. */
  lemma SubjectIgnoresClock(codec: AuthTokens.Codec, token: string, t1: int, t2: int)
    requires DecodeSubject(codec, token, t1).Success? && DecodeSubject(codec, token, t2).Success?
    ensures DecodeSubject(codec, token, t1).value.username == DecodeSubject(codec, token, t2).value.username
  {
    assert AuthTokens.Decode(codec, token, t1) == AuthTokens.Decode(codec, token, t2);
  }

  /** After a new hash is stored on a row, looking that row up by username
      finds it with the new hash. */
  lemma HashStoredUnderUsername(users: seq<User>, name: string, hash: string)
    requires UniqueKeys(users) && GetUserByUsername(users, name).Some?
    ensures var u := GetUserByUsername(users, name).value;
            GetUserByUsername(UpdateByEmail(users, u.email, SetHashedPassword(hash)), name)
              == Some(u.(hashedPassword := hash))
  {
    var u := GetUserByUsername(users, name).value;
    FindAfterUpdate(users, u.email, SetHashedPassword(hash), ByUsername(name));
  }

  /** A change served from a cached snapshot whose hash refuses the given old
      password leaves the table as it is and hands back that snapshot. */
  lemma RefusedChangeOnHit(
    codec: AuthTokens.Codec, token: string, now: int, entries: map<string, CacheEntry>, users: seq<User>,
    name: string, u: User, oldPassword: string, newPassword: string, salt: Salt)
    requires DecodeSubject(codec, token, now).Success? && DecodeSubject(codec, token, now).value.username == name
    requires CachedUser(entries, name, now) == Some(u) && !Verify(oldPassword, u.hashedPassword)
    ensures ChangePassword(codec, token, now, entries, users, oldPassword, newPassword, salt)
         == PasswordChange(Resolution(Success(u), entries), users)
  {
    CacheHitIgnoresStore(codec, token, now, entries, users, name);
  }

  /** The check uses the snapshot cached at the first resolution, which a
      password change does not refresh: within the session TTL a second change
      that gives the current password as the old one is silently ignored, and
      the caller is handed the stale snapshot. */
  lemma {:induction false} StaleSnapshotRefusesCurrentPassword(
    codec: AuthTokens.Codec, token: string, now: int, later: int, entries: map<string, CacheEntry>, users: seq<User>,
    name: string, p0: string, p1: string, p2: string, s0: Salt, s1: Salt, s2: Salt)
    requires UniqueKeys(users)
    requires DecodeSubject(codec, token, now).Success? && DecodeSubject(codec, token, now).value.username == name
    requires DecodeSubject(codec, token, later).Success?
    requires CachedUser(entries, name, now).None?
    requires GetUserByUsername(users, name).Some? && GetUserByUsername(users, name).value.hashedPassword == Hash(p0, s0)
    requires Significant(p1) != Significant(p0) && now <= later < now + SessionTtlSeconds
    ensures var u := GetUserByUsername(users, name).value;
            var first := ChangePassword(codec, token, now, entries, users, p0, p1, s1);
            var second := ChangePassword(codec, token, later, first.session.entries, first.users, p1, p2, s2);
            && first.session.result == Success(u)
            && GetUserByUsername(first.users, name).Some?
            && Verify(p1, GetUserByUsername(first.users, name).value.hashedPassword)
            && second.session.result == Success(u)
            && second.users == first.users
  {
    var u := GetUserByUsername(users, name).value;
    FirstChangeOnMiss(codec, token, now, entries, users, name, p0, p1, s0, s1);
    var first := ChangePassword(codec, token, now, entries, users, p0, p1, s1);
    HashStoredUnderUsername(users, name, Hash(p1, s1));
    SubjectIgnoresClock(codec, token, now, later);
    assert CachedUser(first.session.entries, name, later) == Some(u);
    HashVerifiesSamePrefix(p0, p1, s0);
    RefusedChangeOnHit(codec, token, later, first.session.entries, first.users, name, u, p1, p2, s2);
  }

  /** `update_avatar_user`: only an administrator gets past the gate; the
      upload's URL (an input here) then becomes that user's `avatar` and
      nothing else changes. */
  method UpdateAvatarUser(codec: AuthTokens.Codec, token: string, now: int, cache: SessionCache, repo: Repository,
                          uploadedUrl: string)
    returns (r: Result<Option<User>, ApiError>)
    requires repo.Valid() && Coherent(cache.entries, repo.users)
    modifies cache, repo
    ensures repo.Valid() && Coherent(cache.entries, repo.users) && repo.nextId == old(repo.nextId)
    ensures var res := Authenticate(codec, token, now, old(cache.entries), old(repo.users));
            && cache.entries == res.entries
            && (res.result.Failure? ==> r == Failure(res.result.error) && repo.users == old(repo.users))
            && (res.result.Success? && res.result.value.role != ADMIN ==>
                  r == Failure(ForbiddenError) && repo.users == old(repo.users))
            && (res.result.Success? && res.result.value.role == ADMIN && !FitsWidth(uploadedUrl, AvatarWidth) ==>
                  r == Failure(WriteFailure(ValueTooLong("avatar"))) && repo.users == old(repo.users))
            && (r.Success? <==> res.result.Success? && res.result.value.role == ADMIN && FitsWidth(uploadedUrl, AvatarWidth))
            && (r.Success? ==>
                  && repo.users == UpdateByEmail(old(repo.users), res.result.value.email, SetAvatar(uploadedUrl))
                  && r.value.Some?
                  && r.value == GetUserByEmail(repo.users, res.result.value.email)
                  && r.value.value.avatar == uploadedUrl)
  {
    ResolvedUserIsStored(codec, token, now, cache.entries, repo.users);
    AuthenticateKeepsCoherent(codec, token, now, cache.entries, repo.users);
    var current := GetCurrentUser(codec, token, now, cache, repo.users);
    if current.Failure? {
      return Failure(current.error);
    }
    var admin := GetCurrentAdminUser(current.value);
    if admin.Failure? {
      return Failure(admin.error);
    }
    CoherentAfterUpdate(cache.entries, repo.users, admin.value.email, SetAvatar(uploadedUrl));
    var updated := repo.UpdateAvatarUrl(admin.value.email, uploadedUrl);
    if updated.Failure? {
      return Failure(WriteFailure(updated.error));
    }
    r := Success(updated.value);
  }
}
