/** The authentication endpoints as transitions over the user table: each
    handler is a ladder of early exits followed by at most one update of the
    table and at most one queued notification. */
module AuthApi {
  import opened Outcomes
  import opened Models
  import opened UserRepository
  import opened AuthHash
  import opened AuthTokens
  import opened AuthSession
  import opened AuthTempPassword

  const ResetMessage: string := "If this user exists in our database, we have sent them an email with temporary password"
  const ConfirmationMessage: string := "If this user exists in our database, we have sent them a confirmation email"
  const ConfirmedMessage: string := "Email was confirmed"
  const BearerType: string := "bearer"

  const InvalidLogin: ApiError := HttpError(401, "Invalid username or password")
  const NotConfirmed: ApiError := HttpError(401, "Email is not confirmed")
  const AlreadyConfirmed: ApiError := HttpError(400, "Email is already confirmed")
  const VerificationError: ApiError := HttpError(400, "Verification error")
  const InvalidEmailToken: ApiError := HttpError(422, "Invalid token for email verification")
  const EmailTaken: ApiError := HttpError(409, "User with this email already exists")
  const UsernameTaken: ApiError := HttpError(409, "User with this username already exists")

  /** How a failed write surfaces: the database error is not caught, so the
      request ends in a 500. */
  function WriteFailure(e: DbError): (err: ApiError)
    ensures err.ServerError?
  {
    match e
    case UniqueViolation(col) => ServerError("UniqueViolationError: " + col)
    case ValueTooLong(col) => ServerError("StringDataRightTruncationError: " + col)
    case NotNullViolation(col) => ServerError("NotNullViolationError: " + col)
  }

  /** A message handed to the background mailer; only the request is recorded. */
  datatype Notification =
    | VerificationEmail(email: string, username: string, host: string)
    | PasswordResetEmail(email: string, password: string)

  /** FastAPI's `BackgroundTasks`: the tasks queued during one request. */
  class BackgroundTasks {
    var queued: seq<Notification>

    constructor ()
      ensures queued == []
    {
      queued := [];
    }

    method AddTask(n: Notification)
      modifies this
      ensures queued == old(queued) + [n]
    {
      queued := queued + [n];
    }
  }

  /** The `TokenModel` reply. */
  datatype TokenPair = TokenPair(accessToken: string, refreshToken: string, tokenType: string)

  /** A handler's reply together with the user table it leaves behind. */
  datatype Step<T> = Step(result: Result<T, ApiError>, users: seq<User>)

  // ---------------------------------------------------------------- login

  /** `login_user`: an unknown username and a wrong password are refused with
      one and the same 401; the confirmation check comes only after the
      password verifies; a confirmed user with the right password then gets
      both tokens, carrying the username as `sub`, and the new refresh token
      overwrites the one stored on the row (unless it is wider than the
      column, which aborts the update with a 500). */
  function Login(codec: Codec, users: seq<User>, username: string, password: string, now: int): (s: Step<TokenPair>)
    ensures s.result.Failure? ==> s.users == users
    ensures (GetUserByUsername(users, username).None?
             || !Verify(password, GetUserByUsername(users, username).value.hashedPassword))
              ==> s.result == Failure(InvalidLogin)
    ensures (GetUserByUsername(users, username).Some?
             && Verify(password, GetUserByUsername(users, username).value.hashedPassword)
             && !GetUserByUsername(users, username).value.confirmed)
              ==> s.result == Failure(NotConfirmed)
    ensures (GetUserByUsername(users, username).Some?
             && Verify(password, GetUserByUsername(users, username).value.hashedPassword)
             && GetUserByUsername(users, username).value.confirmed)
              ==> && (s.result.Success? <==>
                        FitsWidth(CreateRefreshToken(codec, SubjectData(username), None, now), RefreshTokenWidth))
                  && (s.result.Failure? ==> s.result == Failure(WriteFailure(ValueTooLong("refresh_token"))))
    ensures s.result.Success? ==>
              && GetUserByUsername(users, username).Some?
              && Verify(password, GetUserByUsername(users, username).value.hashedPassword)
              && GetUserByUsername(users, username).value.confirmed
              && s.result.value == TokenPair(CreateAccessToken(codec, SubjectData(username), None, now),
                                             CreateRefreshToken(codec, SubjectData(username), None, now), BearerType)
              && s.users == UpdateByEmail(users, GetUserByUsername(users, username).value.email,
                                          SetRefreshToken(s.result.value.refreshToken))
  {
    match GetUserByUsername(users, username)
    case None => Step(Failure(InvalidLogin), users)
    case Some(u) =>
      if !Verify(password, u.hashedPassword) then Step(Failure(InvalidLogin), users)
      else if !u.confirmed then Step(Failure(NotConfirmed), users)
      else
        var access := CreateAccessToken(codec, SubjectData(u.username), None, now);
        var refresh := CreateRefreshToken(codec, SubjectData(u.username), None, now);
        if !FitsWidth(refresh, RefreshTokenWidth) then Step(Failure(WriteFailure(ValueTooLong("refresh_token"))), users)
        else Step(Success(TokenPair(access, refresh, BearerType)), UpdateByEmail(users, u.email, SetRefreshToken(refresh)))
  }

  /** The handler, against the repository it updates. */
  method LoginUser(codec: Codec, repo: Repository, username: string, password: string, now: int)
    returns (r: Result<TokenPair, ApiError>)
    requires repo.Valid()
    modifies repo
    ensures repo.Valid() && repo.nextId == old(repo.nextId)
    ensures Step(r, repo.users) == Login(codec, old(repo.users), username, password, now)
  {
    var found := GetUserByUsername(repo.users, username);
    if found.None? || !Verify(password, found.value.hashedPassword) {
      return Failure(InvalidLogin);
    }
    var u := found.value;
    if !u.confirmed {
      return Failure(NotConfirmed);
    }
    var access := CreateAccessToken(codec, SubjectData(u.username), None, now);
    var refresh := CreateRefreshToken(codec, SubjectData(u.username), None, now);
    assert GetUserByEmail(repo.users, u.email).Some?;
    var stored := repo.UpdateRefreshToken(u.email, refresh);
    if stored.Failure? {
      return Failure(WriteFailure(stored.error));
    }
    r := Success(TokenPair(access, refresh, BearerType));
  }

  /** Overwriting one user's refresh token: that row reads back with the new
      token, the keys stay unique and every other account reads back as before. */
  lemma {:induction false} RefreshTokenOverwrite(users: seq<User>, u: User, token: string, k: Key)
    requires UniqueKeys(users) && u in users
    ensures var after := UpdateByEmail(users, u.email, SetRefreshToken(token));
            && UniqueKeys(after)
            && GetUserByUsername(after, u.username) == Some(u.(refreshToken := Some(token)))
            && (Find(users, k).Some? && Find(users, k).value.id != u.id ==> Find(after, k) == Find(users, k))
  {
    var f := SetRefreshToken(token);
    var after := UpdateByEmail(users, u.email, f);
    UpdateKeepsUniqueKeys(users, u.email, f);
    assert Find(users, ByUsername(u.username)) == Some(u);
    FindAfterUpdate(users, u.email, f, ByUsername(u.username));
    assert Find(after, ByUsername(u.username)) == Some(Apply(u, f));
    assert Apply(u, f) == u.(refreshToken := Some(token));
    assert GetUserByUsername(after, u.username) == Find(after, ByUsername(u.username));
    FindAfterUpdate(users, u.email, f, k);
  }

  /** After a successful login the user's row stores the new refresh token,
      and every other account reads back exactly as before. */
  lemma {:induction false} LoginTouchesOnlyThatUser(codec: Codec, users: seq<User>, username: string,
                                                    password: string, now: int, k: Key)
    requires UniqueKeys(users)
    requires Login(codec, users, username, password, now).result.Success?
    ensures var s := Login(codec, users, username, password, now);
            var u := GetUserByUsername(users, username).value;
            && UniqueKeys(s.users)
            && GetUserByUsername(s.users, username) == Some(u.(refreshToken := Some(s.result.value.refreshToken)))
            && (Find(users, k).Some? && Find(users, k).value.id != u.id ==> Find(s.users, k) == Find(users, k))
  {
    var s := Login(codec, users, username, password, now);
    var u := GetUserByUsername(users, username).value;
    RefreshTokenOverwrite(users, u, s.result.value.refreshToken, k);
  }

  // ---------------------------------------------------------------- refresh

  /** `new_token`: the presented refresh token is checked and, when it is
      accepted, returned unchanged next to a fresh access token for the same
      username. The table is only read. The 401 "Invalid or expired refresh
      token" branch of the handler cannot be reached: every refusal is raised
      inside the check. */
  function NewToken(codec: Codec, token: string, now: int, users: seq<User>): (r: Result<TokenPair, ApiError>)
    ensures r.Success? <==> VerifyRefreshToken(codec, token, now, users).Success?
    ensures r.Failure? ==> r.error == VerifyRefreshToken(codec, token, now, users).error
    ensures r.Success? ==>
              && r.value.refreshToken == token
              && r.value.tokenType == BearerType
              && r.value.accessToken == CreateAccessToken(codec, SubjectData(VerifyRefreshToken(codec, token, now, users).value.username), None, now)
  {
    match VerifyRefreshToken(codec, token, now, users)
    case Failure(e) => Failure(e)
    case Success(u) => Success(TokenPair(CreateAccessToken(codec, SubjectData(u.username), None, now), token, BearerType))
  }

  /** A string that does not decode is refused with the credentials 401. */
  lemma GarbageRefreshTokenRefused(codec: Codec, token: string, now: int, users: seq<User>)
    requires codec.decode(token).None?
    ensures NewToken(codec, token, now, users) == Failure(CredentialsError)
  {
  }

  /** The refresh token a login hands out is accepted by `new_token` for its
      whole seven-day lifetime, and the resulting access token names the same
      user and is accepted as a bearer token for the next hour. */
  lemma {:induction false} LoginThenRefresh(codec: Codec, users: seq<User>, username: string, password: string,
                                            now: int, later: int, afterwards: int)
    requires RoundTrips(codec) && UniqueKeys(users)
    requires Login(codec, users, username, password, now).result.Success?
    requires now <= later <= now + RefreshTokenExpirationSeconds
    requires later <= afterwards <= later + JwtExpirationSeconds
    ensures var s := Login(codec, users, username, password, now);
            var r := NewToken(codec, s.result.value.refreshToken, later, s.users);
            && r.Success?
            && r.value.refreshToken == s.result.value.refreshToken
            && DecodeSubject(codec, r.value.accessToken, afterwards).Success?
            && DecodeSubject(codec, r.value.accessToken, afterwards).value.username == username
  {
    var s := Login(codec, users, username, password, now);
    var u := GetUserByUsername(users, username).value;
    LoginTouchesOnlyThatUser(codec, users, username, password, now, ByUsername(username));
    var u' := u.(refreshToken := Some(s.result.value.refreshToken));
    assert u'.username == username;
    assert u' in s.users;
    IssuedRefreshTokenVerifies(codec, now, later, s.users, u');
    AccessTokenLifetime(codec, SubjectData(username), None, later, afterwards);
  }

  /** A token naming a user whose row stores a different token is refused. */
  lemma SupersededTokenFails(codec: Codec, token: string, now: int, users: seq<User>, name: string)
    requires GetUserByUsername(users, name).Some? && GetUserByUsername(users, name).value.refreshToken != Some(token)
    requires codec.decode(token).Some? ==> "sub" in codec.decode(token).value && codec.decode(token).value["sub"] == Str(name)
    ensures VerifyRefreshToken(codec, token, now, users).Failure?
  {
  }

  /** A later login overwrites the stored refresh token, so the token issued
      by the earlier one (at a different instant) no longer verifies. */
  lemma {:induction false} SecondLoginRevokesFirst(codec: Codec, users: seq<User>, username: string,
                                                   password: string, password2: string, now: int, now2: int, later: int)
    requires RoundTrips(codec) && UniqueKeys(users)
    requires now != now2
    requires Login(codec, users, username, password, now).result.Success?
    requires var s := Login(codec, users, username, password, now);
             Login(codec, s.users, username, password2, now2).result.Success?
    ensures var s := Login(codec, users, username, password, now);
            var s2 := Login(codec, s.users, username, password2, now2);
            && VerifyRefreshToken(codec, s.result.value.refreshToken, later, s2.users).Failure?
            && NewToken(codec, s.result.value.refreshToken, later, s2.users).Failure?
  {
    var s := Login(codec, users, username, password, now);
    var s2 := Login(codec, s.users, username, password2, now2);
    var c1 := RefreshClaims(SubjectData(username), None, now);
    var c2 := RefreshClaims(SubjectData(username), None, now2);
    var t1 := s.result.value.refreshToken;
    var t2 := s2.result.value.refreshToken;
    assert t1 == codec.encode(c1) && t2 == codec.encode(c2);
    LoginTouchesOnlyThatUser(codec, users, username, password, now, ByUsername(username));
    LoginTouchesOnlyThatUser(codec, s.users, username, password2, now2, ByUsername(username));
    assert t1 != t2 by {
      assert c1["iat"] != c2["iat"];
      assert codec.decode(t1) == Some(c1);
      assert codec.decode(t2) == Some(c2);
    }
    assert codec.decode(t1) == Some(c1) && c1["sub"] == Str(username);
    SupersededTokenFails(codec, t1, later, s2.users, username);
  }

  // ---------------------------------------------------------------- forget_password

  /** What a password reset leaves behind: exactly one more queued mail, a
      reset mail to `email` whose password is a strong temporary password (the
      fixed one under test), and the row of `email`, alone, holding the hash of
      that password, which verifies it. */
  ghost predicate PasswordReset(before: seq<User>, after: seq<User>, queuedBefore: seq<Notification>,
                                queued: seq<Notification>, email: string, underTest: bool, salt: Salt) {
    && |queued| == |queuedBefore| + 1
    && var mailed := queued[|queuedBefore|];
       && mailed.PasswordResetEmail?
       && queued == queuedBefore + [PasswordResetEmail(email, mailed.password)]
       && IsStrongTempPassword(mailed.password)
       && (underTest ==> mailed.password == TestPassword)
       && after == UpdateByEmail(before, email, SetHashedPassword(Hash(mailed.password, salt)))
       && GetUserByEmail(after, email).Some?
       && Verify(mailed.password, GetUserByEmail(after, email).value.hashedPassword)
  }

  /** Queuing a reset mail makes it the one new entry at the end of the queue. */
  lemma ResetMailQueued(queuedBefore: seq<Notification>, queued: seq<Notification>, email: string, password: string)
    requires queued == queuedBefore + [PasswordResetEmail(email, password)]
    ensures |queued| == |queuedBefore| + 1 && queued[|queuedBefore|] == PasswordResetEmail(email, password)
  {
  }

  /** The reset itself: a temporary password is generated, its hash stored and
      the password queued for mailing. */
  method ResetPassword(repo: Repository, tasks: BackgroundTasks, email: string,
                       underTest: bool, draws: Draws, salt: Salt)
    requires repo.Valid() && DrawsInRange(draws) && GetUserByEmail(repo.users, email).Some?
    modifies repo, tasks
    ensures repo.Valid() && repo.nextId == old(repo.nextId)
    ensures PasswordReset(old(repo.users), repo.users, old(tasks.queued), tasks.queued, email, underTest, salt)
  {
    var generated := GenerateTempPassword(underTest, draws);
    var hashed := Hash(generated, salt);
    repo.UpdateHashedPassword(email, hashed);
    tasks.AddTask(PasswordResetEmail(email, generated));
    ResetMailQueued(old(tasks.queued), tasks.queued, email, generated);
  }

  /** `forget_password`: an unknown email gets the same reply as a known one
      and changes nothing; an unconfirmed user is refused with 401; a confirmed
      user's password is reset. */
  method ForgetPassword(repo: Repository, tasks: BackgroundTasks, email: string,
                        underTest: bool, draws: Draws, salt: Salt)
    returns (r: Result<string, ApiError>)
    requires repo.Valid() && DrawsInRange(draws)
    modifies repo, tasks
    ensures repo.Valid() && repo.nextId == old(repo.nextId)
    ensures GetUserByEmail(old(repo.users), email).None? ==>
              r == Success(ResetMessage) && repo.users == old(repo.users) && tasks.queued == old(tasks.queued)
    ensures GetUserByEmail(old(repo.users), email).Some? && !GetUserByEmail(old(repo.users), email).value.confirmed ==>
              r == Failure(NotConfirmed) && repo.users == old(repo.users) && tasks.queued == old(tasks.queued)
    ensures GetUserByEmail(old(repo.users), email).Some? && GetUserByEmail(old(repo.users), email).value.confirmed ==>
              r == Success(ResetMessage)
              && PasswordReset(old(repo.users), repo.users, old(tasks.queued), tasks.queued, email, underTest, salt)
  {
    var found := GetUserByEmail(repo.users, email);
    if found.Some? {
      if !found.value.confirmed {
        return Failure(NotConfirmed);
      }
      ResetPassword(repo, tasks, email, underTest, draws, salt);
    }
    r := Success(ResetMessage);
  }

  // ---------------------------------------------------------------- request_email

  /** `request_email`: a confirmed user is refused with 400; otherwise the
      reply is the same whether or not the user exists, and a verification
      email is queued only for an existing one. The table is never written. */
  method RequestEmail(repo: Repository, tasks: BackgroundTasks, email: string, host: string)
    returns (r: Result<string, ApiError>)
    modifies tasks
    ensures GetUserByEmail(repo.users, email).None? ==>
              r == Success(ConfirmationMessage) && tasks.queued == old(tasks.queued)
    ensures GetUserByEmail(repo.users, email).Some? && GetUserByEmail(repo.users, email).value.confirmed ==>
              r == Failure(AlreadyConfirmed) && tasks.queued == old(tasks.queued)
    ensures GetUserByEmail(repo.users, email).Some? && !GetUserByEmail(repo.users, email).value.confirmed ==>
              && r == Success(ConfirmationMessage)
              && var u := GetUserByEmail(repo.users, email).value;
                 tasks.queued == old(tasks.queued) + [VerificationEmail(u.email, u.username, host)]
  {
    var found := GetUserByEmail(repo.users, email);
    if found.Some? {
      if found.value.confirmed {
        return Failure(AlreadyConfirmed);
      }
      tasks.AddTask(VerificationEmail(found.value.email, found.value.username, host));
    }
    r := Success(ConfirmationMessage);
  }

  // ---------------------------------------------------------------- confirm_email

  /** `get_email_from_token`: a token the library refuses (a bad
      signature, or a claim that fails one of its default checks) is a 422; a payload without
      `sub` is an uncaught KeyError; otherwise the subject is returned. */
  function GetEmailFromToken(codec: Codec, token: string, now: int): (r: Result<string, ApiError>)
    ensures Decode(codec, token, now).None? ==> r == Failure(InvalidEmailToken)
    ensures Decode(codec, token, now).Some? && "sub" !in Decode(codec, token, now).value ==> r == Failure(MissingSubject)
    ensures r.Success? <==> Decode(codec, token, now).Some? && "sub" in Decode(codec, token, now).value
    ensures r.Success? ==> Decode(codec, token, now).value["sub"] == Str(r.value)
  {
    match Decode(codec, token, now)
    case None => Failure(InvalidEmailToken)
    case Some(claims) =>
      if "sub" !in claims then Failure(MissingSubject) else Success(claims["sub"].s)
  }

  /** A verification token made for an email yields that email for seven
      days, and is a 422 afterwards. */
  lemma EmailTokenNamesItsEmail(codec: Codec, email: string, now: int, later: int)
    requires RoundTrips(codec)
    ensures var t := CreateEmailToken(codec, SubjectData(email), now);
            GetEmailFromToken(codec, t, later)
              == if later <= now + EmailTokenLifetimeSeconds then Success(email) else Failure(InvalidEmailToken)
  {
    EmailTokenLifetime(codec, SubjectData(email), now, later);
  }

  /** `confirm_email`: the token's errors first, then 400 for an unknown
      email and 400 for an already confirmed one; only the remaining path sets
      `confirmed`, on that row alone. */
  method ConfirmEmail(codec: Codec, token: string, now: int, repo: Repository)
    returns (r: Result<string, ApiError>)
    requires repo.Valid()
    modifies repo
    ensures repo.Valid() && repo.nextId == old(repo.nextId)
    ensures GetEmailFromToken(codec, token, now).Failure? ==>
              r == Failure(GetEmailFromToken(codec, token, now).error) && repo.users == old(repo.users)
    ensures GetEmailFromToken(codec, token, now).Success? ==>
              var found := GetUserByEmail(old(repo.users), GetEmailFromToken(codec, token, now).value);
              && (found.None? ==> r == Failure(VerificationError) && repo.users == old(repo.users))
              && (found.Some? && found.value.confirmed ==> r == Failure(AlreadyConfirmed) && repo.users == old(repo.users))
              && (found.Some? && !found.value.confirmed ==>
                    && r == Success(ConfirmedMessage)
                    && repo.users == UpdateByEmail(old(repo.users), found.value.email, MarkConfirmed)
                    && GetUserByEmail(repo.users, found.value.email) == Some(found.value.(confirmed := true)))
    ensures r.Success? <==>
              && GetEmailFromToken(codec, token, now).Success?
              && GetUserByEmail(old(repo.users), GetEmailFromToken(codec, token, now).value).Some?
              && !GetUserByEmail(old(repo.users), GetEmailFromToken(codec, token, now).value).value.confirmed
  {
    var email := GetEmailFromToken(codec, token, now);
    if email.Failure? {
      return Failure(email.error);
    }
    var found := GetUserByEmail(repo.users, email.value);
    if found.None? {
      return Failure(VerificationError);
    }
    if found.value.confirmed {
      return Failure(AlreadyConfirmed);
    }
    repo.ConfirmEmail(found.value.email);
    r := Success(ConfirmedMessage);
  }

  // ---------------------------------------------------------------- register_user

  /** `register_user`: 409 for a taken email, checked before 409 for a taken
      username; otherwise the insert is attempted. It fails with a 500 on an
      over-long value or a missing avatar (the Gravatar lookup's fallback is
      None, and the column is NOT NULL); when it succeeds, the row holds the
      hash of the password (which equals the password only for a password
      that itself begins with the hash's scheme and salt) and a verification
      email is queued. The avatar URL is an input. */
  method RegisterUser(repo: Repository, tasks: BackgroundTasks, data: UserCreate,
                      salt: Salt, avatar: Option<string>, host: string)
    returns (r: Result<User, ApiError>)
    requires repo.Valid()
    modifies repo, tasks
    ensures repo.Valid()
    ensures r.Failure? ==> repo.users == old(repo.users) && tasks.queued == old(tasks.queued)
    ensures repo.nextId ==
              if GetUserByEmail(old(repo.users), data.email).Some? || GetUserByUsername(old(repo.users), data.username).Some?
              then old(repo.nextId) else old(repo.nextId) + 1
    ensures GetUserByEmail(old(repo.users), data.email).Some? ==> r == Failure(EmailTaken)
    ensures (GetUserByEmail(old(repo.users), data.email).None? && GetUserByUsername(old(repo.users), data.username).Some?)
              ==> r == Failure(UsernameTaken)
    ensures (&& GetUserByEmail(old(repo.users), data.email).None? && GetUserByUsername(old(repo.users), data.username).None?
             && FitsWidth(data.email, EmailWidth) && FitsWidth(data.username, UsernameWidth) && avatar.None?)
              ==> r == Failure(WriteFailure(NotNullViolation("avatar")))
    ensures r.Success? <==>
              && GetUserByEmail(old(repo.users), data.email).None?
              && GetUserByUsername(old(repo.users), data.username).None?
              && ColumnsAccept(data.email, data.username, avatar)
    ensures r.Success? ==>
              && r.value == NewUser(old(repo.nextId), data.email, data.username, Hash(data.password, salt), avatar.value, data.role)
              && (r.value.hashedPassword == data.password ==>
                    |data.password| > BcryptMaxLength && data.password[..|Scheme| + SaltLength] == Scheme + salt)
              && Verify(data.password, r.value.hashedPassword)
              && repo.users == old(repo.users) + [r.value]
              && tasks.queued == old(tasks.queued) + [VerificationEmail(data.email, data.username, host)]
  {
    if GetUserByEmail(repo.users, data.email).Some? {
      return Failure(EmailTaken);
    }
    if GetUserByUsername(repo.users, data.username).Some? {
      return Failure(UsernameTaken);
    }
    var hashed := data.(password := Hash(data.password, salt));
    var created := repo.CreateUser(hashed, avatar);
    if created.Failure? {
      return Failure(WriteFailure(created.error));
    }
    tasks.AddTask(VerificationEmail(created.value.email, created.value.username, host));
    r := Success(created.value);
  }
}
