# Contacts API: authentication, sessions and the two repositories

This project models the core of a FastAPI contacts service: the users table and
the contacts table (`src/database/models.py`), the repositories that read and
write them (`src/repository/users.py`, `src/repository/contacts.py`), the
authentication service (password hashing, the three kinds of signed token, the
refresh-token check, the Redis-backed session lookup behind every
authenticated route and the admin gate, in `src/services/auth.py`), and the
endpoints built on them (`src/api/auth.py` and `src/api/users.py`).

Layout, one module per file:

- `outcomes.dfy`: `Option`, `Result`, and `ApiError`. An `ApiError` is an HTTP error with a status and detail, or an uncaught exception (a 500).
- `calendar.dfy`: SQL dates and `date + timedelta(days=n)`.
- `models.dfy`: the `User` and `Contact` rows, their column widths, and the defaults of a new user.
- `user_repository.dfy`: lookups by each unique key, and a `Repository` class. The class holds the table as a `seq<User>` that its methods reassign, and it keeps the unique keys invariant.
- `contact_repository.dfy`: the `ILIKE` filters, pagination, the seven-day birthday window, and a `Repository` class for contacts.
- `sql_like.dfy`: SQL `ILIKE` pattern matching, related to case-insensitive substring search.
- `auth_hash.dfy`: the password hasher.
- `auth_tokens.dfy`: the claim sets of access, refresh and email tokens, and the signed codec around them.
- `auth_temp_password.dfy`: the temporary password generator, with an in-place shuffle over an `array`.
- `auth_session.dfy`: `verify_refresh_token`, `get_current_user` over a `SessionCache` class (the Redis connection), and `get_current_admin_user`.
- `auth_api.dfy`: login, refresh, password reset, email requests and confirmation, and registration.
- `users_api.dfy`: `me`, the password change and the admin-only avatar change.

State-changing handlers are methods over the repository and cache objects they
change. Each is proved against a function of the old state, such as `Login`,
`Authenticate` or `ChangePassword`, and the lemmas are about those functions.

What the code does at its edges, and so what the model does:

- python-jose accepts a token up to and including its `exp` second, so `AuthTokens.ExpiryAccepts` uses `now <= exp`.
- python-jose runs its default claim checks on every decode. The application passes no audience, issuer, subject or access token, so a signed claim set is refused when: an `iat` is not an integer; an `nbf` is later than the clock; an `exp` has passed; any `aud` is present; a `sub` is not a string (a JSON null or a number); a `jti` is not a string; or any `at_hash` is present. `AuthTokens.Decode` applies all of these checks. As a result, the `username is None` test after decoding can never fire.
- `create_email_token` sets no `token_type` claim, and neither does `AuthTokens.EmailClaims`.
- A payload without `sub` raises a KeyError at `payload["sub"]`, which the `except JWTError` clause does not catch, so the request ends in a 500 (`AuthSession.MissingSubject`).
- A refresh token whose subject has no row crashes `verify_refresh_token`; see "## Findings".
- passlib's bcrypt reads only the first 72 bytes of a password. `AuthHash.Hash` keeps only the first 72 characters (`Significant`), so two passwords that agree on those verify against the same hash.

## Model

| member | source | states |
|---|---|---|
| Calendar.DaysInMonth | src/database/models.py:31 | A month has 28 to 31 days; February has 29 exactly in a Gregorian leap year and 28 otherwise |
| Calendar.NextDay | src/repository/contacts.py:74 | The next day is a valid date, later than the given one, and no valid date lies between them |
| Calendar.AddDays | src/repository/contacts.py:74 | Adding n days to a valid date gives a valid date, strictly later when n > 0 |
| Models.NewUser | src/database/models.py:53-55 | A new user row has role USER unless a role was given, is unconfirmed, and has no refresh token; the other fields are as supplied |
| UserRepository.Find | src/repository/users.py:42-44 | A lookup by a unique column returns a row of the table with that key, returns None exactly when no row has it, and returns the only such row when keys are unique |
| UserRepository.GetUserById | src/repository/users.py:42-44 | Returns a stored row with that id, or None exactly when no row has it |
| UserRepository.GetUserByEmail | src/repository/users.py:56-58 | Returns a stored row with that email, or None exactly when no row has it |
| UserRepository.GetUserByUsername | src/repository/users.py:70-72 | Returns a stored row with that username, or None exactly when no row has it |
| UserRepository.Apply | src/repository/users.py:21-142 | Each repository assignment changes one column: the id, email, username and role stay, and a value that fits keeps the row within its column widths |
| UserRepository.UpdateByEmail | src/repository/users.py:21-142 | The table keeps its length and identities; the row with that email gets the assignment, and every other row is unchanged |
| UserRepository.UpdateKeepsUniqueKeys | src/database/models.py:44-46 | Changing one field of one row keeps id, email and username unique, and every row still names an account that was already there |
| UserRepository.FindAfterUpdate | src/repository/users.py:123-125 | A lookup after an update sees the updated row in place of the old one, and every other row unchanged |
| UserRepository.UpdateKeepsValid | src/database/models.py:44-55 | An update whose value fits its column keeps the keys unique and every row within its column widths |
| UserRepository.Repository.constructor | src/database/models.py:42-55 | The table starts empty and valid |
| UserRepository.Repository.CreateUser | src/repository/users.py:74-93 | An over-wide value, a NULL avatar (the column is NOT NULL) or a taken email or username aborts the insert and leaves the table as it was; otherwise exactly one row is appended, with the drawn id, the default role and flags, and the already-hashed password. Either way the id sequence advances by one |
| UserRepository.Repository.ConfirmEmail | src/repository/users.py:28-30 | Only `confirmed` of that user's row changes, and it becomes true |
| UserRepository.Repository.UpdateAvatarUrl | src/repository/users.py:106-111 | For an unknown email it returns None and changes nothing; otherwise only `avatar` of that row changes, and the updated row is returned |
| UserRepository.Repository.UpdateHashedPassword | src/repository/users.py:123-125 | Only `hashed_password` of that row changes |
| UserRepository.Repository.UpdateRefreshToken | src/repository/users.py:138-142 | The row's refresh token is overwritten, so the previous one is lost, and the updated row is returned; a token wider than its column aborts the update |
| AuthHash.Hash | src/services/auth.py:48-58 | A hash verifies its own password; it carries the bcrypt scheme and the salt and is at most 101 characters long; it can equal the password only if the password itself begins with that scheme and salt and is 101 characters long |
| AuthHash.Significant | src/services/auth.py:33 | The part of a password bcrypt reads: at most its first 72 characters, and the whole of a password no longer than that |
| AuthHash.Verify | src/services/auth.py:35-46 | `verify_password` holds exactly when the hash carries the scheme, a salt, and the significant part of the plain password; its properties are the lemmas below |
| AuthHash.VerifyDeterminesPassword | src/services/auth.py:35-46 | Two passwords that verify against one hash agree on their first 72 characters, and are equal when neither is longer |
| AuthHash.SaltsSeparateHashes | src/services/auth.py:48-58 | One password hashed under two different salts gives two different hashes |
| AuthHash.HashVerifiesSamePrefix | src/services/auth.py:35-58 | A hash verifies exactly the passwords that agree with the hashed one on their first 72 characters |
| AuthHash.TruncatedPasswordsCollide | src/services/auth.py:33-46 | Seventy-two "a"s followed by "y" verifies against the hash of seventy-two "a"s followed by "x" |
| AuthTokens.Lifetime | src/services/auth.py:117-120 | An `expires_delta` of None or 0 falls back to the default lifetime; any other value is used as given |
| AuthTokens.SessionClaims | src/services/auth.py:115-121 | Access and refresh claims are a copy of the data with `exp`, `iat` and `token_type` set, and every other claim is kept |
| AuthTokens.EmailClaims | src/services/auth.py:97-99 | Email-token claims are the data with `iat` and a seven-day `exp`, and gain no `token_type` |
| AuthTokens.AccessClaims | src/services/auth.py:115-121 | The access claims keep the data and add `token_type` "access", `iat` now and `exp` now plus the access lifetime |
| AuthTokens.RefreshClaims | src/services/auth.py:139-145 | The refresh claims keep the data and add `token_type` "refresh", `iat` now and `exp` now plus the refresh lifetime |
| AuthTokens.CreateAccessToken | src/services/auth.py:104-125 | With a round-tripping codec, the token decodes back to exactly its access claims |
| AuthTokens.CreateRefreshToken | src/services/auth.py:128-149 | With a round-tripping codec, the token decodes back to exactly its refresh claims |
| AuthTokens.CreateEmailToken | src/services/auth.py:87-101 | With a round-tripping codec, the token decodes back to exactly its email claims |
| AuthTokens.ExpiryAccepts | src/services/auth.py:75-77 | The library's expiry check: no `exp`, or an integer `exp` not yet passed |
| AuthTokens.SubjectAccepts | src/services/auth.py:75-78 | The library's subject check: no `sub`, or a string `sub` |
| AuthTokens.ExpiryIsInclusive | src/services/auth.py:75-77 | A token accepted at some instant is accepted at every earlier one, and a token with `exp` is refused from the second after it |
| AuthTokens.Decode | src/services/auth.py:75-77 | A token decodes exactly when its signature checks and its claims pass every default check of the library (`iat` an integer, `nbf` reached, `exp` not passed, no `aud`, `sub` a string, `jti` a string, no `at_hash`); it then decodes to the signed claims |
| AuthTokens.AccessTokenLifetime | src/services/auth.py:104-125 | An issued access token whose data passes the checks on the claims it copies decodes to its claims up to its expiry, one hour by default, and fails after it |
| AuthTokens.RefreshTokenLifetime | src/services/auth.py:128-149 | An issued refresh token whose data passes the checks on the claims it copies decodes to its claims up to its expiry, seven days by default, and fails after it |
| AuthTokens.EmailTokenLifetime | src/services/auth.py:87-101 | An email token whose data passes the checks on the claims it copies decodes to its claims for seven days and fails after that |
| AuthTokens.AccessTokenIsNotRefreshToken | src/services/auth.py:121-145 | No access token is equal to any refresh token, since their `token_type` claims differ |
| AuthTokens.ZeroDeltaMeansDefault | src/services/auth.py:117 | A zero `expires_delta` gives the same claims as none at all |
| AuthTempPassword.TestPasswordIsStrong | src/services/auth.py:159-160 | The fixed password used under test has the promised composition |
| AuthTempPassword.Shuffle | src/services/auth.py:175 | The in-place shuffle permutes the array: the multiset of characters is unchanged |
| AuthTempPassword.Picked | src/services/auth.py:162-174 | Before the shuffle there are ten characters: one lower-case letter, one upper-case letter, one digit, one symbol, then six from the whole alphabet |
| AuthTempPassword.GenerateTempPassword | src/services/auth.py:152-179 | The result is the fixed password under test; otherwise it is ten alphabet characters including at least one lower-case letter, upper-case letter, digit and symbol |
| AuthTempPassword.ContentsPreserved | src/services/auth.py:174-177 | A permutation of the picked characters keeps the promised composition |
| AuthTempPassword.ClassSurvives | src/services/auth.py:175 | A character class present before a permutation is present after it |
| AuthSession.DecodeSubject | src/services/auth.py:252-260 | A token the library refuses gives 401, and a payload without `sub` raises an uncaught KeyError; otherwise the result is the decoded claims and their string subject |
| AuthSession.VerifyRefreshToken | src/services/auth.py:220-239 | A token is accepted exactly when it decodes, has a subject, is of the refresh kind, and is the very string stored on that user, who is the result; every refusal is a 401, except the missing-`sub` crash |
| AuthSession.VerifyRefreshTokenAsWritten | src/services/auth.py:220-239 | The code as written: it accepts only the token stored on its user, and it crashes with the AttributeError exactly on a refresh-kind token whose subject has no row |
| AuthSession.AsWrittenDiffersOnlyOnMissingUser | src/services/auth.py:234-237 | The code as written and the corrected check differ exactly on a refresh token whose subject has no row: 500 against 401 |
| AuthSession.UnknownSubjectCrashesAsWritten | src/services/auth.py:234-237 | A validly signed refresh token for a user who does not exist crashes the code as written, and is a 401 in the corrected check |
| AuthSession.OnlyStoredTokenVerifies | src/services/auth.py:236-237 | Only the refresh token stored on a user's row verifies for that user |
| AuthSession.IssuedRefreshTokenVerifies | src/services/auth.py:220-239 | The refresh token stored at login verifies, and returns its user, for its whole lifetime |
| AuthSession.CachedUser | src/services/auth.py:262-274 | The cache returns the stored snapshot exactly while the key exists and has not expired |
| AuthSession.Authenticate | src/services/auth.py:252-276 | Decoding errors pass through, and a failure leaves the cache alone. The cache changes only on a miss for a stored user, who is returned and cached under the username for 3600 seconds |
| AuthSession.CacheHitIgnoresStore | src/services/auth.py:262-274 | On a cache hit the snapshot is returned whatever the store holds |
| AuthSession.CacheMissConsultsStore | src/services/auth.py:264-272 | On a miss an unknown user is a 401; a stored user is returned and cached with a one-hour expiry |
| AuthSession.SecondCallWithinTtlHitsCache | src/services/auth.py:262-276 | A second resolution within the hour repeats the first answer and leaves the cache unchanged, whatever the store holds by then |
| AuthSession.RefreshTokenPassesAsBearer | src/services/auth.py:252-276 | The token kind is never checked, so a refresh token used as a bearer token resolves exactly as an access token for the same user does |
| AuthSession.AuthenticateKeepsCoherent | src/services/auth.py:271-272 | Resolving a token keeps every cached snapshot tied to a stored account |
| AuthSession.CoherentAfterUpdate | src/repository/users.py:123-142 | A field update never breaks the tie between cached snapshots and stored accounts |
| AuthSession.CoherentAfterInsert | src/repository/users.py:85-93 | Inserting a user with fresh keys never breaks that tie either |
| AuthSession.SessionCache.constructor | src/services/auth.py:23 | The cache starts empty |
| AuthSession.SessionCache.Set | src/services/auth.py:271 | `set` overwrites the key with no expiry |
| AuthSession.SessionCache.Expire | src/services/auth.py:272 | `expire` gives a live key an expiry `seconds` from now and leaves an absent key alone |
| AuthSession.SetThenExpireLastsOneSession | src/services/auth.py:262-272 | After `set`, `get` returns the snapshot at every instant; after `set` and `expire(key, 3600)`, it returns the snapshot until the hour is up and nothing from then on |
| AuthSession.GetCurrentUser | src/services/auth.py:252-276 | The returned user and the new cache are exactly those of `Authenticate` on the old cache |
| AuthSession.GetCurrentAdminUser | src/services/auth.py:288-292 | A 403 exactly when the user is not an admin; otherwise the same user |
| ContactRepository.Filter | src/repository/contacts.py:46-56 | Keeps exactly the rows that satisfy the condition, never more rows than it was given |
| ContactRepository.Selected | src/repository/contacts.py:46-53 | The WHERE clause: the contact is the user's, and each given non-empty filter matches as `ILIKE '%f%'`; its meaning is `SelectedIsSubstringMatch` |
| ContactRepository.SelectedIsSubstringMatch | src/repository/contacts.py:48-53 | With no `%` or `_` in the filters, a row is selected exactly when the user owns it and each non-empty filter occurs in its field, ignoring letter case |
| ContactRepository.Page | src/repository/contacts.py:46 | OFFSET and LIMIT return the run of at most `limit` rows starting at `skip`, in order, and nothing past the end |
| ContactRepository.BirthdayWindow | src/repository/contacts.py:72-78 | The targets are the month and day of each of the seven days starting today |
| ContactRepository.TooLongColumn | src/database/models.py:27-32 | No column is named exactly when every string fits its declared width |
| ContactRepository.ApplyUpdate | src/repository/contacts.py:134-136 | The result is the contact with exactly the fields set in the body replaced, and the id and owner kept |
| ContactRepository.ApplyUpdateIsPartial | src/repository/contacts.py:134-136 | A body that sets no field leaves the contact unchanged |
| ContactRepository.ReplaceById | src/repository/contacts.py:136-138 | The table keeps its length; the row with that id becomes the updated contact, and every other row is unchanged |
| ContactRepository.ReplaceFacts | src/repository/contacts.py:133-140 | Replacing a row by its id keeps ids unique; the replacement is the only row with that id, and every other row is an old one |
| ContactRepository.FilterKeepsUniqueIds | src/repository/contacts.py:155-159 | Deleting rows keeps ids unique |
| ContactRepository.Repository.constructor | src/database/models.py:24-34 | The table starts empty and valid |
| ContactRepository.Repository.GetContacts | src/repository/contacts.py:46-56 | The owner's rows passing every given filter, then OFFSET and LIMIT applied to those matches only |
| ContactRepository.Repository.GetContactsWithUpcomingBirthdays | src/repository/contacts.py:70-83 | Exactly the owner's contacts whose month and day fall within the seven days starting today, whatever the birth year |
| ContactRepository.Repository.GetContactById | src/repository/contacts.py:98-100 | The contact with that id if the user owns it, and None exactly when no such owned contact exists |
| ContactRepository.Repository.CreateContact | src/repository/contacts.py:113-117 | Appends one row with the drawn id carrying the body's fields and the owner; an over-long value aborts and leaves the table unchanged. Either way the id sequence advances by one |
| ContactRepository.Repository.UpdateContact | src/repository/contacts.py:133-140 | A missing or foreign contact gives None and changes nothing. Otherwise only that row changes, with exactly the fields set in the body replaced; an over-long value aborts the update |
| ContactRepository.Repository.RemoveContact | src/repository/contacts.py:155-159 | The owned contact is deleted and returned, and every other row stays; a missing or foreign contact changes nothing; afterwards the id is not found |
| SqlLike.ILike | src/repository/contacts.py:49-53 | SQL `ILIKE`: `%` matches any run of characters and `_` any one character, letters compare without case; its properties are the lemmas below |
| SqlLike.PercentMatchesAll | src/repository/contacts.py:49 | `%` matches every text |
| SqlLike.LeadingPercent | src/repository/contacts.py:49 | A leading `%` lets the rest of the pattern match any suffix of the text |
| SqlLike.LiteralPrefix | src/repository/contacts.py:49 | A wildcard-free prefix matches exactly a case-insensitively equal prefix of the text |
| SqlLike.ContainsPatternIsSubstring | src/repository/contacts.py:49-53 | For filter text without wildcards, `ILIKE '%f%'` holds exactly when `f` occurs in the text, ignoring case |
| SqlLike.UnderscoreInFilterIsAWildcard | src/repository/contacts.py:49 | The filter text is not escaped: `_` in it matches any character, so "a_c" selects "abc" |
| AuthApi.WriteFailure | src/repository/users.py:91 | A failed write is not caught and ends the request with a 500 |
| AuthApi.BackgroundTasks.constructor | src/api/auth.py:44 | A request starts with no queued tasks |
| AuthApi.BackgroundTasks.AddTask | src/api/auth.py:71-73 | Queues exactly one more task, at the end |
| AuthApi.Login | src/api/auth.py:194-216 | An unknown username and a wrong password get the same 401. An unconfirmed user is refused only after the password verifies. A confirmed user whose password verifies succeeds exactly when the new refresh token fits its column; otherwise the update fails with a 500. On success both tokens carry the username, the token type is "bearer", and the user's stored refresh token becomes the new one |
| AuthApi.LoginUser | src/api/auth.py:194-216 | The reply and the new table are those of `Login` on the old table |
| AuthApi.RefreshTokenOverwrite | src/repository/users.py:138-142 | Overwriting one user's refresh token keeps the keys unique and leaves every other account as it was |
| AuthApi.LoginTouchesOnlyThatUser | src/api/auth.py:208-210 | After a login only the caller's row has changed, and it stores the new refresh token |
| AuthApi.NewToken | src/api/auth.py:220-233 | Succeeds exactly when the refresh check accepts the token, and fails with that check's error. On success the same refresh token is returned, with a fresh access token for its user |
| AuthApi.GarbageRefreshTokenRefused | src/api/auth.py:220-221 | A string that does not decode is refused with 401 |
| AuthApi.LoginThenRefresh | src/api/auth.py:208-233 | A login's refresh token is accepted by `new_token` for seven days, and the new access token names the same user for the following hour |
| AuthApi.SupersededTokenFails | src/services/auth.py:236-237 | A token naming a user whose row stores a different token is refused |
| AuthApi.SecondLoginRevokesFirst | src/api/auth.py:209-210 | A later login at another instant overwrites the stored token, so the earlier refresh token is refused |
| AuthApi.ResetPassword | src/api/auth.py:67-73 | Exactly one reset mail is queued, carrying a strong temporary password; only that row changes, and it takes the password's hash, which verifies it |
| AuthApi.ForgetPassword | src/api/auth.py:57-76 | An unknown email gets the usual reply and changes nothing; an unconfirmed user gets 401 and nothing changes; a confirmed user's password is reset |
| AuthApi.RequestEmail | src/api/auth.py:95-109 | A confirmed user gets 400. Otherwise the same reply is given whether or not the user exists, and a mail is queued only for an existing one. The table is never written |
| AuthApi.GetEmailFromToken | src/services/auth.py:64-84 | A token the library refuses (a bad signature, or a claim failing a default check) is a 422, and a payload without `sub` is an uncaught KeyError; otherwise the string subject is returned |
| AuthApi.EmailTokenNamesItsEmail | src/services/auth.py:64-101 | An email token gives back its email for seven days, and a 422 afterwards |
| AuthApi.ConfirmEmail | src/api/auth.py:123-135 | Token errors come first, then 400 for an email with no user and 400 for a user already confirmed. Only the remaining path succeeds, and it confirms that row alone |
| AuthApi.RegisterUser | src/api/auth.py:157-178 | A taken email gives 409 and is checked before a taken username, which also gives 409; neither touches the id sequence. A missing avatar or an over-wide value is a 500. Registration succeeds exactly when neither key is taken and the columns accept the row, which then holds the hash of the password, which verifies it, and a verification mail is queued |
| UsersApi.Me | src/api/users.py:25-32 | Returns exactly the user `get_current_user` resolves |
| UsersApi.ResolvedUserIsStored | src/services/auth.py:262-276 | When the cache is coherent, whoever a token resolves to is a stored account |
| UsersApi.ChangePassword | src/api/users.py:81-88 | The old password is checked against the resolved user's hash. Only when it verifies does that row take the hash of the new password; otherwise nothing changes and the user is still returned |
| UsersApi.UpdateUserPassword | src/api/users.py:81-88 | The reply, the new cache and the new table are those of `ChangePassword` on the old state, and the cache stays coherent |
| UsersApi.NewHashTakesEffect | src/repository/users.py:123-125 | After a new hash is stored, that row verifies the new password, not an old one that differs from it within the first 72 characters, and every other account reads as before |
| UsersApi.PasswordChangeTakesEffect | src/api/users.py:83-86 | After a change with a correct old password, the new password verifies, the old one no longer does (when the two differ within their first 72 characters), and every other account stays as it was |
| UsersApi.StaleSnapshotRefusesCurrentPassword | src/api/users.py:69-88 | Within the session hour, a second change that gives the current password as the old one is silently ignored when it differs from the first password within 72 characters, because the check uses the stale cached snapshot |
| UsersApi.UpdateAvatarUser | src/api/users.py:36-57 | Decoding errors pass through, and anyone but an admin gets 403, in both cases with the table unchanged. For an admin only that row's `avatar` changes, to the uploaded URL, and the updated row is returned |

## Left out

- Asynchronous execution and concurrent requests are not modelled; each handler is one atomic step.
- The two statements of a session write (`set` then `expire`) are applied together.
- The clock is a parameter (`now`, `today`): integer seconds for tokens and cached sessions, and a date for the birthday query. Each token builder reads it once, although `create_email_token` (src/services/auth.py:98-99) reads the clock twice, `exp` before `iat`. So a real email token's `exp - iat` can fall one second short of seven days, while the model's is exactly seven days.
- bcrypt is replaced by a transparent stand-in: the scheme, the salt, then the first 72 characters of the password. The salt is an input. The stand-in keeps which passwords verify against which hash, but not the hash's one-wayness or its fixed 60-character length.
- AuthHash.Hash: bcrypt's limit is 72 bytes, and the model counts 72 characters. They agree for ASCII passwords, but not for passwords with multi-byte characters.
- AuthHash.Hash and AuthApi.RegisterUser: the stored hash is proved different from the password only when the password does not itself begin with the scheme and salt. The stand-in has such fixed points, and nothing about bcrypt excludes them either.
- AuthHash.Verify: passlib raises ValueError on a string it does not recognise as a hash. Every stored hash comes from `Hash`, so the model answers false there instead.
- HS256 signing under the shared secret is an abstract codec. The only property assumed is that a signed claim set decodes back (`RoundTrips`).
- Cached sessions store the user value itself. jsonpickle's serialisation is taken to round-trip.
- The module-level Redis client is modelled as an injected `SessionCache` object.
- UsersApi.UpdateUserPassword and UsersApi.UpdateAvatarUser require the cache to hold only snapshots of live rows (`Coherent`). The handlers keep that true, and a fresh cache has it. The real Redis store is external and persistent, though, and can hold a snapshot of a row changed or removed outside the application. For such a snapshot, `update_hashed_password` would dereference None.
- Email sending and its templates are left out; only the queued notification is recorded. The token that `send_email` builds is covered by `CreateEmailToken`.
- The Cloudinary upload and the Gravatar lookup are left out. The uploaded URL is an input, and so is the lookup's result, which is None when the lookup raises (src/services/users.py:40-45).
- The rate limits (slowapi) and the `WWW-Authenticate` header are left out.
- `created_at` and the contacts foreign key are left out; ownership is the `userId` field.
- The session the repositories hold is left out; each class owns its table.
- The `ILIKE` backslash escape and non-ASCII case folding are left out; folding is ASCII only.
- Negative `skip` and `limit` are not modelled: they are `nat`.
- Result order is the table's insertion order. The query has no ORDER BY, so the database promises no order.
- Dates are proleptic Gregorian from year 1, with no upper bound. Python's `OverflowError` after year 9999 is not modelled.
- `UserService`'s thin forwarding layer is not modelled, and neither is `src/services/contacts.py`: the handlers call the repository directly.
- `UserService.update_refresh_token` (src/services/users.py:121) discards the repository's row and returns None. `login_user` binds `user` to that None and never reads it again, so nothing of it is modelled.
- AuthTokens.Decode: a JSON null in `iat`, `nbf` or `exp` makes python-jose raise a TypeError that `except JWTError` does not catch (a 500). The model refuses such a token instead (a 401 or 422). A numeric string in those claims passes the library's `int()` but is refused by the model. Tokens this application signs carry neither.
- AuthApi.NewToken: the handler's 401 "Invalid or expired refresh token" branch is left out, because it cannot be reached. The refresh check either raises or returns a user.
- UserRepository.Repository.ConfirmEmail, UpdateHashedPassword and UpdateRefreshToken require the row to exist, as their callers guarantee. Called without the row, the code would dereference None.

## Findings

| source | as written | input that shows it | evidently intended | confidence | as-written member | corrected member |
|---|---|---|---|---|---|---|
| src/services/auth.py:234-237 | `user.refresh_token` is read without checking that `get_user_by_username` found a row | a validly signed, unexpired refresh token whose subject has no row (for example, the user was deleted or renamed): AttributeError, a 500 | refuse it with the credentials 401, like every other bad refresh token | not executed | AuthSession.VerifyRefreshTokenAsWritten, AuthSession.UnknownSubjectCrashesAsWritten | AuthSession.VerifyRefreshToken |
