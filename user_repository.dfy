/** The `users` table held in memory: lookups by each unique key, and the
    repository whose methods insert a row or overwrite one field of one row. */
module UserRepository {
  import opened Outcomes
  import opened Models

  /** The registration body; `role` is None when the client left it unset. */
  datatype UserCreate = UserCreate(username: string, email: string, password: string, role: Option<UserRole>)

  /** The unique columns a lookup filters on. */
  datatype Key = ById(id: nat) | ByEmail(email: string) | ByUsername(username: string)

  predicate HasKey(u: User, k: Key) {
    match k
    case ById(id) => u.id == id
    case ByEmail(email) => u.email == email
    case ByUsername(name) => u.username == name
  }

  /** No two rows share an id, an email or a username. */
  ghost predicate UniqueKeys(users: seq<User>) {
    forall i, j :: 0 <= i < j < |users| ==>
      users[i].id != users[j].id && users[i].email != users[j].email && users[i].username != users[j].username
  }

  /** `select(User).filter_by(key=...)` followed by `scalar_one_or_none()`. */
  function Find(users: seq<User>, k: Key): (r: Option<User>)
    ensures r.Some? ==> r.value in users && HasKey(r.value, k)
    ensures r.None? <==> forall u :: u in users ==> !HasKey(u, k)
    ensures UniqueKeys(users) ==> forall u :: u in users && HasKey(u, k) ==> r == Some(u)
  {
    if users == [] then None
    else if HasKey(users[0], k) then Some(users[0])
    else
      assert UniqueKeys(users) ==> UniqueKeys(users[1..]);
      Find(users[1..], k)
  }

  function GetUserById(users: seq<User>, id: nat): (r: Option<User>)
    ensures r.Some? ==> r.value in users && r.value.id == id
    ensures r.None? <==> forall u :: u in users ==> u.id != id
  {
    Find(users, ById(id))
  }

  function GetUserByEmail(users: seq<User>, email: string): (r: Option<User>)
    ensures r.Some? ==> r.value in users && r.value.email == email
    ensures r.None? <==> forall u :: u in users ==> u.email != email
  {
    Find(users, ByEmail(email))
  }

  function GetUserByUsername(users: seq<User>, username: string): (r: Option<User>)
    ensures r.Some? ==> r.value in users && r.value.username == username
    ensures r.None? <==> forall u :: u in users ==> u.username != username
  {
    Find(users, ByUsername(username))
  }

  /** The single-field assignments the repository performs on a fetched row. */
  datatype FieldUpdate =
    | MarkConfirmed
    | SetAvatar(url: string)
    | SetHashedPassword(hash: string)
    | SetRefreshToken(token: string)

  /** One assignment changes one column: the account's identity and role stay,
      and a value that fits keeps the row within its widths. */
  function Apply(u: User, f: FieldUpdate): (r: User)
    ensures SameIdentity(r, u) && r.role == u.role
    ensures UserFitsColumns(u) && UpdateFits(f) ==> UserFitsColumns(r)
  {
    match f
    case MarkConfirmed => u.(confirmed := true)
    case SetAvatar(url) => u.(avatar := url)
    case SetHashedPassword(h) => u.(hashedPassword := h)
    case SetRefreshToken(t) => u.(refreshToken := Some(t))
  }

  /** The table after `f` is applied to the row whose email is `email`. */
  function UpdateByEmail(users: seq<User>, email: string, f: FieldUpdate): (r: seq<User>)
    ensures |r| == |users|
    ensures forall i :: 0 <= i < |r| ==> SameIdentity(r[i], users[i])
    ensures forall i :: 0 <= i < |r| && users[i].email != email ==> r[i] == users[i]
    ensures forall i :: 0 <= i < |r| && users[i].email == email ==> r[i] == Apply(users[i], f)
  {
    seq(|users|, i requires 0 <= i < |users| => if users[i].email == email then Apply(users[i], f) else users[i])
  }

  /** Updating one field keeps the table's unique keys. */
  lemma UpdateKeepsUniqueKeys(users: seq<User>, email: string, f: FieldUpdate)
    requires UniqueKeys(users)
    ensures UniqueKeys(UpdateByEmail(users, email, f))
    ensures forall v :: v in UpdateByEmail(users, email, f) ==> exists u :: u in users && SameIdentity(u, v)
  {
    var r := UpdateByEmail(users, email, f);
    forall v | v in r ensures exists u :: u in users && SameIdentity(u, v) {
      var i :| 0 <= i < |r| && r[i] == v;
      assert SameIdentity(users[i], v);
    }
  }

  /** Two rows name the same account: same id, email and username. */
  predicate SameIdentity(a: User, b: User) {
    a.id == b.id && a.email == b.email && a.username == b.username
  }

  /** A lookup after an update sees the updated row, and every other row as it was. */
  lemma {:induction false} FindAfterUpdate(users: seq<User>, email: string, f: FieldUpdate, k: Key)
    ensures Find(UpdateByEmail(users, email, f), k) ==
      match Find(users, k)
      case None => None
      case Some(u) => Some(if u.email == email then Apply(u, f) else u)
  {
    var r := UpdateByEmail(users, email, f);
    if users != [] {
      assert r[1..] == UpdateByEmail(users[1..], email, f);
      FindAfterUpdate(users[1..], email, f, k);
    }
  }

  /** Every row has an id the sequence has already handed out and fits its columns. */
  ghost predicate RowsValid(users: seq<User>, nextId: nat) {
    forall u :: u in users ==> u.id < nextId && UserFitsColumns(u)
  }

  /** The value an update writes fits its column. */
  predicate UpdateFits(f: FieldUpdate) {
    match f
    case SetAvatar(url) => FitsWidth(url, AvatarWidth)
    case SetRefreshToken(t) => FitsWidth(t, RefreshTokenWidth)
    case _ => true
  }

  /** An update whose value fits keeps every row valid and the keys unique. */
  lemma UpdateKeepsValid(users: seq<User>, nextId: nat, email: string, f: FieldUpdate)
    requires UniqueKeys(users) && RowsValid(users, nextId) && UpdateFits(f)
    ensures UniqueKeys(UpdateByEmail(users, email, f)) && RowsValid(UpdateByEmail(users, email, f), nextId)
  {
    UpdateKeepsUniqueKeys(users, email, f);
    var r := UpdateByEmail(users, email, f);
    forall v | v in r ensures v.id < nextId && UserFitsColumns(v) {
      var i :| 0 <= i < |r| && r[i] == v;
      assert users[i] in users;
    }
  }

  /** The columns of a new row accept its values: the email and username fit
      their widths, and the avatar is present and fits its width. */
  predicate ColumnsAccept(email: string, username: string, avatar: Option<string>) {
    && FitsWidth(email, EmailWidth)
    && FitsWidth(username, UsernameWidth)
    && avatar.Some? && FitsWidth(avatar.value, AvatarWidth)
  }

  /** The repository: `users` is the table, `nextId` the next value of the id sequence. */
  class Repository {
    var users: seq<User>
    var nextId: nat

    ghost predicate Valid()
      reads this
    {
      UniqueKeys(users) && RowsValid(users, nextId)
    }

    constructor ()
      ensures Valid() && users == [] && nextId == 1
    {
      users := [];
      nextId := 1;
    }

    /** `create_user`: inserts one row whose `hashed_password` is the body's
        `password` field (which the caller has already hashed). An over-long
        value, a NULL avatar or a duplicate key aborts the insert and leaves
        the table unchanged; the INSERT draws its id from the sequence before
        any column check, so that value is used up either way. */
    method CreateUser(body: UserCreate, avatar: Option<string>) returns (r: Result<User, DbError>)
      requires Valid()
      modifies this
      ensures Valid() && nextId == old(nextId) + 1
      ensures !FitsWidth(body.email, EmailWidth) ==> r == Failure(ValueTooLong("email"))
      ensures FitsWidth(body.email, EmailWidth) && !FitsWidth(body.username, UsernameWidth) ==>
                r == Failure(ValueTooLong("username"))
      ensures FitsWidth(body.email, EmailWidth) && FitsWidth(body.username, UsernameWidth) && avatar.None? ==>
                r == Failure(NotNullViolation("avatar"))
      ensures (FitsWidth(body.email, EmailWidth) && FitsWidth(body.username, UsernameWidth)
               && avatar.Some? && !FitsWidth(avatar.value, AvatarWidth)) ==> r == Failure(ValueTooLong("avatar"))
      ensures (ColumnsAccept(body.email, body.username, avatar) && GetUserByEmail(old(users), body.email).Some?) ==>
                r == Failure(UniqueViolation("email"))
      ensures (ColumnsAccept(body.email, body.username, avatar)
               && GetUserByEmail(old(users), body.email).None?
               && GetUserByUsername(old(users), body.username).Some?) ==> r == Failure(UniqueViolation("username"))
      ensures r.Failure? ==> users == old(users)
      ensures r.Success? <==>
                && ColumnsAccept(body.email, body.username, avatar)
                && GetUserByEmail(old(users), body.email).None?
                && GetUserByUsername(old(users), body.username).None?
      ensures r.Success? ==>
                && r.value == NewUser(old(nextId), body.email, body.username, body.password, avatar.value, body.role)
                && users == old(users) + [r.value]
    {
      var id := nextId;
      nextId := nextId + 1;
      if !FitsWidth(body.email, EmailWidth) {
        return Failure(ValueTooLong("email"));
      }
      if !FitsWidth(body.username, UsernameWidth) {
        return Failure(ValueTooLong("username"));
      }
      if avatar.None? {
        return Failure(NotNullViolation("avatar"));
      }
      if !FitsWidth(avatar.value, AvatarWidth) {
        return Failure(ValueTooLong("avatar"));
      }
      if GetUserByEmail(users, body.email).Some? {
        return Failure(UniqueViolation("email"));
      }
      if GetUserByUsername(users, body.username).Some? {
        return Failure(UniqueViolation("username"));
      }
      var u := NewUser(id, body.email, body.username, body.password, avatar.value, body.role);
      users := users + [u];
      r := Success(u);
    }

    /** `confirm_email`: sets `confirmed` on the row with that email; the row
        must exist (otherwise the source dereferences None). */
    method ConfirmEmail(email: string)
      requires Valid() && GetUserByEmail(users, email).Some?
      modifies this
      ensures Valid() && nextId == old(nextId)
      ensures users == UpdateByEmail(old(users), email, MarkConfirmed)
      ensures GetUserByEmail(users, email) == Some(old(GetUserByEmail(users, email)).value.(confirmed := true))
    {
      UpdateKeepsValid(users, nextId, email, MarkConfirmed);
      FindAfterUpdate(users, email, MarkConfirmed, ByEmail(email));
      users := UpdateByEmail(users, email, MarkConfirmed);
    }

    /** `update_avatar_url`: None and no change for an unknown email; otherwise
        only `avatar` of that row changes. */
    method UpdateAvatarUrl(email: string, url: string) returns (r: Result<Option<User>, DbError>)
      requires Valid()
      modifies this
      ensures Valid() && nextId == old(nextId)
      ensures GetUserByEmail(old(users), email).None? ==> r == Success(None) && users == old(users)
      ensures GetUserByEmail(old(users), email).Some? && !FitsWidth(url, AvatarWidth) ==>
                r == Failure(ValueTooLong("avatar")) && users == old(users)
      ensures GetUserByEmail(old(users), email).Some? && FitsWidth(url, AvatarWidth) ==>
                && users == UpdateByEmail(old(users), email, SetAvatar(url))
                && r == Success(Some(GetUserByEmail(old(users), email).value.(avatar := url)))
                && GetUserByEmail(users, email) == r.value
    {
      var found := GetUserByEmail(users, email);
      if found.None? {
        return Success(None);
      }
      if !FitsWidth(url, AvatarWidth) {
        return Failure(ValueTooLong("avatar"));
      }
      UpdateKeepsValid(users, nextId, email, SetAvatar(url));
      FindAfterUpdate(users, email, SetAvatar(url), ByEmail(email));
      users := UpdateByEmail(users, email, SetAvatar(url));
      r := Success(Some(found.value.(avatar := url)));
    }

    /** `update_hashed_password`: only `hashed_password` of that row changes;
        the row must exist. */
    method UpdateHashedPassword(email: string, hash: string)
      requires Valid() && GetUserByEmail(users, email).Some?
      modifies this
      ensures Valid() && nextId == old(nextId)
      ensures users == UpdateByEmail(old(users), email, SetHashedPassword(hash))
      ensures GetUserByEmail(users, email) == Some(old(GetUserByEmail(users, email)).value.(hashedPassword := hash))
    {
      UpdateKeepsValid(users, nextId, email, SetHashedPassword(hash));
      FindAfterUpdate(users, email, SetHashedPassword(hash), ByEmail(email));
      users := UpdateByEmail(users, email, SetHashedPassword(hash));
    }

    /** `update_refresh_token`: overwrites `refresh_token` of that row (the
        previous value is lost) and returns the updated row; the row must exist.
        A token wider than the column aborts the update. */
    method UpdateRefreshToken(email: string, token: string) returns (r: Result<User, DbError>)
      requires Valid() && GetUserByEmail(users, email).Some?
      modifies this
      ensures Valid() && nextId == old(nextId)
      ensures !FitsWidth(token, RefreshTokenWidth) ==> r == Failure(ValueTooLong("refresh_token")) && users == old(users)
      ensures FitsWidth(token, RefreshTokenWidth) ==>
                && users == UpdateByEmail(old(users), email, SetRefreshToken(token))
                && r == Success(old(GetUserByEmail(users, email)).value.(refreshToken := Some(token)))
                && GetUserByEmail(users, email) == Some(r.value)
    {
      if !FitsWidth(token, RefreshTokenWidth) {
        return Failure(ValueTooLong("refresh_token"));
      }
      var found := GetUserByEmail(users, email);
      UpdateKeepsValid(users, nextId, email, SetRefreshToken(token));
      FindAfterUpdate(users, email, SetRefreshToken(token), ByEmail(email));
      users := UpdateByEmail(users, email, SetRefreshToken(token));
      r := Success(found.value.(refreshToken := Some(token)));
    }
  }
}
