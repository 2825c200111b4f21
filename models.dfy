/** The two tables of the application and the constraints their columns declare. */
module Models {
  import opened Outcomes
  import opened Calendar

  /** The closed set of roles; a role is never null. */
  datatype UserRole = USER | ADMIN

  // Declared column widths.
  const EmailWidth: nat := 50
  const UsernameWidth: nat := 50
  const AvatarWidth: nat := 255
  const RefreshTokenWidth: nat := 255
  const ContactFieldWidth: nat := 50
  const DescriptionWidth: nat := 150

  /** A row of `users`. `refreshToken` may be NULL; `avatar`, annotated as a
      plain string, is NOT NULL. */
  datatype User = User(
    id: nat,
    email: string,
    username: string,
    hashedPassword: string,
    avatar: string,
    confirmed: bool,
    role: UserRole,
    refreshToken: Option<string>)

  /** A row of `contacts`; `userId` (the owner) is never NULL, so every contact
      has exactly one owner. */
  datatype Contact = Contact(
    id: nat,
    firstName: string,
    lastName: string,
    email: string,
    phone: string,
    birthday: Date,
    description: Option<string>,
    userId: nat)

  /** A database error that aborts the statement (and so the request): a
      duplicate in a unique column, a value wider than its column, or NULL in
      a NOT NULL column. */
  datatype DbError = UniqueViolation(column: string) | ValueTooLong(column: string) | NotNullViolation(column: string)

  predicate FitsWidth(s: string, width: nat) {
    |s| <= width
  }

  predicate OptionalFitsWidth(s: Option<string>, width: nat) {
    s.Some? ==> |s.value| <= width
  }

  /** The column constraints a stored user row satisfies. */
  predicate UserFitsColumns(u: User) {
    && FitsWidth(u.email, EmailWidth)
    && FitsWidth(u.username, UsernameWidth)
    && FitsWidth(u.avatar, AvatarWidth)
    && OptionalFitsWidth(u.refreshToken, RefreshTokenWidth)
  }

  /** The column constraints a stored contact row satisfies. */
  predicate ContactFitsColumns(c: Contact) {
    && FitsWidth(c.firstName, ContactFieldWidth)
    && FitsWidth(c.lastName, ContactFieldWidth)
    && FitsWidth(c.email, ContactFieldWidth)
    && FitsWidth(c.phone, ContactFieldWidth)
    && ValidDate(c.birthday)
    && OptionalFitsWidth(c.description, DescriptionWidth)
  }

  /** A freshly inserted user: the column defaults give role USER (unless the
      role was given), `confirmed` false and no refresh token. */
  function NewUser(id: nat, email: string, username: string, hashedPassword: string,
                   avatar: string, role: Option<UserRole>): (u: User)
    ensures u.id == id && u.email == email && u.username == username
    ensures u.hashedPassword == hashedPassword && u.avatar == avatar
    ensures role.None? ==> u.role == USER
    ensures role.Some? ==> u.role == role.value
    ensures !u.confirmed && u.refreshToken.None?
  {
    User(id, email, username, hashedPassword, avatar, false,
         if role.Some? then role.value else USER, None)
  }
}
