/** The `contacts` table held in memory, each row owned by one user: the
    filtered and paginated list, the seven-day birthday window, and lookup,
    insert, partial update and delete of one owned contact. Rows are kept in
    insertion order, which stands for the order the database returns them in. */
module ContactRepository {
  import opened Outcomes
  import opened Calendar
  import opened Models
  import opened SqlLike

  /** The body of a new contact; `description` is None when left unset. */
  datatype ContactModel = ContactModel(
    firstName: string, lastName: string, email: string, phone: string,
    birthday: Date, description: Option<string>)

  /** A partial update: a field is Some when the client set it. The
      description may be set to NULL, hence its inner Option. */
  datatype ContactUpdate = ContactUpdate(
    firstName: Option<string>, lastName: Option<string>, email: Option<string>,
    phone: Option<string>, birthday: Option<Date>, description: Option<Option<string>>)

  function Filter(cs: seq<Contact>, p: Contact -> bool): (r: seq<Contact>)
    ensures forall c :: c in r <==> c in cs && p(c)
    ensures |r| <= |cs|
  {
    if cs == [] then []
    else if p(cs[0]) then [cs[0]] + Filter(cs[1..], p)
    else Filter(cs[1..], p)
  }

  /** A filter counts only when given and non-empty (`if first_name:`). */
  predicate FieldFilter(value: string, filter: Option<string>) {
    filter.None? || filter.value == [] || ILike(ContainsPattern(filter.value), value)
  }

  /** The WHERE clause of `get_contacts`. */
  predicate Selected(c: Contact, owner: nat, firstName: Option<string>, lastName: Option<string>, email: Option<string>) {
    && c.userId == owner
    && FieldFilter(c.firstName, firstName)
    && FieldFilter(c.lastName, lastName)
    && FieldFilter(c.email, email)
  }

  /** A filter without LIKE wildcards means what the client asked for: the
      field contains it, ignoring case. */
  predicate ContainsFilter(value: string, filter: Option<string>) {
    filter.None? || filter.value == [] || ContainsIgnoringCase(value, filter.value)
  }

  predicate Literal(filter: Option<string>) {
    filter.None? || NoWildcards(filter.value)
  }

  lemma SelectedIsSubstringMatch(c: Contact, owner: nat, firstName: Option<string>, lastName: Option<string>, email: Option<string>)
    requires Literal(firstName) && Literal(lastName) && Literal(email)
    ensures Selected(c, owner, firstName, lastName, email) <==>
              && c.userId == owner
              && ContainsFilter(c.firstName, firstName)
              && ContainsFilter(c.lastName, lastName)
              && ContainsFilter(c.email, email)
  {
    if firstName.Some? { ContainsPatternIsSubstring(firstName.value, c.firstName); }
    if lastName.Some? { ContainsPatternIsSubstring(lastName.value, c.lastName); }
    if email.Some? { ContainsPatternIsSubstring(email.value, c.email); }
  }

  /** OFFSET `skip` LIMIT `limit` over the selected rows. */
  function Page(rows: seq<Contact>, skip: nat, limit: nat): (r: seq<Contact>)
    ensures |r| <= limit
    ensures skip >= |rows| ==> r == []
    ensures skip < |rows| ==> |r| == if limit <= |rows| - skip then limit else |rows| - skip
    ensures forall i :: 0 <= i < |r| ==> skip + i < |rows| && r[i] == rows[skip + i]
  {
    if skip >= |rows| then []
    else if limit <= |rows| - skip then rows[skip..skip + limit]
    else rows[skip..]
  }

  /** The rows whose (month, day) is one of the targets. */
  predicate BirthdayIn(c: Contact, targets: seq<MonthDay>) {
    MonthDayOf(c.birthday) in targets
  }

  /** A birthday is upcoming when its month and day are those of one of the
      seven days starting `today`; the year of birth plays no part. */
  ghost predicate UpcomingBirthday(birthday: Date, today: Date)
    requires ValidDate(today)
  {
    exists i: nat :: i < 7 && MonthDayOf(birthday) == MonthDayOf(AddDays(today, i))
  }

  /** The (month, day) of each of the seven days starting today. */
  method BirthdayWindow(today: Date) returns (targets: seq<MonthDay>)
    requires ValidDate(today)
    ensures |targets| == 7
    ensures forall i :: 0 <= i < 7 ==> targets[i] == MonthDayOf(AddDays(today, i))
  {
    targets := [];
    for i := 0 to 7
      invariant |targets| == i
      invariant forall k :: 0 <= k < i ==> targets[k] == MonthDayOf(AddDays(today, k))
    {
      var target := AddDays(today, i);
      targets := targets + [MonthDayOf(target)];
    }
  }

  /** Over-long values name the first column they do not fit. */
  function TooLongColumn(c: Contact): (col: Option<string>)
    ensures col.None? <==> FitsWidth(c.firstName, ContactFieldWidth) && FitsWidth(c.lastName, ContactFieldWidth)
                           && FitsWidth(c.email, ContactFieldWidth) && FitsWidth(c.phone, ContactFieldWidth)
                           && OptionalFitsWidth(c.description, DescriptionWidth)
  {
    if !FitsWidth(c.firstName, ContactFieldWidth) then Some("first_name")
    else if !FitsWidth(c.lastName, ContactFieldWidth) then Some("last_name")
    else if !FitsWidth(c.email, ContactFieldWidth) then Some("email")
    else if !FitsWidth(c.phone, ContactFieldWidth) then Some("phone")
    else if !OptionalFitsWidth(c.description, DescriptionWidth) then Some("description")
    else None
  }

  /** The `setattr` loop: every field set in the body replaces the stored one. */
  function ApplyUpdate(c: Contact, body: ContactUpdate): (r: Contact)
    ensures UpdatedAsAsked(c, r, body)
  {
    c.(firstName := if body.firstName.Some? then body.firstName.value else c.firstName,
       lastName := if body.lastName.Some? then body.lastName.value else c.lastName,
       email := if body.email.Some? then body.email.value else c.email,
       phone := if body.phone.Some? then body.phone.value else c.phone,
       birthday := if body.birthday.Some? then body.birthday.value else c.birthday,
       description := if body.description.Some? then body.description.value else c.description)
  }

  /** `updated` is `c` with exactly the fields set in `body` replaced. */
  predicate UpdatedAsAsked(c: Contact, updated: Contact, body: ContactUpdate) {
    && updated.id == c.id && updated.userId == c.userId
    && (body.firstName.Some? ==> updated.firstName == body.firstName.value)
    && (body.firstName.None? ==> updated.firstName == c.firstName)
    && (body.lastName.Some? ==> updated.lastName == body.lastName.value)
    && (body.lastName.None? ==> updated.lastName == c.lastName)
    && (body.email.Some? ==> updated.email == body.email.value)
    && (body.email.None? ==> updated.email == c.email)
    && (body.phone.Some? ==> updated.phone == body.phone.value)
    && (body.phone.None? ==> updated.phone == c.phone)
    && (body.birthday.Some? ==> updated.birthday == body.birthday.value)
    && (body.birthday.None? ==> updated.birthday == c.birthday)
    && (body.description.Some? ==> updated.description == body.description.value)
    && (body.description.None? ==> updated.description == c.description)
  }

  /** A body that sets nothing changes nothing. */
  lemma ApplyUpdateIsPartial(c: Contact, body: ContactUpdate)
    ensures body == ContactUpdate(None, None, None, None, None, None) ==> ApplyUpdate(c, body) == c
  {
  }

  /** The table with the row of id `id` replaced by `updated`. */
  function ReplaceById(cs: seq<Contact>, id: nat, updated: Contact): (r: seq<Contact>)
    ensures |r| == |cs|
    ensures forall i :: 0 <= i < |cs| && cs[i].id != id ==> r[i] == cs[i]
    ensures forall i :: 0 <= i < |cs| && cs[i].id == id ==> r[i] == updated
  {
    seq(|cs|, i requires 0 <= i < |cs| => if cs[i].id == id then updated else cs[i])
  }

  ghost predicate UniqueIds(cs: seq<Contact>) {
    forall i, j :: 0 <= i < j < |cs| ==> cs[i].id != cs[j].id
  }

  class Repository {
    var contacts: seq<Contact>
    var nextId: nat

    ghost predicate Valid()
      reads this
    {
      && UniqueIds(contacts)
      && forall c :: c in contacts ==> c.id < nextId && ContactFitsColumns(c)
    }

    constructor ()
      ensures Valid() && contacts == [] && nextId == 1
    {
      contacts := [];
      nextId := 1;
    }

    /** `get_contacts`: the owner's contacts passing every given filter, then
        OFFSET and LIMIT, so that pagination counts only matching rows. */
    function GetContacts(skip: nat, limit: nat, owner: nat,
                         firstName: Option<string>, lastName: Option<string>, email: Option<string>): (r: seq<Contact>)
      reads this
      ensures |r| <= limit
      ensures forall c :: c in r ==> c in contacts && Selected(c, owner, firstName, lastName, email)
      ensures var matching := Filter(contacts, (c: Contact) => Selected(c, owner, firstName, lastName, email));
              && (skip >= |matching| ==> r == [])
              && (forall i :: 0 <= i < |r| ==> skip + i < |matching| && r[i] == matching[skip + i])
              && (skip < |matching| ==> |r| == if limit <= |matching| - skip then limit else |matching| - skip)
    {
      var matching := Filter(contacts, (c: Contact) => Selected(c, owner, firstName, lastName, email));
      var r := Page(matching, skip, limit);
      assert forall c :: c in r ==> c in matching;
      r
    }

    /** `get_contacts_with_upcoming_birthdays`: exactly the owner's contacts
        with an upcoming birthday. */
    method GetContactsWithUpcomingBirthdays(owner: nat, today: Date) returns (r: seq<Contact>)
      requires ValidDate(today)
      ensures forall c :: c in r <==> c in contacts && c.userId == owner && UpcomingBirthday(c.birthday, today)
    {
      var targets := BirthdayWindow(today);
      r := Filter(contacts, (c: Contact) => c.userId == owner && BirthdayIn(c, targets));
      forall c | c in contacts
        ensures BirthdayIn(c, targets) <==> UpcomingBirthday(c.birthday, today)
      {
        if BirthdayIn(c, targets) {
          var i :| 0 <= i < 7 && targets[i] == MonthDayOf(c.birthday);
          assert MonthDayOf(c.birthday) == MonthDayOf(AddDays(today, i));
        } else {
          forall i: nat | i < 7 ensures MonthDayOf(c.birthday) != MonthDayOf(AddDays(today, i)) {
            assert targets[i] == MonthDayOf(AddDays(today, i));
          }
        }
      }
    }

    /** `get_contact_by_id`: the contact with that id, and only if the owner matches. */
    function GetContactById(id: nat, owner: nat): (r: Option<Contact>)
      reads this
      ensures r.Some? ==> r.value in contacts && r.value.id == id && r.value.userId == owner
      ensures r.None? <==> forall c :: c in contacts ==> c.id != id || c.userId != owner
    {
      var found := Filter(contacts, (c: Contact) => c.id == id && c.userId == owner);
      if found == [] then None
      else
        assert found[0] in found;
        Some(found[0])
    }

    /** `create_contact`: one new row, owned by `owner`, carrying the body's
        fields. The INSERT draws its id from the sequence before any column
        check, so a failed insert uses up that value too. */
    method CreateContact(body: ContactModel, owner: nat) returns (r: Result<Contact, DbError>)
      requires Valid() && ValidDate(body.birthday)
      modifies this
      ensures Valid() && nextId == old(nextId) + 1
      ensures var c := Contact(old(nextId), body.firstName, body.lastName, body.email, body.phone,
                               body.birthday, body.description, owner);
              && (TooLongColumn(c).Some? ==>
                    r == Failure(ValueTooLong(TooLongColumn(c).value)) && contacts == old(contacts))
              && (TooLongColumn(c).None? ==>
                    r == Success(c) && contacts == old(contacts) + [c])
    {
      var c := Contact(nextId, body.firstName, body.lastName, body.email, body.phone,
                       body.birthday, body.description, owner);
      nextId := nextId + 1;
      var tooLong := TooLongColumn(c);
      if tooLong.Some? {
        return Failure(ValueTooLong(tooLong.value));
      }
      contacts := contacts + [c];
      r := Success(c);
    }

    /** `update_contact`: None and no change when the contact is missing or
        owned by someone else; otherwise exactly the fields set in the body change. */
    method UpdateContact(id: nat, body: ContactUpdate, owner: nat) returns (r: Result<Option<Contact>, DbError>)
      requires Valid()
      requires body.birthday.Some? ==> ValidDate(body.birthday.value)
      modifies this
      ensures Valid() && nextId == old(nextId)
      ensures old(GetContactById(id, owner)).None? ==> r == Success(None) && contacts == old(contacts)
      ensures r.Failure? ==> contacts == old(contacts)
      ensures r.Success? && r.value.Some? ==>
                && old(GetContactById(id, owner)).Some?
                && UpdatedAsAsked(old(GetContactById(id, owner)).value, r.value.value, body)
                && contacts == ReplaceById(old(contacts), id, r.value.value)
                && GetContactById(id, owner) == r.value
      ensures old(GetContactById(id, owner)).Some? ==>
                var updated := ApplyUpdate(old(GetContactById(id, owner)).value, body);
                r == if TooLongColumn(updated).Some? then Failure(ValueTooLong(TooLongColumn(updated).value))
                     else Success(Some(updated))
    {
      var found := GetContactById(id, owner);
      if found.None? {
        return Success(None);
      }
      var updated := ApplyUpdate(found.value, body);
      ApplyUpdateIsPartial(found.value, body);
      var tooLong := TooLongColumn(updated);
      if tooLong.Some? {
        return Failure(ValueTooLong(tooLong.value));
      }
      ReplaceFacts(contacts, found.value, updated);
      contacts := ReplaceById(contacts, id, updated);
      r := Success(Some(updated));
    }

    /** `remove_contact`: the owned contact is deleted and returned; every other
        row stays. Afterwards the id is no longer found. */
    method RemoveContact(id: nat, owner: nat) returns (r: Option<Contact>)
      requires Valid()
      modifies this
      ensures Valid() && nextId == old(nextId)
      ensures r == old(GetContactById(id, owner))
      ensures r.None? ==> contacts == old(contacts)
      ensures r.Some? ==> contacts == Filter(old(contacts), (c: Contact) => c.id != id)
      ensures forall c :: c in old(contacts) && c.id != id ==> c in contacts
      ensures forall c :: c in contacts ==> c in old(contacts)
      ensures GetContactById(id, owner).None?
    {
      var found := GetContactById(id, owner);
      if found.None? {
        return None;
      }
      contacts := Filter(contacts, (c: Contact) => c.id != id);
      FilterKeepsUniqueIds(old(contacts), (c: Contact) => c.id != id);
      r := found;
    }
  }

  /** Replacing the row of an id by a row with the same id: the replacement
      is the only row with that id, and every other row is an old one. */
  lemma ReplaceFacts(cs: seq<Contact>, current: Contact, updated: Contact)
    requires UniqueIds(cs) && current in cs && updated.id == current.id
    ensures var r := ReplaceById(cs, current.id, updated);
            && UniqueIds(r)
            && updated in r
            && (forall c :: c in r ==> c in cs || c == updated)
            && (forall c :: c in r && c.id == current.id ==> c == updated)
  {
    var r := ReplaceById(cs, current.id, updated);
    var i :| 0 <= i < |cs| && cs[i] == current;
    assert r[i] == updated;
    forall c | c in r ensures c in cs || c == updated {
      var j :| 0 <= j < |r| && r[j] == c;
      if cs[j].id != current.id { assert c == cs[j]; }
    }
  }

  lemma {:induction false} FilterKeepsUniqueIds(cs: seq<Contact>, p: Contact -> bool)
    requires UniqueIds(cs)
    ensures UniqueIds(Filter(cs, p))
  {
    if cs != [] {
      var tail := cs[1..];
      assert UniqueIds(tail) by {
        forall i, j | 0 <= i < j < |tail| ensures tail[i].id != tail[j].id {
          assert tail[i] == cs[i + 1] && tail[j] == cs[j + 1];
        }
      }
      FilterKeepsUniqueIds(tail, p);
      var rest := Filter(tail, p);
      if p(cs[0]) {
        var r := Filter(cs, p);
        assert r == [cs[0]] + rest;
        forall i, j | 0 <= i < j < |r| ensures r[i].id != r[j].id {
          assert r[j] == rest[j - 1];
          if i == 0 {
            assert rest[j - 1] in tail;
            var k :| 0 <= k < |tail| && tail[k] == rest[j - 1];
            assert cs[k + 1] == r[j];
          } else {
            assert r[i] == rest[i - 1];
          }
        }
      }
    }
  }
}
