/** The contacts repository: every query and change is scoped to the owning user. */
module Contacts {
  import opened Wrappers
  import opened Dates
  import opened Schemas
  import Text
  import Query

  /** A stored contact row: its database id, its owner and its fields. */
  datatype Contact = Contact(id: int, userId: int, body: ContactBase)

  /** The filter a query adds to the owner filter. */
  datatype Criterion = Everything | IdIs(id: int) | FirstNameIs(firstName: string)
                     | LastNameIs(lastName: string) | EmailIs(email: string)

  predicate Matches(c: Contact, crit: Criterion) {
    match crit
    case Everything => true
    case IdIs(id) => c.id == id
    case FirstNameIs(n) => c.body.firstName == n
    case LastNameIs(n) => c.body.lastName == n
    case EmailIs(e) => c.body.email == e
  }

  /** `filter(Contact.user_id == owner, crit).all()`, in scan order. */
  function Select(rows: seq<Contact>, ownerId: int, crit: Criterion): (r: seq<Contact>)
    ensures forall c :: c in r <==> c in rows && c.userId == ownerId && Matches(c, crit)
    ensures |r| <= |rows|
  {
    if rows == [] then []
    else
      var rest := Select(rows[1..], ownerId, crit);
      assert forall c :: c in rows <==> c == rows[0] || c in rows[1..];
      if rows[0].userId == ownerId && Matches(rows[0], crit) then [rows[0]] + rest else rest
  }

  /** A query keeps the scan order of the rows it returns. */
  lemma {:induction false} SelectIsSubsequence(rows: seq<Contact>, ownerId: int, crit: Criterion)
    ensures Query.IsSubsequence(Select(rows, ownerId, crit), rows)
  {
    if rows != [] {
      SelectIsSubsequence(rows[1..], ownerId, crit);
      var rest := Select(rows[1..], ownerId, crit);
      if !(rows[0].userId == ownerId && Matches(rows[0], crit)) {
        Query.SubsequenceSkip(rest, rows[1..], rows[0]);
        assert [rows[0]] + rows[1..] == rows;
      } else {
        assert ([rows[0]] + rest)[1..] == rest;
      }
    }
  }

  lemma {:induction false} SelectAppend(a: seq<Contact>, b: seq<Contact>, ownerId: int, crit: Criterion)
    ensures Select(a + b, ownerId, crit) == Select(a, ownerId, crit) + Select(b, ownerId, crit)
  {
    if a != [] {
      assert (a + b)[1..] == a[1..] + b;
      SelectAppend(a[1..], b, ownerId, crit);
    } else {
      assert a + b == b;
    }
  }

  /** get_contacts: one page of the caller's contacts. */
  function GetContacts(rows: seq<Contact>, skip: int, limit: int, ownerId: int): (r: seq<Contact>)
    ensures var n := |Select(rows, ownerId, Everything)|;
      |r| == if Query.Start(skip) >= n then 0
             else if limit < 0 then n - Query.Start(skip)
             else Query.Min(limit, n - Query.Start(skip))
    ensures forall c :: c in r ==> c in rows && c.userId == ownerId
    ensures forall i :: 0 <= i < |r| ==>
      Query.Start(skip) + i < |Select(rows, ownerId, Everything)|
      && r[i] == Select(rows, ownerId, Everything)[Query.Start(skip) + i]
  {
    var all := Select(rows, ownerId, Everything);
    var r := Query.Window(all, skip, limit);
    assert forall c :: c in r ==> c in all;
    r
  }

  predicate Owns(c: Contact, id: int, ownerId: int) {
    c.id == id && c.userId == ownerId
  }

  /** Position of the first row with this id that belongs to the owner. */
  function FindOwned(rows: seq<Contact>, id: int, ownerId: int): (r: Option<nat>)
    ensures r.Some? ==> r.value < |rows| && Owns(rows[r.value], id, ownerId)
                        && forall j :: 0 <= j < r.value ==> !Owns(rows[j], id, ownerId)
    ensures r.None? ==> forall j :: 0 <= j < |rows| ==> !Owns(rows[j], id, ownerId)
  {
    if rows == [] then None
    else if Owns(rows[0], id, ownerId) then Some(0)
    else match FindOwned(rows[1..], id, ownerId)
      case None => None
      case Some(k) => Some(k + 1)
  }

  /** get_contact: the contact with this id, only if the caller owns it. */
  function GetContact(rows: seq<Contact>, id: int, ownerId: int): (r: Option<Contact>)
    ensures r.Some? ==> r.value in rows && r.value.id == id && r.value.userId == ownerId
    ensures r.None? <==> forall c :: c in rows ==> !Owns(c, id, ownerId)
  {
    match FindOwned(rows, id, ownerId)
    case None => None
    case Some(i) => Some(rows[i])
  }

  predicate IdsUnique(rows: seq<Contact>) {
    forall i, j :: 0 <= i < j < |rows| ==> rows[i].id != rows[j].id
  }

  /** No user can read another user's contact through its id. */
  lemma OwnershipIsolation(rows: seq<Contact>, i: int, other: int)
    requires IdsUnique(rows) && 0 <= i < |rows| && rows[i].userId != other
    ensures GetContact(rows, rows[i].id, other).None?
  {
    forall c | c in rows ensures !Owns(c, rows[i].id, other) {
      var j :| 0 <= j < |rows| && rows[j] == c;
      if j < i {
        assert rows[j].id != rows[i].id;
      } else if j > i {
        assert rows[i].id != rows[j].id;
      }
    }
  }

  // ---------------------------------------------------------------------------
  // Search by one field.

  /** get_contact_by_id: the text is parsed with `int()`; text that does not parse finds nothing. */
  function GetContactById(rows: seq<Contact>, value: string, ownerId: int): (r: seq<Contact>)
    ensures Text.ParseInt(value).None? ==> r == []
    ensures Text.ParseInt(value).Some? ==>
      forall c :: c in r <==> c in rows && c.userId == ownerId && c.id == Text.ParseInt(value).value
  {
    match Text.ParseInt(value)
    case None => []
    case Some(id) => Select(rows, ownerId, IdIs(id))
  }

  function GetContactsByFirstName(rows: seq<Contact>, value: string, ownerId: int): (r: seq<Contact>)
    ensures forall c :: c in r <==> c in rows && c.userId == ownerId && c.body.firstName == value
  {
    Select(rows, ownerId, FirstNameIs(value))
  }

  function GetContactsByLastName(rows: seq<Contact>, value: string, ownerId: int): (r: seq<Contact>)
    ensures forall c :: c in r <==> c in rows && c.userId == ownerId && c.body.lastName == value
  {
    Select(rows, ownerId, LastNameIs(value))
  }

  function GetContactByEmail(rows: seq<Contact>, value: string, ownerId: int): (r: seq<Contact>)
    ensures forall c :: c in r <==> c in rows && c.userId == ownerId && c.body.email == value
  {
    Select(rows, ownerId, EmailIs(value))
  }

  /** The four field names get_contacts_by dispatches on. */
  datatype SearchField = ById | ByFirstName | ByLastName | ByEmail

  function ParseField(field: string): (r: Option<SearchField>)
    ensures r.Some? <==> field == "id" || field == "first_name" || field == "last_name" || field == "email"
    ensures r == Some(ById) <==> field == "id"
    ensures r == Some(ByEmail) <==> field == "email"
  {
    if field == "id" then Some(ById)
    else if field == "first_name" then Some(ByFirstName)
    else if field == "last_name" then Some(ByLastName)
    else if field == "email" then Some(ByEmail)
    else None
  }

  /** get_contacts_by: an unknown field name finds nothing; any result belongs to the caller. */
  function GetContactsBy(rows: seq<Contact>, field: string, value: string, ownerId: int): (r: seq<Contact>)
    ensures ParseField(field).None? ==> r == []
    ensures forall c :: c in r ==> c in rows && c.userId == ownerId
    ensures field == "first_name" ==> forall c :: c in r <==> c in rows && c.userId == ownerId && c.body.firstName == value
    ensures field == "last_name" ==> forall c :: c in r <==> c in rows && c.userId == ownerId && c.body.lastName == value
    ensures field == "email" ==> r == GetContactByEmail(rows, value, ownerId)
    ensures field == "id" ==> r == GetContactById(rows, value, ownerId)
  {
    match ParseField(field)
    case None => []
    case Some(ById) => GetContactById(rows, value, ownerId)
    case Some(ByFirstName) => GetContactsByFirstName(rows, value, ownerId)
    case Some(ByLastName) => GetContactsByLastName(rows, value, ownerId)
    case Some(ByEmail) => GetContactByEmail(rows, value, ownerId)
  }

  // ---------------------------------------------------------------------------
  // Changes, as functions of the rows before them.

  function AfterUpdate(rows: seq<Contact>, id: int, ownerId: int, body: ContactBase): (r: seq<Contact>)
    ensures |r| == |rows|
    ensures FindOwned(rows, id, ownerId).None? ==> r == rows
    ensures FindOwned(rows, id, ownerId).Some? ==>
      var i := FindOwned(rows, id, ownerId).value;
      r[i] == Contact(id, ownerId, body) && forall j :: 0 <= j < |rows| && j != i ==> r[j] == rows[j]
  {
    match FindOwned(rows, id, ownerId)
    case None => rows
    case Some(i) => rows[i := rows[i].(body := body)]
  }

  function AfterRemove(rows: seq<Contact>, id: int, ownerId: int): (r: seq<Contact>)
    ensures FindOwned(rows, id, ownerId).None? ==> r == rows
    ensures FindOwned(rows, id, ownerId).Some? ==>
      var i := FindOwned(rows, id, ownerId).value;
      |r| == |rows| - 1 && r == rows[..i] + rows[i + 1..]
  {
    match FindOwned(rows, id, ownerId)
    case None => rows
    case Some(i) => rows[..i] + rows[i + 1..]
  }

  /** Creating, updating or removing one user's contact leaves every other user's view as it was. */
  lemma ForeignViewUnchanged(rows: seq<Contact>, newId: int, id: int, ownerId: int, body: ContactBase,
                             other: int, crit: Criterion)
    requires other != ownerId
    ensures Select(rows + [Contact(newId, ownerId, body)], other, crit) == Select(rows, other, crit)
    ensures Select(AfterUpdate(rows, id, ownerId, body), other, crit) == Select(rows, other, crit)
    ensures Select(AfterRemove(rows, id, ownerId), other, crit) == Select(rows, other, crit)
  {
    var c := Contact(newId, ownerId, body);
    assert rows + [c] == rows + [c] + [];
    assert rows == rows + [];
    SelectSkipsForeign(rows, c, [], other, crit);
    match FindOwned(rows, id, ownerId)
    case None =>
    case Some(i) =>
      var x, x' := rows[i], rows[i].(body := body);
      assert rows == rows[..i] + [x] + rows[i + 1..];
      assert AfterUpdate(rows, id, ownerId, body) == rows[..i] + [x'] + rows[i + 1..];
      SelectSkipsForeign(rows[..i], x, rows[i + 1..], other, crit);
      SelectSkipsForeign(rows[..i], x', rows[i + 1..], other, crit);
  }

  /** A row of another owner does not show in a query. */
  lemma SelectSkipsForeign(pre: seq<Contact>, x: Contact, post: seq<Contact>, other: int, crit: Criterion)
    requires x.userId != other
    ensures Select(pre + [x] + post, other, crit) == Select(pre + post, other, crit)
  {
    assert [x][1..] == [];
    assert Select([x], other, crit) == Select([], other, crit) == [];
    SelectAppend(pre, [x], other, crit);
    assert Select(pre + [x], other, crit) == Select(pre, other, crit);
    SelectAppend(pre + [x], post, other, crit);
    SelectAppend(pre, post, other, crit);
  }

  /** After an update the owner reads back the new fields; after a removal the contact is gone. */
  lemma OwnChangesVisible(rows: seq<Contact>, id: int, ownerId: int, body: ContactBase)
    requires IdsUnique(rows) && FindOwned(rows, id, ownerId).Some?
    ensures GetContact(AfterUpdate(rows, id, ownerId, body), id, ownerId) == Some(Contact(id, ownerId, body))
    ensures GetContact(AfterRemove(rows, id, ownerId), id, ownerId).None?
  {
    var i := FindOwned(rows, id, ownerId).value;
    var after := AfterUpdate(rows, id, ownerId, body);
    assert FindOwned(after, id, ownerId) == Some(i);
    var gone := AfterRemove(rows, id, ownerId);
    forall c | c in gone ensures !Owns(c, id, ownerId) {
      var j :| 0 <= j < |gone| && gone[j] == c;
      if j < i {
        assert c == rows[j];
      } else {
        assert c == rows[j + 1];
      }
    }
  }

  // ---------------------------------------------------------------------------
  // Birthdays.

  /** The next birthday on or after `today` as soon_birthdays computes it;
      `None` where `date()` or `replace()` raises `ValueError`. */
  function NextBirthday(today: Date, birthday: Date): (r: Option<Date>)
    ensures r.Some? ==> Valid(r.value) && r.value.month == birthday.month && r.value.day == birthday.day
    ensures r.Some? ==> !Before(r.value, today)
    ensures r.Some? ==> (r.value.year == today.year ||
      (r.value.year == today.year + 1 && Before(Date(today.year, birthday.month, birthday.day), today)))
  {
    match MakeDate(today.year, birthday.month, birthday.day)
    case None => None
    case Some(bd) => if Before(bd, today) then MakeDate(today.year + 1, bd.month, bd.day) else Some(bd)
  }

  function DaysUntilBirthday(today: Date, birthday: Date): Option<int>
    requires Valid(today)
  {
    match NextBirthday(today, birthday)
    case None => None
    case Some(bd) => Some(DaysBetween(bd, today))
  }

  /** A birthday is between 0 and 365 days away, and 0 days exactly on the day. */
  lemma BirthdayDistance(today: Date, birthday: Date)
    requires Valid(today) && DaysUntilBirthday(today, birthday).Some?
    ensures 0 <= DaysUntilBirthday(today, birthday).value <= 365
    ensures DaysUntilBirthday(today, birthday).value == 0 <==>
            birthday.month == today.month && birthday.day == today.day
  {
    var bd := NextBirthday(today, birthday).value;
    var n := DaysBetween(bd, today);
    DayOfYearRange(today);
    DayOfYearRange(bd);
    if bd.year == today.year {
      OrdinalOrder(bd, today);
      assert n == DayOfYear(bd) - DayOfYear(today);
    } else {
      var here := Date(today.year, birthday.month, birthday.day);
      assert Valid(here);
      DayOfYearMonotone(here, today);
      DayOfYearAcrossYears(here, bd);
      NextYearDistance(today, bd);
    }
  }

  /** A birthday other than 29 February always has a next occurrence (before year 9999). */
  lemma OrdinaryBirthdayDefined(today: Date, birthday: Date)
    requires Valid(today) && today.year < MaxYear && Valid(birthday)
    requires !(birthday.month == 2 && birthday.day == 29)
    ensures DaysUntilBirthday(today, birthday).Some?
  {
    assert Valid(Date(today.year, birthday.month, birthday.day));
    assert Valid(Date(today.year + 1, birthday.month, birthday.day));
  }

  /** A 29 February birthday raises except in a leap year up to and including 29 February. */
  lemma LeapDayBirthday(today: Date, birthday: Date)
    requires Valid(today) && birthday.month == 2 && birthday.day == 29
    ensures DaysUntilBirthday(today, birthday).None? <==>
            !IsLeap(today.year) || Before(Date(today.year, 2, 29), today)
  {
    if IsLeap(today.year) && Before(Date(today.year, 2, 29), today) {
      assert !IsLeap(today.year + 1);
    }
  }

  lemma LeapDayBirthdayExample()
    ensures DaysUntilBirthday(Date(2025, 3, 10), Date(2000, 2, 29)).None?
    ensures DaysUntilBirthday(Date(2024, 3, 10), Date(2000, 2, 29)).None?
    ensures DaysUntilBirthday(Date(2024, 2, 10), Date(2000, 2, 29)) == Some(19)
  {
    LeapDayBirthday(Date(2025, 3, 10), Date(2000, 2, 29));
    LeapDayBirthday(Date(2024, 3, 10), Date(2000, 2, 29));
  }

  /** The window soon_birthdays uses: the requested days, at most a year. */
  function ClampDays(days: int): (w: int)
    ensures w <= 365 && (w == days || w == 365)
    ensures days <= 365 ==> w == days
  {
    if days > 365 then 365 else days
  }

  /** The contacts whose birthday falls within `window` days, in order;
      `None` if the date arithmetic raises for any contact. */
  function Upcoming(cs: seq<Contact>, today: Date, window: int): (r: Option<seq<Contact>>)
    requires Valid(today)
    ensures r.Some? <==> forall c :: c in cs ==> DaysUntilBirthday(today, c.body.birthday).Some?
    ensures r.Some? ==> forall c :: c in r.value <==>
      c in cs && DaysUntilBirthday(today, c.body.birthday).value <= window
    ensures r.Some? ==> |r.value| <= |cs|
  {
    if cs == [] then Some([])
    else
      var last := cs[|cs| - 1];
      assert forall c :: c in cs <==> c in cs[..|cs| - 1] || c == last by {
        assert cs == cs[..|cs| - 1] + [last];
      }
      match Upcoming(cs[..|cs| - 1], today, window)
      case None => None
      case Some(prefix) =>
        match DaysUntilBirthday(today, last.body.birthday)
        case None => None
        case Some(n) => Some(if n <= window then prefix + [last] else prefix)
  }

  lemma UpcomingSnoc(cs: seq<Contact>, c: Contact, today: Date, window: int)
    requires Valid(today)
    ensures Upcoming(cs + [c], today, window) ==
      if Upcoming(cs, today, window).None? || DaysUntilBirthday(today, c.body.birthday).None? then None
      else if DaysUntilBirthday(today, c.body.birthday).value <= window
      then Some(Upcoming(cs, today, window).value + [c])
      else Upcoming(cs, today, window)
  {
    assert (cs + [c])[..|cs|] == cs;
  }

  /** The upcoming birthdays keep the order of the contacts they come from. */
  lemma {:induction false} UpcomingIsSubsequence(cs: seq<Contact>, today: Date, window: int)
    requires Valid(today) && Upcoming(cs, today, window).Some?
    ensures Query.IsSubsequence(Upcoming(cs, today, window).value, cs)
  {
    if cs != [] {
      var init, last := cs[..|cs| - 1], cs[|cs| - 1];
      assert cs == init + [last];
      UpcomingSnoc(init, last, today, window);
      UpcomingIsSubsequence(init, today, window);
      Query.SubsequenceSnoc(Upcoming(init, today, window).value, init, last);
    }
  }

  lemma UpcomingFailsOnPrefix(cs: seq<Contact>, k: nat, today: Date, window: int)
    requires Valid(today) && k <= |cs| && Upcoming(cs[..k], today, window).None?
    ensures Upcoming(cs, today, window).None?
  {
    var c :| c in cs[..k] && DaysUntilBirthday(today, c.body.birthday).None?;
    assert c in cs;
  }

  /** One contact more: it fails the whole listing, joins it, or is skipped. */
  lemma UpcomingStep(cs: seq<Contact>, i: nat, today: Date, window: int, res: seq<Contact>, n: Option<int>)
    requires Valid(today) && i < |cs| && Upcoming(cs[..i], today, window) == Some(res)
    requires n == DaysUntilBirthday(today, cs[i].body.birthday)
    ensures n.None? ==> Upcoming(cs, today, window).None?
    ensures n.Some? ==> Upcoming(cs[..i + 1], today, window) == Some(if n.value <= window then res + [cs[i]] else res)
  {
    assert cs[..i + 1] == cs[..i] + [cs[i]];
    UpcomingSnoc(cs[..i], cs[i], today, window);
    if n.None? {
      UpcomingFailsOnPrefix(cs, i + 1, today, window);
    }
  }

  /** The clamp to 365 days never leaves anyone out: every birthday is within a year. */
  lemma {:induction false} YearWindowKeepsAll(cs: seq<Contact>, today: Date)
    requires Valid(today) && Upcoming(cs, today, 365).Some?
    ensures Upcoming(cs, today, 365) == Some(cs)
  {
    if cs != [] {
      var last := cs[|cs| - 1];
      YearWindowKeepsAll(cs[..|cs| - 1], today);
      BirthdayDistance(today, last.body.birthday);
      assert cs[..|cs| - 1] + [last] == cs;
    }
  }

  predicate TableValid(rows: seq<Contact>, nextId: int) {
    IdsUnique(rows) && forall c :: c in rows ==> c.id < nextId
  }

  /** Days from `today` to the next birthday, step by step as soon_birthdays computes them. */
  method DaysTo(today: Date, birthday: Date) returns (r: Option<int>)
    requires Valid(today)
    ensures r == DaysUntilBirthday(today, birthday)
    ensures r.Some? ==> 0 <= r.value <= 365
    ensures r.Some? ==> (r.value == 0 <==> birthday.month == today.month && birthday.day == today.day)
  {
    var bd := MakeDate(today.year, birthday.month, birthday.day);
    if bd.None? {
      return None;
    }
    var b := bd.value;
    if Before(b, today) {
      var nb := MakeDate(today.year + 1, b.month, b.day);
      if nb.None? {
        return None;
      }
      b := nb.value;
    }
    r := Some(DaysBetween(b, today));
    BirthdayDistance(today, birthday);
  }

  /** The contacts table and the counter the database draws new ids from. */
  class ContactTable {
    var rows: seq<Contact>
    var nextId: int

    ghost predicate Valid()
      reads this
    {
      TableValid(rows, nextId)
    }

    constructor ()
      ensures Valid() && rows == []
    {
      rows := [];
      nextId := 1;
    }

    /** create_contact: a new row owned by the caller, with a fresh id. */
    method CreateContact(body: ContactBase, ownerId: int) returns (c: Contact)
      requires Valid()
      modifies this
      ensures Valid()
      ensures c == Contact(old(nextId), ownerId, body) && rows == old(rows) + [c]
      ensures GetContact(rows, c.id, ownerId) == Some(c)
    {
      c := Contact(nextId, ownerId, body);
      assert forall x :: x in rows ==> x.id != c.id;
      rows := rows + [c];
      nextId := nextId + 1;
      assert c in rows && Owns(c, c.id, ownerId);
    }

    /** update_contact: replaces the fields of the caller's contact with this id, if there is one. */
    method UpdateContact(id: int, body: ContactBase, ownerId: int) returns (r: Option<Contact>)
      requires Valid()
      modifies this
      ensures Valid() && nextId == old(nextId)
      ensures rows == AfterUpdate(old(rows), id, ownerId, body)
      ensures r.None? <==> GetContact(old(rows), id, ownerId).None?
      ensures r.Some? ==> r.value == Contact(id, ownerId, body) && GetContact(rows, id, ownerId) == r
    {
      var found := FindOwned(rows, id, ownerId);
      if found.None? {
        return None;
      }
      var i := found.value;
      OwnChangesVisible(rows, id, ownerId, body);
      rows := rows[i := rows[i].(body := body)];
      r := Some(rows[i]);
    }

    /** remove_contact: deletes the caller's contact with this id and returns it, if there is one. */
    method RemoveContact(id: int, ownerId: int) returns (r: Option<Contact>)
      requires Valid()
      modifies this
      ensures Valid() && nextId == old(nextId)
      ensures r == GetContact(old(rows), id, ownerId)
      ensures rows == AfterRemove(old(rows), id, ownerId)
      ensures GetContact(rows, id, ownerId).None?
    {
      var found := FindOwned(rows, id, ownerId);
      if found.None? {
        return None;
      }
      var i := found.value;
      r := Some(rows[i]);
      OwnChangesVisible(rows, id, ownerId, rows[i].body);
      var before := rows;
      rows := rows[..i] + rows[i + 1..];
      assert forall j :: 0 <= j < |rows| ==> rows[j] == (if j < i then before[j] else before[j + 1]);
    }

    /** soon_birthdays: the caller's contacts whose next birthday is at most `days` days
        after `today` (at most 365), in scan order. */
    method SoonBirthdays(days: int, today: Date, ownerId: int) returns (r: Option<seq<Contact>>)
      requires Dates.Valid(today)
      ensures r == Upcoming(Select(rows, ownerId, Everything), today, ClampDays(days))
    {
      var window := days;
      if window > 365 {
        window := 365;
      }
      var all := Select(rows, ownerId, Everything);
      var res: seq<Contact> := [];
      var i := 0;
      while i < |all|
        invariant 0 <= i <= |all|
        invariant Upcoming(all[..i], today, window) == Some(res)
      {
        var c := all[i];
        var dayTo := DaysTo(today, c.body.birthday);
        UpcomingStep(all, i, today, window, res, dayTo);
        if dayTo.None? {
          return None;
        }
        if dayTo.value <= window {
          res := res + [c];
        }
        i := i + 1;
      }
      assert all[..|all|] == all;
      r := Some(res);
    }
  }
}
