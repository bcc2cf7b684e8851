/** The request and response shapes of the contacts service, with their field limits and defaults. */
module Schemas {
  import opened Wrappers
  import Dates

  const FirstNameMax := 25
  const LastNameMax := 30
  const PhoneMax := 13
  const InformMax := 150

  /** A contact as the client sends it. Only the date part of the birthday is modelled. */
  datatype ContactBase = ContactBase(
    firstName: string, lastName: string, phone: string,
    birthday: Dates.Date, inform: string, email: string)

  /** One rejected field of a contact body, in declaration order. */
  datatype FieldError = FirstNameTooLong | LastNameTooLong | PhoneTooLong | BadBirthday | InformTooLong

  /** Every field within its limit and the birthday a real calendar date. */
  predicate Conforms(b: ContactBase) {
    |b.firstName| <= FirstNameMax && |b.lastName| <= LastNameMax && |b.phone| <= PhoneMax
    && Dates.Valid(b.birthday) && |b.inform| <= InformMax
  }

  /** Field validation of a contact body: the errors it reports, one per offending field. */
  function FieldErrors(b: ContactBase): (errs: seq<FieldError>)
    ensures errs == [] <==> Conforms(b)
    ensures FirstNameTooLong in errs <==> |b.firstName| > FirstNameMax
    ensures LastNameTooLong in errs <==> |b.lastName| > LastNameMax
    ensures PhoneTooLong in errs <==> |b.phone| > PhoneMax
    ensures BadBirthday in errs <==> !Dates.Valid(b.birthday)
    ensures InformTooLong in errs <==> |b.inform| > InformMax
    ensures |errs| <= 5
  {
    (if |b.firstName| > FirstNameMax then [FirstNameTooLong] else [])
    + (if |b.lastName| > LastNameMax then [LastNameTooLong] else [])
    + (if |b.phone| > PhoneMax then [PhoneTooLong] else [])
    + (if !Dates.Valid(b.birthday) then [BadBirthday] else [])
    + (if |b.inform| > InformMax then [InformTooLong] else [])
  }

  /** Parsing a request body: the body itself when it conforms, the field errors otherwise. */
  function ValidateContact(b: ContactBase): (r: Result<ContactBase, seq<FieldError>>)
    ensures r.Ok? <==> Conforms(b)
    ensures r.Ok? ==> r.value == b
    ensures r.Err? ==> r.error != [] && r.error == FieldErrors(b)
  {
    var errs := FieldErrors(b);
    if errs == [] then Ok(b) else Err(errs)
  }

  /** A stored contact as returned to the client: the body plus its id and owner. */
  datatype ContactResponse = ContactResponse(
    id: int, userId: int,
    firstName: string, lastName: string, phone: string,
    birthday: Dates.Date, inform: string, email: string)

  function BaseOf(c: ContactResponse): ContactBase {
    ContactBase(c.firstName, c.lastName, c.phone, c.birthday, c.inform, c.email)
  }

  /** Reading a response from a row's attributes; it extends the body and loses nothing. */
  function ContactResponseOf(id: int, userId: int, b: ContactBase): (r: ContactResponse)
    ensures BaseOf(r) == b && r.id == id && r.userId == userId
  {
    ContactResponse(id, userId, b.firstName, b.lastName, b.phone, b.birthday, b.inform, b.email)
  }

  lemma ResponseRoundTrip(c: ContactResponse)
    ensures ContactResponseOf(c.id, c.userId, BaseOf(c)) == c
  {
  }

  const DefaultTokenType := "bearer"

  datatype TokenModel = TokenModel(accessToken: string, refreshToken: string, tokenType: string)

  /** A token pair; the type is "bearer" unless the caller names another. */
  function MakeTokenModel(access: string, refresh: string, tokenType: Option<string>): (t: TokenModel)
    ensures t.accessToken == access && t.refreshToken == refresh
    ensures tokenType.None? ==> t.tokenType == DefaultTokenType
    ensures tokenType.Some? ==> t.tokenType == tokenType.value
  {
    TokenModel(access, refresh, if tokenType.Some? then tokenType.value else DefaultTokenType)
  }

  datatype UserCreate = UserCreate(email: string, password: string, username: Option<string>)

  /** A user update replaces all four fields; none is optional. */
  datatype UserUpdate = UserUpdate(username: string, roles: string, created: int, verified: bool)

  /** A user as returned to the client: no password and no refresh token. */
  datatype UserDB = UserDB(
    id: int, email: string, username: Option<string>, roles: Option<string>,
    avatar: Option<string>, created: int, verified: bool)

  const DefaultUserDetail := "User successfully created"

  datatype UserResponse = UserResponse(user: UserDB, detail: string)

  /** A user response; the detail is the creation message unless the caller names another. */
  function MakeUserResponse(user: UserDB, detail: Option<string>): (r: UserResponse)
    ensures r.user == user
    ensures detail.None? ==> r.detail == DefaultUserDetail
    ensures detail.Some? ==> r.detail == detail.value
  {
    UserResponse(user, if detail.Some? then detail.value else DefaultUserDetail)
  }
}
