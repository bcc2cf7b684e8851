/** The decisions of the authentication routes: which check fails first, what is stored, what is answered. */
module Auth {
  import opened Wrappers
  import opened Schemas
  import opened Users

  /** The failures the routes report. `UnknownSubject` is the server error refresh_token
      runs into when a token names an email no user has. */
  datatype AuthError = AccountExists | InvalidEmail | EmailNotConfirmed | InvalidPassword
                     | VerificationError | InvalidRefreshToken | UnknownSubject

  function Status(e: AuthError): int {
    match e
    case AccountExists => 409
    case InvalidEmail => 401
    case EmailNotConfirmed => 401
    case InvalidPassword => 401
    case VerificationError => 400
    case InvalidRefreshToken => 401
    case UnknownSubject => 500
  }

  function Detail(e: AuthError): string {
    match e
    case AccountExists => "Account already exists"
    case InvalidEmail => "Invalid email"
    case EmailNotConfirmed => "Email not confirmed"
    case InvalidPassword => "Invalid password"
    case VerificationError => "Verification error"
    case InvalidRefreshToken => "Invalid refresh token"
    case UnknownSubject => "Internal Server Error"
  }

  /** A confirmation email queued as a background task. */
  datatype Mail = Mail(to: string, username: Option<string>)

  const SignupDetail := "User successfully created. Check your email for confirmation."
  const CheckYourEmail := "Check your email for confirmation."
  const Bearer := "bearer"

  function AlreadyConfirmed(email: string): string { "Your email '" + email + "' is already confirmed" }
  function EmailConfirmed(email: string): string { "Email '" + email + "' confirmed" }

  /** The two answers of confirm_email can be told apart: they start differently. */
  lemma {:induction false} ConfirmMessagesDiffer(email: string)
    ensures AlreadyConfirmed(email) != EmailConfirmed(email)
  {
    assert AlreadyConfirmed(email)[0] == 'Y';
    assert EmailConfirmed(email)[0] == 'E';
  }

  /** The rows after a route ran, and what it answered. */
  datatype Outcome<T> = Outcome(rows: seq<User>, result: Result<T, AuthError>)

  function SetRefresh(rows: seq<User>, i: nat, token: Option<string>): seq<User>
    requires i < |rows|
  {
    rows[i := rows[i].(refresh := token)]
  }

  /** `after` differs from `rows` at most in the refresh token of the first user with this email. */
  predicate OnlyRefreshOf(rows: seq<User>, after: seq<User>, email: string) {
    |after| == |rows| && forall j :: 0 <= j < |rows| ==>
      after[j] == rows[j] || (IndexByEmail(rows, email) == Some(j) && after[j] == rows[j].(refresh := after[j].refresh))
  }

  /** The user signup creates: the password is stored hashed, the avatar is whatever the lookup gave. */
  function NewUser(id: int, body: UserCreate, hash: string -> string, avatar: Option<string>,
                   defaults: ColumnDefaults): User
  {
    User(id, body.email, hash(body.password), body.username, defaults.roles, avatar,
         defaults.created, defaults.verified, defaults.refresh)
  }

  /** signup: refuses a taken email; otherwise appends the new user. */
  function SignupStep(rows: seq<User>, nextId: int, body: UserCreate, hash: string -> string,
                      avatar: Option<string>, defaults: ColumnDefaults): (o: Outcome<UserResponse>)
    ensures o.result.Err? <==> GetUserByEmail(rows, body.email).Some?
    ensures o.result.Err? ==> o.result.error == AccountExists && o.rows == rows
    ensures o.result.Ok? ==>
      |o.rows| == |rows| + 1 && o.rows[..|rows|] == rows
      && o.rows[|rows|].email == body.email && o.rows[|rows|].password == hash(body.password)
      && o.result.value.detail == SignupDetail && o.result.value.user == UserDBOf(o.rows[|rows|])
  {
    if GetUserByEmail(rows, body.email).Some? then Outcome(rows, Err(AccountExists))
    else
      var u := NewUser(nextId, body, hash, avatar, defaults);
      Outcome(rows + [u], Ok(UserResponse(UserDBOf(u), SignupDetail)))
  }

  /** Signup never lets two users share an email. */
  lemma SignupKeepsEmailsUnique(rows: seq<User>, nextId: int, body: UserCreate, hash: string -> string,
                                avatar: Option<string>, defaults: ColumnDefaults)
    requires EmailsUnique(rows)
    ensures EmailsUnique(SignupStep(rows, nextId, body, hash, avatar, defaults).rows)
  {
    var o := SignupStep(rows, nextId, body, hash, avatar, defaults);
    if o.result.Ok? {
      forall j | 0 <= j < |rows| ensures rows[j].email != body.email {
        assert rows[j] in rows;
      }
    }
  }

  /** login: unknown email, then unconfirmed email, then wrong password; success stores the new
      refresh token on the user and answers the token pair. A failure changes nothing. */
  function LoginStep(rows: seq<User>, email: string, password: string, verify: (string, string) -> bool,
                     access: string, refresh: string): (o: Outcome<TokenModel>)
    ensures o.result.Err? ==> o.rows == rows
    ensures o.result == Err(InvalidEmail) <==> GetUserByEmail(rows, email).None?
    ensures o.result == Err(EmailNotConfirmed) <==>
      GetUserByEmail(rows, email).Some? && !GetUserByEmail(rows, email).value.verified
    ensures o.result == Err(InvalidPassword) <==>
      GetUserByEmail(rows, email).Some? && GetUserByEmail(rows, email).value.verified
      && !verify(password, GetUserByEmail(rows, email).value.password)
    ensures o.result.Ok? ==>
      o.result.value == TokenModel(access, refresh, Bearer)
      && GetUserByEmail(o.rows, email) == Some(GetUserByEmail(rows, email).value.(refresh := Some(refresh)))
    ensures OnlyRefreshOf(rows, o.rows, email)
  {
    match IndexByEmail(rows, email)
    case None => Outcome(rows, Err(InvalidEmail))
    case Some(i) =>
      if !rows[i].verified then Outcome(rows, Err(EmailNotConfirmed))
      else if !verify(password, rows[i].password) then Outcome(rows, Err(InvalidPassword))
      else
        IndexByEmailFrame(rows, i, rows[i].(refresh := Some(refresh)), email);
        Outcome(SetRefresh(rows, i, Some(refresh)), Ok(TokenModel(access, refresh, Bearer)))
  }

  /** refresh_token: the presented token must be the one stored on the user; a mismatch revokes
      the stored token, a match rotates it. */
  function RefreshStep(rows: seq<User>, token: string, email: string, access: string, refresh: string)
    : (o: Outcome<TokenModel>)
    ensures o.result == Err(UnknownSubject) <==> GetUserByEmail(rows, email).None?
    ensures o.result == Err(UnknownSubject) ==> o.rows == rows
    ensures o.result.Ok? <==>
      GetUserByEmail(rows, email).Some? && GetUserByEmail(rows, email).value.refresh == Some(token)
    ensures o.result.Ok? ==>
      o.result.value == TokenModel(access, refresh, Bearer)
      && GetUserByEmail(o.rows, email) == Some(GetUserByEmail(rows, email).value.(refresh := Some(refresh)))
    ensures o.result == Err(InvalidRefreshToken) ==>
      GetUserByEmail(o.rows, email) == Some(GetUserByEmail(rows, email).value.(refresh := None))
    ensures o.result.Err? ==> o.result.error in {UnknownSubject, InvalidRefreshToken}
    ensures OnlyRefreshOf(rows, o.rows, email)
  {
    match IndexByEmail(rows, email)
    case None => Outcome(rows, Err(UnknownSubject))
    case Some(i) =>
      if rows[i].refresh != Some(token) then
        IndexByEmailFrame(rows, i, rows[i].(refresh := None), email);
        Outcome(SetRefresh(rows, i, None), Err(InvalidRefreshToken))
      else
        IndexByEmailFrame(rows, i, rows[i].(refresh := Some(refresh)), email);
        Outcome(SetRefresh(rows, i, Some(refresh)), Ok(TokenModel(access, refresh, Bearer)))
  }

  /** confirm_email: an unknown email is an error; a confirmed one is reported as such; otherwise
      the user is marked verified. */
  function ConfirmStep(rows: seq<User>, email: string): (o: Outcome<string>)
    ensures o.result == Err(VerificationError) <==> GetUserByEmail(rows, email).None?
    ensures o.result.Err? ==> o.result.error == VerificationError && o.rows == rows
    ensures o.result == Ok(AlreadyConfirmed(email)) ==> o.rows == rows
    ensures o.result.Ok? ==> GetUserByEmail(o.rows, email).Some? && GetUserByEmail(o.rows, email).value.verified
    ensures GetUserByEmail(rows, email).Some? && GetUserByEmail(rows, email).value.verified ==>
      o == Outcome(rows, Ok(AlreadyConfirmed(email)))
    ensures GetUserByEmail(rows, email).Some? && !GetUserByEmail(rows, email).value.verified ==>
      o == Outcome(AfterVerifyEmail(rows, email), Ok(EmailConfirmed(email)))
  {
    match IndexByEmail(rows, email)
    case None => Outcome(rows, Err(VerificationError))
    case Some(i) =>
      if rows[i].verified then Outcome(rows, Ok(AlreadyConfirmed(email)))
      else
        ConfirmMessagesDiffer(email);
        VerifyEmailIdempotent(rows, email);
        Outcome(AfterVerifyEmail(rows, email), Ok(EmailConfirmed(email)))
  }

  /** A second confirmation of the same email changes nothing and says it is already confirmed. */
  lemma ConfirmTwice(rows: seq<User>, email: string)
    requires ConfirmStep(rows, email).result.Ok?
    ensures ConfirmStep(ConfirmStep(rows, email).rows, email)
         == Outcome(ConfirmStep(rows, email).rows, Ok(AlreadyConfirmed(email)))
  {
    var once := ConfirmStep(rows, email).rows;
    assert GetUserByEmail(once, email).value.verified;
  }

  /** The refresh token login hands out is accepted by the next refresh. */
  lemma LoginThenRefresh(rows: seq<User>, email: string, password: string, verify: (string, string) -> bool,
                         access: string, refresh: string, access2: string, refresh2: string)
    requires LoginStep(rows, email, password, verify, access, refresh).result.Ok?
    ensures RefreshStep(LoginStep(rows, email, password, verify, access, refresh).rows,
                        refresh, email, access2, refresh2).result
         == Ok(TokenModel(access2, refresh2, Bearer))
  {
  }

  /** Replaying a refresh token that has already been rotated fails, and revokes the session:
      the token issued by the rotation is refused afterwards too. */
  lemma {:induction false} ReplayRevokes(rows: seq<User>, token: string, email: string,
                                         a1: string, r1: string, a2: string, r2: string,
                                         a3: string, r3: string)
    requires RefreshStep(rows, token, email, a1, r1).result.Ok? && r1 != token
    ensures var o1 := RefreshStep(rows, token, email, a1, r1);
            var o2 := RefreshStep(o1.rows, token, email, a2, r2);
            o2.result == Err(InvalidRefreshToken)
            && RefreshStep(o2.rows, r1, email, a3, r3).result == Err(InvalidRefreshToken)
  {
    var o1 := RefreshStep(rows, token, email, a1, r1);
    var o2 := RefreshStep(o1.rows, token, email, a2, r2);
    assert GetUserByEmail(o1.rows, email).value.refresh == Some(r1);
    assert o2.result == Err(InvalidRefreshToken);
    assert GetUserByEmail(o2.rows, email).value.refresh == None;
  }

  /** Only confirmation changes whether a user is verified, and it never takes it back. */
  lemma VerifiedOnlyByConfirmation(rows: seq<User>, email: string, password: string,
                                   verify: (string, string) -> bool, token: string,
                                   access: string, refresh: string)
    ensures var o := LoginStep(rows, email, password, verify, access, refresh).rows;
            |o| == |rows| && forall j :: 0 <= j < |rows| ==> o[j].verified == rows[j].verified
    ensures var o := RefreshStep(rows, token, email, access, refresh).rows;
            |o| == |rows| && forall j :: 0 <= j < |rows| ==> o[j].verified == rows[j].verified
    ensures var o := ConfirmStep(rows, email).rows;
            |o| == |rows| && forall j :: 0 <= j < |rows| ==> rows[j].verified ==> o[j].verified
  {
  }

  // ---------------------------------------------------------------------------
  // The routes over the users table.

  method Signup(db: UserTable, body: UserCreate, hash: string -> string, avatar: Option<string>,
                defaults: ColumnDefaults)
    returns (r: Result<UserResponse, AuthError>, mail: Option<Mail>)
    requires db.Valid()
    modifies db
    ensures db.Valid()
    ensures Outcome(db.rows, r) == SignupStep(old(db.rows), old(db.nextId), body, hash, avatar, defaults)
    ensures mail.Some? <==> r.Ok?
    ensures r.Ok? ==> mail == Some(Mail(body.email, body.username))
  {
    var exist := GetUserByEmail(db.rows, body.email);
    if exist.Some? {
      return Err(AccountExists), None;
    }
    var hashed := body.(password := hash(body.password));
    var u := db.CreateUser(hashed, avatar, defaults);
    mail := Some(Mail(u.email, u.username));
    r := Ok(UserResponse(UserDBOf(u), SignupDetail));
  }

  method Login(db: UserTable, email: string, password: string, verify: (string, string) -> bool,
               access: string, refresh: string) returns (r: Result<TokenModel, AuthError>)
    requires db.Valid()
    modifies db
    ensures db.Valid() && db.nextId == old(db.nextId)
    ensures Outcome(db.rows, r) == LoginStep(old(db.rows), email, password, verify, access, refresh)
  {
    var found := IndexByEmail(db.rows, email);
    if found.None? {
      return Err(InvalidEmail);
    }
    var user := db.rows[found.value];
    if !user.verified {
      return Err(EmailNotConfirmed);
    }
    if !verify(password, user.password) {
      return Err(InvalidPassword);
    }
    IndexOfRow(db.rows, found.value);
    db.UpdateToken(user.id, Some(refresh));
    r := Ok(TokenModel(access, refresh, Bearer));
  }

  method ConfirmEmail(db: UserTable, email: string) returns (r: Result<string, AuthError>)
    requires db.Valid()
    modifies db
    ensures db.Valid() && db.nextId == old(db.nextId)
    ensures Outcome(db.rows, r) == ConfirmStep(old(db.rows), email)
  {
    var user := GetUserByEmail(db.rows, email);
    if user.None? {
      return Err(VerificationError);
    }
    if user.value.verified {
      return Ok(AlreadyConfirmed(email));
    }
    db.VerifyEmail(email);
    r := Ok(EmailConfirmed(email));
  }

  /** request_email: mails a confirmation only to a known, unconfirmed user; an unknown email gets
      the same answer as an unconfirmed one. Nothing is stored. */
  method RequestEmail(db: UserTable, email: string) returns (message: string, mail: Option<Mail>)
    ensures GetUserByEmail(db.rows, email).None? ==> message == CheckYourEmail && mail.None?
    ensures GetUserByEmail(db.rows, email).Some? && GetUserByEmail(db.rows, email).value.verified ==>
      message == AlreadyConfirmed(email) && mail.None?
    ensures GetUserByEmail(db.rows, email).Some? && !GetUserByEmail(db.rows, email).value.verified ==>
      message == CheckYourEmail && mail == Some(Mail(email, GetUserByEmail(db.rows, email).value.username))
  {
    var user := GetUserByEmail(db.rows, email);
    mail := None;
    if user.Some? {
      if user.value.verified {
        return AlreadyConfirmed(email), None;
      }
      mail := Some(Mail(user.value.email, user.value.username));
    }
    message := CheckYourEmail;
  }

  method RefreshToken(db: UserTable, token: string, email: string, access: string, refresh: string)
    returns (r: Result<TokenModel, AuthError>)
    requires db.Valid()
    modifies db
    ensures db.Valid() && db.nextId == old(db.nextId)
    ensures Outcome(db.rows, r) == RefreshStep(old(db.rows), token, email, access, refresh)
  {
    var found := IndexByEmail(db.rows, email);
    if found.None? {
      return Err(UnknownSubject);
    }
    var user := db.rows[found.value];
    IndexOfRow(db.rows, found.value);
    if user.refresh != Some(token) {
      db.UpdateToken(user.id, None);
      return Err(InvalidRefreshToken);
    }
    db.UpdateToken(user.id, Some(refresh));
    r := Ok(TokenModel(access, refresh, Bearer));
  }
}
