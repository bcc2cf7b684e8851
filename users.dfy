/** The users repository: lookups by id and by email, and the in-place changes the routes make. */
module Users {
  import opened Wrappers
  import opened Schemas
  import Query

  /** A stored user row. `created` stands for the creation timestamp. */
  datatype User = User(
    id: int, email: string, password: string, username: Option<string>,
    roles: Option<string>, avatar: Option<string>, created: int, verified: bool,
    refresh: Option<string>)

  /** What the table gives the columns a new user is created without. */
  datatype ColumnDefaults = ColumnDefaults(
    roles: Option<string>, created: int, verified: bool, refresh: Option<string>)

  /** The client's view of a user: everything but the password and the refresh token. */
  function UserDBOf(u: User): (d: UserDB)
    ensures d.id == u.id && d.email == u.email && d.username == u.username && d.roles == u.roles
    ensures d.avatar == u.avatar && d.created == u.created && d.verified == u.verified
  {
    UserDB(u.id, u.email, u.username, u.roles, u.avatar, u.created, u.verified)
  }

  /** `filter(...).first()`: the position of the first row the filter keeps. */
  function FirstIndex(rows: seq<User>, keep: User -> bool): (r: Option<nat>)
    ensures r.Some? ==> r.value < |rows| && keep(rows[r.value])
                        && forall j :: 0 <= j < r.value ==> !keep(rows[j])
    ensures r.None? ==> forall j :: 0 <= j < |rows| ==> !keep(rows[j])
  {
    if rows == [] then None
    else if keep(rows[0]) then Some(0)
    else match FirstIndex(rows[1..], keep)
      case None => None
      case Some(k) => Some(k + 1)
  }

  /** `filter(User.id == id).first()`: the position of the first row with this id. */
  function IndexById(rows: seq<User>, id: int): (r: Option<nat>)
    ensures r.Some? ==> r.value < |rows| && rows[r.value].id == id
                        && forall j :: 0 <= j < r.value ==> rows[j].id != id
    ensures r.None? ==> forall j :: 0 <= j < |rows| ==> rows[j].id != id
  {
    FirstIndex(rows, (u: User) => u.id == id)
  }

  /** `filter(User.email == email).first()`: the position of the first row with this email. */
  function IndexByEmail(rows: seq<User>, email: string): (r: Option<nat>)
    ensures r.Some? ==> r.value < |rows| && rows[r.value].email == email
                        && forall j :: 0 <= j < r.value ==> rows[j].email != email
    ensures r.None? ==> forall j :: 0 <= j < |rows| ==> rows[j].email != email
  {
    FirstIndex(rows, (u: User) => u.email == email)
  }

  /** Changing one row without touching its email leaves every lookup by email where it was. */
  lemma IndexByEmailFrame(rows: seq<User>, i: nat, u: User, email: string)
    requires i < |rows| && u.email == rows[i].email
    ensures IndexByEmail(rows[i := u], email) == IndexByEmail(rows, email)
  {
    var rows' := rows[i := u];
    assert forall j :: 0 <= j < |rows| ==> rows'[j].email == rows[j].email;
  }

  /** get_users: one page of the users table. */
  function GetUsers(rows: seq<User>, skip: int, limit: int): (r: seq<User>)
    ensures |r| == if Query.Start(skip) >= |rows| then 0
                   else if limit < 0 then |rows| - Query.Start(skip)
                   else Query.Min(limit, |rows| - Query.Start(skip))
    ensures forall i :: 0 <= i < |r| ==> Query.Start(skip) + i < |rows| && r[i] == rows[Query.Start(skip) + i]
  {
    Query.Window(rows, skip, limit)
  }

  /** get_user_by_email: the first user with this email, if any. */
  function GetUserByEmail(rows: seq<User>, email: string): (r: Option<User>)
    ensures r.Some? ==> r.value in rows && r.value.email == email
    ensures r.None? <==> forall u :: u in rows ==> u.email != email
  {
    match IndexByEmail(rows, email)
    case None => None
    case Some(i) => Some(rows[i])
  }

  /** The four fields update_user replaces. */
  function ApplyUpdate(u: User, body: UserUpdate): (v: User)
    ensures v.username == Some(body.username) && v.roles == Some(body.roles)
    ensures v.created == body.created && v.verified == body.verified
    ensures v.id == u.id && v.email == u.email && v.password == u.password
    ensures v.avatar == u.avatar && v.refresh == u.refresh
  {
    u.(username := Some(body.username), roles := Some(body.roles), created := body.created, verified := body.verified)
  }

  function AfterUpdateUser(rows: seq<User>, id: int, body: UserUpdate): (r: seq<User>)
    ensures |r| == |rows|
    ensures IndexById(rows, id).None? ==> r == rows
    ensures IndexById(rows, id).Some? ==>
      var i := IndexById(rows, id).value;
      r[i] == ApplyUpdate(rows[i], body) && forall j :: 0 <= j < |rows| && j != i ==> r[j] == rows[j]
  {
    match IndexById(rows, id)
    case None => rows
    case Some(i) => rows[i := ApplyUpdate(rows[i], body)]
  }

  /** verify_email: marks the first user with this email as verified; an unknown email changes nothing. */
  function AfterVerifyEmail(rows: seq<User>, email: string): (r: seq<User>)
    ensures |r| == |rows|
    ensures IndexByEmail(rows, email).None? ==> r == rows
    ensures IndexByEmail(rows, email).Some? ==>
      var i := IndexByEmail(rows, email).value;
      r[i] == rows[i].(verified := true) && forall j :: 0 <= j < |rows| && j != i ==> r[j] == rows[j]
  {
    match IndexByEmail(rows, email)
    case None => rows
    case Some(i) => rows[i := rows[i].(verified := true)]
  }

  /** Verifying twice is verifying once, and afterwards the user found by that email is verified. */
  lemma VerifyEmailIdempotent(rows: seq<User>, email: string)
    ensures AfterVerifyEmail(AfterVerifyEmail(rows, email), email) == AfterVerifyEmail(rows, email)
    ensures GetUserByEmail(rows, email).Some? ==>
      GetUserByEmail(AfterVerifyEmail(rows, email), email) == Some(GetUserByEmail(rows, email).value.(verified := true))
  {
    var once := AfterVerifyEmail(rows, email);
    match IndexByEmail(rows, email)
    case None =>
    case Some(i) =>
      IndexByEmailFrame(rows, i, rows[i].(verified := true), email);
      IndexByEmailFrame(once, i, once[i].(verified := true), email);
      assert once[i := once[i].(verified := true)] == once;
  }

  function AfterRemoveUser(rows: seq<User>, id: int): (r: seq<User>)
    ensures IndexById(rows, id).None? ==> r == rows
    ensures IndexById(rows, id).Some? ==>
      var i := IndexById(rows, id).value;
      |r| == |rows| - 1 && forall j :: 0 <= j < |r| ==> r[j] == (if j < i then rows[j] else rows[j + 1])
  {
    match IndexById(rows, id)
    case None => rows
    case Some(i) => rows[..i] + rows[i + 1..]
  }

  predicate IdsUnique(rows: seq<User>) {
    forall i, j :: 0 <= i < j < |rows| ==> rows[i].id != rows[j].id
  }

  predicate EmailsUnique(rows: seq<User>) {
    forall i, j :: 0 <= i < j < |rows| ==> rows[i].email != rows[j].email
  }

  /** With unique ids, the row at position i is the one found by its id. */
  lemma IndexOfRow(rows: seq<User>, i: nat)
    requires IdsUnique(rows) && i < |rows|
    ensures IndexById(rows, rows[i].id) == Some(i)
  {
    assert forall j :: 0 <= j < |rows| && j != i ==> rows[j].id != rows[i].id;
  }

  /** A removed user can no longer be found by id. */
  lemma RemovedUserGone(rows: seq<User>, id: int)
    requires IdsUnique(rows)
    ensures IndexById(AfterRemoveUser(rows, id), id).None?
    ensures IdsUnique(AfterRemoveUser(rows, id))
  {
    var r := AfterRemoveUser(rows, id);
    match IndexById(rows, id)
    case None =>
    case Some(i) =>
      forall j | 0 <= j < |r| ensures r[j].id != id {
        if j < i {
          assert rows[j].id != rows[i].id;
        } else {
          assert rows[i].id != rows[j + 1].id;
        }
      }
      forall a, b | 0 <= a < b < |r| ensures r[a].id != r[b].id {
        var a', b' := if a < i then a else a + 1, if b < i then b else b + 1;
        assert rows[a'].id != rows[b'].id;
      }
  }

  predicate TableValid(rows: seq<User>, nextId: int) {
    IdsUnique(rows) && forall u :: u in rows ==> u.id < nextId
  }

  /** The users table and the counter the database draws new ids from. */
  class UserTable {
    var rows: seq<User>
    var nextId: int

    ghost predicate Valid()
      reads this
    {
      TableValid(rows, nextId)
    }

    constructor ()
      ensures Valid() && rows == []
    {
      rows := [];
      nextId := 1;
    }

    /** update_user: replaces username, roles, created and verified of the user with this id, if any. */
    method UpdateUser(id: int, body: UserUpdate) returns (r: Option<User>)
      requires Valid()
      modifies this
      ensures Valid() && nextId == old(nextId)
      ensures rows == AfterUpdateUser(old(rows), id, body)
      ensures r.None? <==> IndexById(old(rows), id).None?
      ensures r.Some? ==> r.value == ApplyUpdate(old(rows)[IndexById(old(rows), id).value], body)
    {
      var found := IndexById(rows, id);
      if found.None? {
        return None;
      }
      var i := found.value;
      rows := rows[i := ApplyUpdate(rows[i], body)];
      r := Some(rows[i]);
    }

    /** create_user: appends a user with the body's email, password and username and the looked-up
        avatar (absent when the lookup failed); every other column takes its default. */
    method CreateUser(body: UserCreate, avatar: Option<string>, defaults: ColumnDefaults) returns (u: User)
      requires Valid()
      modifies this
      ensures Valid() && nextId == old(nextId) + 1
      ensures u == User(old(nextId), body.email, body.password, body.username, defaults.roles, avatar,
                        defaults.created, defaults.verified, defaults.refresh)
      ensures rows == old(rows) + [u]
    {
      u := User(nextId, body.email, body.password, body.username, defaults.roles, avatar,
                defaults.created, defaults.verified, defaults.refresh);
      rows := rows + [u];
      nextId := nextId + 1;
    }

    /** update_token: stores (or clears) the refresh token of the user with this id. */
    method UpdateToken(id: int, token: Option<string>)
      requires Valid() && IndexById(rows, id).Some?
      modifies this
      ensures Valid() && nextId == old(nextId)
      ensures rows == old(rows)[IndexById(old(rows), id).value := old(rows)[IndexById(old(rows), id).value].(refresh := token)]
    {
      var i := IndexById(rows, id).value;
      rows := rows[i := rows[i].(refresh := token)];
    }

    method VerifyEmail(email: string)
      requires Valid()
      modifies this
      ensures Valid() && nextId == old(nextId)
      ensures rows == AfterVerifyEmail(old(rows), email)
    {
      var found := IndexByEmail(rows, email);
      if found.Some? {
        var i := found.value;
        rows := rows[i := rows[i].(verified := true)];
      }
    }

    /** remove_user: deletes the user with this id and returns it, if any. The user's contacts stay. */
    method RemoveUser(id: int) returns (r: Option<User>)
      requires Valid()
      modifies this
      ensures Valid() && nextId == old(nextId)
      ensures rows == AfterRemoveUser(old(rows), id)
      ensures r.None? <==> IndexById(old(rows), id).None?
      ensures r.Some? ==> r.value in old(rows) && r.value.id == id && r.value !in rows
    {
      var found := IndexById(rows, id);
      if found.None? {
        return None;
      }
      var i := found.value;
      r := Some(rows[i]);
      RemovedUserGone(rows, id);
      rows := rows[..i] + rows[i + 1..];
    }

    /** patch_avatar: sets (or clears) the avatar of the user with this id and returns the user. */
    method PatchAvatar(id: int, avatar: Option<string>) returns (u: User)
      requires Valid() && IndexById(rows, id).Some?
      modifies this
      ensures Valid() && nextId == old(nextId)
      ensures u == old(rows)[IndexById(old(rows), id).value].(avatar := avatar)
      ensures rows == old(rows)[IndexById(old(rows), id).value := u]
    {
      var i := IndexById(rows, id).value;
      u := rows[i].(avatar := avatar);
      rows := rows[i := u];
    }
  }
}
