/** `POST /auth/register`, `/auth/login`, `/auth/forgot-password` and
    `/auth/reset-password/:token` over two credential tables: `users`, whose
    rows carry a role and an office name, and `admins`, whose rows carry
    neither. Password hashing, the random reset token, the clock and mail
    delivery are parameters. */
module AuthRoutes {
  import opened Js
  import opened Server

  // ---------------------------------------------------------------------
  // Tables and rows
  // ---------------------------------------------------------------------

  datatype Table = Users | Admins

  /** `getTable`: the admin role is served by `admins`, every other value,
      absent included, by `users`. */
  function GetTable(role: Option<string>): (t: Table)
    ensures t == Admins <==> role == Some("admin")
    ensures t == Users <==> role != Some("admin")
  {
    if role == Some("admin") then Admins else Users
  }

  function TableName(t: Table): string
  {
    match t
    case Users => "users"
    case Admins => "admins"
  }

  /** The role-dependent columns: an `admins` row has no `role` and no
      `officeName` column. */
  datatype Profile = AdminProfile | UserProfile(role: string, officeName: Option<string>)

  /** A row of `users` or `admins`; `password` holds the bcrypt hash. */
  datatype Account = Account(
    id: nat,
    username: string,
    email: string,
    contact: string,
    password: string,
    profile: Profile,
    resetToken: Option<string>,
    resetExpiry: Option<int>)

  /** The `role` column as a SELECT returns it (absent on `admins`). */
  function RoleColumn(a: Account): Option<string>
  {
    if a.profile.UserProfile? then Some(a.profile.role) else None
  }

  /** The WHERE conditions the handlers look rows up by. */
  datatype Lookup =
    | ByUsername(username: string)
    | ByEmail(email: string)
    | ByToken(token: string, now: int)

  /** `reset_token = ? AND reset_token_expiry > ?`: a NULL token or expiry
      never matches. */
  predicate TokenLive(a: Account, token: string, now: int)
  {
    a.resetToken == Some(token) && a.resetExpiry.Some? && a.resetExpiry.value > now
  }

  predicate Matches(a: Account, w: Lookup)
  {
    match w
    case ByUsername(u) => a.username == u
    case ByEmail(e) => a.email == e
    case ByToken(t, now) => TokenLive(a, t, now)
  }

  /** `results[0]` of a SELECT: the index of the first matching row. */
  function FirstMatch(rows: seq<Account>, w: Lookup): (r: Option<nat>)
    ensures r.Some? ==> && r.value < |rows| && Matches(rows[r.value], w)
                        && forall j :: 0 <= j < r.value ==> !Matches(rows[j], w)
    ensures r.None? <==> forall j :: 0 <= j < |rows| ==> !Matches(rows[j], w)
  {
    if rows == [] then None
    else if Matches(rows[0], w) then Some(0)
    else
      var rest := FirstMatch(rows[1..], w);
      if rest.Some? then Some(rest.value + 1) else None
  }

  // ---------------------------------------------------------------------
  // Register
  // ---------------------------------------------------------------------

  /** The body of `POST /auth/register`. */
  datatype RegisterRequest = RegisterRequest(
    username: Option<string>,
    email: Option<string>,
    contact: Option<string>,
    password: Option<string>,
    officeName: Option<string>,
    role: Option<string>)

  const RegisterMissingMessage: string :=
    "All required fields (username, email, contact, password, role) must be provided."
  const OfficeNameMessage: string := "Organization name is required for the organization role."

  predicate RegisterMissing(req: RegisterRequest)
  {
    !Truthy(req.username) || !Truthy(req.email) || !Truthy(req.contact) || !Truthy(req.password) || !Truthy(req.role)
  }

  /** The handler's decision before the INSERT: refuse with 400, or insert a
      row with these columns into this table. */
  datatype RegisterDecision =
    | RegisterRefused(reply: Reply)
    | RegisterInsert(table: Table, username: string, email: string, contact: string, profile: Profile)

  function DecideRegister(req: RegisterRequest): (r: RegisterDecision)
    ensures r == RegisterRefused(Reply(400, RegisterMissingMessage)) <==> RegisterMissing(req)
    ensures r == RegisterRefused(Reply(400, OfficeNameMessage)) <==>
              !RegisterMissing(req) && req.role == Some("organization") && !Truthy(req.officeName)
    ensures r.RegisterInsert? <==>
              !RegisterMissing(req) && !(req.role == Some("organization") && !Truthy(req.officeName))
    ensures r.RegisterInsert? ==>
              && r.table == GetTable(req.role)
              && r.username == req.username.value && r.email == req.email.value && r.contact == req.contact.value
              && (r.table == Admins <==> r.profile == AdminProfile)
              && (r.table == Users ==> r.profile == UserProfile(req.role.value, OrNull(req.officeName)))
  {
    if RegisterMissing(req) then RegisterRefused(Reply(400, RegisterMissingMessage))
    else if req.role == Some("admin") then
      RegisterInsert(Admins, req.username.value, req.email.value, req.contact.value, AdminProfile)
    else if req.role == Some("organization") && !Truthy(req.officeName) then
      RegisterRefused(Reply(400, OfficeNameMessage))
    else
      RegisterInsert(Users, req.username.value, req.email.value, req.contact.value,
                     UserProfile(req.role.value, OrNull(req.officeName)))
  }

  const RegisteredSuffix: string := " registered successfully!"

  /** The 201 message: the role with its first character upper-cased. */
  function RegisteredMessage(role: string): (m: string)
    requires role != ""
    ensures |m| == |role| + |RegisteredSuffix|
    ensures m[0] == UpperAscii(role[0]) && m[1..|role|] == role[1..] && m[|role|..] == RegisteredSuffix
  {
    [UpperAscii(role[0])] + role[1..] + RegisteredSuffix
  }

  const UsernameTakenMessage: string := "Username already taken."
  const EmailTakenMessage: string := "Email address already registered."
  const AlreadyExistsMessage: string := "User with this information already exists."

  /** The 409 text chosen from the database's duplicate-entry message. */
  function DuplicateMessage(dbMessage: string): (m: string)
    ensures m == UsernameTakenMessage <==> Contains(dbMessage, "username")
    ensures m == EmailTakenMessage <==> !Contains(dbMessage, "username") && Contains(dbMessage, "email")
    ensures m == AlreadyExistsMessage <==> !Contains(dbMessage, "username") && !Contains(dbMessage, "email")
  {
    if Contains(dbMessage, "username") then UsernameTakenMessage
    else if Contains(dbMessage, "email") then EmailTakenMessage
    else AlreadyExistsMessage
  }

  /** A taken username is always reported as such: the key name in the
      database's message mentions `username`. */
  lemma DuplicateUsernameReported(value: string, t: Table)
    ensures DuplicateMessage(DuplicateEntryMessage(value, TableName(t), "username")) == UsernameTakenMessage
  {
    var m := DuplicateEntryMessage(value, TableName(t), "username");
    var i := |m| - 9;
    assert m[i..i + 8] == "username";
    assert OccursAt(m, "username", i);
  }

  /** A taken e-mail address that itself contains `username` is reported as a
      taken username. */
  lemma DuplicateEmailMisreported()
    ensures DuplicateMessage(DuplicateEntryMessage("username@x.org", "users", "email")) == UsernameTakenMessage
  {
    var m := DuplicateEntryMessage("username@x.org", "users", "email");
    assert m[17..25] == "username";
    assert OccursAt(m, "username", 17);
  }

  // ---------------------------------------------------------------------
  // Login
  // ---------------------------------------------------------------------

  /** The body of `POST /auth/login`. */
  datatype LoginRequest = LoginRequest(username: Option<string>, password: Option<string>, role: Option<string>)

  /** The reply of `POST /auth/login`: a refusal, or the user object. Neither
      table has a `designation` column, so that field is always null. */
  datatype LoginReply =
    | LoginRefused(reply: Reply)
    | LoggedIn(username: string, email: string, designation: Option<string>, role: Option<string>)

  const LoginMissingMessage: string := "Username, password, and role are required."
  const InvalidCredentials: string := "Invalid credentials"

  /** The login decision over the rows of the table `getTable(role)` picks;
      `compare` is `bcrypt.compare(plain, hash)`. */
  function DecideLogin(rows: seq<Account>, req: LoginRequest, compare: (string, string) -> bool): (r: LoginReply)
    ensures r == LoginRefused(Reply(400, LoginMissingMessage)) <==>
              !Truthy(req.username) || !Truthy(req.password) || !Truthy(req.role)
    ensures r == LoginRefused(Reply(401, InvalidCredentials)) <==>
              && Truthy(req.username) && Truthy(req.password) && Truthy(req.role)
              && var i := FirstMatch(rows, ByUsername(req.username.value));
                 i.None? || !compare(req.password.value, rows[i.value].password)
    ensures r.LoggedIn? <==>
              && Truthy(req.username) && Truthy(req.password) && Truthy(req.role)
              && var i := FirstMatch(rows, ByUsername(req.username.value));
                 i.Some? && compare(req.password.value, rows[i.value].password)
    ensures r.LoggedIn? ==>
              var i := FirstMatch(rows, ByUsername(req.username.value));
              && i.Some? && compare(req.password.value, rows[i.value].password)
              && r.username == req.username.value && r.email == rows[i.value].email
              && r.designation == None
              && r.role == (if req.role == Some("admin") then Some("admin") else RoleColumn(rows[i.value]))
  {
    if !Truthy(req.username) || !Truthy(req.password) || !Truthy(req.role) then
      LoginRefused(Reply(400, LoginMissingMessage))
    else
      var i := FirstMatch(rows, ByUsername(req.username.value));
      if i.None? then LoginRefused(Reply(401, InvalidCredentials))
      else if !compare(req.password.value, rows[i.value].password) then LoginRefused(Reply(401, InvalidCredentials))
      else
        var a := rows[i.value];
        LoggedIn(a.username, a.email, None,
                 if req.role == Some("admin") then Some("admin") else RoleColumn(a))
  }

  /** An unknown username and a wrong password for a known one get the same
      reply, so the reply does not tell which usernames exist. */
  lemma UnknownUserLooksLikeWrongPassword(rows: seq<Account>, unknown: LoginRequest, wrong: LoginRequest,
                                          compare: (string, string) -> bool)
    requires Truthy(unknown.username) && Truthy(unknown.password) && Truthy(unknown.role)
    requires Truthy(wrong.username) && Truthy(wrong.password) && Truthy(wrong.role)
    requires FirstMatch(rows, ByUsername(unknown.username.value)).None?
    requires var i := FirstMatch(rows, ByUsername(wrong.username.value));
             i.Some? && !compare(wrong.password.value, rows[i.value].password)
    ensures DecideLogin(rows, unknown, compare) == DecideLogin(rows, wrong, compare)
            == LoginRefused(Reply(401, InvalidCredentials))
  {
  }

  // ---------------------------------------------------------------------
  // Forgot and reset password
  // ---------------------------------------------------------------------

  /** A token lives fifteen minutes, in milliseconds. */
  const TokenLifetime: int := 15 * 60 * 1000

  /** `${role}` in a template string: an absent role prints as `undefined`. */
  function RoleText(role: Option<string>): string
  {
    Nullish(role, "undefined")
  }

  /** The link mailed by `/auth/forgot-password`. */
  function ResetLink(token: string, role: Option<string>): (r: string)
    ensures var p := "http://localhost:3000/reset-password/";
            && |r| == |p| + |token| + |"?role="| + |RoleText(role)|
            && r[..|p|] == p && r[|p|..|p| + |token|] == token
            && r[|p| + |token|..] == "?role=" + RoleText(role)
  {
    "http://localhost:3000/reset-password/" + token + "?role=" + RoleText(role)
  }

  /** `UPDATE … SET reset_token = ?, reset_token_expiry = ? WHERE email = ?`. */
  function StoreToken(rows: seq<Account>, email: string, token: string, expiry: int): (r: seq<Account>)
    ensures |r| == |rows|
    ensures forall j :: 0 <= j < |rows| ==>
              r[j] == if rows[j].email == email then rows[j].(resetToken := Some(token), resetExpiry := Some(expiry))
                      else rows[j]
  {
    seq(|rows|, j requires 0 <= j < |rows| =>
      if rows[j].email == email then rows[j].(resetToken := Some(token), resetExpiry := Some(expiry)) else rows[j])
  }

  /** `UPDATE … SET password = ?, reset_token = NULL, reset_token_expiry = NULL WHERE id = ?`
      on the row found. */
  function ClearToken(rows: seq<Account>, i: nat, hashed: string): (r: seq<Account>)
    requires i < |rows|
    ensures |r| == |rows| && r[i].resetToken.None? && r[i].resetExpiry.None? && r[i].password == hashed
    ensures r[i].id == rows[i].id && r[i].username == rows[i].username && r[i].email == rows[i].email
            && r[i].contact == rows[i].contact && r[i].profile == rows[i].profile
    ensures forall j :: 0 <= j < |rows| && j != i ==> r[j] == rows[j]
  {
    rows[i := rows[i].(password := hashed, resetToken := None, resetExpiry := None)]
  }

  const ResetMissingMessage: string := "Password and role are required."
  const ResetInvalidMessage: string := "Invalid or expired token. Please try again."

  /** The reset decision: refuse, or reset the row at this index of the table
      `getTable(role)` picks. */
  datatype ResetDecision = ResetRefused(reply: Reply) | ResetRow(index: nat)

  function DecideReset(rows: seq<Account>, token: string, password: Option<string>, role: Option<string>, now: int)
    : (r: ResetDecision)
    ensures r == ResetRefused(Reply(400, ResetMissingMessage)) <==> !Truthy(password) || !Truthy(role)
    ensures r == ResetRefused(Reply(400, ResetInvalidMessage)) <==>
              Truthy(password) && Truthy(role) && forall j :: 0 <= j < |rows| ==> !TokenLive(rows[j], token, now)
    ensures r.ResetRow? <==>
              Truthy(password) && Truthy(role) && exists j :: 0 <= j < |rows| && TokenLive(rows[j], token, now)
    ensures r.ResetRow? ==>
              && r.index < |rows| && TokenLive(rows[r.index], token, now)
              && forall j :: 0 <= j < r.index ==> !TokenLive(rows[j], token, now)
  {
    if !Truthy(password) || !Truthy(role) then ResetRefused(Reply(400, ResetMissingMessage))
    else
      var i := FirstMatch(rows, ByToken(token, now));
      if i.None? then ResetRefused(Reply(400, ResetInvalidMessage)) else ResetRow(i.value)
  }

  /** A token stored by forgot-password at `issuedAt` on the rows of `email`
      is accepted at `now` exactly when fewer than fifteen minutes have
      passed, provided no row of another address holds the same token. */
  lemma {:induction false} IssuedTokenWindow(rows: seq<Account>, email: string, token: string,
                                             issuedAt: int, now: int, password: string, role: string)
    requires password != "" && role != ""
    requires exists j :: 0 <= j < |rows| && rows[j].email == email
    requires forall j :: 0 <= j < |rows| && rows[j].email != email ==> rows[j].resetToken != Some(token)
    ensures DecideReset(StoreToken(rows, email, token, issuedAt + TokenLifetime), token, Some(password), Some(role), now).ResetRow?
            <==> now < issuedAt + TokenLifetime
  {
    var after := StoreToken(rows, email, token, issuedAt + TokenLifetime);
    var k :| 0 <= k < |rows| && rows[k].email == email;
    if now < issuedAt + TokenLifetime {
      assert TokenLive(after[k], token, now);
    } else {
      forall j | 0 <= j < |after| ensures !TokenLive(after[j], token, now) {
      }
    }
  }

  /** Once a reset has cleared the only row holding a token, that token is
      refused at every later time. */
  lemma {:induction false} TokenSingleUse(rows: seq<Account>, i: nat, token: string, hashed: string,
                                          later: int, password: string, role: string)
    requires i < |rows| && password != "" && role != ""
    requires forall j :: 0 <= j < |rows| && j != i ==> rows[j].resetToken != Some(token)
    ensures DecideReset(ClearToken(rows, i, hashed), token, Some(password), Some(role), later)
            == ResetRefused(Reply(400, ResetInvalidMessage))
  {
    var after := ClearToken(rows, i, hashed);
    forall j | 0 <= j < |after| ensures !TokenLive(after[j], token, later) {
    }
  }

  // ---------------------------------------------------------------------
  // The credential store
  // ---------------------------------------------------------------------

  /** The two credential tables. Rows are never deleted; the model numbers
      them by position plus one, which keeps ids distinct (the database's
      AUTO_INCREMENT may skip values after a failed insert). */
  class CredentialStore {
    var users: seq<Account>
    var admins: seq<Account>

    function Rows(t: Table): seq<Account>
      reads this
    {
      if t == Admins then admins else users
    }

    /** The schema: each table's shape, its ids, and its unique keys. */
    ghost predicate Valid()
      reads this
    {
      && (forall j :: 0 <= j < |admins| ==> admins[j].profile == AdminProfile)
      && (forall j :: 0 <= j < |users| ==> users[j].profile.UserProfile? && users[j].profile.role != "admin")
      && WellKeyed(users) && WellKeyed(admins)
    }

    constructor ()
      ensures Valid() && users == [] && admins == []
    {
      users, admins := [], [];
    }

    /** `POST /auth/register`. A taken username is reported before a taken
        e-mail address. */
    method Register(req: RegisterRequest, hashed: string) returns (reply: Reply)
      requires Valid()
      modifies this
      ensures Valid()
      ensures var d := DecideRegister(req);
              && (d.RegisterRefused? ==> reply == d.reply && users == old(users) && admins == old(admins))
              && (d.RegisterInsert? ==>
                    var rows := old(Rows(d.table));
                    && Rows(OtherTable(d.table)) == old(Rows(OtherTable(d.table)))
                    && (FirstMatch(rows, ByUsername(d.username)).Some? ==>
                          reply == Reply(409, UsernameTakenMessage) && Rows(d.table) == rows)
                    && (FirstMatch(rows, ByUsername(d.username)).None? && FirstMatch(rows, ByEmail(d.email)).Some? ==>
                          reply == Reply(409, DuplicateMessage(DuplicateEntryMessage(d.email, TableName(d.table), "email")))
                          && Rows(d.table) == rows)
                    && (FirstMatch(rows, ByUsername(d.username)).None? && FirstMatch(rows, ByEmail(d.email)).None? ==>
                          && reply == Reply(201, RegisteredMessage(req.role.value))
                          && Rows(d.table) == rows + [Account(|rows| + 1, d.username, d.email, d.contact, hashed,
                                                              d.profile, None, None)]))
    {
      var d := DecideRegister(req);
      if d.RegisterRefused? {
        return d.reply;
      }
      var rows := Rows(d.table);
      var byName := FirstMatch(rows, ByUsername(d.username));
      if byName.Some? {
        DuplicateUsernameReported(d.username, d.table);
        return Reply(409, DuplicateMessage(DuplicateEntryMessage(d.username, TableName(d.table), "username")));
      }
      if FirstMatch(rows, ByEmail(d.email)).Some? {
        return Reply(409, DuplicateMessage(DuplicateEntryMessage(d.email, TableName(d.table), "email")));
      }
      var row := Account(|rows| + 1, d.username, d.email, d.contact, hashed, d.profile, None, None);
      AppendKeepsKeys(rows, row);
      if d.table == Admins {
        admins := admins + [row];
      } else {
        users := users + [row];
      }
      reply := Reply(201, RegisteredMessage(req.role.value));
    }

    /** `POST /auth/login` against the table the requested role picks. */
    function Login(req: LoginRequest, compare: (string, string) -> bool): (r: LoginReply)
      requires Valid()
      reads this
      ensures r.LoggedIn? ==> (r.role == Some("admin") <==> req.role == Some("admin"))
      ensures r.LoggedIn? && req.role != Some("admin") ==> r.role.Some?
    {
      var r := DecideLogin(Rows(GetTable(req.role)), req, compare);
      if r.LoggedIn? && req.role != Some("admin") then
        var i := FirstMatch(users, ByUsername(req.username.value));
        assert users[i.value].profile.UserProfile?;
        r
      else r
    }

    /** `POST /auth/forgot-password`. `token` is the random token, `now` the
        clock, `delivered` whether the mail transport accepted the message;
        the token is stored before the mail is sent, so a failed delivery
        still leaves it in place. */
    method ForgotPassword(email: Option<string>, role: Option<string>, token: string, now: int, delivered: bool)
      returns (reply: Reply, link: Option<string>)
      requires Valid()
      modifies this
      ensures Valid()
      ensures var t := GetTable(role);
              && Rows(OtherTable(t)) == old(Rows(OtherTable(t)))
              && (email.None? ==>
                    reply == Reply(500, "Server error while sending reset email.") && link == None
                    && Rows(t) == old(Rows(t)))
              && (email.Some? && FirstMatch(old(Rows(t)), ByEmail(email.value)).None? ==>
                    reply == Reply(404, "User with role '" + RoleText(role) + "' not found.") && link == None
                    && Rows(t) == old(Rows(t)))
              && (email.Some? && FirstMatch(old(Rows(t)), ByEmail(email.value)).Some? ==>
                    && Rows(t) == StoreToken(old(Rows(t)), email.value, token, now + TokenLifetime)
                    && link == Some(ResetLink(token, role))
                    && reply == (if delivered then Reply(200, "Reset link sent to your email")
                                 else Reply(500, "Server error while sending reset email.")))
    {
      var t := GetTable(role);
      if email.None? {
        return Reply(500, "Server error while sending reset email."), None;
      }
      var rows := Rows(t);
      if FirstMatch(rows, ByEmail(email.value)).None? {
        return Reply(404, "User with role '" + RoleText(role) + "' not found."), None;
      }
      var updated := StoreToken(rows, email.value, token, now + TokenLifetime);
      StoreTokenKeepsKeys(rows, email.value, token, now + TokenLifetime);
      if t == Admins {
        admins := updated;
      } else {
        users := updated;
      }
      link := Some(ResetLink(token, role));
      reply := if delivered then Reply(200, "Reset link sent to your email")
               else Reply(500, "Server error while sending reset email.");
    }

    /** `POST /auth/reset-password/:token`: `hashed` is the bcrypt hash of the
        new password. */
    method ResetPassword(token: string, password: Option<string>, role: Option<string>, hashed: string, now: int)
      returns (reply: Reply)
      requires Valid()
      modifies this
      ensures Valid()
      ensures var t, d := GetTable(role), DecideReset(old(Rows(GetTable(role))), token, password, role, now);
              && Rows(OtherTable(t)) == old(Rows(OtherTable(t)))
              && (d.ResetRefused? ==> reply == d.reply && Rows(t) == old(Rows(t)))
              && (d.ResetRow? ==>
                    reply == Reply(200, "Password has been updated successfully.")
                    && Rows(t) == ClearToken(old(Rows(t)), d.index, hashed))
    {
      var t := GetTable(role);
      var d := DecideReset(Rows(t), token, password, role, now);
      if d.ResetRefused? {
        return d.reply;
      }
      var updated := ClearToken(Rows(t), d.index, hashed);
      ClearTokenKeepsKeys(Rows(t), d.index, hashed);
      if t == Admins {
        admins := updated;
      } else {
        users := updated;
      }
      reply := Reply(200, "Password has been updated successfully.");
    }
  }

  function OtherTable(t: Table): Table
  {
    if t == Admins then Users else Admins
  }

  /** Ids are positions plus one; usernames and e-mail addresses are unique. */
  ghost predicate WellKeyed(rows: seq<Account>)
  {
    && (forall j :: 0 <= j < |rows| ==> rows[j].id == j + 1)
    && (forall j, k :: 0 <= j < k < |rows| ==> rows[j].username != rows[k].username && rows[j].email != rows[k].email)
  }

  lemma AppendKeepsKeys(rows: seq<Account>, row: Account)
    requires WellKeyed(rows) && row.id == |rows| + 1
    requires FirstMatch(rows, ByUsername(row.username)).None? && FirstMatch(rows, ByEmail(row.email)).None?
    ensures WellKeyed(rows + [row])
  {
    var r := rows + [row];
    forall j, k | 0 <= j < k < |r| ensures r[j].username != r[k].username && r[j].email != r[k].email {
      if k == |rows| {
        assert !Matches(rows[j], ByUsername(row.username));
        assert !Matches(rows[j], ByEmail(row.email));
      }
    }
  }

  lemma StoreTokenKeepsKeys(rows: seq<Account>, email: string, token: string, expiry: int)
    requires WellKeyed(rows)
    ensures WellKeyed(StoreToken(rows, email, token, expiry))
  {
  }

  lemma ClearTokenKeepsKeys(rows: seq<Account>, i: nat, hashed: string)
    requires WellKeyed(rows) && i < |rows|
    ensures WellKeyed(ClearToken(rows, i, hashed))
  {
  }
}
