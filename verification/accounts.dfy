/** The public account handlers (internal/handlers/auth_handlers.go):
    sign-up, login and logout over the `users` table. The table is a
    sequence so that "the row the query returns" is the first matching one;
    bcrypt, the id generator and the database's failures are oracles. */
module Accounts {
  import opened Common
  import opened Records
  import Text

  /** The decoded JSON bodies; None stands for a body that does not bind. */
  datatype SignupRequest = SignupRequest(username: string, email: string, password: string)
  datatype LoginRequest = LoginRequest(email: string, password: string)

  /** What a sign-up asks of the outside: whether the duplicate query ran,
      bcrypt's hash of a password (None when bcrypt refuses it), the
      `gen_random_uuid()` draw, the insert's outcome and `NOW()`. */
  datatype SignupOracle = SignupOracle(
    lookupOk: bool,
    hash: string -> Option<string>,
    newId: string,
    insert: Step,
    now: int)

  /** bcrypt's `CompareHashAndPassword(hash, password) == nil`. */
  type PasswordCheck = (string, string) -> bool

  datatype AccountOutcome = AccountOutcome(response: Response, users: seq<UserRow>)

  const InvalidInput := "Invalid input"
  const InvalidCredentials := "Invalid email or password"
  const UserCreated := "User created successfully"
  const Duplicate := "Email or username already exists"

  /** A row the duplicate query `email = $1 OR username = $2` returns. */
  predicate Clashes(row: UserRow, email: string, username: string)
  {
    row.user.email == email || row.user.username == username
  }

  predicate AnyClash(users: seq<UserRow>, email: string, username: string)
  {
    exists i :: 0 <= i < |users| && Clashes(users[i], email, username)
  }

  /** The row a successful sign-up inserts: the folded email, an empty
      avatar and bio, the free tier, both instants the database's `NOW()`,
      and the hash. */
  function NewAccount(req: SignupRequest, o: SignupOracle, hash: string): (row: UserRow)
    ensures row.user.email == Text.Lower(req.email) && row.user.username == req.username
    ensures row.user.id == o.newId && row.password == Some(hash)
    ensures row.user.tier == "free" && row.user.boostsLeft == 0 && !row.user.isAdmin
    ensures row.user.avatarUrl == "" && row.user.bio == ""
    ensures row.user.createdAt == o.now && row.user.lastActive == o.now
  {
    UserRow(User(o.newId, Text.Lower(req.email), req.username, "", "", "free", 0, false, o.now, o.now), Some(hash))
  }

  /** Sign-up with the duplicate query run on `probe` as the email. */
  function Enroll(users: seq<UserRow>, req: SignupRequest, dbReady: bool, o: SignupOracle, probe: string): (out: AccountOutcome)
    ensures !dbReady ==> out == AccountOutcome(Fault(ServerError, "Database connection not initialized"), users)
    ensures out.response.status == Conflict <==> dbReady && o.lookupOk && AnyClash(users, probe, req.username)
    ensures out.response.status == CreatedStatus <==>
              dbReady && o.lookupOk && !AnyClash(users, probe, req.username) &&
              o.hash(req.password).Some? && o.insert.Done?
    ensures out.response.status == CreatedStatus ==>
              out == AccountOutcome(Response(CreatedStatus, Message(UserCreated)), users + [NewAccount(req, o, o.hash(req.password).value)])
    ensures out.response.status != CreatedStatus ==>
              out.users == users && out.response.body.Error? && out.response.status in {Conflict, ServerError}
  {
    if !dbReady then AccountOutcome(Fault(ServerError, "Database connection not initialized"), users)
    else if !o.lookupOk then AccountOutcome(Fault(ServerError, "Internal server error"), users)
    else match FirstMatch(users, (row: UserRow) => Clashes(row, probe, req.username))
      case Some(_) => AccountOutcome(Fault(Conflict, Duplicate), users)
      case None =>
        match o.hash(req.password)
        case None => AccountOutcome(Fault(ServerError, "Failed to hash password"), users)
        case Some(h) =>
          if o.insert.Fail? then AccountOutcome(Fault(ServerError, "Failed to create user"), users)
          else AccountOutcome(Response(CreatedStatus, Message(UserCreated)), users + [NewAccount(req, o, h)])
  }

  /** `SignUp` as written: the duplicate check compares the email as sent,
      the insert stores it folded to lower case. */
  function SignUp(users: seq<UserRow>, req: Option<SignupRequest>, dbReady: bool, o: SignupOracle): (out: AccountOutcome)
    ensures req.None? <==> out == AccountOutcome(Fault(BadRequest, InvalidInput), users)
    ensures out.response.status == Conflict <==>
              req.Some? && dbReady && o.lookupOk && AnyClash(users, req.value.email, req.value.username)
    ensures out.response.status == CreatedStatus <==>
              && req.Some? && dbReady && o.lookupOk
              && !AnyClash(users, req.value.email, req.value.username)
              && o.hash(req.value.password).Some? && o.insert.Done?
    ensures out.response.status == CreatedStatus ==>
              out.users == users + [NewAccount(req.value, o, o.hash(req.value.password).value)]
    ensures out.response.status != CreatedStatus ==> out.users == users && out.response.body.Error?
  {
    match req
    case None => AccountOutcome(Fault(BadRequest, InvalidInput), users)
    case Some(r) => Enroll(users, r, dbReady, o, r.email)
  }

  /** Sign-up with the duplicate check made on the folded email, the form
      the table stores. */
  function SignUpFolded(users: seq<UserRow>, req: Option<SignupRequest>, dbReady: bool, o: SignupOracle): (out: AccountOutcome)
    ensures req.None? <==> out == AccountOutcome(Fault(BadRequest, InvalidInput), users)
    ensures out.response.status == Conflict <==>
              req.Some? && dbReady && o.lookupOk && AnyClash(users, Text.Lower(req.value.email), req.value.username)
    ensures out.response.status == CreatedStatus <==>
              && req.Some? && dbReady && o.lookupOk
              && !AnyClash(users, Text.Lower(req.value.email), req.value.username)
              && o.hash(req.value.password).Some? && o.insert.Done?
    ensures out.response.status == CreatedStatus ==>
              out.users == users + [NewAccount(req.value, o, o.hash(req.value.password).value)]
    ensures out.response.status != CreatedStatus ==> out.users == users && out.response.body.Error?
  {
    match req
    case None => AccountOutcome(Fault(BadRequest, InvalidInput), users)
    case Some(r) => Enroll(users, r, dbReady, o, Text.Lower(r.email))
  }

  /** `k` is the row `WHERE email = $1` returns: the first with that email. */
  predicate FirstWith(users: seq<UserRow>, email: string, k: int)
  {
    0 <= k < |users| && users[k].user.email == email &&
    forall j :: 0 <= j < k ==> users[j].user.email != email
  }

  /** The row at `k` opens with `password`: its hash is not NULL and
      bcrypt accepts the password against it. */
  predicate Opens(users: seq<UserRow>, k: int, password: string, checkPw: PasswordCheck)
    requires 0 <= k < |users|
  {
    users[k].password.Some? && checkPw(users[k].password.value, password)
  }

  /** `Login`: the lookup folds the email; any lookup failure, a missing
      row, a NULL hash and a wrong password all read alike. */
  function Login(users: seq<UserRow>, req: Option<LoginRequest>, lookupOk: bool, checkPw: PasswordCheck): (out: AccountOutcome)
    ensures out.users == users
    ensures req.None? <==> out.response == Fault(BadRequest, InvalidInput)
    ensures out.response.status == OK <==>
              && req.Some? && lookupOk
              && exists k :: FirstWith(users, Text.Lower(req.value.email), k) && Opens(users, k, req.value.password, checkPw)
    ensures out.response.status == OK ==>
              exists k :: FirstWith(users, Text.Lower(req.value.email), k) &&
                          out.response.body == LoggedIn("Login successful", users[k].user)
    ensures req.Some? && out.response.status != OK ==> out.response == Fault(Unauthorized, InvalidCredentials)
  {
    match req
    case None => AccountOutcome(Fault(BadRequest, InvalidInput), users)
    case Some(r) =>
      var email := Text.Lower(r.email);
      var found := FirstMatch(users, (row: UserRow) => row.user.email == email);
      if !lookupOk || found.None? then AccountOutcome(Fault(Unauthorized, InvalidCredentials), users)
      else
        var k := found.value;
        assert FirstWith(users, email, k);
        if !Opens(users, k, r.password, checkPw) then AccountOutcome(Fault(Unauthorized, InvalidCredentials), users)
        else AccountOutcome(Response(OK, LoggedIn("Login successful", users[k].user)), users)
  }

  /** `Logout` keeps no session state: it always answers 200 and changes
      no row. */
  function Logout(users: seq<UserRow>): (out: AccountOutcome)
    ensures out.users == users
    ensures out.response.status == OK && out.response.body.Message?
  {
    AccountOutcome(Response(OK, Message("Logged out successfully")), users)
  }

  /** Logging out changes nothing a later login depends on. */
  lemma LogoutKeepsLogin(users: seq<UserRow>, req: Option<LoginRequest>, lookupOk: bool, checkPw: PasswordCheck)
    ensures Login(Logout(users).users, req, lookupOk, checkPw) == Login(users, req, lookupOk, checkPw)
  {
  }

  /** No two rows share an id, an email or a username. */
  predicate Unique(users: seq<UserRow>)
  {
    forall i, j :: 0 <= i < j < |users| ==>
      && users[i].user.id != users[j].user.id
      && users[i].user.email != users[j].user.email
      && users[i].user.username != users[j].user.username
  }

  predicate IdFresh(users: seq<UserRow>, id: string)
  {
    forall i :: 0 <= i < |users| ==> users[i].user.id != id
  }

  /** The folded check keeps the table free of duplicates. */
  lemma SignUpFoldedKeepsUnique(users: seq<UserRow>, req: Option<SignupRequest>, dbReady: bool, o: SignupOracle)
    requires Unique(users)
    requires o.insert.Done? ==> IdFresh(users, o.newId)
    ensures Unique(SignUpFolded(users, req, dbReady, o).users)
  {
    var out := SignUpFolded(users, req, dbReady, o);
    if out.response.status == CreatedStatus {
      var row := NewAccount(req.value, o, o.hash(req.value.password).value);
      assert out.users == users + [row];
      forall i, j | 0 <= i < j < |out.users|
        ensures out.users[i].user.id != out.users[j].user.id
        ensures out.users[i].user.email != out.users[j].user.email
        ensures out.users[i].user.username != out.users[j].user.username
      {
        if j == |users| {
          assert out.users[i] == users[i] && out.users[j] == row;
          assert !Clashes(users[i], Text.Lower(req.value.email), req.value.username);
        } else {
          assert out.users[i] == users[i] && out.users[j] == users[j];
        }
      }
    }
  }

  /** After a folded sign-up, logging in with any casing of the same email
      and the same password reaches the new account. */
  lemma SignUpFoldedThenLogin(users: seq<UserRow>, req: SignupRequest, dbReady: bool, o: SignupOracle,
                                                 login: LoginRequest, checkPw: PasswordCheck)
    requires SignUpFolded(users, Some(req), dbReady, o).response.status == CreatedStatus
    requires Text.Lower(login.email) == Text.Lower(req.email)
    requires login.password == req.password
    requires checkPw(o.hash(req.password).value, req.password)
    ensures var after := SignUpFolded(users, Some(req), dbReady, o).users;
            Login(after, Some(login), true, checkPw).response ==
              Response(OK, LoggedIn("Login successful", NewAccount(req, o, o.hash(req.password).value).user))
  {
    var row := NewAccount(req, o, o.hash(req.password).value);
    var after := users + [row];
    var e := Text.Lower(login.email);
    assert FirstWith(after, e, |users|) by {
      forall j | 0 <= j < |users|
        ensures after[j].user.email != e
      {
        assert after[j] == users[j] && !Clashes(users[j], e, req.username);
      }
    }
    assert Opens(after, |users|, login.password, checkPw);
    var out := Login(after, Some(login), true, checkPw);
    assert out.response.status == OK;
    var k :| FirstWith(after, e, k) && out.response.body == LoggedIn("Login successful", after[k].user);
    assert k == |users|;
  }

  /** The email as stored also opens the new account: it is already
      folded, and folding it again changes nothing. */
  lemma SignUpFoldedThenLoginStored(users: seq<UserRow>, req: SignupRequest, dbReady: bool,
                                                       o: SignupOracle, checkPw: PasswordCheck)
    requires SignUpFolded(users, Some(req), dbReady, o).response.status == CreatedStatus
    requires checkPw(o.hash(req.password).value, req.password)
    ensures var after := SignUpFolded(users, Some(req), dbReady, o).users;
            var stored := after[|after| - 1].user.email;
            Login(after, Some(LoginRequest(stored, req.password)), true, checkPw).response ==
              Response(OK, LoggedIn("Login successful", NewAccount(req, o, o.hash(req.password).value).user))
  {
    var after := SignUpFolded(users, Some(req), dbReady, o).users;
    var stored := after[|after| - 1].user.email;
    assert stored == Text.Lower(req.email);
    Text.LowerIdempotent(req.email);
    SignUpFoldedThenLogin(users, req, dbReady, o, LoginRequest(stored, req.password), checkPw);
  }

  /** The table before the case-variant sign-up: one account. */
  function AnnOnly(): seq<UserRow>
  {
    [UserRow(User("u1", "ann@x.io", "ann", "", "", "free", 0, false, 0, 0), Some("h1"))]
  }

  /** The oracle of a sign-up on which nothing outside fails. */
  function SmoothSignup(): SignupOracle
  {
    SignupOracle(true, (p: string) => Some("h2"), "u2", Done, 1)
  }

  /** As written, "Ann@x.io" is not a duplicate of "ann@x.io": the sign-up
      succeeds and the table holds two rows with email "ann@x.io". The
      folded check answers 409 instead. */
  lemma SignUpAdmitsCaseVariant()
    ensures Unique(AnnOnly())
    ensures var out := SignUp(AnnOnly(), Some(SignupRequest("ann2", "Ann@x.io", "pw")), true, SmoothSignup());
            && out.response.status == CreatedStatus
            && |out.users| == 2
            && out.users[0].user.email == out.users[1].user.email == "ann@x.io"
            && !Unique(out.users)
    ensures SignUpFolded(AnnOnly(), Some(SignupRequest("ann2", "Ann@x.io", "pw")), true, SmoothSignup()).response ==
              Fault(Conflict, Duplicate)
  {
    var req := SignupRequest("ann2", "Ann@x.io", "pw");
    assert Text.Lower("Ann@x.io") == "ann@x.io" by {
      assert Text.LowerChar('A') == 'a';
    }
    assert !Clashes(AnnOnly()[0], req.email, req.username) by {
      assert req.email[0] != AnnOnly()[0].user.email[0];
    }
    assert Clashes(AnnOnly()[0], Text.Lower(req.email), req.username);
  }

  /** ...and the second account can never log in: the lookup returns the
      older row, whose hash does not open with the new password. */
  lemma CaseVariantLockedOut(checkPw: PasswordCheck)
    requires !checkPw("h1", "pw")
    ensures var after := SignUp(AnnOnly(), Some(SignupRequest("ann2", "Ann@x.io", "pw")), true, SmoothSignup()).users;
            Login(after, Some(LoginRequest("Ann@x.io", "pw")), true, checkPw).response == Fault(Unauthorized, InvalidCredentials)
  {
    SignUpAdmitsCaseVariant();
    var after := SignUp(AnnOnly(), Some(SignupRequest("ann2", "Ann@x.io", "pw")), true, SmoothSignup()).users;
    assert Text.Lower("Ann@x.io") == "ann@x.io" by {
      assert Text.LowerChar('A') == 'a';
    }
    forall k | FirstWith(after, "ann@x.io", k)
      ensures k == 0
    {
    }
  }
}
