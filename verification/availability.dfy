/** `CheckAvailability` (internal/handlers/availability.go): two existence
    queries, username first, each stopping the handler on an error or a
    hit. Absent query parameters read as "". */
module Availability {
  import opened Common
  import opened Records
  import Accounts

  datatype Query = UsernameQuery(username: string) | EmailQuery(email: string)

  /** The answer and the queries run, in order. */
  datatype Check = Check(response: Response, queries: seq<Query>)

  predicate Taken(users: seq<UserRow>, username: string)
  {
    exists i :: 0 <= i < |users| && users[i].user.username == username
  }

  predicate InUse(users: seq<UserRow>, email: string)
  {
    exists i :: 0 <= i < |users| && users[i].user.email == email
  }

  function CheckAvailability(users: seq<UserRow>, username: string, email: string, usernameQueryOk: bool, emailQueryOk: bool)
    : (c: Check)
    ensures c.response.status == OK <==>
              usernameQueryOk && !Taken(users, username) && emailQueryOk && !InUse(users, email)
    ensures c.response.status == OK ==> c.response.body == Message("Available")
    ensures c.response == Fault(Conflict, "Username already taken") <==> usernameQueryOk && Taken(users, username)
    ensures c.response == Fault(Conflict, "Email already in use") <==>
              usernameQueryOk && !Taken(users, username) && emailQueryOk && InUse(users, email)
    ensures c.response == Fault(ServerError, "Error checking username") <==> !usernameQueryOk
    ensures c.response == Fault(ServerError, "Error checking email") <==>
              usernameQueryOk && !Taken(users, username) && !emailQueryOk
    // The email is looked up only once the username is known to be free.
    ensures c.queries == [UsernameQuery(username)] + (if usernameQueryOk && !Taken(users, username) then [EmailQuery(email)] else [])
  {
    var asked := [UsernameQuery(username)];
    if !usernameQueryOk then Check(Fault(ServerError, "Error checking username"), asked)
    else if Taken(users, username) then Check(Fault(Conflict, "Username already taken"), asked)
    else
      var both := asked + [EmailQuery(email)];
      if !emailQueryOk then Check(Fault(ServerError, "Error checking email"), both)
      else if InUse(users, email) then Check(Fault(Conflict, "Email already in use"), both)
      else Check(Response(OK, Message("Available")), both)
  }

  /** A row clashes with a sign-up exactly when its username is taken or
      its email is in use. */
  lemma ClashIffTakenOrInUse(users: seq<UserRow>, email: string, username: string)
    ensures Accounts.AnyClash(users, email, username) <==> Taken(users, username) || InUse(users, email)
  {
    if Taken(users, username) {
      var i :| 0 <= i < |users| && users[i].user.username == username;
      assert Accounts.Clashes(users[i], email, username);
    }
    if InUse(users, email) {
      var i :| 0 <= i < |users| && users[i].user.email == email;
      assert Accounts.Clashes(users[i], email, username);
    }
  }

  /** On the same table and with no query failing, the availability check
      and sign-up's duplicate check agree: "Available" exactly when the
      sign-up would not be refused with 409. */
  lemma AvailableIffNoConflict(users: seq<UserRow>, req: Accounts.SignupRequest, o: Accounts.SignupOracle)
    requires o.lookupOk
    ensures CheckAvailability(users, req.username, req.email, true, true).response.status == OK <==>
            Accounts.SignUp(users, Some(req), true, o).response.status != Conflict
  {
    ClashIffTakenOrInUse(users, req.email, req.username);
  }
}
