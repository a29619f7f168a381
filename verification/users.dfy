/** `GetOrCreateUser` (internal/services/user.go): fetch a user by id, or
    insert a default row for it when the fetch fails for any reason. */
module Users {
  import opened Common
  import opened Records

  /** The function's result, the table after it, and whether it inserted. */
  datatype Fetched = Fetched(result: Result<User>, users: seq<UserRow>, inserted: bool)

  const DefaultUsername := "newuser"

  /** `k` is the row `WHERE id = $1` returns. */
  predicate FirstWithId(users: seq<UserRow>, id: string, k: int)
  {
    0 <= k < |users| && users[k].user.id == id &&
    forall j :: 0 <= j < k ==> users[j].user.id != id
  }

  predicate HasId(users: seq<UserRow>, id: string)
  {
    exists k :: 0 <= k < |users| && users[k].user.id == id
  }

  /** The row the insert writes: profile defaults, no password, both
      instants the database's `NOW()`. */
  function DefaultRow(id: string, email: string, dbNow: int): UserRow
  {
    UserRow(User(id, email, DefaultUsername, "", "", "free", 0, false, dbNow, dbNow), None)
  }

  /** `selectOk` is false when the fetch fails for a reason other than a
      missing row; `insert` is the insert's outcome, which the primary key
      on `id` makes fail whenever the id is taken; `now` is the process
      clock the returned record is stamped with. */
  function GetOrCreateUser(users: seq<UserRow>, id: string, email: string, selectOk: bool, insert: Step, now: int, dbNow: int)
    : (f: Fetched)
    requires insert.Done? ==> !HasId(users, id)
    ensures selectOk && HasId(users, id) ==>
              !f.inserted && f.users == users &&
              exists k :: FirstWithId(users, id, k) && f.result == Ok(users[k].user)
    ensures f.inserted <==> !(selectOk && HasId(users, id)) && insert.Done?
    ensures f.inserted ==>
              && f.users == users + [DefaultRow(id, email, dbNow)]
              && f.result == Ok(DefaultRow(id, email, dbNow).user.(createdAt := now, lastActive := now))
    ensures f.result.Err? <==> !(selectOk && HasId(users, id)) && insert.Fail?
    ensures f.result.Err? ==> f.users == users && f.result.error == insert.error
    ensures f.result.Ok? ==> f.result.value.id == id
  {
    var found := if selectOk then FirstMatch(users, (row: UserRow) => row.user.id == id) else None;
    if found.Some? then
      assert FirstWithId(users, id, found.value);
      Fetched(Ok(users[found.value].user), users, false)
    else if insert.Fail? then Fetched(Err(insert.error), users, false)
    else
      var row := DefaultRow(id, email, dbNow);
      Fetched(Ok(row.user.(createdAt := now, lastActive := now)), users + [row], true)
  }

  /** A second call for the same id finds the row the first inserted and
      returns the same record, except that its instants are the database's
      rather than the process clock's. */
  lemma SecondCallFinds(users: seq<UserRow>, id: string, email: string, selectOk: bool, insert: Step,
                                           now: int, dbNow: int, insert2: Step, now2: int, dbNow2: int)
    requires insert.Done? ==> !HasId(users, id)
    requires GetOrCreateUser(users, id, email, selectOk, insert, now, dbNow).inserted
    requires insert2.Done? ==> !HasId(GetOrCreateUser(users, id, email, selectOk, insert, now, dbNow).users, id)
    ensures var first := GetOrCreateUser(users, id, email, selectOk, insert, now, dbNow);
            var second := GetOrCreateUser(first.users, id, email, true, insert2, now2, dbNow2);
            && !second.inserted
            && second.users == first.users
            && second.result == Ok(first.result.value.(createdAt := dbNow, lastActive := dbNow))
  {
    var first := GetOrCreateUser(users, id, email, selectOk, insert, now, dbNow);
    var n := |users|;
    assert first.users[n].user.id == id;
    assert FirstWithId(first.users, id, n) by {
      forall j | 0 <= j < n
        ensures first.users[j].user.id != id
      {
        assert first.users[j] == users[j];
      }
    }
    var second := GetOrCreateUser(first.users, id, email, true, insert2, now2, dbNow2);
    var k :| FirstWithId(first.users, id, k) && second.result == Ok(first.users[k].user);
    assert k == n;
  }

  /** No two rows share an id. */
  predicate UniqueIds(users: seq<UserRow>)
  {
    forall i, j :: 0 <= i < j < |users| ==> users[i].user.id != users[j].user.id
  }

  lemma GetOrCreateKeepsIdsUnique(users: seq<UserRow>, id: string, email: string, selectOk: bool,
                                                     insert: Step, now: int, dbNow: int)
    requires insert.Done? ==> !HasId(users, id)
    requires UniqueIds(users)
    ensures UniqueIds(GetOrCreateUser(users, id, email, selectOk, insert, now, dbNow).users)
  {
    var f := GetOrCreateUser(users, id, email, selectOk, insert, now, dbNow);
    if f.inserted {
      forall i, j | 0 <= i < j < |f.users|
        ensures f.users[i].user.id != f.users[j].user.id
      {
        assert f.users[i] == users[i];
        if j == |users| {
          assert f.users[j].user.id == id;
        } else {
          assert f.users[j] == users[j];
        }
      }
    }
  }

  /** A known user whose fetch fails for a transient reason is not
      recreated: the insert hits the key and the caller gets the error. */
  lemma TransientFetchFailureIsError(users: seq<UserRow>, id: string, email: string, insert: Step, now: int, dbNow: int)
    requires HasId(users, id)
    requires insert.Done? ==> !HasId(users, id)
    ensures GetOrCreateUser(users, id, email, false, insert, now, dbNow).result.Err?
    ensures GetOrCreateUser(users, id, email, false, insert, now, dbNow).users == users
  {
  }
}
