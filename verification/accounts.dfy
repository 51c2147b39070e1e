/**
 * The account directory: the list of user records held in the users
 * document, searched linearly, and appended to on registration.
 */
module Accounts {
  import opened Outcomes

  datatype UserRecord = UserRecord(username: string, password: string)

  const TakenMessage: string := "username already exists"

  /** Some record carries the name `username`. */
  ghost predicate Registered(users: seq<UserRecord>, username: string) {
    exists i :: 0 <= i < |users| && users[i].username == username
  }

  /** No two records carry the same name. */
  ghost predicate NamesDistinct(users: seq<UserRecord>) {
    forall i, j :: 0 <= i < j < |users| ==> users[i].username != users[j].username
  }

  /** `username_exists`: scan the records, stopping at the first with that name. */
  method UsernameExists(users: seq<UserRecord>, username: string) returns (found: bool)
    ensures found <==> Registered(users, username)
  {
    for i := 0 to |users|
      invariant forall k :: 0 <= k < i ==> users[k].username != username
    {
      if users[i].username == username {
        return true;
      }
    }
    return false;
  }

  class AccountDirectory {
    /** The records of the users document, in registration order. */
    var users: seq<UserRecord>

    /** A users document created on first access holds no records. */
    constructor ()
      ensures users == []
    {
      users := [];
    }

    /**
     * `register_user`: a taken name fails with "username already exists" and
     * changes nothing; otherwise exactly one record is appended.
     */
    method Register(username: string, password: string) returns (r: Check)
      modifies this
      ensures r.Fail? <==> Registered(old(users), username)
      ensures r.Fail? ==> r.error == TakenMessage && users == old(users)
      ensures r.Pass? ==> users == old(users) + [UserRecord(username, password)]
      ensures Registered(users, username)
      ensures NamesDistinct(old(users)) ==> NamesDistinct(users)
    {
      var taken := UsernameExists(users, username);
      if !taken {
        users := users + [UserRecord(username, password)];
        assert users[|users| - 1].username == username;
        r := Pass;
      } else {
        r := Fail(TakenMessage);
      }
    }

    /** `authenticate_user`: true exactly when one record matches both name and password. */
    method Authenticate(username: string, password: string) returns (ok: bool)
      ensures ok <==> exists i :: 0 <= i < |users| && users[i] == UserRecord(username, password)
      ensures ok ==> Registered(users, username)
    {
      for i := 0 to |users|
        invariant forall k :: 0 <= k < i ==> users[k] != UserRecord(username, password)
      {
        if users[i].username == username && users[i].password == password {
          return true;
        }
      }
      return false;
    }
  }
}
