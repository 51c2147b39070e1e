/**
 * The navigation state of the tracker: the AUTH screen (register or log in)
 * or the HOME screen of a logged-in user. The state and the current user,
 * module-level globals in the tracker, are the fields of a Session object.
 */
module Session {
  import opened Outcomes
  import opened Accounts

  datatype Screen = Auth | Home

  /** The `{"ok": ..., "message": ...}` dictionary an action returns. */
  datatype ActionResult = ActionResult(ok: bool, message: string)

  const RegisteredMessage: string := "registered and logged in"
  const LoggedInMessage: string := "logged in"
  const InvalidCredentialsMessage: string := "invalid credentials"

  class Session {
    var state: Screen
    var currentUser: Option<string>
    const accounts: AccountDirectory

    /** The screen shows a user exactly when it is HOME. */
    ghost predicate Consistent()
      reads this
    {
      state == Home <==> currentUser.Some?
    }

    /** The tracker starts on the AUTH screen with nobody logged in. */
    constructor (accounts: AccountDirectory)
      ensures state == Auth && currentUser == None && this.accounts == accounts
      ensures Consistent()
    {
      state := Auth;
      currentUser := None;
      this.accounts := accounts;
    }

    /** `go_auth`. */
    method GoAuth()
      modifies this
      ensures state == Auth && currentUser == None
      ensures Consistent()
    {
      state := Auth;
      currentUser := None;
    }

    /** `go_home`. */
    method GoHome(username: string)
      modifies this
      ensures state == Home && currentUser == Some(username)
      ensures Consistent()
    {
      state := Home;
      currentUser := Some(username);
    }

    /**
     * `action_register`: on success the user is registered and on the HOME
     * screen; on failure the directory's message is returned and neither the
     * screen, the current user nor the directory changes.
     */
    method ActionRegister(username: string, password: string) returns (res: ActionResult)
      modifies this, accounts
      ensures res.ok <==> !Registered(old(accounts.users), username)
      ensures res.ok ==> && res.message == RegisteredMessage
                         && state == Home && currentUser == Some(username)
                         && accounts.users == old(accounts.users) + [UserRecord(username, password)]
      ensures !res.ok ==> && res.message == TakenMessage
                          && state == old(state) && currentUser == old(currentUser)
                          && accounts.users == old(accounts.users)
      ensures old(Consistent()) ==> Consistent()
    {
      var outcome := accounts.Register(username, password);
      match outcome
      case Pass =>
        GoHome(username);
        res := ActionResult(true, RegisteredMessage);
      case Fail(message) =>
        res := ActionResult(false, message);
    }

    /**
     * `action_login`: matching credentials move to the HOME screen of that
     * user; anything else reports "invalid credentials" and changes nothing.
     */
    method ActionLogin(username: string, password: string) returns (res: ActionResult)
      modifies this
      ensures res.ok <==> exists i :: 0 <= i < |accounts.users| && accounts.users[i] == UserRecord(username, password)
      ensures res.ok ==> res.message == LoggedInMessage && state == Home && currentUser == Some(username)
      ensures res.ok ==> Registered(accounts.users, username)
      ensures !res.ok ==> && res.message == InvalidCredentialsMessage
                          && state == old(state) && currentUser == old(currentUser)
      ensures old(Consistent()) ==> Consistent()
    {
      var ok := accounts.Authenticate(username, password);
      if ok {
        GoHome(username);
        res := ActionResult(true, LoggedInMessage);
      } else {
        res := ActionResult(false, InvalidCredentialsMessage);
      }
    }

    /** `action_logout`: always back to AUTH with nobody logged in. */
    method ActionLogout()
      modifies this
      ensures state == Auth && currentUser == None
      ensures Consistent()
    {
      GoAuth();
    }
  }
}
