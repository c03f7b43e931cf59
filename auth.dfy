/**
 * The session gate: a user or none, a loading flag for the restore read, and one
 * fixed credential pair. `saved` stands for the 'auth_user' slot of local storage.
 * The login delay is not modelled; the login time is a parameter.
 */
module Auth {
  import opened Wrappers
  import opened Strings

  const AdminUsername := "admin"
  const AdminPassword := "admin123"
  const AdminName := "Administrator"
  const InvalidCredentials := "Invalid username or password"
  const MissingCredentials := "Please enter both username and password"

  datatype User = User(username: string, name: string, loginTime: string)

  /** `{ success, error? }`. */
  datatype LoginResult = LoginResult(success: bool, error: Option<string>)

  /** The exact comparison `login` makes: no trimming, no case folding. */
  predicate CredentialsMatch(username: string, password: string) {
    username == AdminUsername && password == AdminPassword
  }

  /** The login page's guard before it calls `login`: both fields must be non-blank. */
  function LoginInputError(username: string, password: string): (err: Option<string>)
    ensures err.None? <==> VisibleUnits(username) > 0 && VisibleUnits(password) > 0
    ensures err.Some? ==> err.value == MissingCredentials
  {
    TrimmedLength(username);
    TrimmedLength(password);
    if Trim(username) == "" || Trim(password) == "" then
      Some(MissingCredentials)
    else None
  }

  /** The admin credentials pass the page's guard. */
  lemma AdminPassesGuard()
    ensures LoginInputError(AdminUsername, AdminPassword).None?
  {
    assert VisibleUnits(AdminUsername) > 0 by {
      assert !IsWhitespace(AdminUsername[0]);
    }
    assert VisibleUnits(AdminPassword) > 0 by {
      assert !IsWhitespace(AdminPassword[0]);
    }
  }

  class AuthSession {
    var user: Option<User>
    var isLoading: bool
    /** The stored session, if any. */
    var saved: Option<User>

    /** The provider before its mount effect has run. */
    constructor (stored: Option<User>)
      ensures user == None && isLoading && saved == stored
    {
      user := None;
      isLoading := true;
      saved := stored;
    }

    /** `isAuthenticated: !!user`. */
    function IsAuthenticated(): bool
      reads this
    {
      user.Some?
    }

    /** The mount effect: adopt a stored session if there is one; loading ends either way. */
    method RestoreSession()
      modifies this`user, this`isLoading
      ensures !isLoading
      ensures user == if saved.Some? then saved else old(user)
    {
      if saved.Some? {
        user := saved;
      }
      isLoading := false;
    }

    /** login: succeeds exactly on the admin pair, which becomes the persisted user. */
    method Login(username: string, password: string, now: string) returns (r: LoginResult)
      modifies this`user, this`saved
      ensures r.success <==> CredentialsMatch(username, password)
      ensures r.success ==> r.error == None && user == Some(User(AdminUsername, AdminName, now))
                            && saved == user
      ensures !r.success ==> r.error == Some(InvalidCredentials)
                             && user == old(user) && saved == old(saved)
    {
      if username == AdminUsername && password == AdminPassword {
        var userData := User(AdminUsername, AdminName, now);
        user := Some(userData);
        saved := Some(userData);
        return LoginResult(true, None);
      }
      return LoginResult(false, Some(InvalidCredentials));
    }

    /** logout: no user and nothing stored; a second logout changes nothing further. */
    method Logout()
      modifies this`user, this`saved
      ensures user == None && saved == None && !IsAuthenticated()
    {
      user := None;
      saved := None;
    }
  }

  /** A session survives a reload: after login, a new provider over the same storage restores the user. */
  method LoginSurvivesReload(now: string) returns (session: AuthSession)
    ensures session.IsAuthenticated() && !session.isLoading
  {
    var first := new AuthSession(None);
    first.RestoreSession();
    var r := first.Login(AdminUsername, AdminPassword, now);
    session := new AuthSession(first.saved);
    session.RestoreSession();
  }

  /** Logging out twice leaves the same state as logging out once. */
  method LogoutIdempotent(session: AuthSession)
    modifies session
    ensures !session.IsAuthenticated() && session.saved == None
  {
    session.Logout();
    var u, s := session.user, session.saved;
    session.Logout();
    assert session.user == u && session.saved == s;
  }
}
