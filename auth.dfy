/** The auth flag store of authStore.js: whether someone is logged in and, if so,
    the phone number they logged in with. */
module Auth {
  import opened Util

  /** The stored user: only the phone number, never the password. */
  datatype User = User(phone: string)

  class AuthStore {
    var isLoggedIn: bool
    var user: Option<User>

    /** The two fields move together: a user is stored exactly when logged in. */
    ghost predicate Valid()
      reads this
    {
      isLoggedIn <==> user.Some?
    }

    /** The initial state: logged out, no user. */
    constructor ()
      ensures Valid()
      ensures !isLoggedIn && user == None
    {
      isLoggedIn := false;
      user := None;
    }

    /** `login(phone, password)`: always succeeds; the password is not kept. */
    method Login(phone: string, password: string)
      modifies this
      ensures Valid()
      ensures isLoggedIn && user == Some(User(phone))
    {
      isLoggedIn := true;
      user := Some(User(phone));
    }

    /** `logout()`: back to the initial state, whatever the state was. */
    method Logout()
      modifies this
      ensures Valid()
      ensures !isLoggedIn && user == None
    {
      isLoggedIn := false;
      user := None;
    }
  }
}
