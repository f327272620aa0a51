/** The sign-in dialog (components/auth/AuthModal.tsx): what a submit asks
    the auth store for, the local username check in register mode, and the
    dialog's error and busy state. The store's `signIn` and `signUp` are not
    modelled; whether the one called failed, and with which message, is a
    parameter. */
module AuthModal {
  import opened Wrappers
  import opened Text
  import Routing

  datatype Mode = Login | Register

  /** The call a submit makes on the auth store. */
  datatype AuthRequest =
    | SignIn(email: string, password: string)
    | SignUp(email: string, password: string, username: string, role: string)

  const UsernameTooShort := "Username must be at least 3 characters long"

  /** What a submit in the given mode leads to before any call: login always
      calls `signIn`; register checks the username and only then calls
      `signUp` with the chosen role. */
  function Request(mode: Mode, email: string, password: string, username: string, role: string)
    : (r: Result<AuthRequest, string>)
    ensures mode == Login ==> r == Success(SignIn(email, password))
    ensures mode == Register && Utf16Length(username) < 3 ==> r == Failure(UsernameTooShort)
    ensures mode == Register && Utf16Length(username) >= 3 ==> r == Success(SignUp(email, password, username, role))
  {
    if mode == Login then Success(SignIn(email, password))
    else if Utf16Length(username) < 3 then Failure(UsernameTooShort)
    else Success(SignUp(email, password, username, role))
  }

  /** Login never looks at the username; in register mode any username of
      three or more characters passes, and so do some shorter ones: two
      characters outside the Basic Multilingual Plane are four code units. */
  lemma UsernameCheck(email: string, password: string, username: string, other: string, role: string)
    ensures Request(Login, email, password, username, role) == Request(Login, email, password, other, role)
    ensures |username| >= 3 ==> Request(Register, email, password, username, role).Success?
    ensures Request(Register, email, password, "\U{1F600}\U{1F600}", role).Success?
  {
    assert Utf16Length("\U{1F600}\U{1F600}") == 4 by {
      var s := "\U{1F600}\U{1F600}";
      assert s[1..] == "\U{1F600}" && s[1..][1..] == "";
    }
  }

  class AuthDialog {
    var mode: Mode
    var email: string
    var password: string
    var username: string
    var role: string
    var error: string
    var isLoading: bool

    constructor ()
      ensures mode == Login && email == "" && password == "" && username == "" && role == "athlete"
      ensures error == "" && !isLoading
    {
      mode := Login;
      email := "";
      password := "";
      username := "";
      role := "athlete";
      error := "";
      isLoading := false;
    }

    /** `handleSubmit`, as the dialog on screen shows it. `callFailure` is
        how the store call ends, when one is made: `None` when it resolves,
        the error's message when it throws. The result is the call made, if
        any, and whether `onClose` was called; the dialog closes only when
        the call was made and resolved, and is never left busy.

        A failed username check never reaches the store and shows its
        message. A store call first sets the store's `loading`, so the app
        shows only its spinner and this dialog is unmounted (see
        `StoreCallRemountsDialog`); its own `setError` then does nothing.
        `showAuth` belongs to the app and stays set unless `onClose` ran, so
        a failed call brings back a freshly mounted dialog: login mode,
        empty fields and no error. */
    method HandleSubmit(callFailure: Option<string>) returns (call: Option<AuthRequest>, closed: bool)
      modifies this
      ensures var r := Request(old(mode), old(email), old(password), old(username), old(role));
        call == (if r.Success? then Some(r.value) else None)
        && (closed <==> r.Success? && callFailure.None?)
        && (r.Failure? ==> error == r.error && mode == old(mode) && email == old(email) && password == old(password)
                           && username == old(username) && role == old(role))
        && (r.Success? ==> error == "" && mode == Login && email == "" && password == ""
                           && username == "" && role == "athlete")
      ensures !isLoading
    {
      error := "";
      isLoading := true;
      var r := Request(mode, email, password, username, role);
      if r.Failure? {
        call := None;
        closed := false;
        error := r.error;
        isLoading := false;
      } else {
        call := Some(r.value);
        closed := callFailure.None?;
        // the dialog the app mounts again once the store's call settles
        mode := Login;
        email := "";
        password := "";
        username := "";
        role := "athlete";
        error := "";
        isLoading := false;
      }
    }

    /** The link under the submit button: the other mode, no error. */
    method ToggleMode()
      modifies this
      ensures mode == if old(mode) == Login then Register else Login
      ensures error == "" && isLoading == old(isLoading)
      ensures email == old(email) && password == old(password) && username == old(username) && role == old(role)
    {
      mode := if mode == Login then Register else Login;
      error := "";
    }
  }

  /** A visitor's store call hides the dialog, and once the call has failed
      with the visitor still signed out, the app shows the routes with the
      dialog again: a new instance, not the one that made the call. */
  lemma StoreCallRemountsDialog(auth: Routing.AuthState)
    requires Routing.Ready(auth) && auth.profile.None?
    ensures Routing.AppScreen(auth.(loading := true), true) == Routing.Loading
    ensures Routing.AppScreen(auth, true) == Routing.Routes(true)
  {
  }
}
