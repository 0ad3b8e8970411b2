/**
 * The password gate shown before the dashboard. It compares the typed
 * password with the stored one, or with two built-in defaults while none is
 * stored, and the first successful login stores the password it used.
 */
module Login {
  import opened Wrappers
  import opened Strings
  import Storage

  const DefaultPasswords: seq<string> := ["admin123", "jamaica2025"]
  const InvalidPasswordError := "Invalid access password."

  /**
   * The passwords the gate compares against: the stored one alone, or the
   * two defaults while none is stored. The empty password is never among them.
   */
  function ValidPasswords(stored: Option<string>): (r: seq<string>)
    ensures |r| >= 1 && "" !in r
    ensures !IsBlank(stored) ==> r == [stored.value]
    ensures IsBlank(stored) ==> r == DefaultPasswords
  {
    if !IsBlank(stored) then [stored.value] else DefaultPasswords
  }

  /** Whether the gate lets `password` in, given what is stored. */
  function Accepts(stored: Option<string>, password: string): (r: bool)
    ensures IsBlank(stored) ==> (r <==> password == "admin123" || password == "jamaica2025")
    ensures !IsBlank(stored) ==> (r <==> password == stored.value)
  {
    password in ValidPasswords(stored)
  }

  /**
   * Once a first login has stored the default it used, only that default
   * opens the gate: the other one no longer works.
   */
  lemma FirstLoginLocksIn(password: string, other: string)
    requires Accepts(None, password)
    ensures Accepts(Some(password), other) <==> other == password
  {
  }

  /** The login form: the typed password and the error line under it. */
  class LoginForm {
    var password: string
    var error: string

    constructor ()
      ensures password == "" && error == ""
    {
      password, error := "", "";
    }

    /** The input's change handler. */
    method SetPassword(value: string)
      modifies this`password
      ensures password == value
    {
      password := value;
    }

    /**
     * `handleLogin`: on success the parent's `onLogin` is called (reported
     * as `loggedIn`) and, if nothing was stored, the password used is
     * stored; on failure only the error line changes.
     */
    method HandleLogin(store: Storage.Store) returns (loggedIn: bool)
      modifies this`error, store
      ensures var stored := old(store.GetItem(Storage.PasswordKey));
        && loggedIn == Accepts(stored, password)
        && (loggedIn && IsBlank(stored) ==>
              store.entries == old(store.entries)[Storage.PasswordKey := password])
        && (loggedIn && !IsBlank(stored) ==> store.entries == old(store.entries))
        && (loggedIn ==> error == old(error))
        && (!loggedIn ==> store.entries == old(store.entries) && error == InvalidPasswordError)
    {
      var stored := store.GetItem(Storage.PasswordKey);
      if Accepts(stored, password) {
        if IsBlank(stored) {
          store.SetItem(Storage.PasswordKey, password);
        }
        loggedIn := true;
      } else {
        error := InvalidPasswordError;
        loggedIn := false;
      }
    }
  }
}
