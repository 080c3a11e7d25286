/** The login form: the order of its checks, the two demonstration
    accounts, and what a successful login stores. */
module Login {
  import opened Text

  const AdminEmail := "admin@example.com"
  const AdminPassword := "admin123"
  const UserEmail := "user@example.com"
  const UserPassword := "password123"

  const MissingFieldsMessage := "Please enter both email and password."
  const InvalidMessage := "Invalid email or password."

  /** What one login attempt decides: an error message, or the role and
      user name to store. */
  datatype Decision = Denied(message: string) | Granted(role: string, username: string)

  /** The account table: each role has exactly one accepted email and
      password. */
  predicate KnownAccount(role: string, email: string, password: string) {
    (role == "admin" && email == AdminEmail && password == AdminPassword) ||
    (role == "user" && email == UserEmail && password == UserPassword)
  }

  /** The decision `handleLogin` reaches for the form's fields. */
  function Decide(email: string, password: string, role: string): (r: Decision)
    ensures email == "" || password == "" ==> r == Denied(MissingFieldsMessage)
    ensures r.Granted? ==> r.role == role && r.username == BeforeFirst(email, '@')
    ensures r.Denied? && email != "" && password != "" ==> r.message == InvalidMessage
  {
    if email == "" || password == "" then Denied(MissingFieldsMessage)
    else if role == "admin" && email == AdminEmail && password == AdminPassword then
      Granted("admin", BeforeFirst(email, '@'))
    else if role == "user" && email == UserEmail && password == UserPassword then
      Granted("user", BeforeFirst(email, '@'))
    else Denied(InvalidMessage)
  }

  /** A login is granted exactly for the two demonstration accounts, each
      under its own role. */
  lemma GrantedIffKnown(email: string, password: string, role: string)
    ensures Decide(email, password, role).Granted? <==> KnownAccount(role, email, password)
  {
    if KnownAccount(role, email, password) {
      assert email != "" && password != "";
    }
  }

  /** The right credentials under the other role are refused. */
  lemma WrongRoleDenied()
    ensures Decide(AdminEmail, AdminPassword, "user") == Denied(InvalidMessage)
    ensures Decide(UserEmail, UserPassword, "admin") == Denied(InvalidMessage)
  {
  }

  /** The stored user name is the part of the email before its first `@`. */
  lemma UsernameIsLocalPart(name: string, domain: string, password: string, role: string)
    requires '@' !in name
    requires Decide(name + "@" + domain, password, role).Granted?
    ensures Decide(name + "@" + domain, password, role).username == name
  {
    FirstSeparator(name, '@', domain);
    assert (name + "@" + domain)[..|name|] == name;
  }

  /** The login page's state; `storedRole` and `storedUsername` stand for
      the two browser storage entries, `location` for the route the page
      navigates to. */
  class LoginPage {
    var email: string
    var password: string
    var role: string
    var error: string
    var storedRole: Option<string>
    var storedUsername: Option<string>
    var location: Option<string>

    constructor(storedRole0: Option<string>, storedUsername0: Option<string>)
      ensures email == "" && password == "" && role == "user" && error == ""
      ensures storedRole == storedRole0 && storedUsername == storedUsername0 && location.None?
    {
      email := "";
      password := "";
      role := "user";
      error := "";
      storedRole := storedRole0;
      storedUsername := storedUsername0;
      location := None;
    }

    /** `handleLogin`: the error is cleared, then the checks of `Decide`
        run in order; a grant stores the role and user name and opens the
        dashboard, a denial only shows its message. */
    method HandleLogin()
      modifies this
      ensures var d := Decide(email, password, role);
              (d.Denied? ==>
                error == d.message &&
                storedRole == old(storedRole) && storedUsername == old(storedUsername) &&
                location == old(location)) &&
              (d.Granted? ==>
                error == "" && storedRole == Some(role) &&
                storedUsername == Some(d.username) &&
                location == Some("/dashboard"))
      ensures email == old(email) && password == old(password) && role == old(role)
    {
      var d := Decide(email, password, role);
      Apply(d);
    }

    /** Carries out a decision: a denial shows its message, a grant stores
        the role and user name and opens the dashboard. */
    method Apply(d: Decision)
      modifies this
      ensures d.Denied? ==> error == d.message && storedRole == old(storedRole) &&
                            storedUsername == old(storedUsername) && location == old(location)
      ensures d.Granted? ==> error == "" && storedRole == Some(d.role) &&
                             storedUsername == Some(d.username) && location == Some("/dashboard")
      ensures email == old(email) && password == old(password) && role == old(role)
    {
      error := "";
      if d.Denied? {
        error := d.message;
      } else {
        storedRole, storedUsername, location := Some(d.role), Some(d.username), Some("/dashboard");
      }
    }
  }
}
