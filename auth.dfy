/**
 * The sign-in page's two forms: the login schema (username of at least three
 * characters, password of at least six), the register schema (password of at
 * least six characters, confirmation equal to the password, any username), and
 * the register payload, which is the form without its confirmation.
 */
module AuthPage {
  import opened Wrappers
  import opened Schema
  import OrderedMaps
  import Storage

  const MinUsernameLength: nat := 3
  const MinPasswordLength: nat := 6

  const UsernameTooShort: string := "Username minimal 3 karakter"
  const PasswordTooShort: string := "Password minimal 6 karakter"
  const ConfirmationMismatch: string := "Konfirmasi password tidak cocok"

  datatype LoginForm = LoginForm(username: string, password: string)

  datatype RegisterForm = RegisterForm(username: string, password: string, confirmPassword: string)

  /** The form field a validation issue is shown under. */
  datatype Field = Username | Password | ConfirmPassword

  datatype Issue = Issue(path: Field, message: string)

  /** Some issue in `issues` is shown under `field`. */
  predicate Flags(issues: seq<Issue>, field: Field) {
    exists i :: 0 <= i < |issues| && issues[i].path == field
  }

  /**
   * The issues the login schema reports, in field order: a short username,
   * then a short password.
   */
  function LoginIssues(f: LoginForm): (r: seq<Issue>)
    ensures Flags(r, Username) <==> |f.username| < MinUsernameLength
    ensures Flags(r, Password) <==> |f.password| < MinPasswordLength
    ensures !Flags(r, ConfirmPassword)
    ensures forall i :: 0 <= i < |r| && r[i].path == Username ==> r[i].message == UsernameTooShort
    ensures forall i :: 0 <= i < |r| && r[i].path == Password ==> r[i].message == PasswordTooShort
    ensures forall i, j :: 0 <= i < j < |r| ==> r[i].path == Username && r[j].path == Password
  {
    var r := (if |f.username| < MinUsernameLength then [Issue(Username, UsernameTooShort)] else [])
      + (if |f.password| < MinPasswordLength then [Issue(Password, PasswordTooShort)] else []);
    assert |f.username| < MinUsernameLength ==> r[0].path == Username;
    assert |f.password| < MinPasswordLength ==> r[|r| - 1].path == Password;
    r
  }

  /**
   * The issues the register schema reports: a short password from the field
   * rules, then a mismatched confirmation from the refinement, which runs even
   * when the password rule has failed. The username is never flagged.
   */
  function RegisterIssues(f: RegisterForm): (r: seq<Issue>)
    ensures Flags(r, Password) <==> |f.password| < MinPasswordLength
    ensures Flags(r, ConfirmPassword) <==> f.confirmPassword != f.password
    ensures !Flags(r, Username)
    ensures forall i :: 0 <= i < |r| && r[i].path == Password ==> r[i].message == PasswordTooShort
    ensures forall i :: 0 <= i < |r| && r[i].path == ConfirmPassword ==> r[i].message == ConfirmationMismatch
    ensures forall i, j :: 0 <= i < j < |r| ==> r[i].path == Password && r[j].path == ConfirmPassword
  {
    var r := (if |f.password| < MinPasswordLength then [Issue(Password, PasswordTooShort)] else [])
      + (if f.password != f.confirmPassword then [Issue(ConfirmPassword, ConfirmationMismatch)] else []);
    assert |f.password| < MinPasswordLength ==> r[0].path == Password;
    assert f.password != f.confirmPassword ==> r[|r| - 1].path == ConfirmPassword;
    r
  }

  /**
   * The login form is submitted exactly when the schema reports no issue: a
   * username of at least three and a password of at least six characters.
   */
  predicate LoginAccepted(f: LoginForm)
    ensures LoginAccepted(f) <==> |f.username| >= MinUsernameLength && |f.password| >= MinPasswordLength
  {
    var issues := LoginIssues(f);
    assert issues != [] ==> Flags(issues, issues[0].path);
    issues == []
  }

  /**
   * The register form is submitted exactly when the schema reports no issue: a
   * password of at least six characters confirmed exactly, whatever the username.
   */
  predicate RegisterAccepted(f: RegisterForm)
    ensures RegisterAccepted(f) <==> |f.password| >= MinPasswordLength && f.confirmPassword == f.password
  {
    var issues := RegisterIssues(f);
    assert issues != [] ==> Flags(issues, issues[0].path);
    issues == []
  }

  /** `onRegisterSubmit`: the form values without `confirmPassword`. */
  function RegisterPayload(f: RegisterForm): (r: InsertUser)
    ensures RegisterAccepted(f) ==> r.password == f.confirmPassword
  {
    InsertUser(f.username, f.password)
  }

  /** The register form a user fills in to send `payload`, confirming with `confirmPassword`. */
  function Confirmed(payload: InsertUser, confirmPassword: string): (r: RegisterForm)
    ensures r.confirmPassword == confirmPassword
  {
    RegisterForm(payload.username, payload.password, confirmPassword)
  }

  /**
   * The payload is exactly the form minus its confirmation: putting the
   * confirmation back gives the form, and confirming a payload with its own
   * password gives an accepted form whenever the password is long enough.
   */
  lemma PayloadRoundTrip(f: RegisterForm, payload: InsertUser)
    ensures Confirmed(RegisterPayload(f), f.confirmPassword) == f
    ensures RegisterPayload(Confirmed(payload, payload.password)) == payload
    ensures RegisterAccepted(Confirmed(payload, payload.password)) <==> |payload.password| >= MinPasswordLength
  {
  }

  /**
   * Register sets no minimum username length, so an account it accepts can be
   * one the login form refuses: the same credentials pass login exactly when
   * the username has at least three characters.
   */
  lemma RegisteredCredentialsAtLogin(f: RegisterForm)
    requires RegisterAccepted(f)
    ensures LoginAccepted(LoginForm(f.username, f.password)) <==> |f.username| >= MinUsernameLength
  {
  }

  /** A two-character username is one such account. */
  lemma ShortUsernameRegistersButCannotLogIn()
    ensures RegisterAccepted(RegisterForm("ab", "secret", "secret"))
    ensures !LoginAccepted(LoginForm("ab", "secret"))
  {
    RegisteredCredentialsAtLogin(RegisterForm("ab", "secret", "secret"));
  }

  /**
   * Registering a username no stored user has stores the payload as a new user,
   * and looking the username up afterwards finds exactly that user.
   */
  lemma {:induction false} RegisteredUserFound(s: Storage.Store, f: RegisterForm)
    requires Storage.Invariant(s)
    requires Storage.FirstWithUsername(OrderedMaps.Values(s.users), f.username).None?
    ensures var (s', user) := Storage.CreateUserStep(s, RegisterPayload(f));
      && user.username == f.username && user.password == f.password
      && Storage.FirstWithUsername(OrderedMaps.Values(s'.users), f.username) == Some(user)
  {
    var (s', user) := Storage.CreateUserStep(s, RegisterPayload(f));
    var before := OrderedMaps.Values(s.users);
    var after := OrderedMaps.Values(s'.users);
    assert s'.users.order == s.users.order + [user.id];
    assert after == before + [user];
    FirstAfterAppend(before, user, f.username);
  }

  /** Appending a user with `name` to a list where nobody has it makes that user the first with it. */
  lemma {:induction false} FirstAfterAppend(users: seq<User>, user: User, name: string)
    requires Storage.FirstWithUsername(users, name).None? && user.username == name
    ensures Storage.FirstWithUsername(users + [user], name) == Some(user)
    decreases |users|
  {
    if users != [] {
      assert (users + [user])[1..] == users[1..] + [user];
      FirstAfterAppend(users[1..], user, name);
    }
  }
}
