/** The customer account routes: registration with its checks in their order,
    and login by email with the password check left to a caller-supplied
    comparison. */
module UserRoutes {
  import opened Schema

  /** Passwords registration refuses as too easy to guess. */
  const WeakPasswords: seq<string> :=
    ["123456", "password", "123456789", "12345678", "12345", "1234", "111111", "abcd", "qwerty"]

  const MinNameLength: nat := 6

  /** `POST /users/register`: presence of the three fields, then name length,
      then the weak-password list, then the email, then an insert without a
      role. `passwordHash` is the hash of the submitted password. */
  function Register(t: Tables, form: RegistrationForm, passwordHash: string): Step {
    if !FormComplete(form) then Step(t, MissingFields)
    else if |form.name.value| < MinNameLength then Step(t, NameTooShort)
    else if form.password.value in WeakPasswords then Step(t, WeakPassword)
    else if EmailRegistered(t.users, form.email.value) then Step(t, EmailTaken)
    else Step(InsertUser(t, form.name.value, form.email.value, passwordHash, None), Done)
  }

  /** The checks run in the order of the handler: a missing field is reported
      before a short name, a short name before a weak password, a weak password
      before a registered email. Every refusal leaves the store unchanged. */
  lemma RegisterCheckOrder(t: Tables, form: RegistrationForm, passwordHash: string)
    ensures var s := Register(t, form, passwordHash);
      && (!FormComplete(form) ==> s == Step(t, MissingFields))
      && (FormComplete(form) && |form.name.value| < MinNameLength ==> s == Step(t, NameTooShort))
      && (FormComplete(form) && |form.name.value| >= MinNameLength && form.password.value in WeakPasswords
          ==> s == Step(t, WeakPassword))
      && ((FormComplete(form) && |form.name.value| >= MinNameLength && form.password.value !in WeakPasswords
           && EmailRegistered(t.users, form.email.value)) ==> s == Step(t, EmailTaken))
      && (s.response != Done ==> s.tables == t)
  {
  }

  /** A six-character name passes the length check and a five-character one
      fails it; each listed password is refused, whatever the email. */
  lemma RegisterBoundaries(t: Tables, email: string, password: string, passwordHash: string)
    requires email != "" && password != ""
    ensures Register(t, RegistrationForm(Some("abcdef"), Some(email), Some(password)), passwordHash).response != NameTooShort
    ensures Register(t, RegistrationForm(Some("abcde"), Some(email), Some(password)), passwordHash).response == NameTooShort
    ensures forall i :: 0 <= i < |WeakPasswords| ==>
      Register(t, RegistrationForm(Some("abcdef"), Some(email), Some(WeakPasswords[i])), passwordHash).response == WeakPassword
  {
  }

  /** Registration succeeds exactly when every check passes; it then appends
      exactly one user with that name, email and hash and no role, emails stay
      unique, and no other table changes. */
  lemma RegisterSuccess(t: Tables, form: RegistrationForm, passwordHash: string)
    requires UniqueEmails(t.users)
    ensures var s := Register(t, form, passwordHash);
      && UniqueEmails(s.tables.users)
      && (s.response == Done <==>
            FormComplete(form) && |form.name.value| >= MinNameLength && form.password.value !in WeakPasswords
            && !EmailRegistered(t.users, form.email.value))
      && (s.response == Done ==>
            && |s.tables.users| == |t.users| + 1
            && s.tables.users[..|t.users|] == t.users
            && s.tables == t.(users := s.tables.users, nextUserId := t.nextUserId + 1)
            && EmailRegistered(s.tables.users, form.email.value)
            && var u := s.tables.users[|t.users|];
               u.name == form.name.value && u.email == form.email.value && u.passwordHash == passwordHash
               && u.role == None)
  {
    var s := Register(t, form, passwordHash);
    if s.response == Done {
      InsertUserKeepsEmailsUnique(t, form.name.value, form.email.value, passwordHash, None);
      assert s.tables.users[|t.users|].email == form.email.value;
    }
  }

  method HandleRegister(db: Database, form: RegistrationForm, passwordHash: string) returns (r: Response)
    modifies db
    ensures Step(db.Snapshot(), r) == Register(old(db.Snapshot()), form, passwordHash)
  {
    if !FormComplete(form) {
      return MissingFields;
    }
    if |form.name.value| < MinNameLength {
      return NameTooShort;
    }
    if form.password.value in WeakPasswords {
      return WeakPassword;
    }
    if EmailRegistered(db.users, form.email.value) {
      return EmailTaken;
    }
    db.users := db.users + [User(db.nextUserId, form.name.value, form.email.value, passwordHash, None)];
    db.nextUserId := db.nextUserId + 1;
    r := Done;
  }

  /** `SELECT ... FROM users WHERE email = ?` and its first row: the index of
      the first user with that email. */
  function FindByEmail(users: seq<User>, email: string): (r: Option<nat>)
    ensures r.None? <==> !EmailRegistered(users, email)
    ensures r.Some? ==> r.value < |users| && users[r.value].email == email
    ensures r.Some? ==> forall j :: 0 <= j < r.value ==> users[j].email != email
  {
    if users == [] then None
    else if users[0].email == email then Some(0)
    else match FindByEmail(users[1..], email)
      case None => None
      case Some(k) => Some(k + 1)
  }

  datatype LoginForm = LoginForm(email: Option<string>, password: Option<string>)

  /** `POST /users/login`. `verify(password, hash)` stands for the password-hash
      comparison. On success the answer carries the session user to store and
      where to redirect. */
  function Login(users: seq<User>, form: LoginForm, verify: (string, string) -> bool): Response {
    if !(Given(form.email) && Given(form.password)) then MissingFields
    else match FindByEmail(users, form.email.value)
      case None => InvalidCredentials
      case Some(i) =>
        var u := users[i];
        if !verify(form.password.value, u.passwordHash) then InvalidCredentials
        else SignedIn(SessionUser(u.id, u.name, u.email, u.role),
                      if u.role == Some(AdminRole) then AdminProfile else Home)
  }

  /** Login fails for a missing field or an unknown email. When emails are
      unique and the password matches the row with that email, the session user
      is that row's id, name, email and role, and the redirect goes to the admin
      profile exactly when the role is admin. */
  lemma LoginEffect(users: seq<User>, form: LoginForm, verify: (string, string) -> bool)
    ensures !(Given(form.email) && Given(form.password)) ==> Login(users, form, verify) == MissingFields
    ensures Given(form.email) && Given(form.password) && !EmailRegistered(users, form.email.value)
        ==> Login(users, form, verify) == InvalidCredentials
    ensures forall i :: (0 <= i < |users| && UniqueEmails(users) && Given(form.email) && Given(form.password)
                         && users[i].email == form.email.value) ==>
          var u := users[i];
          Login(users, form, verify)
            == (if verify(form.password.value, u.passwordHash)
                then SignedIn(SessionUser(u.id, u.name, u.email, u.role),
                              if u.role == Some(AdminRole) then AdminProfile else Home)
                else InvalidCredentials)
    ensures var r := Login(users, form, verify);
      r.SignedIn? ==> (r.redirect == AdminProfile <==> r.user.role == Some(AdminRole))
  {
  }

  /** The POST /users/login handler: reads the users table and sets the session user. */
  method HandleLogin(db: Database, session: Session, form: LoginForm, verify: (string, string) -> bool)
    returns (r: Response)
    modifies session
    ensures r == Login(db.users, form, verify)
    ensures session.user == if r.SignedIn? then Some(r.user) else old(session.user)
  {
    if !(Given(form.email) && Given(form.password)) {
      return MissingFields;
    }
    var found := FindByEmail(db.users, form.email.value);
    if found.None? {
      return InvalidCredentials;
    }
    var u := db.users[found.value];
    if !verify(form.password.value, u.passwordHash) {
      return InvalidCredentials;
    }
    var sessionUser := SessionUser(u.id, u.name, u.email, u.role);
    session.user := Some(sessionUser);
    r := SignedIn(sessionUser, if u.role == Some(AdminRole) then AdminProfile else Home);
  }
}
