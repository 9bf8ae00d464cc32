/**
 * The admin authentication controller: `login` (a chain of early exits, then the session is
 * filled in and the single-use `returnTo` consumed), `logout`, and `register` (an ordered
 * validation cascade, then a new user is built and saved).
 */
module AuthController {
  import opened Js
  import opened UserModel
  import opened Auth

  /** `req.body` of the login form. */
  datatype LoginForm = LoginForm(identifier: Option<string>, password: Option<string>)

  /** `req.body` of the registration form. */
  datatype RegisterForm = RegisterForm(
    username: Option<string>,
    email: Option<string>,
    password: Option<string>,
    confirmPassword: Option<string>,
    role: Option<string>)

  datatype View = LoginPage | RegisterPage

  /** A rendered page with its `error` and `success` values, or a redirect. */
  datatype Response = Render(view: View, error: Option<string>, success: Option<string>)
                    | RedirectTo(location: string)

  const MissingCredentials := "Please provide both username/email and password"
  const InvalidCredentials := "Invalid credentials"
  const LoginFailed := "An error occurred during login. Please try again."
  const MissingFields := "All fields are required"
  const PasswordsDiffer := "Passwords do not match"
  const PasswordTooShortMessage := "Password must be at least 6 characters long"
  const UserExists := "User with this email or username already exists"
  const UserCreated := "Admin user created successfully"
  const RegistrationFailed := "An error occurred during registration. Please try again."
  const LoggedOutPath := "/admin/login?success=logged_out"

  datatype LoginCheck = MissingInput | UnknownUser | WrongPassword | Accepted(index: nat)

  /** The decision part of `login`: both fields must be truthy, `findByCredentials` must find
      an active user, and the password must verify against that user's hash. */
  function CheckCredentials(docs: seq<User>, f: LoginForm, crypt: Bcrypt): (c: LoginCheck)
    ensures c == MissingInput <==> !Truthy(f.identifier) || !Truthy(f.password)
    ensures c == UnknownUser <==>
      Truthy(f.identifier) && Truthy(f.password) && FindByCredentials(docs, f.identifier.value).None?
    ensures c == WrongPassword <==>
      && Truthy(f.identifier) && Truthy(f.password)
      && FindByCredentials(docs, f.identifier.value).Some?
      && !ComparePassword(docs[FindByCredentials(docs, f.identifier.value).value], f.password.value, crypt)
    ensures c.Accepted? ==>
      && Truthy(f.identifier) && Truthy(f.password)
      && FindByCredentials(docs, f.identifier.value) == Some(c.index)
      && c.index < |docs|
      && ComparePassword(docs[c.index], f.password.value, crypt)
  {
    if !Truthy(f.identifier) || !Truthy(f.password) then MissingInput
    else
      match FindByCredentials(docs, f.identifier.value)
      case None => UnknownUser
      case Some(i) => if ComparePassword(docs[i], f.password.value, crypt) then Accepted(i) else WrongPassword
  }

  /** The error a refused login shows: an unknown user and a wrong password look the same. */
  function LoginError(c: LoginCheck): (msg: string)
    requires !c.Accepted?
    ensures c == MissingInput ==> msg == MissingCredentials
    ensures c != MissingInput ==> msg == InvalidCredentials
  {
    if c == MissingInput then MissingCredentials else InvalidCredentials
  }

  /** Re-saving a valid stored user with only `lastLogin` changed succeeds: the update cannot
      clash with the unique indexes, because `_id`, username and email are the stored doc's own. */
  lemma {:induction false} LastLoginSaveSucceeds(docs: seq<User>, i: nat, now: int)
    requires UniqueIndexes(docs) && i < |docs|
    requires ValidationErrors(docs[i]) == {}
    ensures SaveOutcome(docs, docs[i].(lastLogin := Some(now)), i) == Saved
  {
    var u := docs[i].(lastLogin := Some(now));
    assert ValidationErrors(u) == ValidationErrors(docs[i]);
    forall k | 0 <= k < |docs| && k != i
      ensures docs[k].id != u.id && docs[k].username != u.username && docs[k].email != u.email
    {
      if k < i {
        assert docs[k].id != docs[i].id && docs[k].username != docs[i].username && docs[k].email != docs[i].email;
      } else {
        assert docs[i].id != docs[k].id && docs[i].username != docs[k].username && docs[i].email != docs[k].email;
      }
    }
  }

  /** The accepted part of `login` for the user at position `i`: stamp `lastLogin` and save;
      if that save fails, or there is no session to write to, show the generic error and leave
      the session alone; otherwise fill in the session, mark it authenticated, and send the
      visitor to the stored `returnTo` (when truthy) or the dashboard, removing `returnTo`. */
  method AcceptLogin(store: UserStore, s: Session?, i: nat, now: int, crypt: Bcrypt)
    returns (resp: Response)
    requires store.Valid() && i < |store.docs|
    modifies store, s
    ensures store.Valid()
    ensures var u := old(store.docs)[i].(lastLogin := Some(now));
      var saved := SaveOutcome(old(store.docs), u, i) == Saved;
      && store.docs == (if saved then old(store.docs)[i := PreSave(u, false, now, crypt)]
                        else old(store.docs))
      && (!saved || s == null ==>
            resp == Render(LoginPage, Some(LoginFailed), None) && (s != null ==> unchanged(s)))
      && (saved && s != null ==>
            && resp == RedirectTo(if Truthy(old(s.returnTo)) then old(s.returnTo).value else DashboardPath)
            && s.userId == Some(u.id) && s.username == Some(u.username)
            && s.userEmail == Some(u.email) && s.userRole == Some(u.role)
            && s.isAuthenticated && s.returnTo.None?
            && LoggedIn(s))
  {
    var u := store.docs[i].(lastLogin := Some(now));
    var r := store.Update(i, u, false, now, crypt);
    if !r.Saved? || s == null {
      resp := Render(LoginPage, Some(LoginFailed), None);
      return;
    }
    s.userId := Some(u.id);
    s.username := Some(u.username);
    s.userEmail := Some(u.email);
    s.userRole := Some(u.role);
    s.isAuthenticated := true;
    var redirectTo := if Truthy(s.returnTo) then s.returnTo.value else DashboardPath;
    s.returnTo := None;
    resp := RedirectTo(redirectTo);
  }

  /** `login`. A refused login renders its error and changes neither the store nor the session;
      an accepted one continues as `AcceptLogin` describes. */
  method Login(store: UserStore, s: Session?, f: LoginForm, now: int, crypt: Bcrypt)
    returns (resp: Response)
    requires store.Valid()
    modifies store, s
    ensures store.Valid()
    ensures var c := CheckCredentials(old(store.docs), f, crypt);
      !c.Accepted? ==>
        resp == Render(LoginPage, Some(LoginError(c)), None)
        && store.docs == old(store.docs) && (s != null ==> unchanged(s))
    ensures var c := CheckCredentials(old(store.docs), f, crypt);
      c.Accepted? ==>
        var u := old(store.docs)[c.index].(lastLogin := Some(now));
        var saved := SaveOutcome(old(store.docs), u, c.index) == Saved;
        && store.docs == (if saved then old(store.docs)[c.index := PreSave(u, false, now, crypt)]
                          else old(store.docs))
        && (!saved || s == null ==>
              resp == Render(LoginPage, Some(LoginFailed), None) && (s != null ==> unchanged(s)))
        && (saved && s != null ==>
              && resp == RedirectTo(if Truthy(old(s.returnTo)) then old(s.returnTo).value else DashboardPath)
              && s.userId == Some(u.id) && s.username == Some(u.username)
              && s.userEmail == Some(u.email) && s.userRole == Some(u.role)
              && s.isAuthenticated && s.returnTo.None?
              && LoggedIn(s))
  {
    ghost var c := CheckCredentials(store.docs, f, crypt);
    if !Truthy(f.identifier) || !Truthy(f.password) {
      assert c == MissingInput;
      resp := Render(LoginPage, Some(MissingCredentials), None);
      return;
    }
    var found := FindByCredentials(store.docs, f.identifier.value);
    if found.None? {
      assert c == UnknownUser;
      resp := Render(LoginPage, Some(InvalidCredentials), None);
      return;
    }
    var i := found.value;
    if !ComparePassword(store.docs[i], f.password.value, crypt) {
      assert c == WrongPassword;
      resp := Render(LoginPage, Some(InvalidCredentials), None);
      return;
    }
    assert c == Accepted(i);
    resp := AcceptLogin(store, s, i, now, crypt);
  }

  datatype LogoutResult = LogoutResult(location: string, cookieCleared: bool)

  /** `logout`: when the session is destroyed the cookie is cleared and the visitor lands on
      the login page with the logged-out notice; the session then holds nothing. When
      destroying fails (or there is no session) the visitor goes back to the dashboard and
      nothing changes. */
  method Logout(s: Session?, destroyFails: bool) returns (r: LogoutResult)
    modifies s
    ensures s == null || destroyFails ==>
      r == LogoutResult(DashboardPath, false) && (s != null ==> unchanged(s))
    ensures s != null && !destroyFails ==>
      && r == LogoutResult(LoggedOutPath, true)
      && s.userId.None? && !s.isAuthenticated && s.username.None? && s.userEmail.None?
      && s.userRole.None? && s.returnTo.None?
      && !LoggedIn(s)
  {
    if s == null || destroyFails {
      r := LogoutResult(DashboardPath, false);
      return;
    }
    s.userId, s.isAuthenticated := None, false;
    s.username, s.userEmail, s.userRole, s.returnTo := None, None, None, None;
    r := LogoutResult(LoggedOutPath, true);
  }

  datatype RegisterCheck = MissingField | PasswordMismatch | PasswordTooShort | AlreadyExists | Proceed

  /** The four required fields are all truthy. */
  predicate Filled(f: RegisterForm)
  {
    Truthy(f.username) && Truthy(f.email) && Truthy(f.password) && Truthy(f.confirmPassword)
  }

  /** The duplicate lookup's filter: the stored email equals the lower-cased submitted email,
      or the stored username equals the submitted one, each as the query casts it for that
      path. Inactive users count too. */
  predicate Taken(u: User, username: string, email: string)
  {
    u.email == CastEmail(ToLower(email)) || u.username == CastUsername(username)
  }

  /** The registration cascade: the first failing check decides. */
  function CheckRegistration(docs: seq<User>, f: RegisterForm): (c: RegisterCheck)
    ensures c == MissingField <==> !Filled(f)
    ensures c == PasswordMismatch <==> Filled(f) && f.password.value != f.confirmPassword.value
    ensures c == PasswordTooShort <==>
      Filled(f) && f.password.value == f.confirmPassword.value && JsLength(f.password.value) < 6
    ensures c == AlreadyExists <==>
      && Filled(f) && f.password.value == f.confirmPassword.value && JsLength(f.password.value) >= 6
      && exists k :: 0 <= k < |docs| && Taken(docs[k], f.username.value, f.email.value)
    ensures c == Proceed <==>
      && Filled(f) && f.password.value == f.confirmPassword.value && JsLength(f.password.value) >= 6
      && forall k :: 0 <= k < |docs| ==> !Taken(docs[k], f.username.value, f.email.value)
  {
    if !Filled(f) then MissingField
    else if f.password.value != f.confirmPassword.value then PasswordMismatch
    else if JsLength(f.password.value) < 6 then PasswordTooShort
    else if exists k :: 0 <= k < |docs| && Taken(docs[k], f.username.value, f.email.value) then AlreadyExists
    else Proceed
  }

  function RegisterError(c: RegisterCheck): string
  {
    match c
    case MissingField => MissingFields
    case PasswordMismatch => PasswordsDiffer
    case PasswordTooShort => PasswordTooShortMessage
    case AlreadyExists => UserExists
    case Proceed => RegistrationFailed
  }

  /** `new User({ username, email: email.toLowerCase(), password, role: role || 'admin' })` */
  function RegisteredUser(f: RegisterForm, id: UserId, now: int): User
    requires Filled(f)
  {
    NewUser(id, f.username.value, ToLower(f.email.value), f.password.value,
            Some(if Truthy(f.role) then f.role.value else DefaultRole), now)
  }

  /** A registered user keeps the submitted password (until the hook hashes it), has a trimmed
      username, a trimmed lower-case email, and the role 'admin' when the form gave none. */
  lemma RegisteredUserShape(f: RegisterForm, id: UserId, now: int)
    requires Filled(f)
    ensures var u := RegisteredUser(f, id, now);
      && u.password == f.password.value
      && u.username == Trim(f.username.value)
      && u.email == Trim(ToLower(f.email.value))
      && ToLower(u.email) == u.email && Trim(u.email) == u.email
      && (!Truthy(f.role) ==> u.role == "admin")
      && u.isActive
  {
    var l := ToLower(f.email.value);
    LowerTrimCommute(l);
    ToLowerIdempotent(f.email.value);
    TrimIdempotent(l);
    ToLowerIdempotent(Trim(l));
    LowerTrimCommute(l);
  }

  /** `register`. Any failing check renders its error and creates nothing. Otherwise the new user
      is built and saved; a save refused by validation or a unique index renders the generic
      error and creates nothing; a successful save appends exactly the new user, with its
      password hashed. */
  method Register(store: UserStore, f: RegisterForm, newId: UserId, now: int, crypt: Bcrypt)
    returns (resp: Response)
    requires store.Valid()
    modifies store
    ensures store.Valid()
    ensures var c := CheckRegistration(old(store.docs), f);
      c != Proceed ==> resp == Render(RegisterPage, Some(RegisterError(c)), None)
                       && store.docs == old(store.docs)
    ensures CheckRegistration(old(store.docs), f) == Proceed ==>
      var u := RegisteredUser(f, newId, now);
      if SaveOutcome(old(store.docs), u, -1) == Saved then
        resp == Render(RegisterPage, None, Some(UserCreated))
        && store.docs == old(store.docs) + [PreSave(u, true, now, crypt)]
      else
        resp == Render(RegisterPage, Some(RegistrationFailed), None)
        && store.docs == old(store.docs)
  {
    var c := CheckRegistration(store.docs, f);
    if c != Proceed {
      resp := Render(RegisterPage, Some(RegisterError(c)), None);
      return;
    }
    var u := RegisteredUser(f, newId, now);
    var r := store.Insert(u, now, crypt);
    if r.Saved? {
      resp := Render(RegisterPage, None, Some(UserCreated));
    } else {
      resp := Render(RegisterPage, Some(RegistrationFailed), None);
    }
  }

  /** A finding of `findByCredentials` over a store with one more document. */
  lemma {:induction false} FindAppended(docs: seq<User>, x: User, identifier: string)
    requires forall k :: 0 <= k < |docs| ==> !CredentialMatch(docs[k], identifier)
    requires CredentialMatch(x, identifier)
    ensures FindByCredentials(docs + [x], identifier) == Some(|docs|)
  {
    var all := docs + [x];
    assert all[|docs|] == x;
    assert forall k :: 0 <= k < |docs| ==> all[k] == docs[k];
  }

  /** An account that registration created can log in with its username and the password
      that was typed, provided no other active account has that username, cast as an email,
      as its email (the lookup matches either field). */
  lemma RegisteredUserCanLogIn(docs: seq<User>, f: RegisterForm, id: UserId, now: int, crypt: Bcrypt)
    requires Sound(crypt)
    requires CheckRegistration(docs, f) == Proceed
    requires SaveOutcome(docs, RegisteredUser(f, id, now), -1) == Saved
    requires forall k :: 0 <= k < |docs| ==>
      !(docs[k].isActive && docs[k].email == CastEmail(RegisteredUser(f, id, now).username))
    ensures var u := RegisteredUser(f, id, now);
      CheckCredentials(docs + [PreSave(u, true, now, crypt)],
                       LoginForm(Some(u.username), f.password), crypt) == Accepted(|docs|)
  {
    var u := RegisteredUser(f, id, now);
    var saved := PreSave(u, true, now, crypt);
    RegisteredUserShape(f, id, now);
    TrimIdempotent(f.username.value);
    assert CastUsername(u.username) == u.username;
    assert ValidationErrors(u) == {};
    assert u.username != [];
    assert !Conflicts(docs, u, -1);
    forall k | 0 <= k < |docs| ensures !CredentialMatch(docs[k], u.username) {
      assert docs[k].username != u.username;
    }
    FindAppended(docs, saved, u.username);
    HashedPasswordVerifies(u, now, crypt);
  }

  /** The duplicate lookup casts its values as the setters store them, so when registration
      proceeds, the new user's username and email clash with no stored user: only a reused
      `_id` could still make the save hit a unique index. */
  lemma ProceedAvoidsDuplicateKey(docs: seq<User>, f: RegisterForm, id: UserId, now: int)
    requires CheckRegistration(docs, f) == Proceed
    requires forall k :: 0 <= k < |docs| ==> docs[k].id != id
    ensures SaveOutcome(docs, RegisteredUser(f, id, now), -1) != DuplicateKey
  {
    var u := RegisteredUser(f, id, now);
    forall k | 0 <= k < |docs|
      ensures docs[k].id != u.id && docs[k].username != u.username && docs[k].email != u.email
    {
      assert !Taken(docs[k], f.username.value, f.email.value);
    }
  }

  /** The string facts the example below needs. */
  lemma PaddedExampleStrings()
    ensures Trim(" bob") == "bob"
  {
    var bob := "bob";
    assert LeadingSpace(" bob") == 1 + LeadingSpace(bob) == 1;
    assert TrailingSpace(" bob") == 0;
  }

  /** A username padded with a space is cast to the stored one, so the duplicate lookup finds
      the existing account and the visitor gets the duplicate message. */
  lemma PaddedUsernameCaughtByDuplicateCheck()
    ensures var docs := [User(1, "bob", "x", "h", "admin", true, None, 0, 0)];
      var f := RegisterForm(Some(" bob"), Some("y"), Some("secret"), Some("secret"), None);
      && CheckRegistration(docs, f) == AlreadyExists
      && RegisterError(CheckRegistration(docs, f)) == UserExists
  {
    var docs := [User(1, "bob", "x", "h", "admin", true, None, 0, 0)];
    PaddedExampleStrings();
    var secret := "secret";
    assert forall k :: 0 <= k < |secret| ==> secret[k] as int < 0x1_0000;
    assert JsLength(secret) == 6;
    assert Taken(docs[0], " bob", "y");
  }
}
