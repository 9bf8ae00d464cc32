/**
 * The `User` schema: field setters and defaults, save-time validation, the two pre-save hooks
 * (hash a modified password, stamp `updatedAt`), `comparePassword`, `findByCredentials`, and
 * the `users` collection with its unique indexes on `_id`, `username` and `email`.
 */
module UserModel {
  import opened Js

  /** The document `_id` (an ObjectId, which is never falsy). */
  type UserId = nat

  const Roles: set<string> := {"admin", "super_admin"}
  const DefaultRole := "admin"

  datatype User = User(
    id: UserId,
    username: string,
    email: string,
    password: string,     // the bcrypt hash once saved
    role: string,
    isActive: bool,
    lastLogin: Option<int>,
    createdAt: int,
    updatedAt: int)

  /** bcryptjs: `hash(password, 12)` and `compare(candidate, hash)`, as parameters of the model. */
  datatype Bcrypt = Bcrypt(hash: string -> string, compare: (string, string) -> bool)

  /** A hash and compare pair that work together: `compare` recognises what `hash` produced. */
  ghost predicate Sound(crypt: Bcrypt)
  {
    forall p :: crypt.compare(p, crypt.hash(p))
  }

  /** The `username` setter, which Mongoose also applies to a query's value for that path. */
  function CastUsername(v: string): string
  {
    Trim(v)
  }

  /** The `email` setters (trim, then lowercase), also applied to a query's value. */
  function CastEmail(v: string): string
  {
    ToLower(Trim(v))
  }

  /** `new User({ username, email, password, role })`: the setters trim the username and trim
      and lower-case the email; an unset role defaults to 'admin', `isActive` to true, and both
      timestamps to now. */
  function NewUser(id: UserId, username: string, email: string, password: string,
                   role: Option<string>, now: int): User
  {
    User(id, CastUsername(username), CastEmail(email), password,
         if role.Some? then role.value else DefaultRole, true, None, now, now)
  }

  /** A new user's fields are already in the form the setters produce, so assigning them again
      (or casting them as query values) changes nothing; an unset role gives a role of the enum, and the account is active. */
  lemma NewUserNormalized(id: UserId, username: string, email: string, password: string,
                          role: Option<string>, now: int)
    ensures var u := NewUser(id, username, email, password, role, now);
      && CastUsername(u.username) == u.username
      && CastEmail(u.email) == u.email
      && (role.None? ==> u.role == "admin" && u.role in Roles)
      && u.isActive && u.lastLogin.None?
  {
    var e := Trim(email);
    assert Trim(Trim(username)) == Trim(username) by {
      TrimIdempotent(username);
    }
    assert Trim(ToLower(e)) == ToLower(e) by {
      LowerTrimCommute(e);
      TrimIdempotent(email);
    }
    assert ToLower(ToLower(e)) == ToLower(e) by {
      ToLowerIdempotent(e);
    }
  }

  datatype UserPath = UsernamePath | EmailPath | PasswordPath | RolePath

  /** The paths whose validators fail when the document is saved: username required with
      length 3..50, email required, password required with length at least 6, role in the
      enum. Validation runs before the pre-save hooks, so a new document's password is checked
      in plain text. */
  function ValidationErrors(u: User): (errs: set<UserPath>)
    ensures UsernamePath in errs <==> !(3 <= JsLength(u.username) <= 50)
    ensures EmailPath in errs <==> u.email == ""
    ensures PasswordPath in errs <==> JsLength(u.password) < 6
    ensures RolePath in errs <==> u.role !in Roles
  {
    var n := JsLength(u.username);
    (if n < 3 || 50 < n then {UsernamePath} else {})
    + (if u.email == "" then {EmailPath} else {})
    + (if JsLength(u.password) < 6 then {PasswordPath} else {})
    + (if u.role in Roles then {} else {RolePath})
  }

  /** The pre-save hooks: the password is replaced by its hash only when it was modified (a
      new document's password counts as modified), and `updatedAt` becomes now. */
  function PreSave(u: User, passwordModified: bool, now: int, crypt: Bcrypt): (r: User)
    ensures r.password == if passwordModified then crypt.hash(u.password) else u.password
    ensures r.updatedAt == now
    ensures r.(password := u.password, updatedAt := u.updatedAt) == u
  {
    u.(password := if passwordModified then crypt.hash(u.password) else u.password,
       updatedAt := now)
  }

  /** `user.comparePassword(candidate)` */
  function ComparePassword(u: User, candidate: string, crypt: Bcrypt): bool
  {
    crypt.compare(candidate, u.password)
  }

  /** After a save that hashed the password, the plain-text password verifies. */
  lemma HashedPasswordVerifies(u: User, now: int, crypt: Bcrypt)
    requires Sound(crypt)
    ensures ComparePassword(PreSave(u, true, now, crypt), u.password, crypt)
  {
  }

  /** A save that did not modify the password leaves it (and so every comparison) as it was:
      saving again never hashes the hash. */
  lemma ResaveKeepsPassword(u: User, now: int, crypt: Bcrypt, candidate: string)
    ensures PreSave(u, false, now, crypt).password == u.password
    ensures ComparePassword(PreSave(u, false, now, crypt), candidate, crypt)
            == ComparePassword(u, candidate, crypt)
  {
  }

  /** The filter of `findByCredentials`: an active user whose email or username equals the
      identifier as the query casts it for that path. */
  predicate CredentialMatch(u: User, identifier: string)
  {
    u.isActive && (u.email == CastEmail(identifier) || u.username == CastUsername(identifier))
  }

  /** `User.findByCredentials(identifier)` = `findOne`: the position of the first matching
      document in natural order, if any. */
  function FindByCredentials(docs: seq<User>, identifier: string): (r: Option<nat>)
    ensures r.Some? ==> r.value < |docs| && CredentialMatch(docs[r.value], identifier)
    ensures r.Some? ==> forall k :: 0 <= k < r.value ==> !CredentialMatch(docs[k], identifier)
    ensures r.None? <==> forall k :: 0 <= k < |docs| ==> !CredentialMatch(docs[k], identifier)
  {
    if docs == [] then None
    else if CredentialMatch(docs[0], identifier) then Some(0)
    else
      match FindByCredentials(docs[1..], identifier)
      case None => None
      case Some(k) => Some(k + 1)
  }

  /** The unique indexes of the collection: no two documents share an `_id`, a username or an
      email. */
  ghost predicate UniqueIndexes(docs: seq<User>)
  {
    forall i, j :: 0 <= i < j < |docs| ==>
      docs[i].id != docs[j].id && docs[i].username != docs[j].username && docs[i].email != docs[j].email
  }

  /** Writing `u` would violate a unique index against some document other than the one at
      position `except` (-1 for a new document). */
  predicate Conflicts(docs: seq<User>, u: User, except: int)
  {
    exists k :: 0 <= k < |docs| && k != except &&
      (docs[k].id == u.id || docs[k].username == u.username || docs[k].email == u.email)
  }

  datatype SaveResult = Saved | Invalid(paths: set<UserPath>) | DuplicateKey

  /** What `save()` answers: validation first, then the unique indexes. */
  function SaveOutcome(docs: seq<User>, u: User, except: int): (r: SaveResult)
    ensures r.Invalid? <==> ValidationErrors(u) != {}
    ensures r.Invalid? ==> r.paths == ValidationErrors(u)
    ensures r == DuplicateKey <==> ValidationErrors(u) == {} && Conflicts(docs, u, except)
  {
    var errs := ValidationErrors(u);
    if errs != {} then Invalid(errs)
    else if Conflicts(docs, u, except) then DuplicateKey
    else Saved
  }

  /** The `users` collection. */
  class UserStore {
    var docs: seq<User>

    ghost predicate Valid()
      reads this
    {
      UniqueIndexes(docs)
    }

    constructor ()
      ensures Valid() && docs == []
    {
      docs := [];
    }

    /** `newUser.save()`: validate, run the hooks with the password counted as modified, check
        the unique indexes, insert. Nothing is written when any step fails. */
    method Insert(u: User, now: int, crypt: Bcrypt) returns (r: SaveResult)
      requires Valid()
      modifies this
      ensures Valid()
      ensures r == SaveOutcome(old(docs), u, -1)
      ensures docs == if r.Saved? then old(docs) + [PreSave(u, true, now, crypt)] else old(docs)
    {
      r := SaveOutcome(docs, u, -1);
      if r.Saved? {
        docs := docs + [PreSave(u, true, now, crypt)];
      }
    }

    /** `doc.save()` for the document loaded from position `i`, now holding `u`. Every loaded
        path is validated again. */
    method Update(i: nat, u: User, passwordModified: bool, now: int, crypt: Bcrypt)
      returns (r: SaveResult)
      requires Valid() && i < |docs|
      modifies this
      ensures Valid()
      ensures r == SaveOutcome(old(docs), u, i)
      ensures docs == if r.Saved? then old(docs)[i := PreSave(u, passwordModified, now, crypt)]
                      else old(docs)
    {
      r := SaveOutcome(docs, u, i);
      if r.Saved? {
        docs := docs[i := PreSave(u, passwordModified, now, crypt)];
      }
    }
  }
}
