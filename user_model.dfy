/**
  The `User` schema: its fields and defaults, the `trim` setters, the
  `required`, `minlength` and `enum` validators run by `save`, and the
  collection of users with its unique index on `email`.
*/
module UserModel {
  import opened Wrappers
  import opened JsStrings
  import opened Documents

  const StatusValues: seq<string> := ["Active", "Inactive", "Suspended"]
  const RoleValues: seq<string> := ["Admin", "User"]
  const MinPasswordLength: nat := 6

  /** A user document. `None` is a field that is absent or `null`. */
  datatype User = User(
    name: Option<string>,
    email: Option<string>,
    password: Option<string>,
    avatar: string,
    mobile: Option<int>,
    refreshToken: string,
    verifyEmail: bool,
    lastLoginDate: Option<Timestamp>,
    status: string,
    addressDetails: seq<ObjectId>,
    shoppingCart: seq<ObjectId>,
    orderHistory: seq<ObjectId>,
    forgotPasswordOtp: Option<string>,
    forgotPasswordExpiry: Option<Timestamp>,
    role: string)

  /** The document `new UserModel({})` builds: every default, and no name, email or password. */
  const Defaults: User := User(
    name := None,
    email := None,
    password := None,
    avatar := "",
    mobile := None,
    refreshToken := "",
    verifyEmail := false,
    lastLoginDate := None,
    status := "Active",
    addressDetails := [],
    shoppingCart := [],
    orderHistory := [],
    forgotPasswordOtp := None,
    forgotPasswordExpiry := None,
    role := "User")

  /** The fields declared with `trim: true` hold trimmed values. */
  predicate Normalized(u: User) {
    && (u.name.Some? ==> IsTrimmed(u.name.value))
    && (u.email.Some? ==> IsTrimmed(u.email.value))
    && IsTrimmed(u.avatar)
    && IsTrimmed(u.refreshToken)
    && (u.forgotPasswordOtp.Some? ==> IsTrimmed(u.forgotPasswordOtp.value))
  }

  /** What the validators accept: the required fields, the password length and the two enums. */
  predicate Valid(u: User) {
    && Truthy(u.name)
    && Truthy(u.email)
    && Truthy(u.password) && |u.password.value| >= MinPasswordLength
    && u.status in StatusValues
    && u.role in RoleValues
  }

  /** No two users of the collection share an email (the unique index on `email`). */
  predicate UniqueEmails(users: seq<User>) {
    forall i, j :: 0 <= i < j < |users| ==> users[i].email != users[j].email
  }

  predicate EmailTaken(users: seq<User>, email: Option<string>) {
    exists i :: 0 <= i < |users| && users[i].email == email
  }

  /**
    `new UserModel({ name, email, password })`: the name and email through
    their `trim` setters, the password exactly as given, and every other
    field at its default (the defaults are already trimmed).
  */
  function New(name: string, email: string, password: string): (u: User)
    ensures Normalized(u)
    ensures u.name == Some(Trim(name)) && u.email == Some(Trim(email))
    ensures u.password == Some(password)
    ensures u.(name := None, email := None, password := None) == Defaults
  {
    Defaults.(name := Some(Trim(name)), email := Some(Trim(email)), password := Some(password))
  }

  /**
    A new user is valid exactly when the name and the email hold a
    non-whitespace character and the password, as given, has at least six
    characters.
  */
  lemma NewValid(name: string, email: string, password: string)
    ensures Valid(New(name, email, password))
        <==> !AllWhitespace(name) && !AllWhitespace(email) && |password| >= MinPasswordLength
  {
    var u := New(name, email, password);
    TrimEmptyIff(name);
    TrimEmptyIff(email);
    assert u.status == "Active" && u.status in StatusValues;
    assert u.role == "User" && u.role in RoleValues;
  }

  /** A document missing its name, email and password does not validate, while the default status and role do. */
  lemma DefaultsInvalid()
    ensures !Valid(Defaults)
    ensures Defaults.status in StatusValues && Defaults.role in RoleValues
  {
  }

  /** The failed validators of a document, in schema order, one per path. */
  function ValidationErrors(u: User): (errs: seq<FieldError>)
    ensures errs == [] <==> Valid(u)
  {
    (if !Truthy(u.name) then [FieldError("name", "Please provide a name")] else [])
    + (if !Truthy(u.email) then [FieldError("email", "Please provide email")] else [])
    + (if !Truthy(u.password) then [FieldError("password", "Please provide password")]
       else if |u.password.value| < MinPasswordLength then [FieldError("password", "Password must be at least 6 characters long")]
       else [])
    + (if u.status !in StatusValues then [FieldError("status", EnumMessage(u.status, "status"))] else [])
    + (if u.role !in RoleValues then [FieldError("role", EnumMessage(u.role, "role"))] else [])
  }

  /** Mongoose's default message for a failed `enum` validator. */
  function EnumMessage(value: string, path: string): string {
    "`" + value + "` is not a valid enum value for path `" + path + "`."
  }

  /** The message of the `ValidationError` that `save` throws. */
  function ValidationMessage(errs: seq<FieldError>): (m: string)
    ensures m != ""
  {
    "User validation failed: " + ErrorList(errs)
  }

  /** `path: message` for each error, separated by `, `. */
  function ErrorList(errs: seq<FieldError>): string
    decreases |errs|
  {
    if errs == [] then ""
    else errs[0].path + ": " + errs[0].message + (if |errs| > 1 then ", " + ErrorList(errs[1..]) else "")
  }

  /**
    `UserModel.findOne({ email })`: some user with that email, if there is
    one; the filter value is compared with the stored (trimmed) emails.
  */
  function FindOne(users: seq<User>, email: string): (r: Option<User>)
    ensures r.Some? <==> EmailTaken(users, Some(email))
    ensures r.Some? ==> r.value in users && r.value.email == Some(email)
    decreases |users|
  {
    if users == [] then None
    else if users[0].email == Some(email) then Some(users[0])
    else
      var r := FindOne(users[1..], email);
      assert EmailTaken(users[1..], Some(email)) ==> EmailTaken(users, Some(email)) by {
        if EmailTaken(users[1..], Some(email)) {
          var i :| 0 <= i < |users| - 1 && users[1..][i].email == Some(email);
          assert users[i + 1].email == Some(email);
        }
      }
      r
  }

  /** Adding a user whose email is not yet taken keeps the emails unique. */
  lemma AppendKeepsUniqueEmails(users: seq<User>, u: User)
    requires UniqueEmails(users)
    requires !EmailTaken(users, u.email)
    ensures UniqueEmails(users + [u])
  {
    var all := users + [u];
    forall i, j | 0 <= i < j < |all| ensures all[i].email != all[j].email {
      if j == |users| {
        assert all[i] == users[i];
      }
    }
  }

  /** The `users` collection: a sequence of valid, normalized documents with unique emails. */
  class UserCollection {
    var users: seq<User>

    ghost predicate Invariant()
      reads this
    {
      && UniqueEmails(users)
      && forall i :: 0 <= i < |users| ==> Valid(users[i]) && Normalized(users[i])
    }

    constructor ()
      ensures Invariant() && users == []
    {
      users := [];
    }

    /**
      `doc.save()` on a new document: the validators, then the unique index
      on `email`, then the write, which may fail with `writeError`. Each
      failure leaves the collection as it was and reports the message of the
      error thrown; otherwise the document is appended.
    */
    method Save(u: User, writeError: Option<string>) returns (err: Option<string>)
      requires Invariant()
      requires Normalized(u)
      modifies this
      ensures Invariant()
      ensures err.None? <==> Valid(u) && !EmailTaken(old(users), u.email) && writeError.None?
      ensures err.None? ==> users == old(users) + [u]
      ensures err.Some? ==> users == old(users)
      ensures !Valid(u) ==> err == Some(ValidationMessage(ValidationErrors(u)))
      ensures Valid(u) && !EmailTaken(old(users), u.email) ==> err == writeError
    {
      var errs := ValidationErrors(u);
      if errs != [] {
        return Some(ValidationMessage(errs));
      }
      var email := u.email.value;
      if FindOne(users, email).Some? {
        return Some("E11000 duplicate key error collection: users index: email_1 dup key: { email: \"" + email + "\" }");
      }
      if writeError.Some? {
        return writeError;
      }
      AppendKeepsUniqueEmails(users, u);
      users := users + [u];
      return None;
    }
  }
}
