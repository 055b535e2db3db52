/**
  `registerUser`: checks the three fields, looks the email up, hashes the
  password and saves a new user; answers 201, 400, 409 or 500.
*/
module UserController {
  import opened Wrappers
  import opened JsStrings
  import opened Http
  import UserModel

  /** The fields of `req.body` the handler reads; `None` is a field that is absent or `null`. */
  datatype RegisterRequest = RegisterRequest(name: Option<string>, email: Option<string>, password: Option<string>)

  /**
    The exceptions the awaited steps may throw, one optional message per step:
    `UserModel.findOne`, `bcryptjs.hash` and the write of `newUser.save()`.
  */
  datatype Failures = Failures(find: Option<string>, hash: Option<string>, write: Option<string>)

  /** `!name || !email || !password` */
  predicate MissingField(req: RegisterRequest) {
    !Truthy(req.name) || !Truthy(req.email) || !Truthy(req.password)
  }

  /** The document the handler builds for a complete request: the password replaced by its hash. */
  function Candidate(req: RegisterRequest, hash: string -> string): (u: UserModel.User)
    requires !MissingField(req)
    ensures u.name == Some(Trim(req.name.value)) && u.email == Some(Trim(req.email.value))
    ensures u.password == Some(hash(req.password.value))
    ensures u.(name := None, email := None, password := None) == UserModel.Defaults
    ensures UserModel.Normalized(u)
    ensures UserModel.Valid(u)
        <==> !AllWhitespace(req.name.value) && !AllWhitespace(req.email.value)
             && |hash(req.password.value)| >= UserModel.MinPasswordLength
  {
    UserModel.NewValid(req.name.value, req.email.value, hash(req.password.value));
    UserModel.New(req.name.value, req.email.value, hash(req.password.value))
  }

  /** A user with the request's email (as the trim setter casts it) is already stored. */
  predicate Taken(users: seq<UserModel.User>, req: RegisterRequest)
    requires !MissingField(req)
  {
    UserModel.EmailTaken(users, Some(Trim(req.email.value)))
  }

  const AllFieldsRequired: Response := Response(400, Failure("All fields are required"))
  const AlreadyExists: Response := Response(409, Failure("User already exists"))

  /**
    Registers a user. A missing field answers 400 and a taken email 409, both
    leaving the collection as it was; a thrown failure answers 500 with
    `error: true, success: false`; otherwise exactly one user is appended,
    holding the hash of the password, and the answer is 201 echoing the
    request's name and email.
  */
  method RegisterUser(store: UserModel.UserCollection, req: RegisterRequest, hash: string -> string, fail: Failures)
    returns (res: Response)
    requires store.Invariant()
    modifies store
    ensures store.Invariant()
    ensures res.status in {201, 400, 409, 500}
    ensures res.status != 201 ==> store.users == old(store.users) && res.body.Error()
    ensures MissingField(req) ==> res == AllFieldsRequired
    ensures !MissingField(req) && fail.find.Some? ==> res == ServerError(fail.find.value)
    ensures !MissingField(req) && fail.find.None? && Taken(old(store.users), req) ==> res == AlreadyExists
    ensures !MissingField(req) && fail.find.None? && !Taken(old(store.users), req) && fail.hash.Some?
            ==> res == ServerError(fail.hash.value)
    ensures !MissingField(req) && fail.find.None? && !Taken(old(store.users), req) && fail.hash.None?
            && !UserModel.Valid(Candidate(req, hash))
            ==> res == ServerError(UserModel.ValidationMessage(UserModel.ValidationErrors(Candidate(req, hash))))
    ensures !MissingField(req) && fail.find.None? && !Taken(old(store.users), req) && fail.hash.None?
            && UserModel.Valid(Candidate(req, hash)) && fail.write.Some?
            ==> res == ServerError(fail.write.value)
    ensures res.status == 201
        <==> && !MissingField(req) && fail.find.None? && !Taken(old(store.users), req) && fail.hash.None?
             && UserModel.Valid(Candidate(req, hash)) && fail.write.None?
    ensures res.status == 201 ==>
              && store.users == old(store.users) + [Candidate(req, hash)]
              && res.body == Registered("User registered successfully", req.name.value, req.email.value)
  {
    if MissingField(req) {
      return AllFieldsRequired;
    }
    var name, email, password := req.name.value, req.email.value, req.password.value;
    if fail.find.Some? {
      return ServerError(fail.find.value);
    }
    var existingUser := UserModel.FindOne(store.users, Trim(email));
    if existingUser.Some? {
      return AlreadyExists;
    }
    if fail.hash.Some? {
      return ServerError(fail.hash.value);
    }
    var hashedPassword := hash(password);
    var newUser := UserModel.New(name, email, hashedPassword);
    assert newUser == Candidate(req, hash);
    var err := store.Save(newUser, fail.write);
    if err.Some? {
      return ServerError(err.value);
    }
    return Response(201, Registered("User registered successfully", name, email));
  }

  /**
    Registering the same complete request twice on an empty collection: the
    first call answers 201, the second 409, and the collection ends with the
    one user the first call stored.
  */
  method RegisterTwice(req: RegisterRequest, hash: string -> string) returns (first: Response, second: Response, count: nat)
    requires !MissingField(req)
    requires !AllWhitespace(req.name.value) && !AllWhitespace(req.email.value)
    requires |hash(req.password.value)| >= UserModel.MinPasswordLength
    ensures first.status == 201 && second == AlreadyExists
    ensures count == 1
  {
    var noFailure := Failures(None, None, None);
    var store := new UserModel.UserCollection();
    var u := Candidate(req, hash);
    assert UserModel.Valid(u);
    assert !Taken(store.users, req);
    first := RegisterUser(store, req, hash, noFailure);
    assert first.status == 201;
    assert store.users == [u];
    assert store.users[0].email == Some(Trim(req.email.value));
    assert Taken(store.users, req);
    second := RegisterUser(store, req, hash, noFailure);
    assert second == AlreadyExists;
    assert store.users == [u];
    count := |store.users|;
  }
}
