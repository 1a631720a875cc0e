/** `AuthService` (src/services/authService.ts): `register` inserts a user
    into the `users` collection; `login` only reads it and issues a token. */
module AuthService {
  import opened Wrappers
  import opened Errors
  import opened Records
  import opened Collaborators
  import opened UserModel

  const EmailUsed: ServiceError := PlainError("Email has been used")
  const NoSuchUser: ServiceError := PlainError("User not exist")
  const WrongPassword: ServiceError := PlainError("Password is incorrect")
  const Registered: string := "Registered successfully!"
  const AdminWelcome: string := "Admin logged in successfully"
  const UserWelcome: string := "User logged in successfully"

  datatype RegisterParams = RegisterParams(name: string, email: string, password: string)
  datatype LoginParams = LoginParams(email: string, password: string)
  datatype RegisterReply = RegisterReply(message: string)
  datatype LoginReply = LoginReply(token: string, message: string, userId: string)

  /** `User.findOne({email})`: the first user with that email. */
  function FindByEmail(users: seq<User>, email: string): (r: Option<User>)
    ensures r.None? <==> email !in Emails(users)
    ensures r.Some? ==> r.value in users && r.value.email == email
  {
    match IndexOf(Emails(users), email)
    case None => None
    case Some(i) => Some(users[i])
  }

  /** The document `register` saves: the given name and email, the hashed
      password, and the schema's default role. */
  function NewUser(id: string, params: RegisterParams, hasher: Hasher): (u: User)
    ensures u.id == id && u.name == params.name && u.email == params.email
    ensures u.password == hasher.hash(params.password)
    ensures Some(u.role) == CastRole(None) && u.role == UserRole
  {
    User(id, params.name, params.email, hasher.hash(params.password), CastRole(None).value)
  }

  /** Why `register` throws, if it does: an email already taken is refused
      before anything is hashed or saved; otherwise the new document must pass
      the schema (its password path holds the hash). */
  function RegisterError(users: seq<User>, params: RegisterParams, hasher: Hasher): (e: Option<ServiceError>)
    ensures e == Some(EmailUsed) <==> params.email in Emails(users)
    ensures e.Some? && params.email !in Emails(users) ==>
      e.value == SchemaError("User", UserSchemaErrors(params.name, params.email, hasher.hash(params.password), None))
    ensures e.None? <==> params.email !in Emails(users) && ValidUser(NewUser("", params, hasher))
  {
    if FindByEmail(users, params.email).Some? then Some(EmailUsed)
    else
      var errors := UserSchemaErrors(params.name, params.email, hasher.hash(params.password), None);
      if errors != [] then Some(SchemaError("User", errors)) else None
  }

  /** `register({name, email, password})`: saves exactly one new user, or
      throws and leaves the collection as it was. No token is issued.
      `newId` is the identifier the store assigns. */
  method Register(store: UserCollection, params: RegisterParams, hasher: Hasher, newId: string)
    returns (r: Result<RegisterReply, ServiceError>)
    requires store.Valid() && newId != [] && newId !in Ids(store.users)
    modifies store
    ensures store.Valid()
    ensures RegisterError(old(store.users), params, hasher).Some? ==>
      r == Failure(RegisterError(old(store.users), params, hasher).value) && store.users == old(store.users)
    ensures RegisterError(old(store.users), params, hasher).None? ==>
      r == Success(RegisterReply(Registered)) && store.users == old(store.users) + [NewUser(newId, params, hasher)]
  {
    var existingUser := FindByEmail(store.users, params.email);
    if existingUser.Some? {
      return Failure(EmailUsed);
    }
    var hashedPassword := hasher.hash(params.password);
    var errors := UserSchemaErrors(params.name, params.email, hashedPassword, None);
    if errors != [] {
      return Failure(SchemaError("User", errors));
    }
    var user := NewUser(newId, params, hasher);
    DistinctAppend(Ids(store.users), newId);
    DistinctAppend(Emails(store.users), params.email);
    assert Ids(store.users + [user]) == Ids(store.users) + [newId];
    assert Emails(store.users + [user]) == Emails(store.users) + [params.email];
    store.users := store.users + [user];
    r := Success(RegisterReply(Registered));
  }

  /** The claims a login token carries for a user: `{userId: user.id, role: user.role}`. */
  function ClaimsOf(u: User): Claims {
    Claims(Some(u.id), Some(RoleName(u.role)))
  }

  /** `login({email, password})`: the user with that email must exist and the
      password must match the stored hash; the token is signed with
      `{userId, role}` for ten minutes and the greeting depends on the role.
      The collection is only read. */
  function Login(users: seq<User>, params: LoginParams, hasher: Hasher, tokens: TokenService, secret: string): (r: Result<LoginReply, ServiceError>)
    ensures params.email !in Emails(users) ==> r == Failure(NoSuchUser)
    ensures params.email in Emails(users) ==>
      var u := FindByEmail(users, params.email).value;
      && (!hasher.compare(params.password, u.password) ==> r == Failure(WrongPassword))
      && (hasher.compare(params.password, u.password) ==>
            && r.Success?
            && r.value.token == tokens.sign(ClaimsOf(u), secret, TokenLifetime)
            && r.value.userId == u.id
            && (r.value.message == AdminWelcome <==> u.role == AdminRole)
            && (r.value.message == UserWelcome <==> u.role == UserRole))
  {
    match FindByEmail(users, params.email)
    case None => Failure(NoSuchUser)
    case Some(user) =>
      if !hasher.compare(params.password, user.password) then Failure(WrongPassword)
      else
        var token := tokens.sign(ClaimsOf(user), secret, TokenLifetime);
        var message := if user.role == AdminRole then AdminWelcome else UserWelcome;
        Success(LoginReply(token, message, user.id))
  }
}
