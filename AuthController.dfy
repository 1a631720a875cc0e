/** The two handlers of src/Controllers/authController.ts. */
module AuthController {
  import opened Wrappers
  import opened Errors
  import opened Collaborators
  import opened UserModel
  import opened Http
  import opened AuthService

  /** A request body for `/register`; whatever else it holds, a `role` is
      the field that matters, since the handler does not pass it on. */
  datatype SignupBody = SignupBody(name: string, email: string, password: string, role: Option<string>)

  /** `const {name, email, password} = req.body`. */
  function RegisterArgs(body: SignupBody): (p: RegisterParams)
    ensures p.name == body.name && p.email == body.email && p.password == body.password
  {
    RegisterParams(body.name, body.email, body.password)
  }

  /** Registering through the handler always creates a plain user, even when
      the body asks for the admin role. */
  lemma RegisterIgnoresRole(id: string, body: SignupBody, hasher: Hasher)
    ensures NewUser(id, RegisterArgs(body), hasher).role == UserRole
    ensures NewUser(id, RegisterArgs(body), hasher) == NewUser(id, RegisterArgs(body.(role := Some("admin"))), hasher)
  {
  }

  /** `register`: 201 with `{message}`, or 500 with the error's message. */
  function RegisterResponse(outcome: Result<RegisterReply, ServiceError>): (r: HttpResponse<RegisterReply>)
    ensures r.status == 201 <==> outcome.Success?
    ensures r.status == 500 <==> outcome.Failure?
    ensures outcome.Success? ==> r.body == Json(outcome.value)
    ensures outcome.Failure? ==> r.body == MessageBody(outcome.error.Message())
  {
    Answer(outcome, 201, 500)
  }

  /** The reply to registering an email that is already taken. */
  lemma DuplicateEmailIs500(users: seq<User>, params: RegisterParams, hasher: Hasher)
    requires params.email in Emails(users)
    ensures RegisterError(users, params, hasher) == Some(EmailUsed)
    ensures RegisterResponse(Failure(RegisterError(users, params, hasher).value))
      == HttpResponse(500, MessageBody("Email has been used"))
  {
  }

  /** `login`: `{email, password}` from the body, then 200 with the token,
      message and identifier, or 400 with the error's message. */
  function Login(users: seq<User>, email: string, password: string, hasher: Hasher, tokens: TokenService, secret: string): (r: HttpResponse<LoginReply>)
    ensures r.status == 200 <==>
      email in Emails(users) && hasher.compare(password, FindByEmail(users, email).value.password)
    ensures email !in Emails(users) ==> r == HttpResponse(400, MessageBody("User not exist"))
    ensures email in Emails(users) && !hasher.compare(password, FindByEmail(users, email).value.password) ==>
      r == HttpResponse(400, MessageBody("Password is incorrect"))
    ensures r.status == 200 ==> r.body.Json? && r.body.value.userId == FindByEmail(users, email).value.id
    ensures r.status == 200 ==>
      r.body == Json(AuthService.Login(users, LoginParams(email, password), hasher, tokens, secret).value)
  {
    Answer(AuthService.Login(users, LoginParams(email, password), hasher, tokens, secret), 200, 400)
  }
}
