/** Properties of the services and guards working together: what a client
    who registers, logs in and presents the token it was given can do. The
    token service and the hasher are taken to be sound (SoundTokens,
    SoundHasher); the services and `userVerify`/`adminVerify` share one
    secret, and `postVerify`'s own secret is taken to be equal to it where a
    lemma says so. */
module Flows {
  import opened Wrappers
  import opened Records
  import opened Collaborators
  import opened UserModel
  import opened PostModel
  import opened Http
  import opened AuthService
  import PostService
  import UserService
  import PostVerify
  import UserVerify
  import AdminVerify

  /** A token the service has just issued, sent as `Bearer <token>`,
      decodes to the claims it was signed with. */
  lemma {:induction false} DecodesOwnToken(tokens: TokenService, c: Claims, secret: string)
    requires SoundTokens(tokens)
    ensures Decoded(Some("Bearer " + tokens.sign(c, secret, TokenLifetime)), tokens.verify, secret) == Some(c)
  {
    var t := tokens.sign(c, secret, TokenLifetime);
    assert t != [] && ' ' !in t && tokens.verify(t, secret) == Verified(c);
    assert "Bearer " + t == "Bearer" + " " + t + [];
    BearerOfScheme("Bearer", t, []);
  }

  /** After a successful registration the new email belongs to the new user only. */
  lemma {:induction false} FindsNewUser(users: seq<User>, u: User)
    requires u.email !in Emails(users)
    ensures FindByEmail(users + [u], u.email) == Some(u)
  {
    var after := users + [u];
    assert Emails(after) == Emails(users) + [u.email];
  }

  /** A client who has just registered can log in with the same email and
      password: the reply names the new user, greets a plain user, and
      carries a token signed with the new user's identifier and role. */
  lemma RegisterThenLogin(users: seq<User>, params: RegisterParams, hasher: Hasher, tokens: TokenService, secret: string, newId: string)
    requires SoundHasher(hasher)
    requires RegisterError(users, params, hasher).None?
    ensures var r := Login(users + [NewUser(newId, params, hasher)], LoginParams(params.email, params.password), hasher, tokens, secret);
      && r.Success?
      && r.value.userId == newId
      && r.value.message == UserWelcome
      && r.value.token == tokens.sign(Claims(Some(newId), Some("user")), secret, TokenLifetime)
  {
    var u := NewUser(newId, params, hasher);
    FindsNewUser(users, u);
    assert Emails(users + [u]) == Emails(users) + [u.email];
    assert hasher.compare(params.password, hasher.hash(params.password));
  }

  /** Registering the same email a second time fails with 'Email has been used'. */
  lemma RegisterTwiceFails(users: seq<User>, params: RegisterParams, again: RegisterParams, hasher: Hasher, newId: string)
    requires RegisterError(users, params, hasher).None?
    requires again.email == params.email
    ensures RegisterError(users + [NewUser(newId, params, hasher)], again, hasher) == Some(EmailUsed)
  {
    var after := users + [NewUser(newId, params, hasher)];
    assert Emails(after)[|users|] == again.email;
  }

  /** The token a successful login returns, presented as `Bearer <token>`,
      passes `userVerify` for any user with an identifier. */
  lemma LoginTokenPassesUserGuard(users: seq<User>, params: LoginParams, hasher: Hasher, tokens: TokenService, secret: string)
    requires SoundTokens(tokens)
    requires forall i :: 0 <= i < |users| ==> users[i].id != []
    requires Login(users, params, hasher, tokens, secret).Success?
    ensures UserVerify.Verdict(Some("Bearer " + Login(users, params, hasher, tokens, secret).value.token), tokens.verify, secret) == Forward
  {
    var u := FindByEmail(users, params.email).value;
    DecodesOwnToken(tokens, ClaimsOf(u), secret);
  }

  /** The same token passes `adminVerify` exactly when the user is an admin,
      and is otherwise refused as 'Access denied: Admin only'. */
  lemma LoginTokenAdminGuard(users: seq<User>, params: LoginParams, hasher: Hasher, tokens: TokenService, secret: string)
    requires SoundTokens(tokens)
    requires Login(users, params, hasher, tokens, secret).Success?
    ensures var v := AdminVerify.Verdict(Some("Bearer " + Login(users, params, hasher, tokens, secret).value.token), tokens.verify, secret);
      && (v == Forward <==> FindByEmail(users, params.email).value.role == AdminRole)
      && (v != Forward ==> v == Reject(AdminVerify.AdminOnly))
  {
    var u := FindByEmail(users, params.email).value;
    DecodesOwnToken(tokens, ClaimsOf(u), secret);
  }

  /** A logged-in user who creates a post may then change it through
      `postVerify`, provided `postVerify` checks tokens with the same secret
      and the store's identifier passes the identifier check. */
  lemma AuthorMayChangeOwnPost(u: User, data: PostService.PostData, tokens: TokenService, secret: string, isValidId: IdCheck, posts: seq<Post>, postId: string)
    requires SoundTokens(tokens)
    requires isValidId(postId) && postId !in PostModel.Ids(posts)
    requires PostService.CreatedPost(data, tokens.sign(ClaimsOf(u), secret, TokenLifetime), tokens.verify, secret, isValidId, postId).Success?
    ensures var token := tokens.sign(ClaimsOf(u), secret, TokenLifetime);
      var post := PostService.CreatedPost(data, token, tokens.verify, secret, isValidId, postId).value;
      && post.author == u.id
      && PostVerify.Verdict(Some("Bearer " + token), postId, tokens.verify, secret, posts + [post], isValidId) == Forward
  {
    var token := tokens.sign(ClaimsOf(u), secret, TokenLifetime);
    var post := PostService.CreatedPost(data, token, tokens.verify, secret, isValidId, postId).value;
    DecodesOwnToken(tokens, ClaimsOf(u), secret);
    assert PostModel.Ids(posts + [post]) == PostModel.Ids(posts) + [postId];
    assert FindById(posts + [post], postId) == Some(post);
  }

  /** Another plain user is refused as not the owner of that post, while
      any admin is let through. */
  lemma OthersAndAdmins(author: string, other: User, tokens: TokenService, secret: string, isValidId: IdCheck, posts: seq<Post>, post: Post)
    requires SoundTokens(tokens)
    requires isValidId(post.id) && post.id !in PostModel.Ids(posts) && post.author == author
    ensures var token := tokens.sign(ClaimsOf(other), secret, TokenLifetime);
      var v := PostVerify.Verdict(Some("Bearer " + token), post.id, tokens.verify, secret, posts + [post], isValidId);
      && (other.role == UserRole && other.id != author ==> v == Reject(PostVerify.NotOwner))
      && (other.role == AdminRole ==> v == Forward)
  {
    DecodesOwnToken(tokens, ClaimsOf(other), secret);
    assert PostModel.Ids(posts + [post]) == PostModel.Ids(posts) + [post.id];
    assert FindById(posts + [post], post.id) == Some(post);
  }

  /** `updateUserById` stores a new password as given, without hashing it,
      so logging in with that password afterwards succeeds only if the
      hasher happens to accept the plain text as its own hash. */
  lemma PasswordUpdateThenLogin(users: seq<User>, i: nat, p: string, hasher: Hasher, tokens: TokenService, secret: string)
    requires i < |users| && Distinct(Emails(users)) && p != []
    ensures var after := users[i := UserService.PatchedUser(users[i], UserService.UpdateData(UserService.UserData(None, Some(p))))];
      Login(after, LoginParams(users[i].email, p), hasher, tokens, secret).Success? <==> hasher.compare(p, p)
  {
    var after := users[i := UserService.PatchedUser(users[i], UserService.UpdateData(UserService.UserData(None, Some(p))))];
    assert Emails(after) == Emails(users);
    IndexOfDistinct(Emails(users), i);
    assert FindByEmail(after, users[i].email) == Some(after[i]);
  }
}
