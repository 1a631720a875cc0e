# Blog backend access control and CRUD core, in Dafny

This project models the decision and validation logic of an Express +
Mongoose blog backend. The backend has users who register and log in, and
posts that those users write. The model covers:

- **Schemas.** `userSchema` and `postSchema` become functions that list the
  paths a document fails: length bounds, the unanchored email pattern
  `/.+\@.+\..+/`, and the role enum with its default.
- **Services.** `PostService`, `UserService` and `AuthService` run against
  in-memory collections:
  - `PostModel.PostCollection` and `UserModel.UserCollection` are classes
    whose `seq` field the store-changing methods reassign.
  - Their `Valid()` invariant keeps identifiers unique and non-empty, and
    keeps user emails unique.
  - The read-only queries are functions of the collection's contents.
- **Guards.** The middleware `postVerify`, `userVerify` and `adminVerify`
  are methods on `Request`, `Response` and `Next` objects.
  - Each writes the decoded claims into the request, then either sends
    exactly one reply or calls `next` exactly once.
  - Each is proved against a `Verdict` function whose contract gives every
    terminal state.
- **Controllers.** The request handlers are pure maps, with these parts:
  - query parsing, which models `parseInt(s, 10) || fallback`;
  - bearer-token extraction, which models `split(' ')[1]`;
  - status mapping from the service outcome to one `(status, body)`.
- **Flows.** These lemmas chain the components. For example:
  - a client who registers can log in;
  - the login token passes `userVerify`, and passes `adminVerify` exactly
    for admins;
  - an author may change their own new post;
  - a password changed through `updateUserById` is stored unhashed.

The collaborators are parameters:

- `jsonwebtoken` is `Collaborators.TokenService`.
- `bcryptjs` is `Collaborators.Hasher`.
- `ObjectId.isValid` is `Collaborators.IdCheck`.
- The secrets read from the environment are plain parameters.

The model assumes two things of them, stated as ghost predicates and
required only where used:

- `SoundTokens`: a freshly signed token verifies to its claims, is non-empty
  and has no spaces.
- `SoundHasher`: a password matches its own hash.

`postVerify` reads `JWT_SECRET`, while the services and the other two guards
read `process.env.JWT_SEC || 'aaa'` (`Collaborators.ServiceSecret`). So
`postVerify` takes its own secret, and `Flows.AuthorMayChangeOwnPost` holds
only when the two secrets are the same.

Two behaviours of the code are worth stating, because a reader might expect
otherwise. The model follows the code in both:

- **A malformed post id in `postVerify`.** It does not answer 404. In the
  code, `Post.findById` throws a CastError, and the catch block answers 403
  `'Acess denide: You are not the owner'` (spelled as in the source) with
  the cast message attached. 404 'Post not found' is only for a well-formed
  identifier that no post has.
- **The login reply.** `login` returns `{token, message, userId}`, although
  tests/authServce.test.ts:67 expects `{token, userId}` only.

## Model

| member | source | states |
|---|---|---|
| Builtins.Split | src/middleware/postVerify.ts:16 | `split(' ')` always yields at least one piece, and no piece contains the separator |
| Builtins.JoinSplit | src/middleware/postVerify.ts:16 | splitting loses nothing: joining the pieces with the separator gives the header back |
| Builtins.SplitWithoutSeparator | src/middleware/userVerify.ts:18 | a string without a space is a single piece |
| Builtins.SplitAfterHead | src/middleware/adminVerify.ts:15 | a space-free scheme followed by a space splits off as the first piece |
| Builtins.SplitHasSecondPiece | src/middleware/postVerify.ts:16 | `split(' ')[1]` exists exactly when the header contains a space |
| Builtins.TrimStart | src/Controllers/postController.ts:16-17 | `parseInt` skips exactly the leading ECMAScript white space |
| Builtins.DigitPrefixLength | src/Controllers/postController.ts:16-17 | `parseInt` reads the longest run of decimal digits |
| Builtins.ParseInt | src/Controllers/postController.ts:16-17 | `parseInt(s, 10)` gives a number only when `s` has a digit, and a negative number only after a leading '-'; ParseDigits, ParseDecimalString, ParseNegativeDecimalString and ParseWithoutDigits give its value on digit strings, signed digit strings and digit-free strings |
| Builtins.ParseDigits | src/Controllers/postController.ts:16-17 | a non-empty string of digits parses to its decimal value |
| Builtins.ParseDecimalString | src/Controllers/postController.ts:16-17 | `parseInt(String(n), 10)` is `n` for every natural number |
| Builtins.ParseNegativeDecimalString | src/Controllers/postController.ts:16-17 | the minus sign is kept: `parseInt('-' + String(n), 10)` is `-n` |
| Builtins.ParseWithoutDigits | src/Controllers/postController.ts:16-17 | a query value with no digit parses to NaN |
| Collaborators.ServiceSecret | src/services/authService.ts:5 | the services' secret is `JWT_SEC` when set and non-empty, and `'aaa'` otherwise; it is never empty |
| Records.IndexOf | src/services/postService.ts:52 | a lookup finds the first document with the key, and finds none exactly when no document has it |
| Records.RemoveAt | src/services/postService.ts:95 | a removal drops one document and keeps the others in order |
| Pagination.CeilDiv | src/services/postService.ts:43 | `totalPage` is the least page count whose pages of `limit` hold all `total` items |
| Pagination.Window | src/services/postService.ts:34 | `.skip(s).limit(l)` yields at most `l` documents, taken in store order from offset `s` |
| Pagination.Skip | src/services/postService.ts:33 | the offset is `(page - 1) * limit` and is never negative for page and limit of at least 1 |
| Pagination.Paginate | src/services/postService.ts:32-46 | a page has at most `limit` items; item `k` is document `(page-1)*limit + k`; the record has total, page, limit and ⌈total/limit⌉ |
| Pagination.PageNonEmptyIff | src/services/postService.ts:33-43 | a page has items exactly when its number is at most `totalPage` |
| Pagination.ItemOnItsPage | src/services/postService.ts:33-34 | every document is on page `i / limit + 1`, at position `i % limit` |
| UserModel.CastRole | src/models/User.ts:28-32 | an absent role becomes 'user'; a role outside `['user', 'admin']` fails; an accepted role keeps its name |
| UserModel.UserSchemaErrors | src/models/User.ts:10-32 | name fails unless it has 3..50 characters; email fails unless it matches the pattern; password fails unless it has 6..100 characters; role fails outside the enum; no failure exactly when all four hold |
| UserModel.MatchesEmailPattern | src/models/User.ts:20 | `/.+\@.+\..+/` matches somewhere: an '@' with a non-line-terminator before it, then at least one non-terminator, then a '.' followed by a non-terminator; EmailPatternShape, EmailPatternAccepts and EmailPatternUnanchored characterise it |
| UserModel.EmailPatternAccepts | src/models/User.ts:20 | every single-line `local@domain.tld` with non-empty parts matches |
| UserModel.EmailPatternUnanchored | src/models/User.ts:20 | the pattern is unanchored: text added before or after a matching string, line breaks included, keeps it matching |
| UserModel.EmailPatternShape | src/models/User.ts:20 | a matching email has at least five characters, an '@' and a '.' |
| PostModel.PostSchemaErrors | src/models/Post.ts:11-29 | title fails unless present with 1..30 characters; content fails unless present with 1..6000; author fails unless present and an identifier; no failure exactly when all hold |
| PostModel.FindById | src/middleware/postVerify.ts:30 | `Post.findById` gives null exactly when no post has the identifier, and otherwise gives a stored post with it |
| PostService.GetAllPost | src/services/postService.ts:32-46 | with defaults 1 and 10, the result holds at most `limit` posts in store order from `(page-1)*limit`, and the pagination record has the total of all posts and ⌈total/limit⌉ |
| PostService.GetPostById | src/services/postService.ts:48-57 | a malformed identifier gives 'Invalid post Id' before any lookup; a missing post gives 'Post not found'; otherwise the stored post with that identifier |
| PostService.CreatedPost | src/services/postService.ts:58-76 | an empty token gives 'Token not require.'; a failed verification gives 'Invalid or expired token'; success means a valid post with the given title and content, authored by the token's userId; with a verified token, success happens exactly when the schema has no failure, and a failure is the schema's ValidationError with its failing paths; 'Token not require.' and 'Invalid or expired token' are given exactly for an empty and an unverifiable token |
| PostService.CreatePost | src/services/postService.ts:58-76 | the collection stays valid and gains exactly the created post on success, and is unchanged on failure |
| PostService.Patched | src/services/postService.ts:83 | the supplied fields replace the stored ones; the identifier, the author and every unsupplied field are unchanged |
| PostService.PatchIdempotent | src/services/postService.ts:83 | applying the same patch twice equals applying it once |
| PostService.PatchBypassesSchema | src/services/postService.ts:83 | update validators do not run: a valid post patched with an empty title is stored though the schema rejects it |
| PostService.UpdatePost | src/services/postService.ts:78-89 | a malformed identifier or a missing post gives its error and leaves the store unchanged; otherwise the patched post is returned and is the only change |
| PostService.DeletePost | src/services/postService.ts:91-101 | a malformed identifier or a missing post gives its error and leaves the store unchanged; otherwise exactly that post is removed and returned, and the others keep their order |
| PostService.DeleteKeepsOthers | src/services/postService.ts:95-100 | after a deletion the identifier is gone, the identifiers stay unique, and the multiset of posts loses exactly the removed one |
| PostService.PostsBy | src/services/postService.ts:112-113 | `find({author})` keeps only that author's posts and keeps every one of them |
| PostService.PostsByAppend | src/services/postService.ts:112-113 | `find({author})` is the order-keeping filter: empty for an empty store, and a post appended to the store is appended to the result exactly when it is by that author, so each post is listed once and in store order |
| PostService.GetUserPosts | src/services/postService.ts:103-123 | a malformed userId gives 'Invalid user Id'; otherwise the page is the window of that author's posts, and total counts only them |
| UserService.GetAllUsers | src/services/userService.ts:30-44 | with defaults page 1 and limit 1, the result holds at most `limit` users in store order from `(page-1)*limit`, and the pagination record has the total and ⌈total/limit⌉ |
| UserService.GetUserById | src/services/userService.ts:46-60 | a malformed identifier gives 'Invalid user Id'; a missing user gives 'User not found'; otherwise the stored user |
| UserService.UpdateData | src/services/userService.ts:67-73 | the patch has a name exactly when a non-empty name was supplied, and a password exactly when a non-empty password was supplied |
| UserService.PatchedUser | src/services/userService.ts:74 | email, role and identifier never change; the password is stored as supplied, without hashing |
| UserService.EmptyUpdateChangesNothing | src/services/userService.ts:67-74 | a body with no non-empty field leaves the user as it was |
| UserService.UpdateUserById | src/services/userService.ts:63-81 | the error cases leave the store unchanged; otherwise only that user changes, by the built patch; emails stay unique |
| UserService.DeleteUserById | src/services/userService.ts:84-93 | the error cases leave the store unchanged; otherwise exactly that user is removed and returned, and the others keep their order |
| UserService.DeleteKeepsOthers | src/services/userService.ts:88-92 | after a deletion identifiers and emails stay unique, the identifier is gone, and the multiset loses exactly the removed user |
| AuthService.FindByEmail | src/services/authService.ts:20 | `findOne({email})` finds a user exactly when one has that email |
| AuthService.NewUser | src/services/authService.ts:24-25 | the saved user has the given name and email, the hashed password and the default role 'user' |
| AuthService.RegisterError | src/services/authService.ts:19-29 | 'Email has been used' is given exactly when the email is taken; for a free email a failure is the schema's ValidationError with its failing paths; registration fails exactly when the email is taken or the new document breaks the schema |
| AuthService.Register | src/services/authService.ts:19-29 | on failure the store is unchanged; on success exactly the new user is appended, the reply is 'Registered successfully!', and emails stay unique |
| AuthService.Login | src/services/authService.ts:31-52 | an unknown email gives 'User not exist'; a password that does not match gives 'Password is incorrect'; otherwise the token is signed with `{userId, role}` for '10m', the userId is the user's, and the message is the admin greeting exactly for admins |
| Http.BearerToken | src/middleware/postVerify.ts:16 | a token is found exactly when there is a header with a space in it, and the token has no space |
| Http.GuardToken | src/middleware/postVerify.ts:16-20 | `!token` refuses an absent token and an empty one alike |
| Http.BearerOfScheme | src/middleware/postVerify.ts:16 | the token is the second space-separated piece: `<scheme> <token>` followed by nothing or by further space-separated pieces yields `<token>` |
| Http.DoubleSpaceHasNoToken | src/middleware/postVerify.ts:16-20 | two spaces after the scheme leave an empty token, which the guards treat as missing |
| Http.Decoded | src/middleware/userVerify.ts:18-27 | the guards have claims exactly when the token is present and verification does not throw |
| Http.QueryNumber | src/Controllers/postController.ts:16-17 | a query value read with `parseInt` falls back exactly when it reads NaN or 0, and keeps every other number, negatives included |
| Http.QueryPositive | src/Controllers/postController.ts:16-17 | a positive decimal query value is used as written |
| Http.QueryNegative | src/Controllers/postController.ts:16-17 | a negative decimal query value passes through unchanged |
| Http.QueryFallback | src/Controllers/postController.ts:16-17 | '0' and a value without digits give the fallback |
| Http.QueryDefault | src/Controllers/postController.ts:15 | an absent query value reads the default text |
| Http.Answer | src/Controllers/postController.ts:18-23 | a handler's two statuses tell success from failure; the body is the result or `{message: err.message}` |
| PostVerify.Verdict | src/middleware/postVerify.ts:15-49 | no token gives 403 'Token not required'; a failed verification gives 403 with the catch message and the error; an unknown role gives 403 'Access denied'; a malformed post id gives 403 with the catch message and the cast error; a plain user who is not the author of an existing post gives 403 'Access denied: You are not the owner'; forwarding happens exactly when the role is known, the post exists, and the caller is an admin or the author; 404 only for a missing post; every other rejection is a 403, never a 401 |
| PostVerify.OwnerRule | src/middleware/postVerify.ts:35-41 | a plain user who is not the author is refused as not the owner; an admin is let through to any existing post |
| PostVerify.Run | src/middleware/postVerify.ts:15-49 | exactly one reply, or exactly one call of `next`, as the verdict says; the decoded claims are written to the request |
| UserVerify.Verdict | src/middleware/userVerify.ts:13-42 | no token gives 403; a failed verification gives 401 'Invalid or expired token' with the error; forwarding happens exactly when a verified token names a non-empty userId, whatever the role |
| UserVerify.Run | src/middleware/userVerify.ts:13-42 | exactly one reply or one call of `next`; the decoded claims are written to the request |
| AdminVerify.Verdict | src/middleware/adminVerify.ts:14-37 | no token gives 403; a failed verification gives 401 with the error; forwarding happens exactly when the role is 'admin'; otherwise 403 'Access denied: Admin only' |
| AdminVerify.AdminPassesUserGuard | src/middleware/adminVerify.ts:24-28 | a request `adminVerify` lets through also passes `userVerify` when its token names a user |
| AdminVerify.Run | src/middleware/adminVerify.ts:14-37 | exactly one reply or one call of `next`; the claims are written to the request even when the role check then refuses |
| PostController.GetAllPostArgs | src/Controllers/postController.ts:15-17 | page and limit are never 0; absent texts read as 1 and 10; a reading of 0 or NaN becomes 1 for both; any other reading, negatives included, is passed on as read |
| PostController.DefaultListing | src/Controllers/postController.ts:14-24 | with no query, the handler answers 200 with the first ten posts and the page count |
| PostController.GetAllPostReply | src/Controllers/postController.ts:18-23 | 200 with the listing exactly on success, and 500 with the message otherwise |
| PostController.GetPostById | src/Controllers/postController.ts:26-34 | 200 exactly for a well-formed identifier of a stored post; a malformed identifier answers 404 'Invalid post Id', not 400 |
| PostController.StatusCodeIgnored | src/Controllers/postController.ts:26-34 | the handler ignores the errors' `statusCode`: a malformed id is a ValidationError with statusCode 400, yet the reply is 404 |
| PostController.CreatePostToken | src/Controllers/postController.ts:38 | the token handed on is the header's token, or ' ' when that is missing; it is never empty |
| PostController.MissingTokenUnreachable | src/Controllers/postController.ts:36-45 | through the handler the service never answers 'Token not require.'; with no token and ' ' refused, the reply is 401 'Invalid or expired token' |
| PostController.CreatePostReply | src/Controllers/postController.ts:39-44 | 201 with the new post exactly on success, and 401 for every failure |
| PostController.UpdatePostReply | src/Controllers/postController.ts:50-55 | 201 (not 200) with the patched post exactly on success, and 400 otherwise |
| PostController.DeletePostReply | src/Controllers/postController.ts:60-65 | success answers 200 with 'Post deleted ' and never the post; failure answers 404 |
| PostController.GetUserPostsArgs | src/Controllers/postController.ts:70-72 | page and limit are never 0; both absent texts read as 1, so the service's default limit is never used; a reading of 0 or NaN becomes 1; any other reading, negatives included, is passed on as read |
| PostController.GetUserPostsReply | src/Controllers/postController.ts:73-82 | 200 with the listing exactly on success, and 400 otherwise |
| PostController.UserPostsOutcomes | src/Controllers/postController.ts:68-83 | with page 1 and limit 1 (what no query reads as), a malformed author identifier answers 400 'Invalid user Id'; a well-formed one answers 200 with at most one post, the author's first |
| UserController.GetAllUsersArgs | src/Controllers/userController.ts:15-17 | absent texts read as 1 and 10; a reading of 0 or NaN becomes 1 for the page and 10 for the limit; any other reading, negatives included, is passed on as read |
| UserController.GetUserById | src/Controllers/userController.ts:25-33 | 200 exactly for a well-formed identifier of a stored user; a malformed identifier answers 404 'Invalid user Id' |
| UserController.HandlerReply | src/Controllers/userController.ts:14-54 | every handler answers 200 with the service result exactly on success, and 404 with the message otherwise, a malformed identifier included |
| AuthController.RegisterArgs | src/Controllers/authController.ts:6-7 | only name, email and password reach the service |
| AuthController.RegisterIgnoresRole | src/Controllers/authController.ts:6-7 | registering through the handler creates a plain user even when the body asks for 'admin' |
| AuthController.RegisterResponse | src/Controllers/authController.ts:4-12 | 201 exactly on success, and 500 with the message otherwise |
| AuthController.DuplicateEmailIs500 | src/Controllers/authController.ts:9-11 | a taken email answers 500 'Email has been used' |
| AuthController.Login | src/Controllers/authController.ts:14-22 | 200 exactly when the email exists and the password matches; otherwise 400 with 'User not exist' or 'Password is incorrect'; a 200 carries the service's whole result (token, userId and greeting) |
| Flows.DecodesOwnToken | src/middleware/postVerify.ts:16-22 | a freshly issued token sent as `Bearer <token>` decodes to the claims it was signed with |
| Flows.FindsNewUser | src/services/authService.ts:24-26 | after registration, looking up the new email finds the new user |
| Flows.RegisterThenLogin | src/services/authService.ts:19-52 | after a successful registration, login with the same credentials succeeds as a plain user with the new identifier |
| Flows.RegisterTwiceFails | src/services/authService.ts:20-23 | registering the same email again gives 'Email has been used' |
| Flows.LoginTokenPassesUserGuard | src/middleware/userVerify.ts:13-42 | the token a successful login returns passes `userVerify` |
| Flows.LoginTokenAdminGuard | src/middleware/adminVerify.ts:14-37 | a login token passes `adminVerify` exactly when the user is an admin, and is otherwise refused as admin-only |
| Flows.AuthorMayChangeOwnPost | src/middleware/postVerify.ts:15-49 | a post created with a user's token has that user as author, and that token then passes `postVerify` for the post |
| Flows.OthersAndAdmins | src/middleware/postVerify.ts:35-41 | another plain user's token is refused as not the owner; any admin's token passes |
| Flows.PasswordUpdateThenLogin | src/services/userService.ts:71-74 | after a password change, login with the new password succeeds exactly when the hasher accepts the plain text as its own hash |

## Left out

- MongoDB itself is replaced by in-memory sequences: no queries, no indexes, and no database errors or failed connections. A failure not listed above is not modelled.
- async/await scheduling and concurrent requests are not modelled. Two simultaneous registrations of one email both pass the `findOne` check in the source, and only the unique index would stop the second.
- `console.log` in `adminVerify` is not modelled.
- Timestamps (`timestamps: true`) are not modelled.
- `jsonwebtoken` signing, verification and expiry, and `bcrypt` hashing, stay abstract. A decoded payload whose `userId` or `role` is not a string is not modelled.
- Identifiers are compared by their spelling. The source casts a route identifier to an ObjectId before looking it up, so two spellings of the same ObjectId (upper- and lower-case hex) find the same document there; the model treats them as different identifiers and answers 'not found' for the other spelling.
- `ObjectId.isValid` is uninterpreted. It is assumed to accept exactly the identifiers `findById` can cast. The cast message is an approximation of Mongoose's wording.
- JavaScript strings count UTF-16 code units, while the model counts Unicode scalar values. Lengths differ for characters outside the Basic Multilingual Plane.
- JavaScript numbers are doubles; the model's integers are unbounded. Query values beyond 2^53 lose precision in the source but not here.
- PostService.GetAllPost: requires page >= 1 and limit >= 1. The handlers can pass a negative page or limit, and MongoDB's behaviour then (a refused negative skip, a negative limit) is not modelled.
- PostService.GetUserPosts: requires page >= 1 and limit >= 1, for the same reason.
- UserService.GetAllUsers: requires page >= 1 and limit >= 1, for the same reason.
- PostService.UpdatePost: the body is modelled with title and content only. The source hands the whole request body to `findByIdAndUpdate`, so a body with other fields, such as `author`, would also change them.
- AuthService.Register: the body fields are modelled as strings. An absent or non-string `name`, `email` or `password` in a request body is not modelled.
- A schema failure's message is modelled as Mongoose's prefix ('User validation failed', 'Post validation failed') without the per-path details it appends.
- The routes, the startup script that seeds an admin, the environment loading and validation, and the unused `NotFoundError` class are not part of this model. `JWT_SECRET` and `JWT_SEC` are parameters.
