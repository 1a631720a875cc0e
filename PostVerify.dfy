/** `postVerify` (src/middleware/postVerify.ts), the guard in front of the
    routes that change a post: only an admin or the post's author gets
    through. Its secret is `JWT_SECRET` from the validated environment, which
    need not be the secret the other guards and the services use, so it is a
    parameter of its own. */
module PostVerify {
  import opened Wrappers
  import opened Collaborators
  import opened PostModel
  import opened Http

  /** The message of the catch block, spelled as the source spells it. */
  const CatchMessage: string := "Acess denide: You are not the owner"
  const BadRole: Reply := Reply(403, "Access denied", None)
  const Missing: Reply := Reply(404, "Post not found", None)
  const NotOwner: Reply := Reply(403, "Access denied: You are not the owner", None)

  /** The message of the CastError `Post.findById` throws for an identifier
      that is not an ObjectId. */
  function CastErrorMessage(id: string): string {
    "Cast to ObjectId failed for value \"" + id + "\" (type string) at path \"_id\" for model \"Post\""
  }

  predicate KnownRole(role: Option<string>) {
    role == Some("admin") || role == Some("user")
  }

  /** Whether the decoded claims may change post `id`: a known role, a post
      that exists, and either the admin role or authorship. */
  predicate MayChange(c: Claims, id: string, posts: seq<Post>, isValidId: IdCheck) {
    && KnownRole(c.role)
    && isValidId(id)
    && FindById(posts, id).Some?
    && (c.role == Some("admin") || Some(FindById(posts, id).value.author) == c.userId)
  }

  /** What `postVerify` does with a request for post `id`. Every failure is a
      403 except the missing post's 404; a failed verification and a
      malformed identifier both reach the catch block. */
  function Verdict(authorization: Option<string>, id: string, verify: (string, string) -> VerifyResult, secret: string, posts: seq<Post>, isValidId: IdCheck): (v: Verdict)
    ensures GuardToken(authorization).None? ==> v == Reject(NoTokenReply)
    ensures GuardToken(authorization).Some? && verify(GuardToken(authorization).value, secret).VerifyFailed? ==>
      v == Reject(Reply(403, CatchMessage, Some(verify(GuardToken(authorization).value, secret).reason)))
    ensures v.Forward? <==> Decoded(authorization, verify, secret).Some? && MayChange(Decoded(authorization, verify, secret).value, id, posts, isValidId)
    ensures v == Reject(Missing) <==>
      && Decoded(authorization, verify, secret).Some? && KnownRole(Decoded(authorization, verify, secret).value.role)
      && isValidId(id) && id !in Ids(posts)
    ensures Decoded(authorization, verify, secret).Some? && !KnownRole(Decoded(authorization, verify, secret).value.role) ==>
      v == Reject(BadRole)
    ensures Decoded(authorization, verify, secret).Some? && KnownRole(Decoded(authorization, verify, secret).value.role) && !isValidId(id) ==>
      v == Reject(Reply(403, CatchMessage, Some(CastErrorMessage(id))))
    ensures (&& Decoded(authorization, verify, secret).Some?
             && Decoded(authorization, verify, secret).value.role == Some("user")
             && isValidId(id) && FindById(posts, id).Some?
             && Some(FindById(posts, id).value.author) != Decoded(authorization, verify, secret).value.userId)
      ==> v == Reject(NotOwner)
    ensures v.Reject? ==> v.reply.status == 403 || v.reply == Missing
  {
    match Decoded(authorization, verify, secret)
    case None =>
      if GuardToken(authorization).None? then Reject(NoTokenReply)
      else Reject(Reply(403, CatchMessage, Some(verify(GuardToken(authorization).value, secret).reason)))
    case Some(c) =>
      if !KnownRole(c.role) then Reject(BadRole)
      else if !isValidId(id) then Reject(Reply(403, CatchMessage, Some(CastErrorMessage(id))))
      else
        match FindById(posts, id)
        case None => Reject(Missing)
        case Some(post) =>
          if c.role == Some("user") && Some(post.author) != c.userId then Reject(NotOwner)
          else Forward
  }

  /** A user who is not the author of an existing post is refused as not the
      owner, and an admin is let through to any existing post. */
  lemma OwnerRule(authorization: Option<string>, id: string, verify: (string, string) -> VerifyResult, secret: string, posts: seq<Post>, isValidId: IdCheck)
    requires Decoded(authorization, verify, secret).Some? && isValidId(id) && id in Ids(posts)
    ensures var c := Decoded(authorization, verify, secret).value;
      && (c.role == Some("user") && Some(FindById(posts, id).value.author) != c.userId ==>
            Verdict(authorization, id, verify, secret, posts, isValidId) == Reject(NotOwner))
      && (c.role == Some("admin") ==> Verdict(authorization, id, verify, secret, posts, isValidId) == Forward)
  {
  }

  /** The guard itself: decodes the token, records the claims on the request,
      then either sends exactly one reply or calls `next` exactly once. */
  method Run(req: Request, res: Response, next: Next, verify: (string, string) -> VerifyResult, secret: string, store: PostCollection, isValidId: IdCheck)
    modifies req, res, next
    ensures var v := Verdict(req.authorization, req.id, verify, secret, store.posts, isValidId);
      && (v.Forward? ==> res.sent == old(res.sent) && next.calls == old(next.calls) + 1)
      && (v.Reject? ==> res.sent == old(res.sent) + [v.reply] && next.calls == old(next.calls))
    ensures Decoded(req.authorization, verify, secret).Some? ==>
      req.userId == Decoded(req.authorization, verify, secret).value.userId
      && req.role == Decoded(req.authorization, verify, secret).value.role
    ensures Decoded(req.authorization, verify, secret).None? ==>
      req.userId == old(req.userId) && req.role == old(req.role)
  {
    var token := BearerToken(req.authorization);
    if token.None? || token.value == [] {
      res.Send(NoTokenReply);
      return;
    }
    match verify(token.value, secret) {
      case VerifyFailed(reason) =>
        res.Send(Reply(403, CatchMessage, Some(reason)));
      case Verified(decoded) =>
        req.userId := decoded.userId;
        req.role := decoded.role;
        if req.role != Some("admin") && req.role != Some("user") {
          res.Send(BadRole);
          return;
        }
        if !isValidId(req.id) {
          res.Send(Reply(403, CatchMessage, Some(CastErrorMessage(req.id))));
          return;
        }
        var post := FindById(store.posts, req.id);
        if post.None? {
          res.Send(Missing);
          return;
        }
        if req.role == Some("user") && Some(post.value.author) != req.userId {
          res.Send(NotOwner);
          return;
        }
        next.Call();
    }
  }
}
