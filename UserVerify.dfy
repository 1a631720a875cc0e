/** `userVerify` (src/middleware/userVerify.ts): any holder of a valid token
    that names a user gets through, whatever its role. `secret` is
    `ServiceSecret(process.env.JWT_SEC)`. */
module UserVerify {
  import opened Wrappers
  import opened Collaborators
  import opened Http

  const Unregistered: Reply := Reply(403, "Access denied: Please register an account", None)

  /** What `userVerify` does with a request. */
  function Verdict(authorization: Option<string>, verify: (string, string) -> VerifyResult, secret: string): (v: Verdict)
    ensures GuardToken(authorization).None? ==> v == Reject(NoTokenReply)
    ensures GuardToken(authorization).Some? && verify(GuardToken(authorization).value, secret).VerifyFailed? ==>
      v == Reject(BadTokenReply(verify(GuardToken(authorization).value, secret).reason))
    ensures v.Forward? <==>
      Decoded(authorization, verify, secret).Some?
      && Decoded(authorization, verify, secret).value.userId.Some?
      && Decoded(authorization, verify, secret).value.userId.value != []
    ensures v == Reject(Unregistered) <==>
      Decoded(authorization, verify, secret).Some?
      && (Decoded(authorization, verify, secret).value.userId.None? || Decoded(authorization, verify, secret).value.userId.value == [])
  {
    match Decoded(authorization, verify, secret)
    case None =>
      if GuardToken(authorization).None? then Reject(NoTokenReply)
      else Reject(BadTokenReply(verify(GuardToken(authorization).value, secret).reason))
    case Some(c) =>
      if c.userId.None? || c.userId.value == [] then Reject(Unregistered) else Forward
  }

  /** The guard itself: one reply or one call of `next`, with the decoded
      claims recorded on the request. */
  method Run(req: Request, res: Response, next: Next, verify: (string, string) -> VerifyResult, secret: string)
    modifies req, res, next
    ensures var v := Verdict(req.authorization, verify, secret);
      && (v.Forward? ==> res.sent == old(res.sent) && next.calls == old(next.calls) + 1)
      && (v.Reject? ==> res.sent == old(res.sent) + [v.reply] && next.calls == old(next.calls))
    ensures Decoded(req.authorization, verify, secret).Some? ==>
      req.userId == Decoded(req.authorization, verify, secret).value.userId
      && req.role == Decoded(req.authorization, verify, secret).value.role
    ensures Decoded(req.authorization, verify, secret).None? ==>
      req.userId == old(req.userId) && req.role == old(req.role)
  {
    var token := BearerToken(req.authorization);
    if token.None? || token.value == [] {
      res.Send(NoTokenReply);
      return;
    }
    match verify(token.value, secret) {
      case VerifyFailed(reason) =>
        res.Send(BadTokenReply(reason));
      case Verified(decoded) =>
        req.userId := decoded.userId;
        req.role := decoded.role;
        if req.userId.None? || req.userId.value == [] {
          res.Send(Unregistered);
          return;
        }
        next.Call();
    }
  }
}
