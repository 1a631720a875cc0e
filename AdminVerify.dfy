/** `adminVerify` (src/middleware/adminVerify.ts): only a valid token with
    the admin role gets through. `secret` is
    `ServiceSecret(process.env.JWT_SEC)`. */
module AdminVerify {
  import opened Wrappers
  import opened Collaborators
  import opened Http
  import UserVerify

  const AdminOnly: Reply := Reply(403, "Access denied: Admin only", None)

  /** What `adminVerify` does with a request. */
  function Verdict(authorization: Option<string>, verify: (string, string) -> VerifyResult, secret: string): (v: Verdict)
    ensures GuardToken(authorization).None? ==> v == Reject(NoTokenReply)
    ensures GuardToken(authorization).Some? && verify(GuardToken(authorization).value, secret).VerifyFailed? ==>
      v == Reject(BadTokenReply(verify(GuardToken(authorization).value, secret).reason))
    ensures v.Forward? <==>
      Decoded(authorization, verify, secret).Some? && Decoded(authorization, verify, secret).value.role == Some("admin")
    ensures v == Reject(AdminOnly) <==>
      Decoded(authorization, verify, secret).Some? && Decoded(authorization, verify, secret).value.role != Some("admin")
  {
    match Decoded(authorization, verify, secret)
    case None =>
      if GuardToken(authorization).None? then Reject(NoTokenReply)
      else Reject(BadTokenReply(verify(GuardToken(authorization).value, secret).reason))
    case Some(c) =>
      if c.role != Some("admin") then Reject(AdminOnly) else Forward
  }

  /** Whatever `adminVerify` lets through, `userVerify` lets through as well,
      unless the admin's token names no user. */
  lemma AdminPassesUserGuard(authorization: Option<string>, verify: (string, string) -> VerifyResult, secret: string)
    requires Verdict(authorization, verify, secret).Forward?
    requires Decoded(authorization, verify, secret).value.userId.Some?
    requires Decoded(authorization, verify, secret).value.userId.value != []
    ensures UserVerify.Verdict(authorization, verify, secret).Forward?
  {
  }

  /** The guard itself: the claims are recorded on the request before the
      role is checked, so a refused request still carries them. */
  method Run(req: Request, res: Response, next: Next, verify: (string, string) -> VerifyResult, secret: string)
    modifies req, res, next
    ensures var v := Verdict(req.authorization, verify, secret);
      && (v.Forward? ==> res.sent == old(res.sent) && next.calls == old(next.calls) + 1)
      && (v.Reject? ==> res.sent == old(res.sent) + [v.reply] && next.calls == old(next.calls))
    ensures Decoded(req.authorization, verify, secret).Some? ==>
      req.userId == Decoded(req.authorization, verify, secret).value.userId
      && req.role == Decoded(req.authorization, verify, secret).value.role
    ensures Decoded(req.authorization, verify, secret).None? ==>
      req.userId == old(req.userId) && req.role == old(req.role)
  {
    var token := BearerToken(req.authorization);
    if token.None? || token.value == [] {
      res.Send(NoTokenReply);
      return;
    }
    match verify(token.value, secret) {
      case VerifyFailed(reason) =>
        res.Send(BadTokenReply(reason));
      case Verified(decoded) =>
        req.userId := decoded.userId;
        req.role := decoded.role;
        if req.role != Some("admin") {
          res.Send(AdminOnly);
          return;
        }
        next.Call();
    }
  }
}
