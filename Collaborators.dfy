/** The collaborators the core talks to but whose internals are not modelled:
    `jsonwebtoken` (sign and verify), `bcryptjs` (hash and compare),
    `mongoose.Types.ObjectId.isValid` and the secrets read from the
    environment. Each is a parameter of the operations that use it. */
module Collaborators {
  import opened Wrappers

  /** `mongoose.Types.ObjectId.isValid`: whether a string is a well-formed
      store identifier. Left uninterpreted. */
  type IdCheck = string -> bool

  /** The payload a token carries, `{userId, role}`. A claim that the decoded
      payload lacks is `None`. */
  datatype Claims = Claims(userId: Option<string>, role: Option<string>)

  /** What `jwt.verify(token, secret)` does at the moment of the request: it
      returns the decoded claims, or throws an error with a message (bad
      signature, malformed token, expired). */
  datatype VerifyResult = Verified(claims: Claims) | VerifyFailed(reason: string)

  /** `jwt.sign(payload, secret, {expiresIn})` and `jwt.verify(token, secret)`. */
  datatype TokenService = TokenService(
    sign: (Claims, string, string) -> string,
    verify: (string, string) -> VerifyResult)

  /** The lifetime login gives its tokens (`expiresIn: '10m'`). */
  const TokenLifetime: string := "10m"

  /** What the model requires of the token service: a token it has just issued
      (so not yet expired) verifies under the same secret to exactly the claims
      it was signed with, and it is a non-empty string without spaces (a JWT in
      compact form is three base64url segments joined by dots). */
  ghost predicate SoundTokens(ts: TokenService) {
    forall c, secret, ttl ::
      && ts.verify(ts.sign(c, secret, ttl), secret) == Verified(c)
      && ts.sign(c, secret, ttl) != []
      && ' ' !in ts.sign(c, secret, ttl)
  }

  /** `bcrypt.hash(password, 10)` and `bcrypt.compare(password, hash)`. */
  datatype Hasher = Hasher(hash: string -> string, compare: (string, string) -> bool)

  /** What the model requires of the hasher: a password matches its own hash. */
  ghost predicate SoundHasher(h: Hasher) {
    forall p :: h.compare(p, h.hash(p))
  }

  /** `process.env.JWT_SEC || 'aaa'`: the secret the services, `userVerify`
      and `adminVerify` use. An unset variable is `None`. */
  function ServiceSecret(jwtSec: Option<string>): (secret: string)
    ensures secret != []
    ensures jwtSec.Some? && jwtSec.value != [] ==> secret == jwtSec.value
    ensures jwtSec.None? || jwtSec.value == [] ==> secret == "aaa"
  {
    match jwtSec
    case Some(s) => if s == [] then "aaa" else s
    case None => "aaa"
  }
}
