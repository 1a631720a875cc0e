/** The parts of Express the guards and controllers touch: the request's
    Authorization header and route and query parameters, the response a
    handler writes (`res.status(s).json(body)`), and the `next` callback. */
module Http {
  import opened Wrappers
  import opened Builtins
  import opened Collaborators
  import opened Errors

  /** `req.headers['authorization']?.split(' ')[1]`: the second
      space-separated piece of the header, or `undefined` when there is no
      header or no space in it. */
  function BearerToken(authorization: Option<string>): (token: Option<string>)
    ensures token.Some? <==> authorization.Some? && ' ' in authorization.value
    ensures token.Some? ==> ' ' !in token.value
  {
    match authorization
    case None => None
    case Some(h) =>
      SplitHasSecondPiece(h, ' ');
      var parts := Split(h, ' ');
      if |parts| > 1 then Some(parts[1]) else None
  }

  /** The token the guards go on with: `if (!token)` refuses an absent token
      and an empty one alike. */
  function GuardToken(authorization: Option<string>): (token: Option<string>)
    ensures token.Some? <==> BearerToken(authorization).Some? && BearerToken(authorization).value != []
    ensures token.Some? ==> token == BearerToken(authorization) && token.value != [] && ' ' !in token.value
  {
    match BearerToken(authorization)
    case None => None
    case Some(t) => if t == [] then None else Some(t)
  }

  /** The token is the SECOND space-separated piece of the header: whatever
      scheme word precedes it, and whatever further pieces follow it. */
  lemma {:induction false} BearerOfScheme(scheme: string, token: string, rest: string)
    requires ' ' !in scheme && ' ' !in token
    requires rest == [] || rest[0] == ' '
    ensures BearerToken(Some(scheme + " " + token + rest)) == Some(token)
    ensures token != [] ==> GuardToken(Some(scheme + " " + token + rest)) == Some(token)
  {
    assert scheme + " " + token + rest == scheme + [' '] + (token + rest);
    SplitAfterHead(scheme, token + rest, ' ');
    if rest == [] {
      assert token + rest == token;
      SplitWithoutSeparator(token, ' ');
    } else {
      assert token + rest == token + [' '] + rest[1..];
      SplitAfterHead(token, rest[1..], ' ');
    }
  }

  /** Two spaces after the scheme leave an empty second piece, which the
      guards treat as no token at all. */
  lemma DoubleSpaceHasNoToken(scheme: string, rest: string)
    requires ' ' !in scheme
    ensures BearerToken(Some(scheme + "  " + rest)) == Some([])
    ensures GuardToken(Some(scheme + "  " + rest)).None?
  {
    assert scheme + "  " + rest == scheme + [' '] + ([' '] + rest);
    SplitAfterHead(scheme, [' '] + rest, ' ');
    SplitAfterHead([], rest, ' ');
    assert [] + [' '] + rest == [' '] + rest;
  }

  /** The claims a guard decodes: the token must be present and non-empty and
      `jwt.verify(token, secret)` must not throw. */
  function Decoded(authorization: Option<string>, verify: (string, string) -> VerifyResult, secret: string): (c: Option<Claims>)
    ensures c.Some? <==> GuardToken(authorization).Some? && verify(GuardToken(authorization).value, secret).Verified?
    ensures c.Some? ==> c.value == verify(GuardToken(authorization).value, secret).claims
  {
    match GuardToken(authorization)
    case None => None
    case Some(t) =>
      match verify(t, secret)
      case VerifyFailed(_) => None
      case Verified(claims) => Some(claims)
  }

  /** `parseInt(q ?? fallbackText, 10) || fallback`: a query parameter read as
      a number. `||` replaces only the falsy results, 0 and NaN; a negative
      number passes through. */
  function QueryNumber(q: Option<string>, defaultText: string, fallback: int): (n: int)
    ensures ParseInt(q.GetOr(defaultText)) == NaN ==> n == fallback
    ensures ParseInt(q.GetOr(defaultText)) == Num(0) ==> n == fallback
    ensures ParseInt(q.GetOr(defaultText)).Num? && ParseInt(q.GetOr(defaultText)).value != 0 ==>
      n == ParseInt(q.GetOr(defaultText)).value
    ensures fallback != 0 ==> n != 0
  {
    match ParseInt(q.GetOr(defaultText))
    case NaN => fallback
    case Num(v) => if v == 0 then fallback else v
  }

  /** A positive decimal query value is used as written. */
  lemma QueryPositive(k: nat, defaultText: string, fallback: int)
    requires k >= 1
    ensures QueryNumber(Some(DecimalString(k)), defaultText, fallback) == k
  {
    ParseDecimalString(k);
  }

  /** A negative decimal query value passes through the `||` unchanged. */
  lemma QueryNegative(k: nat, defaultText: string, fallback: int)
    requires k >= 1
    ensures QueryNumber(Some(['-'] + DecimalString(k)), defaultText, fallback) == 0 - k
  {
    ParseNegativeDecimalString(k);
  }

  /** Zero, and a value with no digit at all, give the fallback. */
  lemma QueryFallback(q: string, defaultText: string, fallback: int)
    requires q == "0" || forall i :: 0 <= i < |q| ==> !IsDigit(q[i])
    ensures QueryNumber(Some(q), defaultText, fallback) == fallback
  {
    if q == "0" {
      assert q == DecimalString(0);
      ParseDecimalString(0);
    } else {
      ParseWithoutDigits(q);
    }
  }

  /** An absent query value reads the default text. */
  lemma QueryDefault(defaultText: string, fallback: int, k: nat)
    requires k >= 1 && defaultText == DecimalString(k)
    ensures QueryNumber(None, defaultText, fallback) == k
  {
    ParseDecimalString(k);
  }

  /** The `{page, limit}` of `req.query`; a parameter the URL lacks is `None`. */
  datatype Query = Query(page: Option<string>, limit: Option<string>)

  /** What a handler sends: `res.json(value)`, or `res.json({message})`. */
  datatype Body<T> = Json(value: T) | MessageBody(message: string)

  datatype HttpResponse<T> = HttpResponse(status: int, body: Body<T>)

  /** The `try { … res.status(ok).json(result) } catch (err) {
      res.status(failed).json({message: err.message}) }` shape every handler
      has: success and failure are told apart by the status alone. */
  function Answer<T>(outcome: Result<T, ServiceError>, ok: int, failed: int): (r: HttpResponse<T>)
    requires ok != failed
    ensures r.status == ok <==> outcome.Success?
    ensures r.status == failed <==> outcome.Failure?
    ensures outcome.Success? ==> r.body == Json(outcome.value)
    ensures outcome.Failure? ==> r.body == MessageBody(outcome.error.Message())
  {
    match outcome
    case Success(v) => HttpResponse(ok, Json(v))
    case Failure(e) => HttpResponse(failed, MessageBody(e.Message()))
  }

  /** The JSON a guard rejects with: `{message}` or `{message, error}`. */
  datatype Reply = Reply(status: int, message: string, error: Option<string>)

  /** What a guard decides: call `next()`, or send one reply. */
  datatype Verdict = Forward | Reject(reply: Reply)

  /** The reply every guard sends when there is no token. */
  const NoTokenReply: Reply := Reply(403, "Token not required", None)

  /** The reply `userVerify` and `adminVerify` send when verification throws. */
  function BadTokenReply(reason: string): Reply {
    Reply(401, "Invalid or expired token", Some(reason))
  }

  /** The request as a guard sees it. The guards write the decoded claims into
      `userId` and `role`; `id` is the route parameter `req.params.id`. */
  class Request {
    const authorization: Option<string>
    const id: string
    var userId: Option<string>
    var role: Option<string>

    constructor (authorization: Option<string>, id: string)
      ensures this.authorization == authorization && this.id == id
      ensures userId.None? && role.None?
    {
      this.authorization := authorization;
      this.id := id;
      userId := None;
      role := None;
    }
  }

  /** The replies written to the response so far. */
  class Response {
    var sent: seq<Reply>

    constructor ()
      ensures sent == []
    {
      sent := [];
    }

    /** `res.status(status).json(body)`. */
    method Send(reply: Reply)
      modifies this
      ensures sent == old(sent) + [reply]
    {
      sent := sent + [reply];
    }
  }

  /** The `next` callback, counting its calls. */
  class Next {
    var calls: nat

    constructor ()
      ensures calls == 0
    {
      calls := 0;
    }

    method Call()
      modifies this
      ensures calls == old(calls) + 1
    {
      calls := calls + 1;
    }
  }
}
