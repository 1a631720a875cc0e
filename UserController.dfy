/** The four handlers of src/Controllers/userController.ts. Every failure,
    a malformed identifier included, answers 404. */
module UserController {
  import opened Wrappers
  import opened Builtins
  import opened Errors
  import opened Collaborators
  import opened Pagination
  import opened UserModel
  import opened Http
  import UserService

  /** `getAllUsers`'s `(page, limit)`: the texts default to '1' and '10', and
      a reading of 0 or NaN becomes 1 for the page and 10 for the limit; a
      negative one is kept. The service's own default limit of 1 is never
      used through this handler. */
  function GetAllUsersArgs(q: Query): (args: (int, int))
    ensures args.0 != 0 && args.1 != 0
    ensures q.page.None? ==> args.0 == 1
    ensures q.limit.None? ==> args.1 == 10
    ensures ParseInt(q.limit.GetOr("10")) == NaN || ParseInt(q.limit.GetOr("10")) == Num(0) ==> args.1 == 10
    ensures ParseInt(q.page.GetOr("1")) == NaN || ParseInt(q.page.GetOr("1")) == Num(0) ==> args.0 == 1
    ensures ParseInt(q.page.GetOr("1")).Num? && ParseInt(q.page.GetOr("1")).value != 0 ==> args.0 == ParseInt(q.page.GetOr("1")).value
    ensures ParseInt(q.limit.GetOr("10")).Num? && ParseInt(q.limit.GetOr("10")).value != 0 ==> args.1 == ParseInt(q.limit.GetOr("10")).value
  {
    QueryDefault("1", 1, 1);
    assert "10" == DecimalString(10);
    QueryDefault("10", 10, 10);
    (QueryNumber(q.page, "1", 1), QueryNumber(q.limit, "10", 10))
  }

  /** `getUserById`: 200 with the user, and 404 for every failure, so a
      malformed identifier answers 404 'Invalid user Id', not 400. */
  function GetUserById(users: seq<User>, id: string, isValidId: IdCheck): (r: HttpResponse<User>)
    ensures r.status == 200 <==> isValidId(id) && id in Ids(users)
    ensures r.status == 200 ==> r.body.Json? && r.body.value.id == id && r.body.value in users
    ensures !isValidId(id) ==> r == HttpResponse(404, MessageBody("Invalid user Id"))
    ensures isValidId(id) && id !in Ids(users) ==> r == HttpResponse(404, MessageBody("User not found"))
  {
    HandlerReply(UserService.GetUserById(users, id, isValidId))
  }

  /** All four handlers: 200 with what the service returns, or 404 with
      the message. `updateUserById` hands the route identifier and the whole
      request body to the service unchanged. */
  function HandlerReply<T>(outcome: Result<T, ServiceError>): (r: HttpResponse<T>)
    ensures r.status == 200 <==> outcome.Success?
    ensures r.status == 404 <==> outcome.Failure?
    ensures outcome.Success? ==> r.body == Json(outcome.value)
    ensures outcome.Failure? ==> r.body == MessageBody(outcome.error.Message())
  {
    Answer(outcome, 200, 404)
  }
}
