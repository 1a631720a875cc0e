/** The six handlers of src/Controllers/postController.ts: how each reads
    its arguments from the request and maps the service's outcome to one
    status and body. */
module PostController {
  import opened Wrappers
  import opened Builtins
  import opened Errors
  import opened Collaborators
  import opened Pagination
  import opened PostModel
  import opened Http
  import PostService

  /** `getAllPost`'s `(page, limit)`: the texts default to '1' and '10', and
      a reading of 0 or NaN becomes 1 for both; a negative one is kept. */
  function GetAllPostArgs(q: Query): (args: (int, int))
    ensures args.0 != 0 && args.1 != 0
    ensures q.page.None? ==> args.0 == 1
    ensures q.limit.None? ==> args.1 == 10
    ensures ParseInt(q.limit.GetOr("10")) == NaN || ParseInt(q.limit.GetOr("10")) == Num(0) ==> args.1 == 1
    ensures ParseInt(q.page.GetOr("1")) == NaN || ParseInt(q.page.GetOr("1")) == Num(0) ==> args.0 == 1
    ensures ParseInt(q.page.GetOr("1")).Num? && ParseInt(q.page.GetOr("1")).value != 0 ==> args.0 == ParseInt(q.page.GetOr("1")).value
    ensures ParseInt(q.limit.GetOr("10")).Num? && ParseInt(q.limit.GetOr("10")).value != 0 ==> args.1 == ParseInt(q.limit.GetOr("10")).value
  {
    QueryDefault("1", 1, 1);
    assert "10" == DecimalString(10);
    QueryDefault("10", 1, 10);
    (QueryNumber(q.page, "1", 1), QueryNumber(q.limit, "10", 1))
  }

  /** A URL without `page` and `limit` (which GetAllPostArgs reads as
      `(1, 10)`) answers 200 with the first ten posts and the page count. */
  lemma DefaultListing(posts: seq<Post>)
    ensures var r := GetAllPostReply(Success(PostService.GetAllPost(posts, Some(1), Some(10))));
      && r.status == 200
      && r.body.value.items == posts[..Min(10, |posts|)]
      && r.body.value.pagination == PageInfo(|posts|, 1, 10, CeilDiv(|posts|, 10))
  {
    var l := PostService.GetAllPost(posts, Some(1), Some(10));
    var m := Min(10, |posts|);
    assert |l.items| == m;
    forall k | 0 <= k < m
      ensures l.items[k] == posts[k]
    {
      assert l.items[k] == posts[(1 - 1) * 10 + k];
    }
    assert l.items == posts[..m];
  }

  /** `getAllPost`: 200 with the listing, or 500 with the message. */
  function GetAllPostReply(outcome: Result<Listing<Post>, ServiceError>): (r: HttpResponse<Listing<Post>>)
    ensures r.status == 200 <==> outcome.Success?
    ensures r.status == 500 <==> outcome.Failure?
    ensures outcome.Success? ==> r.body == Json(outcome.value)
    ensures outcome.Failure? ==> r.body == MessageBody(outcome.error.Message())
  {
    Answer(outcome, 200, 500)
  }

  /** `getPostById`: 200 with the post, and 404 for every failure, so a
      malformed identifier answers 404 'Invalid post Id', not 400. */
  function GetPostById(posts: seq<Post>, id: string, isValidId: IdCheck): (r: HttpResponse<Post>)
    ensures r.status == 200 <==> isValidId(id) && id in Ids(posts)
    ensures r.status == 200 ==> r.body.Json? && r.body.value.id == id && r.body.value in posts
    ensures !isValidId(id) ==> r == HttpResponse(404, MessageBody("Invalid post Id"))
    ensures isValidId(id) && id !in Ids(posts) ==> r == HttpResponse(404, MessageBody("Post not found"))
  {
    Answer(PostService.GetPostById(posts, id, isValidId), 200, 404)
  }

  /** The handler ignores the `statusCode` the service's errors carry: a
      malformed identifier is a ValidationError with statusCode 400, yet the
      reply is 404. */
  lemma StatusCodeIgnored(posts: seq<Post>, id: string, isValidId: IdCheck)
    requires !isValidId(id)
    ensures PostService.GetPostById(posts, id, isValidId).error.StatusCode() == Some(400)
    ensures GetPostById(posts, id, isValidId).status == 404
  {
  }

  /** The token `createPost` hands the service: the header's second
      space-separated piece, or ' ' when that is absent or empty. */
  function CreatePostToken(authorization: Option<string>): (token: string)
    ensures token != []
    ensures GuardToken(authorization).Some? ==> token == GuardToken(authorization).value
    ensures GuardToken(authorization).None? ==> token == " "
  {
    match BearerToken(authorization)
    case None => " "
    case Some(t) => if t == [] then " " else t
  }

  /** Through the handler the service's 'Token not require.' cannot happen:
      a request without a token is sent to verification with ' ' and fails
      there (or, if ' ' verified, goes on to the schema). */
  lemma MissingTokenUnreachable(data: PostService.PostData, authorization: Option<string>, verify: (string, string) -> VerifyResult, secret: string, isValidId: IdCheck, newId: string)
    ensures PostService.CreatedPost(data, CreatePostToken(authorization), verify, secret, isValidId, newId) != Failure(PostService.MissingToken)
    ensures GuardToken(authorization).None? && verify(" ", secret).VerifyFailed? ==>
      CreatePostReply(PostService.CreatedPost(data, CreatePostToken(authorization), verify, secret, isValidId, newId))
        == HttpResponse(401, MessageBody("Invalid or expired token"))
  {
  }

  /** `createPost`: 201 with the new post, or 401 with the message for every
      failure, a schema failure included. */
  function CreatePostReply(outcome: Result<Post, ServiceError>): (r: HttpResponse<Post>)
    ensures r.status == 201 <==> outcome.Success?
    ensures r.status == 401 <==> outcome.Failure?
    ensures outcome.Success? ==> r.body == Json(outcome.value)
    ensures outcome.Failure? ==> r.body == MessageBody(outcome.error.Message())
  {
    Answer(outcome, 201, 401)
  }

  /** `updatePost`: 201 (not 200) with the patched post, or 400. */
  function UpdatePostReply(outcome: Result<Post, ServiceError>): (r: HttpResponse<Post>)
    ensures r.status == 201 <==> outcome.Success?
    ensures r.status == 400 <==> outcome.Failure?
    ensures outcome.Success? ==> r.body == Json(outcome.value)
    ensures outcome.Failure? ==> r.body == MessageBody(outcome.error.Message())
  {
    Answer(outcome, 201, 400)
  }

  /** `deletePost`: 200 with the fixed message 'Post deleted ' (trailing
      space) and never the removed post, or 404. */
  function DeletePostReply(outcome: Result<Post, ServiceError>): (r: HttpResponse<Post>)
    ensures r.body.MessageBody?
    ensures r.status == 200 <==> outcome.Success?
    ensures r.status == 404 <==> outcome.Failure?
    ensures outcome.Success? ==> r.body.message == "Post deleted "
    ensures outcome.Failure? ==> r.body.message == outcome.error.Message()
  {
    match outcome
    case Success(_) => HttpResponse(200, MessageBody("Post deleted "))
    case Failure(e) => HttpResponse(404, MessageBody(e.Message()))
  }

  /** `getUserPosts`'s `(page, limit)`: both texts default to '1', and a
      reading of 0 or NaN becomes 1. The service's own default limit of 10
      is therefore never used through this handler. */
  function GetUserPostsArgs(q: Query): (args: (int, int))
    ensures args.0 != 0 && args.1 != 0
    ensures q.page.None? ==> args.0 == 1
    ensures q.limit.None? ==> args.1 == 1
    ensures ParseInt(q.limit.GetOr("1")) == NaN || ParseInt(q.limit.GetOr("1")) == Num(0) ==> args.1 == 1
    ensures ParseInt(q.page.GetOr("1")) == NaN || ParseInt(q.page.GetOr("1")) == Num(0) ==> args.0 == 1
    ensures ParseInt(q.page.GetOr("1")).Num? && ParseInt(q.page.GetOr("1")).value != 0 ==> args.0 == ParseInt(q.page.GetOr("1")).value
    ensures ParseInt(q.limit.GetOr("1")).Num? && ParseInt(q.limit.GetOr("1")).value != 0 ==> args.1 == ParseInt(q.limit.GetOr("1")).value
  {
    QueryDefault("1", 1, 1);
    (QueryNumber(q.page, "1", 1), QueryNumber(q.limit, "1", 1))
  }

  /** `getUserPosts`: 200 with the listing, or 400 with the message. */
  function GetUserPostsReply(outcome: Result<Listing<Post>, ServiceError>): (r: HttpResponse<Listing<Post>>)
    ensures r.status == 200 <==> outcome.Success?
    ensures r.status == 400 <==> outcome.Failure?
    ensures outcome.Success? ==> r.body == Json(outcome.value)
    ensures outcome.Failure? ==> r.body == MessageBody(outcome.error.Message())
  {
    Answer(outcome, 200, 400)
  }

  /** With no query (which GetUserPostsArgs reads as `(1, 1)`), a malformed
      author identifier answers 400 'Invalid user Id' and a well-formed one
      answers 200 with at most one post, the author's first. */
  lemma UserPostsOutcomes(posts: seq<Post>, userId: string, isValidId: IdCheck)
    ensures var r := GetUserPostsReply(PostService.GetUserPosts(posts, userId, Some(1), Some(1), isValidId));
      && (!isValidId(userId) ==> r == HttpResponse(400, MessageBody("Invalid user Id")))
      && (isValidId(userId) ==> r.status == 200 && |r.body.value.items| <= 1)
      && (isValidId(userId) && r.body.value.items != [] ==> r.body.value.items[0] == PostService.PostsBy(posts, userId)[0])
  {
  }
}
