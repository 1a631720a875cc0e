/** `PostService` (src/services/postService.ts) against an in-memory `posts`
    collection. The read-only queries are functions of the collection's
    contents; `createPost`, `updatePost` and `deletePost` are methods that
    change the collection. */
module PostService {
  import opened Wrappers
  import opened Errors
  import opened Records
  import opened Pagination
  import opened Collaborators
  import opened PostModel

  const InvalidPostId: ServiceError := ValidationError("Invalid post Id")
  const PostNotFound: ServiceError := NotFoundError("Post not found")
  const InvalidUserId: ServiceError := ValidationError("Invalid user Id")
  const MissingToken: ServiceError := PlainError("Token not require.")
  const BadToken: ServiceError := PlainError("Invalid or expired token")

  /** The request body a post is created or patched from; a field the body
      lacks is `None`. */
  datatype PostData = PostData(title: Option<string>, content: Option<string>)

  /** `getAllPost(page = 1, limit = 10)`: the page of all posts in store order,
      with the total count and `Math.ceil(total / limit)` pages. An argument
      the caller leaves out is `None`. */
  function GetAllPost(posts: seq<Post>, page: Option<int>, limit: Option<int>): (r: Listing<Post>)
    requires page.GetOr(1) >= 1 && limit.GetOr(10) >= 1
    ensures var p, l := page.GetOr(1), limit.GetOr(10);
      && |r.items| <= l
      && |r.items| == (if (p - 1) * l >= |posts| then 0 else Min(l, |posts| - (p - 1) * l))
      && (forall k :: 0 <= k < |r.items| ==> r.items[k] == posts[(p - 1) * l + k])
      && r.pagination == PageInfo(|posts|, p, l, CeilDiv(|posts|, l))
  {
    Paginate(posts, page.GetOr(1), limit.GetOr(10))
  }

  /** `getPostById`: the identifier is checked before the store is read. */
  function GetPostById(posts: seq<Post>, id: string, isValidId: IdCheck): (r: Result<Post, ServiceError>)
    ensures !isValidId(id) ==> r == Failure(InvalidPostId)
    ensures isValidId(id) && id !in Ids(posts) ==> r == Failure(PostNotFound)
    ensures isValidId(id) && id in Ids(posts) ==> r.Success? && r.value in posts && r.value.id == id
  {
    if !isValidId(id) then Failure(InvalidPostId)
    else
      match IndexOf(Ids(posts), id)
      case None => Failure(PostNotFound)
      case Some(i) => Success(posts[i])
  }

  /** The outcome of `createPost(data, token)`: the post it saves, or the error
      it throws. The empty token is refused first, then a token that does not
      verify, then a document that breaks the schema (including an author
      claim that is missing or not an identifier). */
  function CreatedPost(data: PostData, token: string, verify: (string, string) -> VerifyResult, secret: string, isValidId: IdCheck, newId: string): (r: Result<Post, ServiceError>)
    ensures r == Failure(MissingToken) <==> token == []
    ensures r == Failure(BadToken) <==> token != [] && verify(token, secret).VerifyFailed?
    ensures r.Failure? && token != [] && verify(token, secret).Verified? ==>
      r.error == SchemaError("Post", PostSchemaErrors(data.title, data.content, verify(token, secret).claims.userId, isValidId))
    ensures r.Success? ==>
      && token != [] && verify(token, secret).Verified?
      && Some(r.value.author) == verify(token, secret).claims.userId
      && Some(r.value.title) == data.title && Some(r.value.content) == data.content
      && r.value.id == newId
      && ValidPost(r.value, isValidId)
    ensures token != [] && verify(token, secret).Verified? ==>
      (r.Success? <==> PostSchemaErrors(data.title, data.content, verify(token, secret).claims.userId, isValidId) == [])
  {
    if token == [] then Failure(MissingToken)
    else
      match verify(token, secret)
      case VerifyFailed(_) => Failure(BadToken)
      case Verified(claims) =>
        var errors := PostSchemaErrors(data.title, data.content, claims.userId, isValidId);
        if errors != [] then Failure(SchemaError("Post", errors))
        else Success(Post(newId, data.title.value, data.content.value, claims.userId.value))
  }

  /** `createPost`: saves the new post at the end of the collection. `newId`
      is the identifier the store assigns. */
  method CreatePost(store: PostCollection, data: PostData, token: string, verify: (string, string) -> VerifyResult, secret: string, isValidId: IdCheck, newId: string)
    returns (r: Result<Post, ServiceError>)
    requires store.Valid() && newId != [] && newId !in Ids(store.posts)
    modifies store
    ensures store.Valid()
    ensures r == CreatedPost(data, token, verify, secret, isValidId, newId)
    ensures store.posts == if r.Success? then old(store.posts) + [r.value] else old(store.posts)
  {
    if token == [] {
      return Failure(MissingToken);
    }
    var userId: Option<string>;
    match verify(token, secret) {
      case VerifyFailed(_) =>
        return Failure(BadToken);
      case Verified(claims) =>
        userId := claims.userId;
    }
    var errors := PostSchemaErrors(data.title, data.content, userId, isValidId);
    if errors != [] {
      return Failure(SchemaError("Post", errors));
    }
    var post := Post(newId, data.title.value, data.content.value, userId.value);
    DistinctAppend(Ids(store.posts), newId);
    assert Ids(store.posts + [post]) == Ids(store.posts) + [newId];
    store.posts := store.posts + [post];
    r := Success(post);
  }

  /** The post after `findByIdAndUpdate(id, data, {new: true})`: the supplied
      fields replace the stored ones; nothing else changes. Update validators
      do not run, so the schema's length bounds are not enforced here. */
  function Patched(p: Post, data: PostData): (q: Post)
    ensures q.id == p.id && q.author == p.author
    ensures data.title.Some? ==> q.title == data.title.value
    ensures data.title.None? ==> q.title == p.title
    ensures data.content.Some? ==> q.content == data.content.value
    ensures data.content.None? ==> q.content == p.content
  {
    p.(title := data.title.GetOr(p.title), content := data.content.GetOr(p.content))
  }

  /** Applying the same patch twice is the same as applying it once. */
  lemma PatchIdempotent(p: Post, data: PostData)
    ensures Patched(Patched(p, data), data) == Patched(p, data)
  {
  }

  /** Because update validators do not run, a valid post can be patched into
      one the schema rejects: an empty title is stored as given. */
  lemma PatchBypassesSchema(p: Post, isValidId: IdCheck)
    requires ValidPost(p, isValidId)
    ensures !ValidPost(Patched(p, PostData(Some([]), None)), isValidId)
  {
    assert "title" in PostSchemaErrors(Some([]), Some(p.content), Some(p.author), isValidId);
  }

  /** `updatePost(data, id)`: identifier check, then the patch; the patched post
      is returned and every other post is untouched. */
  method UpdatePost(store: PostCollection, data: PostData, id: string, isValidId: IdCheck)
    returns (r: Result<Post, ServiceError>)
    requires store.Valid()
    modifies store
    ensures store.Valid()
    ensures !isValidId(id) ==> r == Failure(InvalidPostId) && store.posts == old(store.posts)
    ensures isValidId(id) && id !in Ids(old(store.posts)) ==>
      r == Failure(PostNotFound) && store.posts == old(store.posts)
    ensures isValidId(id) && id in Ids(old(store.posts)) ==>
      var i := IndexOf(Ids(old(store.posts)), id).value;
      && r == Success(Patched(old(store.posts)[i], data))
      && store.posts == old(store.posts)[i := r.value]
  {
    if !isValidId(id) {
      return Failure(InvalidPostId);
    }
    match IndexOf(Ids(store.posts), id) {
      case None =>
        return Failure(PostNotFound);
      case Some(i) =>
        var updated := Patched(store.posts[i], data);
        assert Ids(store.posts[i := updated]) == Ids(store.posts);
        store.posts := store.posts[i := updated];
        r := Success(updated);
    }
  }

  /** `deletePost(id)`: identifier check, then removal; the removed post is
      returned and the others keep their order. */
  method DeletePost(store: PostCollection, id: string, isValidId: IdCheck)
    returns (r: Result<Post, ServiceError>)
    requires store.Valid()
    modifies store
    ensures store.Valid()
    ensures !isValidId(id) ==> r == Failure(InvalidPostId) && store.posts == old(store.posts)
    ensures isValidId(id) && id !in Ids(old(store.posts)) ==>
      r == Failure(PostNotFound) && store.posts == old(store.posts)
    ensures isValidId(id) && id in Ids(old(store.posts)) ==>
      var i := IndexOf(Ids(old(store.posts)), id).value;
      && r == Success(old(store.posts)[i])
      && store.posts == RemoveAt(old(store.posts), i)
  {
    if !isValidId(id) {
      return Failure(InvalidPostId);
    }
    match IndexOf(Ids(store.posts), id) {
      case None =>
        return Failure(PostNotFound);
      case Some(i) =>
        var removed := store.posts[i];
        DeleteKeepsOthers(store.posts, i);
        store.posts := RemoveAt(store.posts, i);
        r := Success(removed);
    }
  }

  /** Deleting position i of a well-formed collection leaves a well-formed
      collection without that identifier and with every other post. */
  lemma DeleteKeepsOthers(posts: seq<Post>, i: nat)
    requires Distinct(Ids(posts)) && i < |posts|
    requires forall j :: 0 <= j < |posts| ==> posts[j].id != []
    ensures Ids(RemoveAt(posts, i)) == RemoveAt(Ids(posts), i)
    ensures Distinct(Ids(RemoveAt(posts, i)))
    ensures posts[i].id !in Ids(RemoveAt(posts, i))
    ensures multiset(RemoveAt(posts, i)) + multiset{posts[i]} == multiset(posts)
    ensures forall j :: 0 <= j < |RemoveAt(posts, i)| ==> RemoveAt(posts, i)[j].id != []
  {
    assert Ids(RemoveAt(posts, i)) == RemoveAt(Ids(posts), i);
    DistinctRemoveAt(Ids(posts), i);
    RemoveAtMultiset(posts, i);
  }

  /** `Post.find({author: userId})`: the posts by one author, in store order. */
  function PostsBy(posts: seq<Post>, author: string): (r: seq<Post>)
    ensures |r| <= |posts|
    ensures forall k :: 0 <= k < |r| ==> r[k].author == author && r[k] in posts
    ensures forall p :: p in posts && p.author == author ==> p in r
    decreases |posts|
  {
    if posts == [] then []
    else if posts[0].author == author then [posts[0]] + PostsBy(posts[1..], author)
    else PostsBy(posts[1..], author)
  }

  /** PostsBy is the order-keeping filter: nothing for an empty store, and a
      post appended to the store is appended to the result exactly when it
      is by that author. Each post is therefore listed once, in store order. */
  lemma {:induction false} PostsByAppend(posts: seq<Post>, p: Post, author: string)
    ensures PostsBy([], author) == []
    ensures PostsBy(posts + [p], author) == PostsBy(posts, author) + (if p.author == author then [p] else [])
    decreases |posts|
  {
    if posts != [] {
      assert (posts + [p])[1..] == posts[1..] + [p];
      PostsByAppend(posts[1..], p, author);
    } else {
      assert ([] + [p])[1..] == [];
    }
  }

  /** `getUserPosts(userId, page = 1, limit = 10)`: identifier check, then the
      page of that author's posts, counted among that author's posts only. */
  function GetUserPosts(posts: seq<Post>, userId: string, page: Option<int>, limit: Option<int>, isValidId: IdCheck): (r: Result<Listing<Post>, ServiceError>)
    requires page.GetOr(1) >= 1 && limit.GetOr(10) >= 1
    ensures !isValidId(userId) ==> r == Failure(InvalidUserId)
    ensures isValidId(userId) ==> r.Success?
    ensures r.Success? ==>
      var p, l, mine := page.GetOr(1), limit.GetOr(10), PostsBy(posts, userId);
      && |r.value.items| <= l
      && |r.value.items| == (if (p - 1) * l >= |mine| then 0 else Min(l, |mine| - (p - 1) * l))
      && (forall k :: 0 <= k < |r.value.items| ==> r.value.items[k] == mine[(p - 1) * l + k])
      && (forall k :: 0 <= k < |r.value.items| ==> r.value.items[k].author == userId && r.value.items[k] in posts)
      && r.value.pagination == PageInfo(|PostsBy(posts, userId)|, page.GetOr(1), l, CeilDiv(|PostsBy(posts, userId)|, l))
  {
    if !isValidId(userId) then Failure(InvalidUserId)
    else
      var mine := PostsBy(posts, userId);
      var listing := Paginate(mine, page.GetOr(1), limit.GetOr(10));
      assert forall k :: 0 <= k < |listing.items| ==> listing.items[k] in mine;
      Success(listing)
  }
}
