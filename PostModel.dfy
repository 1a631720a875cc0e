/** The `Post` model: the record a post document holds and the constraints
    `postSchema` puts on its fields. Timestamps are not modelled. */
module PostModel {
  import opened Wrappers
  import opened Records
  import opened Collaborators

  /** A stored post; `author` is the identifier of a user. */
  datatype Post = Post(id: string, title: string, content: string, author: string)

  /** The paths that fail `postSchema`'s validators when a post with these
      fields is saved, in schema order: title (required, 1..30), content
      (required, 1..6000) and author (required, cast to an identifier). An
      absent field is `None`. */
  function PostSchemaErrors(title: Option<string>, content: Option<string>, author: Option<string>, isValidId: IdCheck): (paths: seq<string>)
    ensures "title" in paths <==> !(title.Some? && 1 <= |title.value| <= 30)
    ensures "content" in paths <==> !(content.Some? && 1 <= |content.value| <= 6000)
    ensures "author" in paths <==> !(author.Some? && author.value != [] && isValidId(author.value))
    ensures paths == [] <==>
      && title.Some? && 1 <= |title.value| <= 30
      && content.Some? && 1 <= |content.value| <= 6000
      && author.Some? && author.value != [] && isValidId(author.value)
  {
    (if title.Some? && 1 <= |title.value| <= 30 then [] else ["title"])
    + (if content.Some? && 1 <= |content.value| <= 6000 then [] else ["content"])
    + (if author.Some? && author.value != [] && isValidId(author.value) then [] else ["author"])
  }

  /** A stored post that satisfies every field constraint of the schema. */
  predicate ValidPost(p: Post, isValidId: IdCheck) {
    PostSchemaErrors(Some(p.title), Some(p.content), Some(p.author), isValidId) == []
  }

  /** The `_id`s of the posts collection, in order. */
  function Ids(posts: seq<Post>): (ids: seq<string>)
    ensures |ids| == |posts| && forall i :: 0 <= i < |posts| ==> ids[i] == posts[i].id
  {
    seq(|posts|, i requires 0 <= i < |posts| => posts[i].id)
  }

  /** `Post.findById(id)` for an identifier that casts: the post with that
      identifier, or `null`. */
  function FindById(posts: seq<Post>, id: string): (r: Option<Post>)
    ensures r.None? <==> id !in Ids(posts)
    ensures r.Some? ==> r.value in posts && r.value.id == id
  {
    match IndexOf(Ids(posts), id)
    case None => None
    case Some(i) => Some(posts[i])
  }

  /** The `posts` collection: documents in insertion order, with unique
      non-empty identifiers. */
  class PostCollection {
    var posts: seq<Post>

    ghost predicate Valid()
      reads this
    {
      && Distinct(Ids(posts))
      && forall i :: 0 <= i < |posts| ==> posts[i].id != []
    }

    constructor ()
      ensures Valid() && posts == []
    {
      posts := [];
    }
  }
}
