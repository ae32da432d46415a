/** The load pipeline and the confirmed-mutation handlers that the Feed and
    Wall pages share (src/pages/Feed.jsx and src/pages/Wall.jsx define them
    identically): read the `content` array of a posts reply, give every post a
    `user` (falling back to `author`), sort newest first; after the server
    confirms an edit or a delete, patch or drop the post locally. */
module PageOps {
  import opened Wrappers
  import opened Js
  import opened Records
  import opened Seqs
  import opened Sorting
  import opened PostContext
  import opened Api

  /** What a `/posts` reply parses to: JSON `null`, an object whose `content`
      key may be missing or falsy, or any other JSON value (a number, a string,
      an array), on which reading `content` yields `undefined`. */
  datatype PageJson = JsonNull | JsonObject(content: Option<seq<Post>>) | JsonOther

  /** `data.content || []`, or `None` where reading `content` throws because
      `data` is `null`. */
  function PostsArray(data: Value<PageJson>): (r: Option<seq<Post>>)
    ensures r.None? <==> data == Null || data == Json(JsonNull)
    ensures r.Some? && data.Json? && data.json.JsonObject? && data.json.content.Some? ==>
              r.value == data.json.content.value
    ensures r.Some? && !(data.Json? && data.json.JsonObject? && data.json.content.Some?) ==>
              r.value == []
  {
    match data
    case Null => None
    case Text(_) => Some([])
    case Json(JsonNull) => None
    case Json(JsonOther) => Some([])
    case Json(JsonObject(c)) => Some(c.GetOr([]))
  }

  /** `{ ...p, user: p.user || p.author }`. */
  function Normalize(p: Post): (r: Post)
    ensures p.user.Some? ==> r.user == p.user
    ensures p.user.None? ==> r.user == p.author
    ensures r.(user := p.user) == p
  {
    p.(user := if p.user.Some? then p.user else p.author)
  }

  /** `posts.map(normalize)`. */
  function NormalizeAll(posts: seq<Post>): (r: seq<Post>)
    ensures |r| == |posts|
    ensures forall i :: 0 <= i < |posts| ==> r[i] == Normalize(posts[i])
  {
    seq(|posts|, i requires 0 <= i < |posts| => Normalize(posts[i]))
  }

  /** Normalising twice is normalising once. */
  lemma NormalizeIdempotent(posts: seq<Post>)
    ensures NormalizeAll(NormalizeAll(posts)) == NormalizeAll(posts)
  {
  }

  /** The sort key of the comparator `(a, b) => b.createdAt - a.createdAt`. */
  function NewestFirstKey(p: Post): int {
    -p.createdAt
  }

  /** `posts.sort((a, b) => new Date(b.createdAt) - new Date(a.createdAt))`:
      a stable sort, newest first. */
  function SortNewestFirst(posts: seq<Post>): (r: seq<Post>)
    ensures |r| == |posts|
    ensures multiset(r) == multiset(posts)
    ensures NewestFirst(r)
  {
    SortBy(NewestFirstKey, posts)
  }

  /** Posts created at the same instant keep the order the server sent them in. */
  lemma SortNewestFirstIsStable(posts: seq<Post>, createdAt: int)
    ensures Filter(CreatedAt(createdAt), SortNewestFirst(posts)) == Filter(CreatedAt(createdAt), posts)
  {
    forall p: Post ensures CreatedAt(createdAt)(p) == (NewestFirstKey(p) == -createdAt) {
    }
    SortByIsStableFor(NewestFirstKey, -createdAt, CreatedAt(createdAt), posts);
  }

  /** The posts created at instant `t`. */
  function CreatedAt(t: int): Post -> bool {
    (p: Post) => p.createdAt == t
  }

  /** Sorting an already sorted list changes nothing. */
  lemma SortNewestFirstIdempotent(posts: seq<Post>)
    ensures SortNewestFirst(SortNewestFirst(posts)) == SortNewestFirst(posts)
  {
    SortByIdempotent(NewestFirstKey, posts);
  }

  /** The list a successful load installs, or `None` where the load throws. */
  function LoadedPosts(reply: Outcome<PageJson>): (r: Option<seq<Post>>)
    ensures r.Some? <==> reply.Returned? && PostsArray(reply.value).Some?
    ensures r.Some? ==>
              var raw := PostsArray(reply.value).value;
              && multiset(r.value) == multiset(NormalizeAll(raw))
              && NewestFirst(r.value)
              && (forall i :: 0 <= i < |r.value| ==> r.value[i].user.Some? || r.value[i].author.None?)
  {
    if reply.Threw? then None
    else match PostsArray(reply.value)
      case None => None
      case Some(raw) =>
        var sorted := SortNewestFirst(NormalizeAll(raw));
        assert forall i :: 0 <= i < |sorted| ==> sorted[i] in multiset(NormalizeAll(raw));
        Some(sorted)
  }

  /** The patch applied after a confirmed edit: exactly `{ text, updatedAt }`. */
  function EditPatch(text: string, now: int): Patch {
    Patch(Some(text), Some(now))
  }

  /** `handleUpdate(postId, text)`: the local patch is applied only once the
      `PUT` has resolved; if it rejects, the error propagates and the list
      stays as it was.  `now` is the instant `new Date()` reads. */
  function HandleUpdate<J>(posts: seq<Post>, postId: JsId, text: string, now: int,
                           reply: Outcome<J>): (r: Result<seq<Post>>)
    ensures reply.Threw? ==> r == Err(reply.message)
    ensures reply.Returned? ==> r.Ok? && |r.value| == |posts|
    ensures r.Ok? ==> forall i :: 0 <= i < |posts| ==>
              r.value[i] == if posts[i].id == postId
                            then posts[i].(text := text, updatedAt := Some(now))
                            else posts[i]
  {
    match reply
    case Threw(m) => Err(m)
    case Returned(_) => Ok(UpdatePostById(posts, postId, EditPatch(text, now)))
  }

  /** `handleDelete(postId)`: the post leaves the list only once the `DELETE`
      has resolved. */
  function HandleDelete<J>(posts: seq<Post>, postId: JsId, reply: Outcome<J>): (r: Result<seq<Post>>)
    ensures reply.Threw? ==> r == Err(reply.message)
    ensures reply.Returned? ==> r.Ok?
    ensures r.Ok? ==> (forall i :: 0 <= i < |r.value| ==> r.value[i].id != postId)
                      && (forall i :: 0 <= i < |posts| && posts[i].id != postId ==> posts[i] in r.value)
                      && IsSubsequence(r.value, posts)
    ensures reply.Returned? ==> r == Ok(DeletePostById(posts, postId))
    ensures r.Ok? ==> forall p :: multiset(r.value)[p] == if p.id == postId then 0 else multiset(posts)[p]
  {
    forall p ensures multiset(DeletePostById(posts, postId))[p] == if p.id == postId then 0 else multiset(posts)[p] {
      DeleteKeepsOthers(posts, postId, p);
    }
    match reply
    case Threw(m) => Err(m)
    case Returned(_) => Ok(DeletePostById(posts, postId))
  }
}
