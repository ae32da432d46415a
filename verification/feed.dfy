/** The Feed page (src/pages/Feed.jsx): one request for the newest posts,
    whose normalised and sorted result replaces the shared post list, plus the
    ownership test that decides which posts offer edit and delete. */
module Feed {
  import opened Wrappers
  import opened Js
  import opened Records
  import opened Api
  import opened PageOps

  /** The page's own state next to the shared post list. */
  datatype FeedPage = FeedPage(posts: seq<Post>, loading: bool, error: Option<string>)

  const LoadError := "Failed to load posts. Please try again."

  /** The endpoint `loadPosts` requests. The page keeps a `page` counter but
      calls `fetchFeedPosts()` without arguments, so the counter plays no part. */
  function LoadPostsEndpoint(page: int): (e: string)
    ensures e == "/posts?page=0&size=10&sort=createdAt,desc"
  {
    var pairs := QueryPairs(FeedPostsParams(None, None));
    assert pairs == [("page", "0"), ("size", "10"), ("sort", NewestFirstSort)] by { DefaultFeedPairs(); }
    assert QueryString(pairs) == "page=0&size=10&sort=createdAt,desc" by { DefaultFeedQueryString(); }
    DefaultFeedEndpointText();
    PostsEndpoint(FeedPostsParams(None, None))
  }

  /** `loadPosts()` once the request has settled with `reply`. */
  function LoadPosts(page: FeedPage, reply: Outcome<PageJson>): (r: FeedPage)
    ensures !r.loading
    ensures r.error.None? <==> LoadedPosts(reply).Some?
    ensures r.error.Some? ==> r.error.value == LoadError && r.posts == page.posts
    ensures r.error.None? ==>
              var raw := PostsArray(reply.value).value;
              multiset(r.posts) == multiset(NormalizeAll(raw)) && NewestFirst(r.posts)
  {
    match LoadedPosts(reply)
    case Some(sorted) => FeedPage(sorted, false, None)
    case None => page.(loading := false, error := Some(LoadError))
  }

  /** A successful load replaces the list whatever it held before. */
  lemma LoadReplacesList(page1: FeedPage, page2: FeedPage, reply: Outcome<PageJson>)
    requires LoadedPosts(reply).Some?
    ensures LoadPosts(page1, reply) == LoadPosts(page2, reply)
  {
  }

  /** A reply without a `content` array loads an empty feed; a `null` reply fails. */
  lemma MissingContentLoadsNothing(page: FeedPage)
    ensures LoadPosts(page, Returned(Json(JsonObject(None)))).posts == []
    ensures LoadPosts(page, Returned(Text("not json"))).posts == []
    ensures LoadPosts(page, Returned(Null)).error == Some(LoadError)
  {
  }

  /** `post.user?.id === user?.id`. */
  predicate IsOwnPost(post: Post, user: Option<UserRef>) {
    IdOf(post.user) == IdOf(user)
  }

  /** For a logged-in user, a post is theirs exactly when its `user` carries
      their id. */
  lemma OwnPostWhenLoggedIn(post: Post, user: UserRef)
    ensures IsOwnPost(post, Some(user)) <==> post.user.Some? && post.user.value.id == user.id
  {
  }

  /** After normalisation a post that names its author only under `author`
      is owned by that author. */
  lemma NormalizedAuthorOwnsPost(post: Post, user: UserRef)
    requires post.user.None? && post.author.Some?
    ensures IsOwnPost(Normalize(post), Some(user)) <==> post.author.value.id == user.id
  {
  }

  /** With nobody logged in, `undefined === undefined` makes every post without
      a user count as one's own. */
  lemma AnonymousOwnsUserlessPosts(post: Post)
    requires post.user.None?
    ensures IsOwnPost(post, None)
  {
  }
}
