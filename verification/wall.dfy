/** The Wall page (src/pages/Wall.jsx): whose wall is shown, what it fetches,
    how a newly created post enters the shared list, and when the post form
    is offered.  Editing and deleting use the shared handlers of `PageOps`. */
module Wall {
  import opened Wrappers
  import opened Js
  import opened Records
  import opened Api
  import opened PostContext
  import opened PageOps
  import opened Text

  /** `currentWallUserId`: the logged-in user's id on one's own wall, else the
      route parameter `userId`, which the router delivers as a string. */
  function WallSubject(isOwnWall: bool, routeUserId: Option<string>, loggedIn: Option<UserRef>): (r: Option<JsId>)
    ensures isOwnWall ==> r == IdOf(loggedIn)
    ensures !isOwnWall ==> (r.Some? <==> routeUserId.Some?)
    ensures !isOwnWall && r.Some? ==> r.value == StrId(routeUserId.value)
  {
    if isOwnWall then IdOf(loggedIn)
    else match routeUserId
      case Some(s) => Some(StrId(s))
      case None => None
  }

  /** `isViewingOwnWall = isOwnWall || currentWallUserId === loggedInUser?.id`. */
  predicate IsViewingOwnWall(isOwnWall: bool, routeUserId: Option<string>, loggedIn: Option<UserRef>) {
    isOwnWall || WallSubject(isOwnWall, routeUserId, loggedIn) == IdOf(loggedIn)
  }

  /** The own-wall route is always one's own wall; a `/wall/:userId` route
      never is for a logged-in user with a numeric id, whatever the route says,
      because a string never `===` a number. */
  lemma OwnWallByRouteKind(routeUserId: Option<string>, loggedIn: Option<UserRef>)
    ensures IsViewingOwnWall(true, routeUserId, loggedIn)
    ensures loggedIn.Some? && loggedIn.value.id.NumId? ==> !IsViewingOwnWall(false, routeUserId, loggedIn)
  {
  }

  /** `{isViewingOwnWall && <PostForm … />}`: the post form is rendered
      exactly on what the page takes to be one's own wall. */
  predicate ShowsPostForm(isOwnWall: bool, routeUserId: Option<string>, loggedIn: Option<UserRef>) {
    IsViewingOwnWall(isOwnWall, routeUserId, loggedIn)
  }

  /** As written, a user who opens `/wall/<their own id>` is not shown the post
      form: the route's `"7"` is compared with `===` to the number `7`. */
  lemma OwnIdRouteHidesPostForm(u: UserRef)
    requires u.id.NumId?
    ensures !ShowsPostForm(false, Some(IntToString(u.id.n)), Some(u))
    ensures ShowsPostForm(true, None, Some(u))
  {
    OwnWallByRouteKind(Some(IntToString(u.id.n)), Some(u));
    OwnWallByRouteKind(None, Some(u));
  }

  /** The evidently intended test: the route's id and the logged-in id compared
      as the text they are written as, `String(a) === String(b)`. */
  predicate IsViewingOwnWallAsIntended(isOwnWall: bool, routeUserId: Option<string>, loggedIn: Option<UserRef>) {
    isOwnWall || IdText(WallSubject(isOwnWall, routeUserId, loggedIn)) == IdText(IdOf(loggedIn))
  }

  /** The post form under the intended test. */
  predicate ShowsPostFormAsIntended(isOwnWall: bool, routeUserId: Option<string>, loggedIn: Option<UserRef>) {
    IsViewingOwnWallAsIntended(isOwnWall, routeUserId, loggedIn)
  }

  /** With the intended test, `/wall/<m>` shows the post form exactly when `m`
      is the logged-in user's numeric id, and the own-wall route still does. */
  lemma AsIntendedOwnWallIffSameId(m: int, u: UserRef)
    requires u.id.NumId?
    ensures ShowsPostFormAsIntended(false, Some(IntToString(m)), Some(u)) <==> m == u.id.n
    ensures ShowsPostFormAsIntended(true, Some(IntToString(m)), Some(u))
  {
    if IntToString(m) == IntToString(u.id.n) {
      IntToStringInjective(m, u.id.n);
    }
  }

  /** The text `${loggedInUser?.id}` contributes to a URL. */
  function IdText(id: Option<JsId>): string {
    match id
    case Some(i) => IdToString(i)
    case None => "undefined"
  }

  /** The two requests a wall load issues: the profile, then the posts. */
  datatype WallRequests = WallRequests(profileEndpoint: string, postsEndpoint: string)

  /** What the load effect requests: nothing when the subject id is falsy;
      otherwise the profile and the posts of the LOGGED-IN user, whichever
      wall is on screen. */
  function LoadRequests(isOwnWall: bool, routeUserId: Option<string>, loggedIn: Option<UserRef>): (r: Option<WallRequests>)
    ensures var subject := WallSubject(isOwnWall, routeUserId, loggedIn);
            r.Some? <==> subject.Some? && IdTruthy(subject.value)
    ensures r.Some? ==> r.value.profileEndpoint == "/users/" + IdText(IdOf(loggedIn))
    ensures r.Some? ==> r.value.postsEndpoint == PostsEndpoint(UserPostsParams(IdOf(loggedIn), None, None))
  {
    var subject := WallSubject(isOwnWall, routeUserId, loggedIn);
    if subject.Some? && IdTruthy(subject.value) then
      Some(WallRequests("/users/" + IdText(IdOf(loggedIn)),
                        PostsEndpoint(UserPostsParams(IdOf(loggedIn), None, None))))
    else None
  }

  /** Visiting another user's wall fetches exactly what one's own wall fetches. */
  lemma LoadIgnoresWallSubject(route1: Option<string>, route2: Option<string>, loggedIn: Option<UserRef>)
    requires LoadRequests(false, route1, loggedIn).Some? && LoadRequests(false, route2, loggedIn).Some?
    ensures LoadRequests(false, route1, loggedIn) == LoadRequests(false, route2, loggedIn)
    ensures LoadRequests(false, route1, loggedIn) == LoadRequests(true, route1, loggedIn)
            || LoadRequests(true, route1, loggedIn).None?
  {
  }

  /** The page's own state next to the shared post list; `wallUser` holds the
      profile value as the API returned it. */
  datatype WallPage<P> = WallPage(wallUser: Value<P>, posts: seq<Post>, loading: bool, error: Option<string>)

  const WallLoadError := "Failed to load wall data. Please try again."

  /** `loadWallData()` once the profile request settled with `profileReply`
      and, if that succeeded, the posts request with `postsReply`. */
  function LoadWallData<P>(page: WallPage<P>, profileReply: Outcome<P>, postsReply: Outcome<PageJson>): (r: WallPage<P>)
    ensures !r.loading
    ensures profileReply.Threw? ==> r == page.(loading := false, error := Some(WallLoadError))
    ensures profileReply.Returned? ==> r.wallUser == profileReply.value
    ensures profileReply.Returned? && LoadedPosts(postsReply).None? ==>
              r.posts == page.posts && r.error == Some(WallLoadError)
    ensures profileReply.Returned? && LoadedPosts(postsReply).Some? ==>
              var raw := PostsArray(postsReply.value).value;
              && r.error.None?
              && multiset(r.posts) == multiset(NormalizeAll(raw))
              && NewestFirst(r.posts)
  {
    match profileReply
    case Threw(_) => page.(loading := false, error := Some(WallLoadError))
    case Returned(user) =>
      match LoadedPosts(postsReply)
      case Some(sorted) => WallPage(user, sorted, false, None)
      case None => page.(wallUser := user, loading := false, error := Some(WallLoadError))
  }

  /** `handleCreatePost(postData)` once `createPost` settled with `reply`: the
      server's post goes in front, with its `user` overwritten by the logged-in
      user's `{ id, username, email }`.  With nobody logged in, reading
      `loggedInUser.id` throws before any request is made. */
  function HandleCreatePost(posts: seq<Post>, loggedIn: Option<UserRef>, reply: Result<Post>): (r: Result<seq<Post>>)
    ensures loggedIn.None? ==> r == Err(NullAccessMessage("id"))
    ensures loggedIn.Some? && reply.Err? ==> r == Err(reply.error)
    ensures loggedIn.Some? && reply.Ok? ==>
              && r.Ok? && |r.value| == |posts| + 1 && r.value[1..] == posts
              && r.value[0].user == Some(UserRef(loggedIn.value.id, loggedIn.value.username, loggedIn.value.email))
              && r.value[0].(user := reply.value.user) == reply.value
  {
    match loggedIn
    case None => Err(NullAccessMessage("id"))
    case Some(u) =>
      match reply
      case Err(m) => Err(m)
      case Ok(created) =>
        Ok(AddPost(posts, created.(user := Some(UserRef(u.id, u.username, u.email)))))
  }

  /** Whatever author the server reports for a new post, the wall shows the
      logged-in user as its author. */
  lemma CreatedPostAuthorIgnoresServer(posts: seq<Post>, u: UserRef, created: Post, claimed: Option<UserRef>)
    ensures HandleCreatePost(posts, Some(u), Ok(created.(user := claimed)))
         == HandleCreatePost(posts, Some(u), Ok(created))
  {
  }

  /** A created post, if its id is new, can be taken back out by a confirmed
      delete of that id. */
  lemma CreateThenDeleteRestores<J>(posts: seq<Post>, u: UserRef, created: Post, reply: Outcome<J>)
    requires created.id !in Ids(posts) && reply.Returned?
    ensures HandleDelete(HandleCreatePost(posts, Some(u), Ok(created)).value, created.id, reply) == Ok(posts)
  {
    var stamped := created.(user := Some(UserRef(u.id, u.username, u.email)));
    AddThenDeleteRestores(posts, stamped);
  }
}
