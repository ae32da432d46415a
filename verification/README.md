# social-posts-app, modelled in Dafny

This project models the core of a small social network. The client is a React app. It signs users up and in, shows a feed and per-user walls of posts, and lets users compose, edit and delete posts and edit their profile. The source also contains two Spring backends whose endpoints differ from the ones the client calls (the client asks for `/users/login`, `/users/{id}` and a paged `GET /posts`; the backends map `/auth/login`, `/posts/user/{userId}` and return plain lists). Each backend's services are modelled on their own terms: one handles posts, comments and one-directional friend requests; the other handles symmetric friendships.

The client is modelled as pure functions over immutable values:

- A component's state is a datatype.
- Every `await` is replaced by the value it settled with. That value is an `Api.Outcome`: it either `Threw(message)` or `Returned` a `null`, a parsed JSON value or raw text.
- The browser's `localStorage` is a `map<string, string>`.
- `JSON.parse` and `JSON.stringify` of values the model does not inspect are function parameters.
- Clock readings (`new Date()`, `LocalDateTime.now()`) are integer parameters.

JavaScript identity matters in several places, so ids are `Js.JsId`: a number or a string. `===` never equates a number with a string. Truthiness, `String.prototype.trim` whitespace and `.length` in UTF-16 code units are written out in `Js` and `Text`.

The backends are modelled as tables:

- Each table is a `seq` of rows, with an identity counter for new ids.
- Each `findById` returns the first row with that id.
- `orElseThrow()` becomes an `Err` carrying the exception's message.
- An ordered query is a stable sort of the table in table order.

Modules, one per source file, plus shared foundations:

| module | models |
|---|---|
| `Wrappers`, `Seqs`, `Sorting` | `Option`/`Result`; order-preserving filter; stable sort by an integer key |
| `Text`, `Js` | JavaScript strings, whitespace, lower-casing, decimal numbers, truthiness, V8 null-access messages |
| `Records` | the post and user shapes the client handles |
| `Api` | `src/services/api.js`: headers, request, reply classification, the `/posts` query, user search |
| `PostContext` | `src/context/PostContext.jsx`: the shared post list and its reducer-style updates |
| `PageOps`, `Feed`, `Wall` | `src/pages/Feed.jsx` and `src/pages/Wall.jsx` |
| `AuthContext` | `src/context/AuthContext.jsx` |
| `Register`, `PostForm`, `EditProfile` | `src/pages/Register.jsx`, `src/components/PostForm.jsx`, `src/components/EditProfileDialog.jsx` |
| `Entities`, `FriendshipService`, `CommentService`, `PostService` | the Spring Boot backend's entities and services |
| `WebAppFriendshipService` | the friendship service of the second backend |

## Model

| member | source | states |
|---|---|---|
| Api.AuthHeaders | src/services/api.js:5-11 | JSON content type always; `Authorization: Bearer <token>` exactly when a truthy token is stored; no other header |
| Api.RequestHeaders | src/services/api.js:14-24 | the bearer header is sent exactly when the call requires authentication and a truthy token is stored |
| Api.RequestHeadersAgreeWithAuthHeaders | src/services/api.js:5-24 | the two header builders agree: an authenticated call sends `getAuthHeaders()`, an anonymous one the headers of an empty store |
| Api.BuildRequest | src/services/api.js:27-30 | URL is base plus endpoint; the caller's method and body pass through; the headers are the computed ones |
| Api.CallerHeadersAreReplaced | src/services/api.js:27-30 | headers a caller passes in options never reach the request |
| Api.Classify | src/services/api.js:26-56 | network errors rethrown; a non-2xx status throws `HTTP <status>: <body or statusText>`; 204 or an empty body yields null; otherwise parsed JSON, else the raw text; each case both ways |
| Api.ErrorStatusWinsOverBody | src/services/api.js:35-37 | an error status throws even when the body would parse or is empty, and then the status text is shown |
| Api.HttpErrorMessageNamesStatus | src/services/api.js:36 | equal error messages imply equal statuses: the status can be read back |
| Api.QueryPairsContents | src/services/api.js:137-141 | `userId` present iff truthy, `page` and `size` iff defined, `sort` iff truthy, with their values |
| Api.QueryPairsOrder | src/services/api.js:137-141 | pairs come in the order userId, page, size, sort |
| Api.PostsEndpoint | src/services/api.js:143-144 | `/posts` alone for an empty query, else `/posts?` followed by the query string |
| Api.PostsQueryRoundTrip | src/services/api.js:137-144 | parsing the query string of `/posts?...` back gives exactly the appended pairs |
| Api.QueryStringRoundTrip | src/services/api.js:143 | `key=value` pairs joined by `&` parse back to the same pairs, when keys and values hold no `&` or `=` |
| Api.FeedPostsParams | src/services/api.js:188-189 | the feed asks for page 0, size 10 by default, sorted `createdAt,desc`, with no user |
| Api.UserQueryExtendsFeedQuery | src/services/api.js:188-192 | the user-posts query is the feed query with `userId` in front when the id is truthy |
| Api.SearchUsers | src/services/api.js:209-215 | the result keeps order and holds each matching user exactly as often as the list does, and no other user |
| Api.EmptySearchFindsEveryone | src/services/api.js:209-215 | the empty query returns every user in order |
| Api.SearchIgnoresQueryCase | src/services/api.js:209-215 | a query and its lower-cased form find the same users |
| PostContext.ApplyPatch | src/context/PostContext.jsx:11 | patched fields take the patch's values; the rest of the post is unchanged |
| PostContext.AddPost | src/context/PostContext.jsx:9 | the new post goes in front of the unchanged list |
| PostContext.UpdatePostById | src/context/PostContext.jsx:10-11 | same length and order; posts with the id are patched; every other post is unchanged |
| PostContext.UpdateAbsentIsIdentity | src/context/PostContext.jsx:10-11 | updating an id that is absent changes nothing |
| PostContext.UpdateIdempotent | src/context/PostContext.jsx:10-11 | applying the same update twice equals applying it once |
| PostContext.DeletePostById | src/context/PostContext.jsx:12-13 | no survivor has the id; every other post survives, in order |
| PostContext.DeleteKeepsOthers | src/context/PostContext.jsx:12-13 | each post without the id occurs as often as before; posts with the id do not occur |
| PostContext.DeleteAbsentIsIdentity | src/context/PostContext.jsx:12-13 | deleting an absent id changes nothing |
| PostContext.DeleteIdempotent | src/context/PostContext.jsx:12-13 | deleting twice equals deleting once |
| PostContext.AddThenDeleteRestores | src/context/PostContext.jsx:9-13 | adding a post with a new id and deleting that id restores the list |
| PostContext.UpdateThenDelete | src/context/PostContext.jsx:10-13 | deleting after updating the same id equals deleting alone |
| PostContext.LastSetAllWins | src/context/PostContext.jsx:9-14 | after any run of actions, the list is determined by the last `setAllPosts` and what follows it |
| PageOps.PostsArray | src/pages/Feed.jsx:29 | the content array: absent only where reading `content` of null throws; the content when present, else empty |
| PageOps.Normalize | src/pages/Feed.jsx:32-35 | `user` falls back to `author` only when `user` is missing; nothing else changes |
| PageOps.NormalizeIdempotent | src/pages/Feed.jsx:32-35 | normalising twice equals normalising once |
| PageOps.SortNewestFirst | src/pages/Feed.jsx:37-39 | a permutation of the input, newest first |
| PageOps.SortNewestFirstIsStable | src/pages/Feed.jsx:37-39 | posts with equal `createdAt` keep the server's order |
| PageOps.SortNewestFirstIdempotent | src/pages/Feed.jsx:37-39 | sorting a sorted list changes nothing |
| PageOps.LoadedPosts | src/pages/Feed.jsx:28-41 | a load installs a newest-first permutation of the normalised content, in which every post with an author has a user; it installs nothing when the request throws or the reply is null |
| PageOps.HandleUpdate | src/pages/Feed.jsx:50-53 | a rejected PUT propagates its error and changes nothing; a resolved one patches text and `updatedAt` of the post with that id only |
| PageOps.HandleDelete | src/pages/Feed.jsx:55-58 | a rejected DELETE propagates its error; a resolved one is `PostContext.DeletePostById`: every post with that id is dropped, every other post kept with its multiplicity and order |
| Feed.LoadPostsEndpoint | src/pages/Feed.jsx:28 | whatever page the feed is on, it requests `/posts?page=0&size=10&sort=createdAt,desc` |
| Feed.LoadPosts | src/pages/Feed.jsx:23-48 | loading ends; on success the error is cleared and the list is the sorted normalised content; otherwise the fixed error message and the old list |
| Feed.LoadReplacesList | src/pages/Feed.jsx:41 | a successful load ignores the previous list |
| Feed.MissingContentLoadsNothing | src/pages/Feed.jsx:29 | a reply without `content`, or a text reply, loads an empty list; a null reply fails |
| Feed.OwnPostWhenLoggedIn | src/pages/Feed.jsx:87 | a logged-in user owns a post exactly when the post's user has their id |
| Feed.NormalizedAuthorOwnsPost | src/pages/Feed.jsx:32-35 | a post known only by `author` belongs, once normalised, to that author |
| Feed.AnonymousOwnsUserlessPosts | src/pages/Feed.jsx:87 | with nobody logged in, every post without a user counts as one's own |
| Wall.WallSubject | src/pages/Wall.jsx:25 | the own-wall route shows the logged-in id; otherwise the route's string id |
| Wall.OwnWallByRouteKind | src/pages/Wall.jsx:26 | the own-wall route is always one's own wall; a `/wall/:userId` route never is for a numeric logged-in id |
| Wall.ShowsPostForm | src/pages/Wall.jsx:94-98 | the post form is rendered exactly when `isViewingOwnWall` holds; its consequences are stated by `Wall.OwnIdRouteHidesPostForm` |
| Wall.OwnIdRouteHidesPostForm | src/pages/Wall.jsx:94-98 | as written, the post form is hidden on `/wall/<own id>` for a numeric id, and shown on the own-wall route |
| Wall.AsIntendedOwnWallIffSameId | src/pages/Wall.jsx:25-26 | with ids compared as text, `/wall/<m>` shows the post form exactly when `m` is the logged-in id |
| Wall.LoadRequests | src/pages/Wall.jsx:28-42 | requests are made exactly when the subject id is truthy, and they fetch the logged-in user's profile and posts |
| Wall.LoadIgnoresWallSubject | src/pages/Wall.jsx:38-42 | two different walls fetch the same data, which is the data of one's own wall |
| Wall.LoadWallData | src/pages/Wall.jsx:32-60 | a profile failure sets the error and keeps everything else; otherwise the profile is stored, and the posts are the sorted normalised content or, on failure, the old list with the error |
| Wall.HandleCreatePost | src/pages/Wall.jsx:63-74 | with nobody logged in it throws reading `id`; a rejected create propagates; else the server's post goes in front, its `user` replaced by the logged-in user |
| Wall.CreatedPostAuthorIgnoresServer | src/pages/Wall.jsx:66-73 | the author the server reports for a created post makes no difference |
| Wall.CreateThenDeleteRestores | src/pages/Wall.jsx:63-85 | deleting a just-created post with a new id restores the list |
| AuthContext.MessageOr | src/context/AuthContext.jsx:64 | the error's message when non-empty, else the fallback |
| AuthContext.ClearAuthData | src/context/AuthContext.jsx:38-43 | removes token, refreshToken and user and forgets the user; every other stored key is kept |
| AuthContext.Logout | src/context/AuthContext.jsx:116-125 | afterwards not authenticated, and neither token nor user is stored |
| AuthContext.LogoutIdempotent | src/context/AuthContext.jsx:116-118 | logging out twice equals logging out once |
| AuthContext.Mount | src/context/AuthContext.jsx:20-36 | a user is restored exactly when user and token are stored and the user parses; an unparsable user clears the auth keys; loading ends |
| AuthContext.LogoutThenMountIsAnonymous | src/context/AuthContext.jsx:20-43 | after logout, the next mount restores nobody |
| AuthContext.Register | src/context/AuthContext.jsx:45-66 | success exactly when the reply has a truthy `id`, and then that user is stored and set; any failure leaves the session unchanged, with the thrown message, the null-access message or the fallback |
| AuthContext.RegisterAloneDoesNotRestore | src/context/AuthContext.jsx:45-61 | registering stores no token, so without an earlier token the next mount restores nobody |
| AuthContext.FindByUsername | src/context/AuthContext.jsx:88-90 | the first user with that exact username, or none when no user has it |
| AuthContext.Login | src/context/AuthContext.jsx:69-111 | no truthy token fails with 'Invalid response from server'; success stores the token, the refresh token if truthy, and the found user; a failure never changes the user |
| AuthContext.LoginWithUsers | src/context/AuthContext.jsx:84-106 | an unknown username fails with 'User profile not found' and changes nothing; a found user is set and stored |
| AuthContext.UnknownProfileKeepsToken | src/context/AuthContext.jsx:78-94 | a login whose username is missing from the user list fails but leaves the token stored |
| AuthContext.LoginThenMountRestores | src/context/AuthContext.jsx:96-106 | if parse inverts stringify, a successful login is restored by the next mount |
| Register.Set | src/pages/Register.jsx:27-30 | the named field takes the value; other fields unchanged |
| Register.EmailError | src/pages/Register.jsx:47-53 | an email error exists exactly when the email fails `\S+@\S+\.\S+`, and it is always 'Invalid email format' |
| Register.ValidateForm | src/pages/Register.jsx:40-60 | username error iff blank after trim, email error iff pattern fails, password error iff empty, with their messages; nothing else |
| Register.ValidIff | src/pages/Register.jsx:40-60 | no errors iff the username is non-blank, the email matches and a password is given |
| Register.EmailRequiredIsOverwritten | src/pages/Register.jsx:47-53 | 'Email is required' is never the email error: every blank email also fails the pattern |
| Register.HandleChange | src/pages/Register.jsx:24-38 | the field takes the value; its showing error becomes empty; all other errors unchanged |
| Register.Submit | src/pages/Register.jsx:64-79 | an invalid form stops with its errors; a valid one sends its four fields |
| Register.InvalidFormSendsNothing | src/pages/Register.jsx:64-68 | any failing check prevents the request |
| Register.Settle | src/pages/Register.jsx:81-96 | success clears errors and shows the default message; a failure result or thrown error shows only a general error; loading ends |
| Register.HandleSubmit | src/pages/Register.jsx:62-97 | an invalid form only sets the validation errors; a valid form settles with the register result |
| Register.FailureShowsOnlyGeneral | src/pages/Register.jsx:88-90 | after a failed registration the general error is the only error |
| PostForm.HandleSubmit | src/components/PostForm.jsx:10-31 | blank content alerts and changes nothing; `onSubmit(user.id, {text})` is called iff the content is non-blank and the user id is truthy; the content is cleared and onCancel called only after success; else the failure alert |
| PostForm.ClearedOnlyAfterSuccess | src/components/PostForm.jsx:23-28 | the content is cleared exactly when `onSubmit` was called and resolved |
| PostForm.SubmitDisabled | src/components/PostForm.jsx:84 | disabled iff submitting, blank, or over 500 UTF-16 code units |
| PostForm.LimitCountsCodeUnits | src/components/PostForm.jsx:60-67 | 500 characters pass and 501 do not; a character outside the BMP counts twice |
| PostForm.HandlerIgnoresLimit | src/components/PostForm.jsx:10-31 | the handler itself sends over-long content |
| EditProfile.InitialForm | src/components/EditProfileDialog.jsx:4-9 | the user's name and email, bio or empty, empty password |
| EditProfile.HandleChange | src/components/EditProfileDialog.jsx:11-16 | the named field takes the value; others unchanged |
| EditProfile.HandleSubmit | src/components/EditProfileDialog.jsx:18-29 | the payload copies the form, with the password omitted exactly when it is empty |
| EditProfile.UntouchedDialogKeepsPassword | src/components/EditProfileDialog.jsx:4-29 | submitting the untouched dialog sends no password |
| EditProfile.PayloadDeterminesForm | src/components/EditProfileDialog.jsx:21-26 | the payload determines the form, so omitting an empty password loses nothing |
| Entities.FindRow | src/main/java/se/jensen/quyen/springboot/service/PostService.java:23 | a repository lookup (`findById`, `findByUsername`) finds a stored row exactly when one matches, and the row it finds matches |
| FriendshipService.StatusName | src/main/java/se/jensen/quyen/springboot/service/FriendshipService.java:65 | one of PENDING, ACCEPTED, REJECTED |
| FriendshipService.ToDto | src/main/java/se/jensen/quyen/springboot/service/FriendshipService.java:60-67 | id, both usernames and the status name |
| FriendshipService.Create | src/main/java/se/jensen/quyen/springboot/service/FriendshipService.java:26-36 | fails with 'No value present' iff either user is missing; otherwise appends a PENDING row with the next id between those users |
| FriendshipService.CreatePreservesValid | src/main/java/se/jensen/quyen/springboot/service/FriendshipService.java:26-36 | ids stay distinct and below the counter |
| FriendshipService.SetStatus | src/main/java/se/jensen/quyen/springboot/service/FriendshipService.java:39-50 | fails iff the id is absent; otherwise only that row's status changes |
| FriendshipService.Accept | src/main/java/se/jensen/quyen/springboot/service/FriendshipService.java:39-43 | the returned row is ACCEPTED with the requested id |
| FriendshipService.Reject | src/main/java/se/jensen/quyen/springboot/service/FriendshipService.java:46-50 | the returned row is REJECTED with the requested id |
| FriendshipService.SetStatusPreservesValid | src/main/java/se/jensen/quyen/springboot/service/FriendshipService.java:39-50 | status changes keep the ids distinct |
| FriendshipService.NoTerminalStatus | src/main/java/se/jensen/quyen/springboot/service/FriendshipService.java:39-50 | a rejected request can still be accepted and vice versa; the last decision wins |
| FriendshipService.GetFriends | src/main/java/se/jensen/quyen/springboot/service/FriendshipService.java:53-58 | the addressees of the user's accepted sent requests, one per request (listed in the model's table order) |
| FriendshipService.GetFriendsMembership | src/main/java/se/jensen/quyen/springboot/service/FriendshipService.java:53-58 | a user is a friend iff an accepted request from the user is addressed to them |
| FriendshipService.FriendsIsOneDirectional | src/main/java/se/jensen/quyen/springboot/service/FriendshipService.java:53-58 | after Ann's request to Bob is accepted, Bob is Ann's friend but not the reverse |
| FriendshipService.CreateChangesNoFriends | src/main/java/se/jensen/quyen/springboot/service/FriendshipService.java:26-58 | a new request changes nobody's friends |
| WebAppFriendshipService.Save | src/main/java/se/jensen/quyen/socialwebappbackend/service/FriendshipService.java:17-20 | the stored row is PENDING under the next id, whatever status was submitted |
| WebAppFriendshipService.SaveIgnoresSubmittedStatus | src/main/java/se/jensen/quyen/socialwebappbackend/service/FriendshipService.java:17-20 | two submitted statuses give the same result |
| WebAppFriendshipService.GetAll | src/main/java/se/jensen/quyen/socialwebappbackend/service/FriendshipService.java:23-25 | every stored row, each once (listed in the model's table order) |
| WebAppFriendshipService.SaveThenGetAll | src/main/java/se/jensen/quyen/socialwebappbackend/service/FriendshipService.java:17-25 | a saved request joins the rows as a multiset, PENDING, and all earlier rows stay; in the model's table order it is listed last |
| WebAppFriendshipService.AcceptFriendship | src/main/java/se/jensen/quyen/socialwebappbackend/service/FriendshipService.java:28-34 | 'Friendship not found' iff no row has the id; otherwise that row becomes ACCEPTED and nothing else changes |
| WebAppFriendshipService.AcceptMakesFriends | src/main/java/se/jensen/quyen/socialwebappbackend/service/FriendshipService.java:28-49 | after an accept, the receiver is on the requester's friend list and, for distinct ids, the requester on the receiver's |
| WebAppFriendshipService.GetFriendsOfUser | src/main/java/se/jensen/quyen/socialwebappbackend/service/FriendshipService.java:37-49 | for each accepted friendship the user is in: the receiver if the user requested it, else the requester |
| WebAppFriendshipService.FriendsAreSymmetric | src/main/java/se/jensen/quyen/socialwebappbackend/service/FriendshipService.java:37-49 | each party of an accepted friendship is a friend of the other |
| WebAppFriendshipService.Listed | src/main/java/se/jensen/quyen/socialwebappbackend/service/FriendshipService.java:37-49 | an accepted friendship the user is in lists the other party |
| WebAppFriendshipService.OnlyAcceptedCount | src/main/java/se/jensen/quyen/socialwebappbackend/service/FriendshipService.java:38-42 | dropping non-accepted rows changes nobody's friends |
| WebAppFriendshipService.SaveChangesNoFriends | src/main/java/se/jensen/quyen/socialwebappbackend/service/FriendshipService.java:17-49 | a saved request changes nobody's friends |
| CommentService.MapToDto | src/main/java/se/jensen/quyen/springboot/service/CommentService.java:64-71 | id, text, time and the author's username |
| CommentService.Create | src/main/java/se/jensen/quyen/springboot/service/CommentService.java:32-50 | 'User not found' when the user is missing, else 'Post not found' when the post is missing; otherwise appends a comment by that user on that post, with the next id and the current time |
| CommentService.UserCheckedFirst | src/main/java/se/jensen/quyen/springboot/service/CommentService.java:34-38 | when both user and post are missing, the user error is reported |
| CommentService.FindByPostOrderByCreatedAtAsc | src/main/java/se/jensen/quyen/springboot/repository/CommentRepository.java:11 | exactly the post's comments, oldest first |
| CommentService.GetByPost | src/main/java/se/jensen/quyen/springboot/service/CommentService.java:52-62 | 'Post not found' iff the post is missing; otherwise the post's comments as DTOs, oldest first |
| CommentService.GetByPostCounts | src/main/java/se/jensen/quyen/springboot/service/CommentService.java:52-62 | each comment of the post is listed as often as it is stored, and no other comment is listed |
| CommentService.CreatedCommentIsListed | src/main/java/se/jensen/quyen/springboot/service/CommentService.java:32-62 | a newly created comment is listed for its post |
| PostService.Create | src/main/java/se/jensen/quyen/springboot/service/PostService.java:22-26 | fails iff the user is missing; otherwise appends a post by that user with the next id and the current time |
| PostService.GetFeed | src/main/java/se/jensen/quyen/springboot/service/PostService.java:28-30 | every post, newest first |
| PostService.GetUserWall | src/main/java/se/jensen/quyen/springboot/service/PostService.java:32-34 | exactly the user's posts, newest first |
| PostService.WallIsFilteredFeed | src/main/java/se/jensen/quyen/springboot/service/PostService.java:28-34 | a wall holds the same posts as the feed restricted to that user |
| PostService.CreateAddsOnePost | src/main/java/se/jensen/quyen/springboot/service/PostService.java:22-34 | a new post joins the feed and its author's wall; every other wall is unchanged |

## Left out

- The rendering of every component, routing and navigation (`navigate('/login')` after three seconds), `alert` dialogs (modelled as the alert's text), and console logging.
- React timing: state updates are applied at once. Stale closures and effects that re-run or race are not modelled.
- The network and `fetch`: a settled request is an input. `API_BASE_URL` is a parameter.
- `JSON.parse` and `JSON.stringify` are parameters. JSON values are reduced to the shapes the code reads: a reply the code reads properties of is either null, an object of the expected shape, or "something else". The one exception is the reply of `createPost`, described under `Wall.HandleCreatePost` below.
- `URLSearchParams` percent-encoding: query values are taken as already encoded. The real `toString` would write the comma in `createdAt,desc` as `%2C`.
- Lower-casing and `\s` beyond what `Text` defines: `toLowerCase` is modelled for ASCII letters only. Whitespace is ECMAScript's `WhiteSpace` and `LineTerminator` set.
- ISO date strings: `createdAt` is an integer instant, and `new Date(...)` of it is the identity. Unparsable dates (NaN comparisons) are not modelled.
- PostContext.ApplyPatch: a patch carries only `text` and `updatedAt`, which are the only keys the pages pass. Arbitrary object spreads are not modelled.
- Pagination state in Feed and Wall: the `page` counter is never passed to the request.
- Wall.HandleCreatePost: the reply of `createPost` is taken to be a rejection or a post. `apiCall` can also resolve with `null` (status 204 or an empty body) or with raw text. The page would then prepend a post holding only `user`, since `{...null}` is `{}`. A post without an id or text has no value of `Records.Post`, so those two replies are not modelled.
- How PostForm's `onSubmit(user.id, { text })` reaches Wall: Wall.jsx:96 forwards only the first argument to `handleCreatePost`. `Wall.HandleCreatePost` models the handler on its own, given the reply of `createPost`.
- Register.Settle: the page reads `result.message`, which `AuthContext.register` never sets, so the success message is always the default one. The `catch` branch is modelled as an `Err` result.
- AuthContext.Mount: a stored user that parses to `null` or to a non-object is treated like one that fails to parse.
- The shape of `users` in `login` and `searchUsers` beyond a list of `{ id, username, email }` records. A list with missing fields is not modelled.
- Spring Security, controllers, DTO validation and the remaining services (`AuthService`, `UserService`), which are outside the modelled core.
- JPA `save` of an entity that already has an id (a merge) in the second backend: `WebAppFriendshipService.Save` models a request without an id.
- `FriendshipStatus.java` of the second backend is not part of this model. Its enum is modelled as PENDING, ACCEPTED or any other named constant.
- Ordering among equal timestamps in JPA-derived queries is not specified by the database. The model uses table order, and the stated properties (multiset contents and sortedness) do not depend on that choice.
- Queries without `OrderBy` (`findAll`, `findByRequesterIdAndStatus`, `findByStatusAndRequester_IdOrStatusAndReceiver_Id`) promise no order. `FriendshipService.GetFriends`, `WebAppFriendshipService.GetAll` and `WebAppFriendshipService.GetFriendsOfUser` list rows in table order, and the second ensures of `WebAppFriendshipService.SaveThenGetAll` (the saved row listed last) holds only for that choice; its multiset ensures does not depend on it.
- `userRepository.findByUsername` on a table with duplicate usernames: the model returns the first match.
- Long ids are unbounded integers; `Long` overflow is not modelled.

## Findings

| source | as written | input that shows it | evidently intended | confidence | as-written member | corrected member |
|---|---|---|---|---|---|---|
| src/pages/Wall.jsx:25-26 | `currentWallUserId === loggedInUser?.id` compares the route's string id with the user's numeric id, so off the own-wall route it is always false | logged-in user `{ id: 7 }` opening `/wall/7`: `"7" === 7` is false, so `isViewingOwnWall` is false and no post form is shown | the route names one's own wall exactly when its id is the logged-in id, compared as text | medium, not executed | Wall.OwnIdRouteHidesPostForm | Wall.AsIntendedOwnWallIffSameId |
