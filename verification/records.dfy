/** The records the client keeps: a user snapshot `{id, username, email}` (the
    logged-in user, a post's author) and a post as the server sends it.

    A post may carry its author under `user` or under `author`, depending on
    the server; both keys are kept, and an absent key is `None`.  Timestamps
    are integers (the ISO strings of the source compared as instants). */
module Records {
  import opened Wrappers
  import opened Js

  datatype UserRef = UserRef(id: JsId, username: string, email: string)

  datatype Post = Post(
    id: JsId,
    text: string,
    user: Option<UserRef>,
    author: Option<UserRef>,
    createdAt: int,
    updatedAt: Option<int>)

  /** `u?.id`: the id of a user who may be absent (`undefined` when absent). */
  function IdOf(u: Option<UserRef>): Option<JsId> {
    match u
    case Some(v) => Some(v.id)
    case None => None
  }

  /** The ids of a list of posts, in order. */
  function Ids(posts: seq<Post>): (r: seq<JsId>)
    ensures |r| == |posts|
    ensures forall i :: 0 <= i < |posts| ==> r[i] == posts[i].id
  {
    seq(|posts|, i requires 0 <= i < |posts| => posts[i].id)
  }

  /** Posts are ordered newest first: `createdAt` never increases. */
  ghost predicate NewestFirst(posts: seq<Post>) {
    forall i, j :: 0 <= i < j < |posts| ==> posts[i].createdAt >= posts[j].createdAt
  }
}
