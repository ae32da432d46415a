/** The client's shared post list (`PostProvider` in src/context/PostContext.jsx):
    an ordered list of posts with four operations — prepend, patch by id,
    delete by id and replace — each a pure function from the old list to the
    new one. */
module PostContext {
  import opened Wrappers
  import opened Js
  import opened Records
  import opened Seqs

  /** The keys an `updatePostById` patch carries; an absent key is `None`. */
  datatype Patch = Patch(text: Option<string>, updatedAt: Option<int>)

  /** `{ ...p, ...patch }`: keys present in the patch win, the rest of `p` stays. */
  function ApplyPatch(p: Post, patch: Patch): (r: Post)
    ensures patch.text.Some? ==> r.text == patch.text.value
    ensures patch.text.None? ==> r.text == p.text
    ensures patch.updatedAt.Some? ==> r.updatedAt == patch.updatedAt
    ensures patch.updatedAt.None? ==> r.updatedAt == p.updatedAt
    ensures r.(text := p.text, updatedAt := p.updatedAt) == p
  {
    p.(text := patch.text.GetOr(p.text),
       updatedAt := if patch.updatedAt.Some? then patch.updatedAt else p.updatedAt)
  }

  /** `addPost(post)`: the new post goes in front of the old list. */
  function AddPost(posts: seq<Post>, post: Post): (r: seq<Post>)
    ensures |r| == |posts| + 1
    ensures r[0] == post && r[1..] == posts
  {
    [post] + posts
  }

  /** `updatePostById(id, fields)`: every post carrying `id` is patched in place. */
  function UpdatePostById(posts: seq<Post>, id: JsId, patch: Patch): (r: seq<Post>)
    ensures |r| == |posts|
    ensures Ids(r) == Ids(posts)
    ensures forall i :: 0 <= i < |posts| && posts[i].id != id ==> r[i] == posts[i]
    ensures forall i :: 0 <= i < |posts| && posts[i].id == id ==> r[i] == ApplyPatch(posts[i], patch)
  {
    seq(|posts|, i requires 0 <= i < |posts| =>
      if posts[i].id == id then ApplyPatch(posts[i], patch) else posts[i])
  }

  /** The posts that survive deleting `id`. */
  function KeepsOtherThan(id: JsId): Post -> bool {
    (p: Post) => p.id != id
  }

  /** `deletePostById(id)`: drops every post carrying `id`, keeping the order of the rest. */
  function DeletePostById(posts: seq<Post>, id: JsId): (r: seq<Post>)
    ensures forall i :: 0 <= i < |r| ==> r[i].id != id
    ensures forall i :: 0 <= i < |posts| && posts[i].id != id ==> posts[i] in r
    ensures IsSubsequence(r, posts)
  {
    FilterIsSubsequence(KeepsOtherThan(id), posts);
    Filter(KeepsOtherThan(id), posts)
  }

  /** `setAllPosts(newPosts)`. */
  function SetAllPosts(posts: seq<Post>, newPosts: seq<Post>): seq<Post> {
    newPosts
  }

  /** Deleting keeps every other post exactly as many times as it was there. */
  lemma DeleteKeepsOthers(posts: seq<Post>, id: JsId, p: Post)
    ensures multiset(DeletePostById(posts, id))[p] == if p.id == id then 0 else multiset(posts)[p]
  {
    FilterCount(KeepsOtherThan(id), posts, p);
  }

  /** Deleting an id that no post carries changes nothing. */
  lemma DeleteAbsentIsIdentity(posts: seq<Post>, id: JsId)
    requires id !in Ids(posts)
    ensures DeletePostById(posts, id) == posts
  {
    assert forall i :: 0 <= i < |posts| ==> KeepsOtherThan(id)(posts[i]) by {
      forall i | 0 <= i < |posts| ensures posts[i].id != id {
        assert Ids(posts)[i] == posts[i].id;
      }
    }
    FilterAllPass(KeepsOtherThan(id), posts);
  }

  /** Deleting the same id twice is deleting it once. */
  lemma DeleteIdempotent(posts: seq<Post>, id: JsId)
    ensures DeletePostById(DeletePostById(posts, id), id) == DeletePostById(posts, id)
  {
    FilterIdempotent(KeepsOtherThan(id), posts);
  }

  /** Adding a post with a fresh id and then deleting that id restores the list. */
  lemma AddThenDeleteRestores(posts: seq<Post>, post: Post)
    requires post.id !in Ids(posts)
    ensures DeletePostById(AddPost(posts, post), post.id) == posts
  {
    assert AddPost(posts, post)[1..] == posts;
    DeleteAbsentIsIdentity(posts, post.id);
  }

  /** Patching an id that no post carries changes nothing. */
  lemma UpdateAbsentIsIdentity(posts: seq<Post>, id: JsId, patch: Patch)
    requires id !in Ids(posts)
    ensures UpdatePostById(posts, id, patch) == posts
  {
    var r := UpdatePostById(posts, id, patch);
    forall i | 0 <= i < |posts| ensures r[i] == posts[i] {
      assert Ids(posts)[i] == posts[i].id;
    }
  }

  /** Applying the same patch twice is applying it once. */
  lemma UpdateIdempotent(posts: seq<Post>, id: JsId, patch: Patch)
    ensures UpdatePostById(UpdatePostById(posts, id, patch), id, patch)
         == UpdatePostById(posts, id, patch)
  {
  }

  /** A post that is about to be deleted may as well not have been patched. */
  lemma {:induction false} UpdateThenDelete(posts: seq<Post>, id: JsId, patch: Patch)
    ensures DeletePostById(UpdatePostById(posts, id, patch), id) == DeletePostById(posts, id)
    decreases |posts|
  {
    if |posts| > 0 {
      var u := UpdatePostById(posts, id, patch);
      assert u[1..] == UpdatePostById(posts[1..], id, patch);
      UpdateThenDelete(posts[1..], id, patch);
    }
  }

  /** The store's operations as actions dispatched to it, in order. */
  datatype Action =
    | Add(post: Post)
    | UpdateById(id: JsId, patch: Patch)
    | DeleteById(id: JsId)
    | SetAll(newPosts: seq<Post>)

  function Dispatch(posts: seq<Post>, a: Action): seq<Post> {
    match a
    case Add(p) => AddPost(posts, p)
    case UpdateById(id, patch) => UpdatePostById(posts, id, patch)
    case DeleteById(id) => DeletePostById(posts, id)
    case SetAll(xs) => SetAllPosts(posts, xs)
  }

  /** The list after dispatching `actions` one after another. */
  function Replay(posts: seq<Post>, actions: seq<Action>): seq<Post>
    decreases |actions|
  {
    if |actions| == 0 then posts else Replay(Dispatch(posts, actions[0]), actions[1..])
  }

  lemma {:induction false} ReplayAppend(posts: seq<Post>, xs: seq<Action>, ys: seq<Action>)
    ensures Replay(posts, xs + ys) == Replay(Replay(posts, xs), ys)
    decreases |xs|
  {
    if |xs| == 0 {
      assert xs + ys == ys;
    } else {
      assert (xs + ys)[1..] == xs[1..] + ys;
      ReplayAppend(Dispatch(posts, xs[0]), xs[1..], ys);
    }
  }

  /** `setAllPosts` makes the store exactly its argument: whatever was
      dispatched before it, and whatever the store held, is forgotten. */
  lemma LastSetAllWins(posts: seq<Post>, before: seq<Action>, newPosts: seq<Post>, after: seq<Action>)
    ensures Replay(posts, before + [SetAll(newPosts)] + after) == Replay(newPosts, after)
  {
    ReplayAppend(posts, before + [SetAll(newPosts)], after);
    ReplayAppend(posts, before, [SetAll(newPosts)]);
  }
}
