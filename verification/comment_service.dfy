/** Comments in the Spring Boot backend
    (src/main/java/se/jensen/quyen/springboot/service/CommentService.java):
    creating a comment resolves its author by username and its post by id,
    and a post's comments are listed oldest first. */
module CommentService {
  import opened Wrappers
  import opened Seqs
  import opened Sorting
  import opened Entities

  /** The users, posts and comments tables, with the comments' identity counter. */
  datatype Db = Db(users: seq<User>, posts: seq<Post>, comments: seq<Comment>, nextId: int)

  /** The response body of a comment. */
  datatype CommentDto = CommentDto(id: int, commentText: string, createdAt: int, username: string)

  /** `mapToDto(comment)`: the comment's own fields and its author's username. */
  function MapToDto(c: Comment): (d: CommentDto)
    ensures d.id == c.id && d.commentText == c.commentText && d.createdAt == c.createdAt
    ensures d.username == c.user.username
  {
    CommentDto(c.id, c.commentText, c.createdAt, c.user.username)
  }

  /** `userRepository.findByUsername(username)`. */
  function FindByUsername(users: seq<User>, username: string): Option<User> {
    FindRow(users, (u: User) => u.username == username)
  }

  const UserNotFound := "User not found"
  const PostNotFound := "Post not found"

  /** `create(dto, username)` at instant `now`: the user is looked up first,
      then the post; the saved comment takes the next id. */
  function Create(db: Db, postId: int, commentText: string, username: string, now: int): (r: Result<(Db, CommentDto)>)
    ensures FindByUsername(db.users, username).None? ==> r == Err(UserNotFound)
    ensures FindByUsername(db.users, username).Some? && FindPost(db.posts, postId).None? ==> r == Err(PostNotFound)
    ensures r.Ok? <==> FindByUsername(db.users, username).Some? && FindPost(db.posts, postId).Some?
    ensures r.Ok? ==>
              var c := Comment(db.nextId, commentText, now, FindByUsername(db.users, username).value,
                               FindPost(db.posts, postId).value);
              && r.value.0 == db.(comments := db.comments + [c], nextId := db.nextId + 1)
              && r.value.1 == MapToDto(c)
              && c.user.username == username && c.post.id == postId
  {
    match FindByUsername(db.users, username)
    case None => Err(UserNotFound)
    case Some(user) =>
      match FindPost(db.posts, postId)
      case None => Err(PostNotFound)
      case Some(post) =>
        var c := Comment(db.nextId, commentText, now, user, post);
        Ok((db.(comments := db.comments + [c], nextId := db.nextId + 1), MapToDto(c)))
  }

  /** A request that names neither a known user nor a known post is refused
      for the user. */
  lemma UserCheckedFirst(db: Db, postId: int, commentText: string, username: string, now: int)
    requires FindByUsername(db.users, username).None? && FindPost(db.posts, postId).None?
    ensures Create(db, postId, commentText, username, now) == Err(UserNotFound)
  {
  }

  /** The comments on `post`, matched by the post's id. */
  function OnPost(post: Post): Comment -> bool {
    (c: Comment) => c.post.id == post.id
  }

  function CommentCreatedAt(c: Comment): int {
    c.createdAt
  }

  /** `findByPostOrderByCreatedAtAsc(post)`; rows created at the same instant
      keep table order. */
  function FindByPostOrderByCreatedAtAsc(comments: seq<Comment>, post: Post): (r: seq<Comment>)
    ensures multiset(r) == multiset(Filter(OnPost(post), comments))
    ensures forall i, j :: 0 <= i < j < |r| ==> r[i].createdAt <= r[j].createdAt
  {
    var rows := SortBy(CommentCreatedAt, Filter(OnPost(post), comments));
    assert SortedBy(CommentCreatedAt, rows);
    rows
  }

  /** `getByPost(postId)`. */
  function GetByPost(db: Db, postId: int): (r: Result<seq<CommentDto>>)
    ensures r.Err? <==> FindPost(db.posts, postId).None?
    ensures r.Err? ==> r.error == PostNotFound
    ensures r.Ok? ==>
              var rows := FindByPostOrderByCreatedAtAsc(db.comments, FindPost(db.posts, postId).value);
              |r.value| == |rows| && forall k :: 0 <= k < |rows| ==> r.value[k] == MapToDto(rows[k])
    ensures r.Ok? ==> forall i, j :: 0 <= i < j < |r.value| ==> r.value[i].createdAt <= r.value[j].createdAt
  {
    match FindPost(db.posts, postId)
    case None => Err(PostNotFound)
    case Some(post) =>
      var rows := FindByPostOrderByCreatedAtAsc(db.comments, post);
      Ok(seq(|rows|, k requires 0 <= k < |rows| => MapToDto(rows[k])))
  }

  /** The listing holds each comment of the post as often as the table does,
      and nothing else. */
  lemma GetByPostCounts(db: Db, postId: int, c: Comment)
    requires FindPost(db.posts, postId).Some?
    ensures var post := FindPost(db.posts, postId).value;
            multiset(FindByPostOrderByCreatedAtAsc(db.comments, post))[c]
            == if c.post.id == postId then multiset(db.comments)[c] else 0
  {
    var post := FindPost(db.posts, postId).value;
    FilterCount(OnPost(post), db.comments, c);
  }

  /** A comment just created on a post is listed for that post. */
  lemma CreatedCommentIsListed(db: Db, postId: int, commentText: string, username: string, now: int)
    requires Create(db, postId, commentText, username, now).Ok?
    ensures var (db', dto) := Create(db, postId, commentText, username, now).value;
            GetByPost(db', postId).Ok? && dto in GetByPost(db', postId).value
  {
    var (db', dto) := Create(db, postId, commentText, username, now).value;
    var c := db'.comments[|db.comments|];
    assert db'.posts == db.posts;
    var post := FindPost(db.posts, postId).value;
    GetByPostCounts(db', postId, c);
    assert multiset(db'.comments)[c] > 0 by {
      assert c in db'.comments;
    }
    var rows := FindByPostOrderByCreatedAtAsc(db'.comments, post);
    assert c in multiset(rows);
    var k :| 0 <= k < |rows| && rows[k] == c;
    assert GetByPost(db', postId).value[k] == dto;
  }
}
