/** Posts in the Spring Boot backend
    (src/main/java/se/jensen/quyen/springboot/service/PostService.java):
    creating a post for an existing user, the feed of all posts newest first,
    and one user's wall. */
module PostService {
  import opened Wrappers
  import opened Seqs
  import opened Sorting
  import opened Entities

  /** The users and posts tables, with the posts' identity counter. */
  datatype Db = Db(users: seq<User>, posts: seq<Post>, nextId: int)

  /** Non-increasing `createdAt` from left to right. */
  ghost predicate NewestFirst(posts: seq<Post>) {
    forall i, j :: 0 <= i < j < |posts| ==> posts[i].createdAt >= posts[j].createdAt
  }

  /** `create(content, userId)` at instant `now`: `new Post(content, user)`
      stamps `createdAt`, and saving gives it the next id. */
  function Create(db: Db, content: string, userId: int, now: int): (r: Result<(Db, Post)>)
    ensures r.Err? <==> FindUser(db.users, userId).None?
    ensures r.Err? ==> r.error == NoValuePresent
    ensures r.Ok? ==>
              var p := r.value.1;
              && p == Post(db.nextId, content, now, FindUser(db.users, userId).value)
              && p.user.id == userId
              && r.value.0 == db.(posts := db.posts + [p], nextId := db.nextId + 1)
  {
    match FindUser(db.users, userId)
    case None => Err(NoValuePresent)
    case Some(user) =>
      var p := Post(db.nextId, content, now, user);
      Ok((db.(posts := db.posts + [p], nextId := db.nextId + 1), p))
  }

  function NewestKey(p: Post): int {
    -p.createdAt
  }

  /** `findAllByOrderByCreatedAtDesc()`, with table order among equal instants. */
  function GetFeed(db: Db): (r: seq<Post>)
    ensures multiset(r) == multiset(db.posts)
    ensures NewestFirst(r)
  {
    var r := SortBy(NewestKey, db.posts);
    assert SortedBy(NewestKey, r);
    r
  }

  /** The posts whose author has id `userId`. */
  function ByUser(userId: int): Post -> bool {
    (p: Post) => p.user.id == userId
  }

  /** `findByUserIdOrderByCreatedAtDesc(userId)`. */
  function GetUserWall(db: Db, userId: int): (r: seq<Post>)
    ensures multiset(r) == multiset(Filter(ByUser(userId), db.posts))
    ensures forall i :: 0 <= i < |r| ==> r[i].user.id == userId
    ensures NewestFirst(r)
  {
    var rows := Filter(ByUser(userId), db.posts);
    var r := SortBy(NewestKey, rows);
    assert NewestFirst(r) by {
      assert SortedBy(NewestKey, r);
    }
    forall i | 0 <= i < |r| ensures r[i].user.id == userId {
      assert r[i] in multiset(rows);
      var j :| 0 <= j < |rows| && rows[j] == r[i];
      assert ByUser(userId)(rows[j]);
    }
    r
  }

  /** A user's wall holds the same posts as the feed restricted to that user. */
  lemma WallIsFilteredFeed(db: Db, userId: int)
    ensures multiset(GetUserWall(db, userId)) == multiset(Filter(ByUser(userId), GetFeed(db)))
  {
    forall p: Post
      ensures multiset(GetUserWall(db, userId))[p] == multiset(Filter(ByUser(userId), GetFeed(db)))[p]
    {
      FilterCount(ByUser(userId), db.posts, p);
      FilterCount(ByUser(userId), GetFeed(db), p);
    }
  }

  /** Creating a post adds exactly that post to the feed and to its author's
      wall, and leaves every other wall as it was. */
  lemma CreateAddsOnePost(db: Db, content: string, userId: int, now: int, other: int)
    requires Create(db, content, userId, now).Ok?
    requires other != userId
    ensures var (db', p) := Create(db, content, userId, now).value;
            && multiset(GetFeed(db')) == multiset(GetFeed(db)) + multiset{p}
            && multiset(GetUserWall(db', userId)) == multiset(GetUserWall(db, userId)) + multiset{p}
            && GetUserWall(db', other) == GetUserWall(db, other)
  {
    var (db', p) := Create(db, content, userId, now).value;
    FilterAppend(ByUser(userId), db.posts, [p]);
    FilterAppend(ByUser(other), db.posts, [p]);
    assert [p][1..] == [];
    assert Filter(ByUser(userId), [p]) == [p];
    assert Filter(ByUser(other), [p]) == [];
    assert Filter(ByUser(other), db'.posts) == Filter(ByUser(other), db.posts);
  }
}
