/** The persistent records of the Spring Boot backend (package
    `se.jensen.quyen.springboot.entity`) as values, and the one repository
    rule every service relies on: `findById` yields the stored row with that
    id, if there is one. `LocalDateTime` values are integer instants. */
module Entities {
  import opened Wrappers

  datatype User = User(id: int, username: string)

  /** A `post` row; `createdAt` is set when the entity is constructed. */
  datatype Post = Post(id: int, content: string, createdAt: int, user: User)

  /** A `comments` row. */
  datatype Comment = Comment(id: int, commentText: string, createdAt: int, user: User, post: Post)

  /** The index of the first row that `matches`, if any. */
  function FindFirst<T>(rows: seq<T>, matches: T -> bool): (r: Option<nat>)
    ensures r.Some? ==> r.value < |rows| && matches(rows[r.value])
    ensures r.Some? ==> forall j :: 0 <= j < r.value ==> !matches(rows[j])
    ensures r.None? ==> forall j :: 0 <= j < |rows| ==> !matches(rows[j])
    decreases |rows|
  {
    if |rows| == 0 then None
    else if matches(rows[0]) then Some(0)
    else match FindFirst(rows[1..], matches)
      case Some(i) => Some(i + 1)
      case None => None
  }

  /** The first row that `matches`, as a repository lookup returns it. */
  function FindRow<T>(rows: seq<T>, matches: T -> bool): (r: Option<T>)
    ensures r.Some? <==> exists i :: 0 <= i < |rows| && matches(rows[i])
    ensures r.Some? ==> r.value in rows && matches(r.value)
  {
    match FindFirst(rows, matches)
    case Some(i) => Some(rows[i])
    case None => None
  }

  /** `userRepository.findById(id)`. */
  function FindUser(users: seq<User>, id: int): Option<User> {
    FindRow(users, (u: User) => u.id == id)
  }

  /** `postRepository.findById(id)`. */
  function FindPost(posts: seq<Post>, id: int): Option<Post> {
    FindRow(posts, (p: Post) => p.id == id)
  }

  /** The message of the `NoSuchElementException` thrown by `orElseThrow()`
      on an empty `Optional`. */
  const NoValuePresent := "No value present"
}
