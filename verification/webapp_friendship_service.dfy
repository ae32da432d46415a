/** Friendships in the second backend
    (src/main/java/se/jensen/quyen/socialwebappbackend/service/FriendshipService.java):
    a saved request is always PENDING, accepting needs only the id, and a
    user's friends are the other parties of every ACCEPTED friendship they are
    in, whichever side sent it. */
module WebAppFriendshipService {
  import opened Wrappers
  import opened Seqs
  import opened Entities

  /** `FriendshipStatus`: PENDING and ACCEPTED are the values the service
      uses; any other constant of the enum is carried by name. */
  datatype FriendshipStatus = Pending | Accepted | OtherStatus(name: string)

  datatype Friendship = Friendship(id: int, requester: User, receiver: User, status: FriendshipStatus)

  /** The friendship table with its identity counter. */
  datatype Db = Db(friendships: seq<Friendship>, nextId: int)

  /** `save(friendship)` for a request body without an id: the submitted
      status is ignored, the row is stored PENDING under the next id. */
  function Save(db: Db, requester: User, receiver: User, submitted: FriendshipStatus): (r: (Db, Friendship))
    ensures r.1 == Friendship(db.nextId, requester, receiver, Pending)
    ensures r.0 == Db(db.friendships + [r.1], db.nextId + 1)
  {
    var f := Friendship(db.nextId, requester, receiver, Pending);
    (Db(db.friendships + [f], db.nextId + 1), f)
  }

  /** The status a request is submitted with makes no difference. */
  lemma SaveIgnoresSubmittedStatus(db: Db, requester: User, receiver: User, a: FriendshipStatus, b: FriendshipStatus)
    ensures Save(db, requester, receiver, a) == Save(db, requester, receiver, b)
  {
  }

  /** `getAll()`: every stored friendship.  `findAll` promises no order; the
      model lists the rows in table order. */
  function GetAll(db: Db): (r: seq<Friendship>)
    ensures |r| == |db.friendships|
    ensures forall i :: 0 <= i < |r| ==> r[i] == db.friendships[i]
  {
    db.friendships
  }

  /** A saved request joins `getAll`, PENDING, and every earlier row stays;
      in the model's table order it is listed last. */
  lemma SaveThenGetAll(db: Db, requester: User, receiver: User, submitted: FriendshipStatus)
    ensures var (db', f) := Save(db, requester, receiver, submitted);
            multiset(GetAll(db')) == multiset(GetAll(db)) + multiset{f} && f.status == Pending
    ensures var (db', f) := Save(db, requester, receiver, submitted);
            GetAll(db') == GetAll(db) + [f]
  {
  }

  const NotFound := "Friendship not found"

  /** `acceptFriendship(id)`. */
  function AcceptFriendship(db: Db, id: int): (r: Result<(Db, Friendship)>)
    ensures r.Err? <==> forall j :: 0 <= j < |db.friendships| ==> db.friendships[j].id != id
    ensures r.Err? ==> r.error == NotFound
    ensures r.Ok? ==>
              var i := FindFirst(db.friendships, (f: Friendship) => f.id == id).value;
              && r.value.1 == db.friendships[i].(status := Accepted)
              && r.value.0 == db.(friendships := db.friendships[i := r.value.1])
  {
    match FindFirst(db.friendships, (f: Friendship) => f.id == id)
    case None => Err(NotFound)
    case Some(i) =>
      var f := db.friendships[i].(status := Accepted);
      Ok((db.(friendships := db.friendships[i := f]), f))
  }

  /** `findByStatusAndRequester_IdOrStatusAndReceiver_Id(ACCEPTED, u, ACCEPTED, u)`. */
  function AcceptedWith(userId: int): Friendship -> bool {
    (f: Friendship) => f.status == Accepted && (f.requester.id == userId || f.receiver.id == userId)
  }

  /** The party of `f` that is not the user: the receiver when the user sent it. */
  function OtherParty(f: Friendship, userId: int): User {
    if f.requester.id == userId then f.receiver else f.requester
  }

  /** `getFriendsOfUser(userId)`. */
  function GetFriendsOfUser(db: Db, userId: int): (r: seq<User>)
    ensures |r| == |Filter(AcceptedWith(userId), db.friendships)|
    ensures forall k :: 0 <= k < |r| ==>
              var f := Filter(AcceptedWith(userId), db.friendships)[k];
              && f.status == Accepted
              && (f.requester.id == userId ==> r[k] == f.receiver)
              && (f.requester.id != userId ==> r[k] == f.requester && f.receiver.id == userId)
  {
    var rows := Filter(AcceptedWith(userId), db.friendships);
    seq(|rows|, k requires 0 <= k < |rows| => OtherParty(rows[k], userId))
  }

  /** Accepting a friendship makes its receiver a friend of its requester and,
      unless the two share an id, the requester a friend of the receiver. */
  lemma AcceptMakesFriends(db: Db, id: int)
    requires AcceptFriendship(db, id).Ok?
    ensures var (db', f) := AcceptFriendship(db, id).value;
            f.receiver in GetFriendsOfUser(db', f.requester.id)
    ensures var (db', f) := AcceptFriendship(db, id).value;
            f.requester.id != f.receiver.id ==> f.requester in GetFriendsOfUser(db', f.receiver.id)
  {
    var (db', f) := AcceptFriendship(db, id).value;
    var i := FindFirst(db.friendships, (g: Friendship) => g.id == id).value;
    assert db'.friendships[i] == f;
    Listed(db', f.requester.id, i);
    Listed(db', f.receiver.id, i);
  }

  /** Every accepted friendship shows up on both sides: each party is a friend
      of the other. */
  lemma FriendsAreSymmetric(db: Db, i: nat)
    requires i < |db.friendships|
    requires db.friendships[i].status == Accepted
    requires db.friendships[i].requester.id != db.friendships[i].receiver.id
    ensures db.friendships[i].receiver in GetFriendsOfUser(db, db.friendships[i].requester.id)
    ensures db.friendships[i].requester in GetFriendsOfUser(db, db.friendships[i].receiver.id)
  {
    var f := db.friendships[i];
    Listed(db, f.requester.id, i);
    Listed(db, f.receiver.id, i);
  }

  /** An accepted friendship the user is in puts the other party on their list. */
  lemma Listed(db: Db, userId: int, i: nat)
    requires i < |db.friendships| && AcceptedWith(userId)(db.friendships[i])
    ensures OtherParty(db.friendships[i], userId) in GetFriendsOfUser(db, userId)
  {
    var rows := Filter(AcceptedWith(userId), db.friendships);
    assert db.friendships[i] in rows;
    var k :| 0 <= k < |rows| && rows[k] == db.friendships[i];
    assert GetFriendsOfUser(db, userId)[k] == OtherParty(db.friendships[i], userId);
  }

  /** Friendships that are not accepted never count: dropping them changes
      nobody's friend list. */
  lemma OnlyAcceptedCount(db: Db, userId: int)
    ensures GetFriendsOfUser(db, userId)
         == GetFriendsOfUser(db.(friendships := Filter((f: Friendship) => f.status == Accepted, db.friendships)), userId)
  {
    FilterImpliedFirst(AcceptedWith(userId), (f: Friendship) => f.status == Accepted, db.friendships);
  }

  /** In particular a new request changes nobody's friends. */
  lemma SaveChangesNoFriends(db: Db, requester: User, receiver: User, submitted: FriendshipStatus, userId: int)
    ensures GetFriendsOfUser(Save(db, requester, receiver, submitted).0, userId) == GetFriendsOfUser(db, userId)
  {
    var f := Save(db, requester, receiver, submitted).1;
    FilterAppend(AcceptedWith(userId), db.friendships, [f]);
    assert [f][1..] == [];
  }
}
