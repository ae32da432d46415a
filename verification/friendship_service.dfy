/** Friend requests in the Spring Boot backend
    (src/main/java/se/jensen/quyen/springboot/service/FriendshipService.java):
    a request is created PENDING between two existing users, may then be
    accepted or rejected any number of times in any order, and a user's
    friends are the addressees of the ACCEPTED requests they sent. */
module FriendshipService {
  import opened Wrappers
  import opened Seqs
  import opened Entities

  datatype Status = Pending | Accepted | Rejected

  datatype Friendship = Friendship(id: int, requester: User, addressee: User, status: Status)

  /** The users table and the friendship table with its identity counter. */
  datatype Db = Db(users: seq<User>, friendships: seq<Friendship>, nextId: int)

  /** Friendship ids are distinct and below the next id to be handed out. */
  ghost predicate Valid(db: Db) {
    && (forall i :: 0 <= i < |db.friendships| ==> db.friendships[i].id < db.nextId)
    && (forall i, j :: 0 <= i < j < |db.friendships| ==> db.friendships[i].id != db.friendships[j].id)
  }

  /** The response body: the usernames of both parties and the status name. */
  datatype FriendshipDto = FriendshipDto(id: int, requester: string, addressee: string, status: string)

  function StatusName(s: Status): (name: string)
    ensures name in {"PENDING", "ACCEPTED", "REJECTED"}
  {
    match s
    case Pending => "PENDING"
    case Accepted => "ACCEPTED"
    case Rejected => "REJECTED"
  }

  /** The status name identifies the status. */
  lemma StatusNameInjective(a: Status, b: Status)
    ensures StatusName(a) == StatusName(b) ==> a == b
  {
  }

  /** `toDto(f)`. */
  function ToDto(f: Friendship): (d: FriendshipDto)
    ensures d.id == f.id && d.requester == f.requester.username && d.addressee == f.addressee.username
    ensures d.status == StatusName(f.status)
  {
    FriendshipDto(f.id, f.requester.username, f.addressee.username, StatusName(f.status))
  }

  /** `create(dto)`: both users must exist (the requester is looked up first);
      the new row is PENDING and takes the next id. */
  function Create(db: Db, requesterId: int, addresseeId: int): (r: Result<(Db, FriendshipDto)>)
    ensures r.Err? <==> FindUser(db.users, requesterId).None? || FindUser(db.users, addresseeId).None?
    ensures r.Err? ==> r.error == NoValuePresent
    ensures r.Ok? ==>
              var f := Friendship(db.nextId, FindUser(db.users, requesterId).value,
                                  FindUser(db.users, addresseeId).value, Pending);
              && r.value.0 == db.(friendships := db.friendships + [f], nextId := db.nextId + 1)
              && r.value.1 == ToDto(f)
              && f.requester.id == requesterId && f.addressee.id == addresseeId
  {
    match FindUser(db.users, requesterId)
    case None => Err(NoValuePresent)
    case Some(requester) =>
      match FindUser(db.users, addresseeId)
      case None => Err(NoValuePresent)
      case Some(addressee) =>
        var f := Friendship(db.nextId, requester, addressee, Pending);
        Ok((db.(friendships := db.friendships + [f], nextId := db.nextId + 1), ToDto(f)))
  }

  /** Creating a request keeps the ids distinct. */
  lemma CreatePreservesValid(db: Db, requesterId: int, addresseeId: int)
    requires Valid(db)
    requires Create(db, requesterId, addresseeId).Ok?
    ensures Valid(Create(db, requesterId, addresseeId).value.0)
  {
  }

  /** The position of the row with `id`: `repo.findById(id)`. */
  function IndexOf(fs: seq<Friendship>, id: int): (r: Option<nat>)
    ensures r.Some? ==> r.value < |fs| && fs[r.value].id == id
    ensures r.None? ==> forall j :: 0 <= j < |fs| ==> fs[j].id != id
  {
    FindFirst(fs, (f: Friendship) => f.id == id)
  }

  /** The body shared by `accept` and `reject`: load by id, set the status
      whatever it was, save. */
  function SetStatus(db: Db, id: int, status: Status): (r: Result<(Db, FriendshipDto)>)
    ensures r.Err? <==> IndexOf(db.friendships, id).None?
    ensures r.Err? ==> r.error == NoValuePresent
    ensures r.Ok? ==>
              var i := IndexOf(db.friendships, id).value;
              var fs := r.value.0.friendships;
              && r.value.0.users == db.users && r.value.0.nextId == db.nextId
              && |fs| == |db.friendships|
              && fs[i] == db.friendships[i].(status := status)
              && (forall j :: 0 <= j < |fs| && j != i ==> fs[j] == db.friendships[j])
              && r.value.1 == ToDto(fs[i])
  {
    match IndexOf(db.friendships, id)
    case None => Err(NoValuePresent)
    case Some(i) =>
      var f := db.friendships[i].(status := status);
      Ok((db.(friendships := db.friendships[i := f]), ToDto(f)))
  }

  /** `accept(id)`. */
  function Accept(db: Db, id: int): (r: Result<(Db, FriendshipDto)>)
    ensures r.Err? <==> IndexOf(db.friendships, id).None?
    ensures r.Ok? ==> r.value.1.status == "ACCEPTED" && r.value.1.id == id
  {
    SetStatus(db, id, Accepted)
  }

  /** `reject(id)`. */
  function Reject(db: Db, id: int): (r: Result<(Db, FriendshipDto)>)
    ensures r.Err? <==> IndexOf(db.friendships, id).None?
    ensures r.Ok? ==> r.value.1.status == "REJECTED" && r.value.1.id == id
  {
    SetStatus(db, id, Rejected)
  }

  /** Changing a status keeps the ids distinct. */
  lemma SetStatusPreservesValid(db: Db, id: int, status: Status)
    requires Valid(db) && SetStatus(db, id, status).Ok?
    ensures Valid(SetStatus(db, id, status).value.0)
  {
    var fs := SetStatus(db, id, status).value.0.friendships;
    assert forall j :: 0 <= j < |fs| ==> fs[j].id == db.friendships[j].id;
  }

  /** There is no terminal status: a rejected request can still be accepted,
      and an accepted one rejected. */
  lemma NoTerminalStatus(db: Db, id: int)
    requires IndexOf(db.friendships, id).Some?
    ensures Accept(Reject(db, id).value.0, id).Ok?
    ensures Accept(Reject(db, id).value.0, id).value.0 == Accept(db, id).value.0
    ensures Reject(Accept(db, id).value.0, id).value.0 == Reject(db, id).value.0
  {
    var i := IndexOf(db.friendships, id).value;
    var rejected := Reject(db, id).value.0;
    assert IndexOf(rejected.friendships, id) == Some(i) by {
      assert forall j :: 0 <= j < |rejected.friendships| ==> rejected.friendships[j].id == db.friendships[j].id;
    }
    var accepted := Accept(db, id).value.0;
    assert IndexOf(accepted.friendships, id) == Some(i) by {
      assert forall j :: 0 <= j < |accepted.friendships| ==> accepted.friendships[j].id == db.friendships[j].id;
    }
  }

  /** `findByRequesterIdAndStatus(userId, ACCEPTED)`. */
  function SentAndAccepted(userId: int): Friendship -> bool {
    (f: Friendship) => f.requester.id == userId && f.status == Accepted
  }

  /** `getFriends(userId)`: the addressees of the accepted requests the user
      sent.  The derived query promises no order; the model keeps table order. */
  function GetFriends(db: Db, userId: int): (r: seq<User>)
    ensures |r| == |Filter(SentAndAccepted(userId), db.friendships)|
    ensures forall k :: 0 <= k < |r| ==> r[k] == Filter(SentAndAccepted(userId), db.friendships)[k].addressee
  {
    var rows := Filter(SentAndAccepted(userId), db.friendships);
    seq(|rows|, k requires 0 <= k < |rows| => rows[k].addressee)
  }

  /** A user is listed as a friend exactly when an accepted request from
      `userId` is addressed to them. */
  lemma GetFriendsMembership(db: Db, userId: int, u: User)
    ensures u in GetFriends(db, userId) <==>
              exists i :: 0 <= i < |db.friendships| && db.friendships[i].requester.id == userId
                          && db.friendships[i].status == Accepted && db.friendships[i].addressee == u
  {
    var rows := Filter(SentAndAccepted(userId), db.friendships);
    var r := GetFriends(db, userId);
    if u in r {
      var k :| 0 <= k < |r| && r[k] == u;
      assert rows[k] in db.friendships;
      var i :| 0 <= i < |db.friendships| && db.friendships[i] == rows[k];
      assert SentAndAccepted(userId)(rows[k]);
    }
    if exists i :: 0 <= i < |db.friendships| && db.friendships[i].requester.id == userId
                   && db.friendships[i].status == Accepted && db.friendships[i].addressee == u {
      var i :| 0 <= i < |db.friendships| && db.friendships[i].requester.id == userId
               && db.friendships[i].status == Accepted && db.friendships[i].addressee == u;
      assert SentAndAccepted(userId)(db.friendships[i]);
      assert db.friendships[i] in rows;
      var k :| 0 <= k < |rows| && rows[k] == db.friendships[i];
      assert r[k] == u;
    }
  }

  /** The relation is one-directional: once Ann's request to Bob is accepted,
      Bob is Ann's friend but Ann is not Bob's. */
  lemma FriendsIsOneDirectional()
    ensures var ann := User(1, "ann");
            var bob := User(2, "bob");
            var db := Db([ann, bob], [Friendship(1, ann, bob, Accepted)], 2);
            GetFriends(db, 1) == [bob] && GetFriends(db, 2) == []
  {
    var ann := User(1, "ann");
    var bob := User(2, "bob");
    var fs := [Friendship(1, ann, bob, Accepted)];
    assert fs[1..] == [];
    assert Filter(SentAndAccepted(1), fs) == fs;
    assert Filter(SentAndAccepted(2), fs) == [];
  }

  /** A new request changes nobody's friends until it is accepted. */
  lemma CreateChangesNoFriends(db: Db, requesterId: int, addresseeId: int, userId: int)
    requires Create(db, requesterId, addresseeId).Ok?
    ensures GetFriends(Create(db, requesterId, addresseeId).value.0, userId) == GetFriends(db, userId)
  {
    var db' := Create(db, requesterId, addresseeId).value.0;
    var f := db'.friendships[|db.friendships|];
    assert db'.friendships == db.friendships + [f];
    FilterAppend(SentAndAccepted(userId), db.friendships, [f]);
    assert [f][1..] == [];
  }
}
