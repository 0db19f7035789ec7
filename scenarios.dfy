/** Short request sequences run against a fresh store, showing how the
    handlers compose: the room walk-through, repeated failed logins, logout,
    and the three places where the handlers as written differ from what their
    responses announce (double join, non-creator delete, refresh replay). */
module Scenarios {
  import opened Common
  import opened Collections
  import opened Rooms
  import opened RefreshTokens
  import opened UserModel
  import opened Db
  import opened AuthController
  import opened RefreshController
  import opened RoomController

  const Creator: Id := 0
  const Guest: Id := 1
  const AppUrl: string := "http://localhost:3000"
  const Random: seq<HexEncoding.Byte> := [222, 173, 190, 239]

  /** A store in which the creator and then the guest have registered. */
  method TwoUsers() returns (db: Store)
    ensures fresh(db) && db.Valid() && db.rooms == []
    ensures |db.users| == 2 && db.users[0].id == Creator && db.users[1].id == Guest
  {
    db := new Store();
    var creator := Register(db, Some("ann@example.com"), Some("secret"), 1000);
    var guest := Register(db, Some("bob@example.com"), Some("hunter2"), 1000);
  }

  /** Both members of `[Creator, Guest]` name a stored user. */
  lemma BothRegistered(room: Room, users: seq<User>)
    requires |users| == 2 && users[0].id == Creator && users[1].id == Guest
    requires room.members == [Creator, Guest] || room.members == [Creator]
    ensures Populated(room, users) == room
  {
    forall i | 0 <= i < |room.members|
      ensures exists j :: 0 <= j < |users| && users[j].id == room.members[i]
    {
      assert users[i].id == room.members[i];
    }
    PopulatedKeepsRegistered(room, users);
  }

  /** The guest joins the creator's fresh room. */
  method GuestJoins(db: Store, room: Room) returns (details: Response<RoomDetails>)
    requires db.Valid() && db.rooms == [room] && room.members == [Creator]
    requires |db.users| == 2 && db.users[0].id == Creator && db.users[1].id == Guest
    modifies db
    ensures db.Valid() && db.rooms == [room.(members := [Creator, Guest])]
    ensures db.users == old(db.users)
    ensures details.Ok? && details.body.membersLength == 2
  {
    assert FirstIndex(db.rooms, HasInvite(room.inviteToken)) == Some(0);
    var joined := JoinRoom(db, room.inviteToken, Guest);
    var withGuest := room.(members := [Creator, Guest]);
    assert room.members + [Guest] == [Creator, Guest];
    assert Pushed(room, Guest) == withGuest;
    assert db.rooms == [withGuest];
    assert FirstIndex(db.rooms, HasRoomId(room.id)) == Some(0);
    BothRegistered(withGuest, db.users);
    details := GetRoomById(db.rooms, db.users, room.id);
  }

  /** The guest leaves again. */
  method GuestLeaves(db: Store, room: Room) returns (details: Response<RoomDetails>)
    requires db.Valid() && db.rooms == [room.(members := [Creator, Guest])] && room.members == [Creator]
    requires |db.users| == 2 && db.users[0].id == Creator && db.users[1].id == Guest
    modifies db
    ensures db.Valid() && db.rooms == [room]
    ensures details.Ok? && details.body.membersLength == 1
  {
    assert FirstIndex(db.rooms, HasRoomId(room.id)) == Some(0);
    var left := LeaveRoom(db, room.id, Guest);
    GuestPulled();
    assert room.(members := [Creator, Guest]).(members := [Creator]) == room;
    BothRegistered(room, db.users);
    details := GetRoomById(db.rooms, db.users, room.id);
  }

  /** Create a room, let a second user join and then leave it. */
  method JoinThenLeave() returns (created: Response<CreatedRoom>, afterJoin: Response<RoomDetails>,
                                  afterLeave: Response<RoomDetails>)
    ensures created.Ok? && created.status == 201 && |created.body.room.inviteToken| == 8
    ensures afterJoin.Ok? && afterJoin.body.membersLength == 2
    ensures afterLeave.Ok? && afterLeave.body.membersLength == 1
  {
    var db := TwoUsers();
    created := CreateRoom(db, Creator, Some("general"), Random, AppUrl, 1000);
    var room := created.body.room;
    afterJoin := GuestJoins(db, room);
    afterLeave := GuestLeaves(db, room);
  }

  lemma GuestPulled()
    ensures Pull([Creator, Guest], Guest) == [Creator]
  {
    PullNonMember([Creator], Guest);
    PullConcat([Creator], [Guest], Guest);
    assert [Creator] + [Guest] == [Creator, Guest];
  }

  /** The two registered users and the creator's fresh room "general". */
  method CreatorsRoom() returns (db: Store, room: Room)
    ensures fresh(db) && db.Valid() && db.rooms == [room]
    ensures room.members == [Creator] && room.createdBy == Creator
    ensures |db.users| == 2 && db.users[0].id == Creator && db.users[1].id == Guest
  {
    db := TwoUsers();
    var created := CreateRoom(db, Creator, Some("general"), Random, AppUrl, 1000);
    room := created.body.room;
  }

  /** The creator deletes the room; reading it afterwards gives 404. */
  method CreatorDelete() returns (deleted: Response<Notice>, afterDelete: Response<RoomDetails>)
    ensures deleted == Ok(200, Notice("Room deleted successfully"))
    ensures afterDelete == Fail(404, "Room not found")
  {
    var db, room := CreatorsRoom();
    deleted := DeleteRoom(db, room.id, Creator);
    assert db.rooms == [];
    afterDelete := GetRoomById(db.rooms, db.users, room.id);
  }

  /** Joining twice as written: the second answer says "already in that room",
      yet the member list now names the guest twice. */
  method JoinTwice() returns (second: Response<JoinReply>, members: seq<Id>)
    ensures second.Ok? && second.body.message == "You are already in that room"
    ensures members == [Creator, Guest, Guest]
  {
    var db, room := CreatorsRoom();
    var token := room.inviteToken;
    assert FirstIndex(db.rooms, HasInvite(token)) == Some(0);
    var first := JoinRoom(db, token, Guest);
    assert db.rooms[0].members == [Creator, Guest];
    assert FirstIndex(db.rooms, HasInvite(token)) == Some(0);
    second := JoinRoom(db, token, Guest);
    members := db.rooms[0].members;
  }

  /** Joining twice as intended: the member list names the guest once. */
  method JoinTwiceIntended() returns (second: Response<JoinReply>, members: seq<Id>)
    ensures second.Ok? && second.body.message == "You are already in that room"
    ensures members == [Creator, Guest]
  {
    var db, room := CreatorsRoom();
    var token := room.inviteToken;
    var first := JoinRoomIntended(db, token, Guest);
    second := JoinRoomIntended(db, token, Guest);
    members := db.rooms[0].members;
  }

  /** A non-creator's delete as written: refused with 403, yet the room is gone. */
  method NonCreatorDelete() returns (r: Response<Notice>, remaining: seq<Room>)
    ensures r == Fail(403, "Only room creater can delete this room")
    ensures remaining == []
  {
    var db, room := CreatorsRoom();
    r := DeleteRoom(db, room.id, Guest);
    remaining := db.rooms;
  }

  /** A non-creator's delete as intended: refused with 403 and the room stays. */
  method NonCreatorDeleteIntended() returns (r: Response<Notice>, remaining: seq<Room>)
    ensures r == Fail(403, "Only room creater can delete this room")
    ensures |remaining| == 1 && remaining[0].createdBy == Creator
  {
    var db, room := CreatorsRoom();
    r := DeleteRoomIntended(db, room.id, Guest);
    remaining := db.rooms;
  }

  /** Two logins with a wrong password: both answered 401, and the one record
      stored at registration is all the refresh-token table holds. */
  method WrongPasswordTwice() returns (first: Response<Session>, second: Response<Session>, stored: nat)
    ensures first == Fail(401, "Incorrect password") && second == first
    ensures stored == 1
  {
    var db := new Store();
    var same := (stored: string, candidate: string) => stored == candidate;
    var reg := Register(db, Some("ann@example.com"), Some("secret"), 1000);
    first := Login(db, Some("ann@example.com"), Some("guess"), same, 1010);
    second := Login(db, Some("ann@example.com"), Some("guess"), same, 1020);
    stored := |db.tokens|;
  }

  /** Logging out revokes the cookie's record; logging out again still answers 200. */
  method LogoutTwice() returns (first: Response<Notice>, second: Response<Notice>, stored: nat)
    ensures first == second == Ok(200, Notice("Logout successful"))
    ensures stored == 0
  {
    var db := new Store();
    var reg := Register(db, Some("ann@example.com"), Some("secret"), 1000);
    var cookie := reg.body.cookie;
    first := Logout(db, Some(cookie));
    second := Logout(db, Some(cookie));
    stored := |db.tokens|;
  }

  /** Refresh as written: the cookie issued at registration is accepted a
      second time, although the first call rotated its record away. */
  method RefreshReplay() returns (first: Response<Session>, second: Response<Session>, storedAtSecond: bool)
    ensures first.Ok? && second.Ok? && !storedAtSecond
  {
    var db := new Store();
    var reg := Register(db, Some("ann@example.com"), Some("secret"), 1000);
    var cookie := reg.body.cookie;
    var before := db.tokens;
    first := RefreshController.Refresh(db, Some(cookie), 1010);
    RotatedTokenGone(before, cookie.userId, cookie, first.body.cookie);
    storedAtSecond := Stored(db.tokens, cookie);
    second := RefreshController.Refresh(db, Some(cookie), 1020);
  }

  /** Refresh as intended: the rotated-away cookie is refused the second time. */
  method RefreshReplayIntended() returns (first: Response<Session>, second: Response<Session>)
    ensures first.Ok?
    ensures second == Fail(401, "Refresh token is invalid or expired")
  {
    var db := new Store();
    var reg := Register(db, Some("ann@example.com"), Some("secret"), 1000);
    var cookie := reg.body.cookie;
    assert db.tokens[0].token == cookie;
    first := RefreshIntended(db, Some(cookie), 1010);
    second := RefreshIntended(db, Some(cookie), 1020);
  }
}
