/** The room directory handlers: create a room, list the caller's rooms, read
    one room, join by invite token, leave, delete. */
module RoomController {
  import opened Common
  import opened Collections
  import opened HexEncoding
  import opened Rooms
  import opened UserModel
  import opened Db

  datatype CreatedRoom = CreatedRoom(room: Room, inviteLink: string)
  datatype RoomDetails = RoomDetails(room: Room, membersLength: nat)
  datatype JoinReply = JoinReply(message: string, room: Room)

  /** `createRoom` for user `user`. `random` stands for `crypto.randomBytes(4)`
      and `appUrl` for the `APP_URL` setting. */
  method CreateRoom(db: Store, user: Id, name: Option<string>, random: seq<Byte>, appUrl: string, now: int)
    returns (r: Response<CreatedRoom>)
    requires db.Valid()
    requires |random| == 4
    modifies db
    ensures db.Valid()
    ensures db.users == old(db.users) && db.tokens == old(db.tokens) && db.signed == old(db.signed) && db.messages == old(db.messages)
    ensures !Truthy(name) ==> r == Fail(400, "Please, name your room") && unchanged(db)
    ensures Truthy(name) ==> r.Ok? && r.status == 201
    ensures r.Ok? ==> r.body.room.id == old(db.nextId) && db.nextId == old(db.nextId) + 1
    ensures r.Ok? ==>
      var room := r.body.room;
      && db.rooms == old(db.rooms) + [room]
      && (forall i :: 0 <= i < |old(db.rooms)| ==> old(db.rooms)[i].id != room.id)
      && room.name == name.value && room.createdBy == user && room.members == [user]
      && room.createdAt == now
      && |room.inviteToken| == 8 && (forall k :: 0 <= k < 8 ==> room.inviteToken[k] in Digits)
      && Unhex(room.inviteToken) == Some(random)
      && r.body.inviteLink == appUrl + "/join/" + room.inviteToken
  {
    if !Truthy(name) {
      return Fail(400, "Please, name your room");
    }
    var inviteToken := Hex(random);
    HexRoundTrip(random);
    var room := db.AddRoom(name.value, inviteToken, user, now);
    var inviteLink := appUrl + "/join/" + inviteToken;
    r := Ok(201, CreatedRoom(room, inviteLink));
  }

  /** Newest first: `sort({ createdAt: -1 })`. */
  function NewestFirst(): Room -> int
  {
    (r: Room) => -r.createdAt
  }

  /** `getMyRooms`: the rooms listing `user` as a member, newest first. Read-only. */
  function GetMyRooms(rooms: seq<Room>, user: Id): (r: Response<seq<Room>>)
    ensures r.Ok? && r.status == 200
    ensures forall i, j :: 0 <= i < j < |r.body| ==> r.body[i].createdAt >= r.body[j].createdAt
  {
    Ok(200, SortBy(Filter(rooms, HasMember(user)), NewestFirst()))
  }

  /** The listing holds each room the user is a member of, as often as it is
      stored, and no other room. */
  lemma MyRoomsExactly(rooms: seq<Room>, user: Id)
    ensures forall room :: multiset(GetMyRooms(rooms, user).body)[room] ==
                           if user in room.members then multiset(rooms)[room] else 0
    ensures forall room :: room in GetMyRooms(rooms, user).body <==> room in rooms && user in room.members
  {
    var mine := Filter(rooms, HasMember(user));
    FilterCounts(rooms, HasMember(user));
    var listed := GetMyRooms(rooms, user).body;
    assert multiset(listed) == multiset(mine);
    forall room ensures room in listed <==> room in rooms && user in room.members {
      assert room in listed <==> room in multiset(listed);
      assert room in rooms <==> room in multiset(rooms);
    }
  }

  /** Whether a member id names a user document (`findById` on the users). */
  function Resolvable(users: seq<User>): Id -> bool
  {
    (m: Id) => FirstIndex(users, HasId(m)).Some?
  }

  /** `populate('members')`: the room's members that name a user document, in
      order; ids with no such document are dropped. */
  function Populated(room: Room, users: seq<User>): (p: Room)
    ensures p.id == room.id && p.name == room.name && p.createdBy == room.createdBy
    ensures p.inviteToken == room.inviteToken && p.createdAt == room.createdAt
    ensures |p.members| <= |room.members|
  {
    room.(members := Filter(room.members, Resolvable(users)))
  }

  /** A member is listed after population exactly when it is a member that
      names a stored user. */
  lemma PopulatedMembers(room: Room, users: seq<User>, m: Id)
    ensures m in Populated(room, users).members <==>
              m in room.members && exists j :: 0 <= j < |users| && users[j].id == m
  {
    FilterMember(room.members, Resolvable(users), m);
    if FirstIndex(users, HasId(m)).Some? {
      var j := FirstIndex(users, HasId(m)).value;
      assert users[j].id == m;
    }
  }

  /** When every member names a stored user, population keeps the list whole. */
  lemma PopulatedKeepsRegistered(room: Room, users: seq<User>)
    requires forall i :: 0 <= i < |room.members| ==>
               exists j :: 0 <= j < |users| && users[j].id == room.members[i]
    ensures Populated(room, users) == room
  {
    forall i | 0 <= i < |room.members| ensures Resolvable(users)(room.members[i]) {
      var j :| 0 <= j < |users| && users[j].id == room.members[i];
      assert HasId(room.members[i])(users[j]);
    }
    FilterKeepsAll(room.members, Resolvable(users));
  }

  /** `getRoomById`: the room with that id, its members populated from `users`,
      and `membersLength` counting the populated members; or 404. Read-only. */
  function GetRoomById(rooms: seq<Room>, users: seq<User>, id: Id): (r: Response<RoomDetails>)
    ensures r.Err? <==> forall i :: 0 <= i < |rooms| ==> rooms[i].id != id
    ensures r.Err? ==> r == Fail(404, "Room not found")
    ensures r.Ok? ==> && r.status == 200 && r.body.room.id == id
                      && (exists i :: 0 <= i < |rooms| && rooms[i].id == id
                                      && r.body.room == Populated(rooms[i], users))
                      && r.body.membersLength == |r.body.room.members|
  {
    match FirstIndex(rooms, HasRoomId(id))
    case None => Fail(404, "Room not found")
    case Some(i) =>
      var room := Populated(rooms[i], users);
      Ok(200, RoomDetails(room, |room.members|))
  }

  /** `room.members.push(user)`. */
  function Pushed(room: Room, user: Id): (p: Room)
    ensures p == room.(members := p.members)
    ensures |p.members| == |room.members| + 1
    ensures p.members[..|room.members|] == room.members && p.members[|room.members|] == user
  {
    room.(members := room.members + [user])
  }

  /** `joinRoom` as written. The already-member branch answers "already in
      that room" but does not return, so the user is pushed a second time. */
  method JoinRoom(db: Store, inviteToken: string, user: Id) returns (r: Response<JoinReply>)
    requires db.Valid()
    modifies db
    ensures db.Valid()
    ensures db.users == old(db.users) && db.tokens == old(db.tokens) && db.signed == old(db.signed)
    ensures db.messages == old(db.messages) && db.nextId == old(db.nextId)
    ensures FirstIndex(old(db.rooms), HasInvite(inviteToken)).None? ==>
              r == Fail(404, "Invalid intive link") && unchanged(db)
    ensures FirstIndex(old(db.rooms), HasInvite(inviteToken)).Some? ==>
              var i := FirstIndex(old(db.rooms), HasInvite(inviteToken)).value;
              var room := old(db.rooms)[i];
              && db.rooms == old(db.rooms)[i := Pushed(room, user)]
              && r == if user in room.members then Ok(200, JoinReply("You are already in that room", room))
                      else Ok(200, JoinReply("Joined room successfully", Pushed(room, user)))
  {
    var found := FirstIndex(db.rooms, HasInvite(inviteToken));
    if found.None? {
      return Fail(404, "Invalid intive link");
    }
    var i := found.value;
    var room := db.rooms[i];
    var alreadyAnswered := false;
    if user in room.members {
      r := Ok(200, JoinReply("You are already in that room", room));
      alreadyAnswered := true;
    }
    room := Pushed(room, user);
    db.rooms := db.rooms[i := room];
    if !alreadyAnswered {
      r := Ok(200, JoinReply("Joined room successfully", room));
    }
  }

  /** No member is listed twice. */
  ghost predicate NoDuplicateMembers(room: Room)
  {
    forall i, j :: 0 <= i < j < |room.members| ==> room.members[i] != room.members[j]
  }

  /** `joinRoom` as evidently intended: joining a room one is already in
      changes nothing, so membership stays a set. */
  method JoinRoomIntended(db: Store, inviteToken: string, user: Id) returns (r: Response<JoinReply>)
    requires db.Valid()
    modifies db
    ensures db.Valid()
    ensures db.users == old(db.users) && db.tokens == old(db.tokens) && db.signed == old(db.signed)
    ensures db.messages == old(db.messages) && db.nextId == old(db.nextId)
    ensures FirstIndex(old(db.rooms), HasInvite(inviteToken)).None? ==>
              r == Fail(404, "Invalid intive link") && unchanged(db)
    ensures FirstIndex(old(db.rooms), HasInvite(inviteToken)).Some? ==>
              var i := FirstIndex(old(db.rooms), HasInvite(inviteToken)).value;
              var room := old(db.rooms)[i];
              if user in room.members then
                r == Ok(200, JoinReply("You are already in that room", room)) && unchanged(db)
              else
                && db.rooms == old(db.rooms)[i := Pushed(room, user)]
                && r == Ok(200, JoinReply("Joined room successfully", Pushed(room, user)))
                && (NoDuplicateMembers(room) ==> NoDuplicateMembers(Pushed(room, user)))
  {
    var found := FirstIndex(db.rooms, HasInvite(inviteToken));
    if found.None? {
      return Fail(404, "Invalid intive link");
    }
    var i := found.value;
    var room := db.rooms[i];
    if user in room.members {
      return Ok(200, JoinReply("You are already in that room", room));
    }
    room := Pushed(room, user);
    db.rooms := db.rooms[i := room];
    r := Ok(200, JoinReply("Joined room successfully", room));
  }

  /** `leaveRoom`: `$pull` removes every occurrence of the user from the room's members. */
  method LeaveRoom(db: Store, roomId: Id, user: Id) returns (r: Response<Notice>)
    requires db.Valid()
    modifies db
    ensures db.Valid()
    ensures db.users == old(db.users) && db.tokens == old(db.tokens) && db.signed == old(db.signed)
    ensures db.messages == old(db.messages) && db.nextId == old(db.nextId)
    ensures FirstIndex(old(db.rooms), HasRoomId(roomId)).None? ==>
              r == Fail(404, "Room not found") && unchanged(db)
    ensures FirstIndex(old(db.rooms), HasRoomId(roomId)).Some? ==>
              var i := FirstIndex(old(db.rooms), HasRoomId(roomId)).value;
              var room := old(db.rooms)[i];
              && db.rooms == old(db.rooms)[i := room.(members := Pull(room.members, user))]
              && r == Ok(200, Notice("Left the room successfully"))
  {
    var found := FirstIndex(db.rooms, HasRoomId(roomId));
    if found.None? {
      return Fail(404, "Room not found");
    }
    var i := found.value;
    var room := db.rooms[i];
    db.rooms := db.rooms[i := room.(members := Pull(room.members, user))];
    r := Ok(200, Notice("Left the room successfully"));
  }

  /** `deleteRoom` as written. A non-creator is answered 403, but the branch does
      not return, so the room is deleted all the same. */
  method DeleteRoom(db: Store, roomId: Id, user: Id) returns (r: Response<Notice>)
    requires db.Valid()
    modifies db
    ensures db.Valid()
    ensures db.users == old(db.users) && db.tokens == old(db.tokens) && db.signed == old(db.signed)
    ensures db.messages == old(db.messages) && db.nextId == old(db.nextId)
    ensures FirstIndex(old(db.rooms), HasRoomId(roomId)).None? ==>
              r == Fail(404, "Room not found") && unchanged(db)
    ensures FirstIndex(old(db.rooms), HasRoomId(roomId)).Some? ==>
              var room := old(db.rooms)[FirstIndex(old(db.rooms), HasRoomId(roomId)).value];
              && db.rooms == DeleteById(old(db.rooms), roomId)
              && (forall rm :: rm in db.rooms <==> rm in old(db.rooms) && rm.id != roomId)
              && r == if room.createdBy != user then Fail(403, "Only room creater can delete this room")
                      else Ok(200, Notice("Room deleted successfully"))
  {
    var found := FirstIndex(db.rooms, HasRoomId(roomId));
    if found.None? {
      return Fail(404, "Room not found");
    }
    var room := db.rooms[found.value];
    var forbidden := false;
    if room.createdBy != user {
      r := Fail(403, "Only room creater can delete this room");
      forbidden := true;
    }
    DeleteByIdRemovesOnly(db.rooms, roomId);
    db.rooms := DeleteById(db.rooms, roomId);
    if !forbidden {
      r := Ok(200, Notice("Room deleted successfully"));
    }
  }

  /** `deleteRoom` as evidently intended: only the creator can delete the room. */
  method DeleteRoomIntended(db: Store, roomId: Id, user: Id) returns (r: Response<Notice>)
    requires db.Valid()
    modifies db
    ensures db.Valid()
    ensures db.users == old(db.users) && db.tokens == old(db.tokens) && db.signed == old(db.signed)
    ensures db.messages == old(db.messages) && db.nextId == old(db.nextId)
    ensures FirstIndex(old(db.rooms), HasRoomId(roomId)).None? ==>
              r == Fail(404, "Room not found") && unchanged(db)
    ensures FirstIndex(old(db.rooms), HasRoomId(roomId)).Some? ==>
              var room := old(db.rooms)[FirstIndex(old(db.rooms), HasRoomId(roomId)).value];
              if room.createdBy != user then
                r == Fail(403, "Only room creater can delete this room") && unchanged(db)
              else
                && db.rooms == DeleteById(old(db.rooms), roomId)
                && (forall rm :: rm in db.rooms <==> rm in old(db.rooms) && rm.id != roomId)
                && r == Ok(200, Notice("Room deleted successfully"))
  {
    var found := FirstIndex(db.rooms, HasRoomId(roomId));
    if found.None? {
      return Fail(404, "Room not found");
    }
    var room := db.rooms[found.value];
    if room.createdBy != user {
      return Fail(403, "Only room creater can delete this room");
    }
    DeleteByIdRemovesOnly(db.rooms, roomId);
    db.rooms := DeleteById(db.rooms, roomId);
    r := Ok(200, Notice("Room deleted successfully"));
  }
}
