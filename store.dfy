/** The database the handlers read and write: the users, refresh-token, rooms
    and messages collections, each a sequence of documents in insertion order,
    and the source of fresh document ids. */
module Db {
  import opened Common
  import opened Jwt
  import opened UserModel
  import opened RefreshTokens
  import opened Rooms
  import opened Messages

  class Store {
    var users: seq<User>
    var tokens: seq<RefreshRecord>
    var rooms: seq<Room>
    var messages: seq<Message>
    /** Every id handed out so far is below `nextId`: ids are never reused. */
    var nextId: nat
    /** Every token the server has signed with its access or refresh secret.
        Signature verification succeeds for these tokens and no others. */
    var signed: set<Tok>

    /** The schema constraints on users (required fields, unique ids and emails),
        unique room ids, ids in use below `nextId`, every refresh-token record
        stored for an issued user id named by its token, at most one record per
        user, and every signed token naming an issued user id. */
    ghost predicate Valid()
      reads this
    {
      && WellFormed(users)
      && (forall i :: 0 <= i < |users| ==> users[i].id < nextId)
      && UniqueRoomIds(rooms)
      && (forall i :: 0 <= i < |rooms| ==> rooms[i].id < nextId)
      && Consistent(tokens)
      && OwnersBelow(tokens, nextId)
      && AtMostOnePerUser(tokens)
      && (forall t :: t in signed ==> t.userId < nextId)
    }

    /** An empty database. */
    constructor ()
      ensures Valid()
      ensures users == [] && tokens == [] && rooms == [] && messages == [] && signed == {} && nextId == 0
    {
      users, tokens, rooms, messages := [], [], [], [];
      nextId := 0;
      signed := {};
    }

    /** A fresh document id (MongoDB generates a new ObjectId per document). */
    method FreshId() returns (id: Id)
      requires Valid()
      modifies this`nextId
      ensures Valid()
      ensures id == old(nextId) && nextId == id + 1
    {
      id := nextId;
      nextId := nextId + 1;
    }

    /** `Room.create`: store a new room under a fresh id, with its creator as
        its only member. */
    method AddRoom(name: string, inviteToken: string, creator: Id, now: int) returns (room: Room)
      requires Valid()
      modifies this`nextId, this`rooms
      ensures Valid()
      ensures room == Room(old(nextId), name, inviteToken, creator, [creator], now)
      ensures rooms == old(rooms) + [room]
      ensures forall i :: 0 <= i < |old(rooms)| ==> old(rooms)[i].id != room.id
      ensures nextId == old(nextId) + 1
    {
      var id := FreshId();
      room := Room(id, name, inviteToken, creator, [creator], now);
      AppendKeepsUnique(rooms, room);
      rooms := rooms + [room];
    }
  }
}
