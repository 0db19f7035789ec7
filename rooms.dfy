/** The room record as the room handlers create and change it (`name`,
    `inviteToken`, `createdBy`, `members`, `createdAt`), and the updates they
    apply to the rooms collection. */
module Rooms {
  import opened Common
  import opened Collections

  datatype Room = Room(
    id: Id,
    name: string,
    inviteToken: string,
    createdBy: Id,
    members: seq<Id>,
    createdAt: int)

  function HasRoomId(id: Id): Room -> bool
  {
    (r: Room) => r.id == id
  }

  function HasInvite(token: string): Room -> bool
  {
    (r: Room) => r.inviteToken == token
  }

  /** The `{ members: userId }` filter: rooms whose member list contains the user. */
  function HasMember(u: Id): Room -> bool
  {
    (r: Room) => u in r.members
  }

  function Other(u: Id): Id -> bool
  {
    (m: Id) => m != u
  }

  ghost predicate UniqueRoomIds(rooms: seq<Room>)
  {
    forall i, j :: 0 <= i < j < |rooms| ==> rooms[i].id != rooms[j].id
  }

  /** A room with an id no stored room has keeps the ids unique. */
  lemma AppendKeepsUnique(rooms: seq<Room>, room: Room)
    requires UniqueRoomIds(rooms)
    requires forall i :: 0 <= i < |rooms| ==> rooms[i].id != room.id
    ensures UniqueRoomIds(rooms + [room])
  {
  }

  /** `$pull: { members: u }`: every occurrence of `u` goes, every other member stays. */
  function Pull(members: seq<Id>, u: Id): (r: seq<Id>)
    ensures u !in r
    ensures forall v :: v != u ==> multiset(r)[v] == multiset(members)[v]
  {
    FilterCounts(members, Other(u));
    Filter(members, Other(u))
  }

  /** Pulling keeps the remaining members in their relative order. */
  lemma PullConcat(a: seq<Id>, b: seq<Id>, u: Id)
    ensures Pull(a + b, u) == Pull(a, u) + Pull(b, u)
  {
    FilterConcat(a, b, Other(u));
  }

  /** Pulling a user who is not a member changes nothing. */
  lemma PullNonMember(members: seq<Id>, u: Id)
    requires u !in members
    ensures Pull(members, u) == members
  {
    FilterKeepsAll(members, Other(u));
  }

  /** `findByIdAndDelete(id)`: drop the room with that id. */
  function DeleteById(rooms: seq<Room>, id: Id): (r: seq<Room>)
    ensures (forall i :: 0 <= i < |rooms| ==> rooms[i].id != id) ==> r == rooms
    ensures (exists i :: 0 <= i < |rooms| && rooms[i].id == id) ==> |r| == |rooms| - 1
  {
    RemoveFirst(rooms, HasRoomId(id))
  }

  /** Dropping index `i` keeps the rooms before it and shifts every later room down by one. */
  lemma DropIndex(rooms: seq<Room>, i: nat, after: seq<Room>)
    requires i < |rooms| && after == rooms[..i] + rooms[i + 1..]
    ensures |after| == |rooms| - 1
    ensures forall k :: 0 <= k < i ==> after[k] == rooms[k]
    ensures forall k :: i <= k < |after| ==> after[k] == rooms[k + 1]
  {
  }

  /** With unique ids, deleting by id removes that room and keeps every other room. */
  lemma DeleteByIdRemovesOnly(rooms: seq<Room>, id: Id)
    requires UniqueRoomIds(rooms)
    ensures UniqueRoomIds(DeleteById(rooms, id))
    ensures forall r :: r in DeleteById(rooms, id) <==> r in rooms && r.id != id
  {
    var idx := FirstIndex(rooms, HasRoomId(id));
    if idx.Some? {
      var i := idx.value;
      var after := rooms[..i] + rooms[i + 1..];
      assert DeleteById(rooms, id) == after;
      DropIndex(rooms, i, after);
      forall a, b | 0 <= a < b < |after| ensures after[a].id != after[b].id {
        var a', b' := if a < i then a else a + 1, if b < i then b else b + 1;
        assert after[a] == rooms[a'] && after[b] == rooms[b'] && a' < b';
      }
      forall r | r in after ensures r in rooms && r.id != id {
        var k :| 0 <= k < |after| && after[k] == r;
        var k' := if k < i then k else k + 1;
        assert r == rooms[k'] && k' != i;
      }
      forall r | r in rooms && r.id != id ensures r in after {
        var k :| 0 <= k < |rooms| && rooms[k] == r;
        assert k != i;
        assert after[if k < i then k else k - 1] == r;
      }
    }
  }
}
