/** `getMessages`: the history of one room, oldest first. A read-only query. */
module MessageController {
  import opened Common
  import opened Collections
  import opened Messages

  /** `sort({ createdAt: 1 })`. */
  function OldestFirst(): Message -> int
  {
    (m: Message) => m.createdAt
  }

  function GetMessages(messages: seq<Message>, roomId: Id): (r: Response<seq<Message>>)
    ensures r.Ok? && r.status == 200
    ensures forall i, j :: 0 <= i < j < |r.body| ==> r.body[i].createdAt <= r.body[j].createdAt
  {
    Ok(200, SortBy(Filter(messages, InRoom(roomId)), OldestFirst()))
  }

  /** The history holds every stored message of the room, as often as it is
      stored, and nothing else: no limit is applied. */
  lemma HistoryExactly(messages: seq<Message>, roomId: Id)
    ensures forall m :: multiset(GetMessages(messages, roomId).body)[m] ==
                        if m.roomId == roomId then multiset(messages)[m] else 0
    ensures forall i :: 0 <= i < |GetMessages(messages, roomId).body| ==>
                        GetMessages(messages, roomId).body[i].roomId == roomId
  {
    var history := GetMessages(messages, roomId).body;
    FilterCounts(messages, InRoom(roomId));
    assert multiset(history) == multiset(Filter(messages, InRoom(roomId)));
    forall i | 0 <= i < |history| ensures history[i].roomId == roomId {
      assert history[i] in multiset(history);
    }
  }

  /** A room with no stored message gets an empty history, still with 200. */
  lemma UnknownRoomEmpty(messages: seq<Message>, roomId: Id)
    requires forall i :: 0 <= i < |messages| ==> messages[i].roomId != roomId
    ensures GetMessages(messages, roomId) == Ok(200, [])
  {
    HistoryExactly(messages, roomId);
    var history := GetMessages(messages, roomId).body;
    forall m: Message | m.roomId == roomId ensures multiset(messages)[m] == 0 {
      assert m !in messages;
    }
    assert multiset(history) == multiset{};
  }
}
