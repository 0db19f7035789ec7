/** The chat message record as the history query reads it: the room it was
    posted to, its author, its text and its creation time. */
module Messages {
  import opened Common

  datatype Message = Message(id: Id, roomId: Id, userId: Id, text: string, createdAt: int)

  /** The `{ roomId }` filter. */
  function InRoom(roomId: Id): Message -> bool
  {
    (m: Message) => m.roomId == roomId
  }
}
