/**
  The entities of the chat (sharechat/message.go): messages, their constructors, the cursor that
  names a message, and the options of a history request.
 */
module Messages {
  import opened Wrappers
  import opened Rfc3339

  datatype MessageType = Chat | MemberJoined | MemberLeft | SendFailed

  datatype Member = Member(id: string, name: string, roomId: string)

  datatype Message = Message(
    id: string, roomId: string, memberId: string, memberName: string, kind: MessageType, text: string, sent: Time)

  /** The constructors draw a UUID, which is the parameter `id`; Sent is left for the repository to stamp. */
  function NewChatMessage(member: Member, id: string, text: string): Message {
    Message(id, member.roomId, member.id, member.name, Chat, text, ZERO_TIME)
  }

  function NewMemberJoinedMessage(member: Member, id: string): Message {
    Message(id, member.roomId, member.id, member.name, MemberJoined, member.name + " joined the room.", ZERO_TIME)
  }

  function NewMemberLeftMessage(member: Member, id: string): Message {
    Message(id, member.roomId, member.id, member.name, MemberLeft, member.name + " left the room.", ZERO_TIME)
  }

  function NewSendFailedMessage(member: Member, id: string): Message {
    Message(id, member.roomId, member.id, member.name, SendFailed, "failed to send message", ZERO_TIME)
  }

  datatype MessageCursor = MessageCursor(id: string, sent: Time) {
    predicate IsEmpty() {
      id == "" && sent.instant == 0
    }
  }

  const EMPTY_CURSOR := MessageCursor("", ZERO_TIME)

  datatype GetMessageOptions = GetMessageOptions(limit: int, roomId: string, after: MessageCursor,
                                                 before: MessageCursor)

  datatype OptionsError = NegativeLimit | BothCursors

  /** GetMessageOptions.Validate; None is a nil error. */
  function Validate(o: GetMessageOptions): (error: Option<OptionsError>)
    ensures error == Some(NegativeLimit) <==> o.limit < 0
    ensures error == None <==> 0 <= o.limit && (o.after.IsEmpty() || o.before.IsEmpty())
  {
    if o.limit < 0 then Some(NegativeLimit)
    else if !o.after.IsEmpty() && !o.before.IsEmpty() then Some(BothCursors)
    else None
  }
}
