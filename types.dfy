/** Shared vocabulary of the chat core: identifiers, the chat and message
    views that the server pushes and the client keeps, the users list, and
    the intents a client sends over its socket. */
module ChatTypes {

  type UserId = string
  type ChatId = string
  type MessageId = string

  /** An ISO-8601 instant, compared as the number of milliseconds it denotes. */
  type Instant = int

  datatype Option<+T> = None | Some(value: T)

  datatype ChatType = Direct | Group | Broadcast

  datatype MessageType = Text | Image | Video | Document

  datatype Status = Sent | Read

  /** The snapshot a reply carries of the message it answers: a copy, not a reference. */
  datatype ReplyData = ReplyData(id: MessageId, senderName: string, content: string)

  /** emoji -> the ids of the users who reacted with it */
  type Reactions = map<string, seq<UserId>>

  /** A message as pushed to clients (the server's `parseMessage` result). */
  datatype MessageView = MessageView(
    id: MessageId,
    chatId: ChatId,
    senderId: UserId,
    content: string,
    kind: MessageType,
    timestamp: Instant,
    isSecret: bool,
    replyTo: Option<ReplyData>,
    reactions: Reactions,
    readBy: seq<UserId>,
    status: Status)

  /** A chat with its messages joined in, as pushed to clients. */
  datatype ChatView = ChatView(
    id: ChatId,
    name: string,
    kind: ChatType,
    participants: seq<UserId>,
    hiddenBy: seq<UserId>,
    messages: seq<MessageView>)

  /** A row of the users list (passwords are never sent to clients). */
  datatype UserInfo = UserInfo(id: UserId, name: string, role: string, department: string)

  /** The socket intents a client emits. */
  datatype Intent =
    | CreateGroup(groupName: string, members: seq<UserId>)
    | CreateDirectChat(senderId: UserId, participantId: UserId)
    | SendMessage(chatId: ChatId, content: string, senderId: UserId, kind: MessageType,
                  isSecret: bool, replyTo: Option<ReplyData>)
    | MarkMessagesRead(chatId: ChatId, userId: UserId)
    | AddReaction(chatId: ChatId, messageId: MessageId, emoji: string, userId: UserId)
    | DeleteMessage(chatId: ChatId, messageId: MessageId)
    | DeleteChat(chatId: ChatId, userId: UserId, mode: string)

  /** The string the source stores in a message's `type` column. */
  function TypeName(t: MessageType): string {
    match t
    case Text => "text"
    case Image => "image"
    case Video => "video"
    case Document => "document"
  }

  /** The read-receipt rule that both the server handler and the client
      reducer apply to one message: a reader owes a receipt for a message
      someone else sent and that does not list the reader yet. */
  predicate OwesReceipt(senderId: UserId, readBy: seq<UserId>, reader: UserId) {
    senderId != reader && reader !in readBy
  }
}
