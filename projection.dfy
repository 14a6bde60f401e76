/** The server's two tables and its projector: `parseMessage`,
    `getFullChatHistory` (backend/server.js:184-208) and the per-user chat
    filter of `refreshDataForUsers` (backend/server.js:247-250).

    Rows are kept in table (rowid) order. The JSON text columns are kept
    decoded; a missing column value is `None`. */
module Projection {
  import opened ChatTypes
  import opened Seqs

  /** A row of the `chats` table. */
  datatype ChatRow = ChatRow(
    id: ChatId,
    name: string,
    kind: ChatType,
    participants: seq<UserId>,
    hiddenBy: seq<UserId>)

  /** A row of the `messages` table. `isSecret` is the stored integer; a
      `None` reply is SQL NULL; a `None` reactions or readBy column is NULL
      or the empty string. */
  datatype MessageRow = MessageRow(
    id: MessageId,
    chatId: ChatId,
    senderId: UserId,
    content: string,
    kind: MessageType,
    timestamp: Instant,
    isSecret: int,
    replyTo: Option<ReplyData>,
    reactions: Option<Reactions>,
    readBy: Option<seq<UserId>>,
    status: Status)

  /** `JSON.parse(column || '{}')` */
  function StoredReactions(column: Option<Reactions>): Reactions {
    match column
    case None => map[]
    case Some(r) => r
  }

  /** `JSON.parse(column || '[]')` */
  function StoredReadBy(column: Option<seq<UserId>>): seq<UserId> {
    match column
    case None => []
    case Some(r) => r
  }

  /** `parseMessage`: decodes the integer secret flag and the JSON columns. */
  function ParseMessage(m: MessageRow): MessageView {
    MessageView(m.id, m.chatId, m.senderId, m.content, m.kind, m.timestamp,
                m.isSecret == 1, m.replyTo, StoredReactions(m.reactions),
                StoredReadBy(m.readBy), m.status)
  }

  /** What `parseMessage` does to a row: the message is secret exactly when
      the stored flag is 1, an empty JSON column decodes to no reactions and
      no readers, and every other column is passed through. */
  lemma ParseMessageDecodes(m: MessageRow)
    ensures var v := ParseMessage(m);
      && (v.isSecret <==> m.isSecret == 1)
      && v.reactions == (if m.reactions.Some? then m.reactions.value else map[])
      && v.readBy == (if m.readBy.Some? then m.readBy.value else [])
      && v.id == m.id && v.chatId == m.chatId && v.senderId == m.senderId && v.timestamp == m.timestamp
      && v.content == m.content && v.kind == m.kind && v.replyTo == m.replyTo && v.status == m.status
  {
  }

  /** `rows.map(parseMessage)` */
  function ParseAll(rows: seq<MessageRow>): (vs: seq<MessageView>)
    ensures |vs| == |rows|
    ensures forall m :: m in rows ==> ParseMessage(m) in vs
    ensures forall v :: v in vs ==> exists m :: m in rows && ParseMessage(m) == v
  {
    var vs := Map(rows, ParseMessage);
    assert forall m :: m in rows ==> ParseMessage(m) in vs by {
      forall m | m in rows ensures ParseMessage(m) in vs {
        var i :| 0 <= i < |rows| && rows[i] == m;
        assert vs[i] == ParseMessage(m);
      }
    }
    assert forall v :: v in vs ==> exists m :: m in rows && ParseMessage(m) == v by {
      forall v | v in vs ensures exists m :: m in rows && ParseMessage(m) == v {
        var i :| 0 <= i < |vs| && vs[i] == v;
        assert rows[i] in rows;
      }
    }
    vs
  }

  /** The filter `m => m.chatId === chatId`. */
  function InChat(chatId: ChatId): MessageRow -> bool {
    (m: MessageRow) => m.chatId == chatId
  }

  /** `messages.filter(m => m.chatId === chatId)` */
  function RowsOf(rows: seq<MessageRow>, chatId: ChatId): (r: seq<MessageRow>)
    ensures forall m :: m in r <==> m in rows && m.chatId == chatId
  {
    Filter(rows, InChat(chatId))
  }

  /** The sort key of `new Date(a.timestamp) - new Date(b.timestamp)`. */
  function TimestampOf(m: MessageView): int {
    m.timestamp
  }

  /** One element of `getFullChatHistory`: the chat with exactly its own
      messages joined in, decoded, in non-decreasing timestamp order (ties
      keep table order, as the stable `Array.prototype.sort` does). */
  function ProjectChat(c: ChatRow, rows: seq<MessageRow>): (v: ChatView)
    ensures v.id == c.id && v.name == c.name && v.kind == c.kind
    ensures v.participants == c.participants && v.hiddenBy == c.hiddenBy
    ensures SortedBy(v.messages, TimestampOf)
  {
    ChatView(c.id, c.name, c.kind, c.participants, c.hiddenBy,
             SortBy(ParseAll(RowsOf(rows, c.id)), TimestampOf))
  }

  /** The projected chat holds every message of the chat, decoded, and
      nothing else, one entry per row. */
  lemma ProjectChatMessages(c: ChatRow, rows: seq<MessageRow>)
    ensures var v := ProjectChat(c, rows);
      && (forall m :: m in rows && m.chatId == c.id ==> ParseMessage(m) in v.messages)
      && (forall w :: w in v.messages ==> w.chatId == c.id && exists m :: m in rows && ParseMessage(m) == w)
      && |v.messages| == |RowsOf(rows, c.id)|
  {
    var own := ParseAll(RowsOf(rows, c.id));
    var sorted := ProjectChat(c, rows).messages;
    assert forall w :: w in sorted ==> w in own by {
      forall w | w in sorted ensures w in own {
        assert w in multiset(sorted);
      }
    }
    assert forall w :: w in own ==> w in sorted by {
      forall w | w in own ensures w in sorted {
        assert w in multiset(own);
      }
    }
    assert |sorted| == |own| by {
      assert |multiset(sorted)| == |multiset(own)|;
    }
  }

  /** `getFullChatHistory`: every chat, in table order. */
  function ProjectAll(chats: seq<ChatRow>, rows: seq<MessageRow>): (vs: seq<ChatView>)
    ensures |vs| == |chats|
    ensures forall i :: 0 <= i < |chats| ==> vs[i] == ProjectChat(chats[i], rows)
  {
    seq(|chats|, i requires 0 <= i < |chats| => ProjectChat(chats[i], rows))
  }

  /** Whether the snapshot sent to `userId` includes a chat: every broadcast,
      and every chat that lists the user as a participant. */
  predicate SharedWith(v: ChatView, userId: UserId) {
    v.kind == Broadcast || userId in v.participants
  }

  /** The chat list `refreshDataForUsers` pushes to one user. The snapshot
      does not look at `hiddenBy`: hiding is applied by the client. */
  function Snapshot(chats: seq<ChatRow>, rows: seq<MessageRow>, userId: UserId): (vs: seq<ChatView>)
    ensures forall v :: v in vs <==> v in ProjectAll(chats, rows) && SharedWith(v, userId)
    ensures IsSubsequence(vs, ProjectAll(chats, rows))
  {
    Filter(ProjectAll(chats, rows), v => SharedWith(v, userId))
  }
}
