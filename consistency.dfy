/** How the two sides agree. The client never re-reads the tables after a
    push: it rewrites its own copy of the chat list with a reducer. These
    lemmas show that, for reads and reactions, the rewrite gives exactly the
    list the server would project from its updated tables; for a new message
    it does whenever the message is the chat's latest; and a soft delete
    takes the chat off the user's sidebar at the next refresh. */
module Consistency {
  import opened ChatTypes
  import opened Seqs
  import opened Projection
  import opened Server
  import opened ChatContext
  import opened ChatSidebar

  // ---------------------------------------------------------------------
  // A row rewrite that keeps chat ids commutes with the projection

  /** Rewriting the rows with `f` and then projecting a chat is rewriting the
      projected messages with `g`, when `f` keeps chat ids, `g` keeps
      timestamps, and decoding turns `f` into `g` on the chat's rows. */
  lemma ProjectChatMap(chat: ChatRow, rows: seq<MessageRow>, f: MessageRow -> MessageRow, g: MessageView -> MessageView)
    requires forall m :: f(m).chatId == m.chatId
    requires forall m :: m in rows && m.chatId == chat.id ==> ParseMessage(f(m)) == g(ParseMessage(m))
    requires forall v :: g(v).timestamp == v.timestamp
    ensures ProjectChat(chat, Map(rows, f)) ==
            ProjectChat(chat, rows).(messages := Map(ProjectChat(chat, rows).messages, g))
  {
    var own := RowsOf(rows, chat.id);
    FilterMap(rows, f, InChat(chat.id));
    assert RowsOf(Map(rows, f), chat.id) == Map(own, f);
    assert ParseAll(Map(own, f)) == Map(ParseAll(own), g) by {
      forall i | 0 <= i < |own| ensures ParseMessage(Map(own, f)[i]) == g(ParseAll(own)[i]) {
        assert own[i] in own;
      }
    }
    SortByMap(ParseAll(own), g, TimestampOf);
  }

  lemma MapIdentity(s: seq<MessageView>)
    ensures Map(s, (v: MessageView) => v) == s
  {
  }

  // ---------------------------------------------------------------------
  // Reads

  lemma ReadsAgreeOnChat(chat: ChatRow, rows: seq<MessageRow>, chatId: ChatId, userId: UserId)
    ensures var before := ProjectChat(chat, rows);
      ProjectChat(chat, MarkRows(rows, chatId, userId)) ==
      if chat.id == chatId then before.(messages := MarkViews(before.messages, userId)) else before
  {
    var f := (m: MessageRow) => MarkRow(m, chatId, userId);
    assert MarkRows(rows, chatId, userId) == Map(rows, f);
    var before := ProjectChat(chat, rows);
    if chat.id == chatId {
      var g := (v: MessageView) => MarkView(v, userId);
      ProjectChatMap(chat, rows, f, g);
      assert MarkViews(before.messages, userId) == Map(before.messages, g);
    } else {
      ProjectChatMap(chat, rows, f, (v: MessageView) => v);
      MapIdentity(before.messages);
    }
  }

  /** The server's `mark_messages_read` followed by a fresh projection gives
      the very chat list the client's `messages_read_update` reducer makes
      from the old projection: both sides apply the same receipt rule. */
  lemma ServerAndClientAgreeOnReads(chats: seq<ChatRow>, rows: seq<MessageRow>, chatId: ChatId, userId: UserId)
    ensures ProjectAll(chats, MarkRows(rows, chatId, userId)) == ReadUpdate(ProjectAll(chats, rows), chatId, userId)
  {
    var server := ProjectAll(chats, MarkRows(rows, chatId, userId));
    var client := ReadUpdate(ProjectAll(chats, rows), chatId, userId);
    forall i | 0 <= i < |chats| ensures server[i] == client[i] {
      ReadsAgreeOnChat(chats[i], rows, chatId, userId);
    }
  }

  /** Hence, once the server has marked a chat read for a user, the next
      snapshot shows that user no unread message in it. */
  lemma NoUnreadAfterMarkRead(chats: seq<ChatRow>, rows: seq<MessageRow>, chatId: ChatId, userId: UserId)
    ensures forall v :: v in Snapshot(chats, MarkRows(rows, chatId, userId), userId) && v.id == chatId ==>
              UnreadCount(v, userId) == 0
  {
    ServerAndClientAgreeOnReads(chats, rows, chatId, userId);
    NoUnreadAfterReadUpdate(ProjectAll(chats, rows), chatId, userId);
  }

  // ---------------------------------------------------------------------
  // Reactions

  lemma ReactionsAgreeOnChat(chat: ChatRow, rows: seq<MessageRow>, chatId: ChatId,
                             messageId: MessageId, reactions: Reactions)
    requires forall m :: m in rows && m.id == messageId ==> m.chatId == chatId
    ensures var before := ProjectChat(chat, rows);
      ProjectChat(chat, SetReactions(rows, messageId, reactions)) ==
      if chat.id == chatId then before.(messages := WithReactions(before.messages, messageId, reactions)) else before
  {
    var f := (m: MessageRow) => if m.id == messageId then m.(reactions := Some(reactions)) else m;
    assert SetReactions(rows, messageId, reactions) == Map(rows, f);
    var before := ProjectChat(chat, rows);
    if chat.id == chatId {
      var g := (v: MessageView) => if v.id == messageId then v.(reactions := reactions) else v;
      ProjectChatMap(chat, rows, f, g);
      assert WithReactions(before.messages, messageId, reactions) == Map(before.messages, g);
    } else {
      ProjectChatMap(chat, rows, f, (v: MessageView) => v);
      MapIdentity(before.messages);
    }
  }

  /** The server's `add_reaction` update followed by a fresh projection gives
      the chat list the client's `reactionUpdated` reducer makes, provided
      the message really belongs to the chat named in the request (the
      server pushes with the request's chat id). */
  lemma ServerAndClientAgreeOnReactions(chats: seq<ChatRow>, rows: seq<MessageRow>, chatId: ChatId,
                                        messageId: MessageId, reactions: Reactions)
    requires forall m :: m in rows && m.id == messageId ==> m.chatId == chatId
    ensures ProjectAll(chats, SetReactions(rows, messageId, reactions))
            == ReactionUpdated(ProjectAll(chats, rows), chatId, messageId, reactions)
  {
    var server := ProjectAll(chats, SetReactions(rows, messageId, reactions));
    var client := ReactionUpdated(ProjectAll(chats, rows), chatId, messageId, reactions);
    forall i | 0 <= i < |chats| ensures server[i] == client[i] {
      ReactionsAgreeOnChat(chats[i], rows, chatId, messageId, reactions);
    }
  }

  // ---------------------------------------------------------------------
  // New messages

  lemma ReceiveMessagesOnChat(chat: ChatRow, rows: seq<MessageRow>, row: MessageRow)
    requires forall m :: m in rows && m.chatId == row.chatId ==> m.timestamp <= row.timestamp
    ensures var before := ProjectChat(chat, rows).messages;
      ProjectChat(chat, rows + [row]).messages ==
      if chat.id == row.chatId then before + [ParseMessage(row)] else before
  {
    var c := chat.id;
    FilterAppend(rows, row, InChat(c));
    if c == row.chatId {
      var own := RowsOf(rows, c);
      assert ParseAll(own + [row]) == ParseAll(own) + [ParseMessage(row)];
      forall v | v in ParseAll(own) ensures TimestampOf(v) <= TimestampOf(ParseMessage(row)) {
        var m :| m in own && ParseMessage(m) == v;
      }
      SortByAppendLatest(ParseAll(own), ParseMessage(row), TimestampOf);
    } else {
      assert RowsOf(rows + [row], c) == RowsOf(rows, c);
    }
  }

  lemma ReceiveAgreesOnChat(chat: ChatRow, rows: seq<MessageRow>, row: MessageRow, me: UserId)
    requires forall m :: m in rows && m.chatId == row.chatId ==> m.timestamp <= row.timestamp
    ensures var server := ProjectChat(if chat.id == row.chatId then chat.(hiddenBy := []) else chat, rows + [row]);
            var before := ProjectChat(chat, rows);
            var client := if chat.id == row.chatId then WithReceived(before, ParseMessage(row), me) else before;
      && (chat.id != row.chatId ==> server == client)
      && server == client.(hiddenBy := server.hiddenBy)
      && (Visible(server, me) <==> Visible(client, me))
  {
    var before := ProjectChat(chat, rows);
    if chat.id == row.chatId {
      var cleared := chat.(hiddenBy := []);
      var server := ProjectChat(cleared, rows + [row]);
      ReceiveMessagesOnChat(cleared, rows, row);
      assert ProjectChat(cleared, rows).messages == before.messages;
      assert server.messages == before.messages + [ParseMessage(row)];
    } else {
      ReceiveMessagesOnChat(chat, rows, row);
    }
  }

  /** When a new message is not older than any message already in its chat,
      the client's `receiveMessage` append yields the same message lists as
      the server's projection after `send_message`, and the sender's chat is
      visible to the user on both sides; other chats are identical. (The
      server empties `hiddenBy`, the client only drops the user from it.) */
  lemma ServerAndClientAgreeOnReceive(chats: seq<ChatRow>, rows: seq<MessageRow>, row: MessageRow, me: UserId)
    requires forall m :: m in rows && m.chatId == row.chatId ==> m.timestamp <= row.timestamp
    ensures var server := ProjectAll(ClearHidden(chats, row.chatId), rows + [row]);
            var client := ReceiveMessage(ProjectAll(chats, rows), ParseMessage(row), me);
      && |server| == |client|
      && (forall i :: 0 <= i < |server| && server[i].id != row.chatId ==> server[i] == client[i])
      && (forall i :: 0 <= i < |server| ==>
            server[i] == client[i].(hiddenBy := server[i].hiddenBy)
            && (Visible(server[i], me) <==> Visible(client[i], me)))
  {
    var server := ProjectAll(ClearHidden(chats, row.chatId), rows + [row]);
    var client := ReceiveMessage(ProjectAll(chats, rows), ParseMessage(row), me);
    forall i | 0 <= i < |chats|
      ensures server[i].id != row.chatId ==> server[i] == client[i]
      ensures server[i] == client[i].(hiddenBy := server[i].hiddenBy)
      ensures Visible(server[i], me) <==> Visible(client[i], me)
    {
      ReceiveAgreesOnChat(chats[i], rows, row, me);
    }
  }

  // ---------------------------------------------------------------------
  // Soft delete

  lemma SoftDeleteOnChat(chat: ChatRow, rows: seq<MessageRow>, chatId: ChatId, userId: UserId)
    ensures var hidden := if chat.id == chatId && userId !in chat.hiddenBy
                          then chat.(hiddenBy := chat.hiddenBy + [userId]) else chat;
      && (chat.id == chatId ==> !Visible(ProjectChat(hidden, rows), userId))
      && (chat.id != chatId ==> ProjectChat(hidden, rows) == ProjectChat(chat, rows))
  {
    assert userId in chat.hiddenBy + [userId];
  }

  /** After a soft delete by a user, the next snapshot no longer puts the
      chat on that user's sidebar, while every other chat the user saw is
      still there. */
  lemma SoftDeleteHidesOnlyThatChat(chats: seq<ChatRow>, rows: seq<MessageRow>, chatId: ChatId, userId: UserId)
    ensures forall v :: v in VisibleChats(Snapshot(HideChat(chats, chatId, userId), rows, userId), userId) ==>
              v.id != chatId
    ensures forall v :: v in VisibleChats(Snapshot(chats, rows, userId), userId) && v.id != chatId ==>
              v in VisibleChats(Snapshot(HideChat(chats, chatId, userId), rows, userId), userId)
  {
    var hidden := HideChat(chats, chatId, userId);
    forall v | v in VisibleChats(Snapshot(hidden, rows, userId), userId) ensures v.id != chatId {
      var i :| 0 <= i < |hidden| && ProjectAll(hidden, rows)[i] == v;
      SoftDeleteOnChat(chats[i], rows, chatId, userId);
    }
    forall v | v in VisibleChats(Snapshot(chats, rows, userId), userId) && v.id != chatId
      ensures v in VisibleChats(Snapshot(hidden, rows, userId), userId)
    {
      var i :| 0 <= i < |chats| && ProjectAll(chats, rows)[i] == v;
      SoftDeleteOnChat(chats[i], rows, chatId, userId);
      assert ProjectAll(hidden, rows)[i] == v;
    }
  }
}
