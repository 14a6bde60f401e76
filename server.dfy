/** The server's chat store and its socket handlers (backend/server.js:266-420).

    `Store` holds the `chats` and `messages` tables; each handler is a method
    that updates them and returns the audience of the push it makes. Ids and
    timestamps, which the source draws from the clock, are parameters. An
    INSERT whose id is already taken fails on the PRIMARY KEY, which rejects
    the handler's promise: the handler then changes nothing and pushes nothing. */
module Server {
  import opened ChatTypes
  import opened Seqs
  import opened Projection

  /** Where a push goes: nowhere, to every connection (`io.emit`), or to the
      room of each listed user in turn (`io.to(id).emit`). */
  datatype Fanout = NoPush | AllConnections | Rooms(userIds: seq<UserId>)

  // ---------------------------------------------------------------------
  // What the tables always satisfy

  ghost predicate UniqueChatIds(chats: seq<ChatRow>) {
    forall i, j :: 0 <= i < j < |chats| ==> chats[i].id != chats[j].id
  }

  ghost predicate UniqueMessageIds(rows: seq<MessageRow>) {
    forall i, j :: 0 <= i < j < |rows| ==> rows[i].id != rows[j].id
  }

  /** Every emoji key has at least one reactor, and nobody reacts twice with it. */
  ghost predicate ReactionsOk(r: Reactions) {
    forall e :: e in r ==> r[e] != [] && NoDuplicates(r[e])
  }

  /** A message row lists each reader once, keeps its reactions well formed,
      and is `read` exactly when somebody has read it. */
  ghost predicate RowOk(m: MessageRow) {
    && NoDuplicates(StoredReadBy(m.readBy))
    && ReactionsOk(StoredReactions(m.reactions))
    && (m.status == Read <==> StoredReadBy(m.readBy) != [])
  }

  ghost predicate TablesOk(chats: seq<ChatRow>, rows: seq<MessageRow>) {
    && UniqueChatIds(chats)
    && UniqueMessageIds(rows)
    && (forall c :: c in chats ==> NoDuplicates(c.hiddenBy))
    && (forall m :: m in rows ==> RowOk(m))
  }

  // ---------------------------------------------------------------------
  // Lookups: `SELECT * FROM chats WHERE id = ?` and friends

  predicate HasChat(chats: seq<ChatRow>, id: ChatId) {
    exists c :: c in chats && c.id == id
  }

  predicate HasMessage(rows: seq<MessageRow>, id: MessageId) {
    exists m :: m in rows && m.id == id
  }

  function FindChat(chats: seq<ChatRow>, id: ChatId): (r: Option<ChatRow>)
    ensures r.Some? ==> r.value in chats && r.value.id == id
    ensures r.None? <==> !HasChat(chats, id)
  {
    if chats == [] then None
    else if chats[0].id == id then Some(chats[0])
    else
      assert chats == [chats[0]] + chats[1..];
      FindChat(chats[1..], id)
  }

  function FindMessage(rows: seq<MessageRow>, id: MessageId): (r: Option<MessageRow>)
    ensures r.Some? ==> r.value in rows && r.value.id == id
    ensures r.None? <==> !HasMessage(rows, id)
  {
    if rows == [] then None
    else if rows[0].id == id then Some(rows[0])
    else
      assert rows == [rows[0]] + rows[1..];
      FindMessage(rows[1..], id)
  }

  predicate IsDirectBetween(c: ChatRow, a: UserId, b: UserId) {
    c.kind == Direct && a in c.participants && b in c.participants
  }

  /** The `find` of `createDirectChat`: the first direct chat listing both users. */
  function FindDirect(chats: seq<ChatRow>, a: UserId, b: UserId): (r: Option<ChatRow>)
    ensures r.Some? ==> r.value in chats && IsDirectBetween(r.value, a, b)
    ensures r.None? <==> forall c :: c in chats ==> !IsDirectBetween(c, a, b)
  {
    if chats == [] then None
    else if IsDirectBetween(chats[0], a, b) then Some(chats[0])
    else
      assert chats == [chats[0]] + chats[1..];
      FindDirect(chats[1..], a, b)
  }

  // ---------------------------------------------------------------------
  // Audiences

  /** Who gets `receiveMessage` and `reactionUpdated`: every connection for a
      broadcast chat, else each participant's room; nobody for an unknown chat. */
  function MessageAudience(chat: Option<ChatRow>): Fanout {
    match chat
    case None => NoPush
    case Some(c) => if c.kind == Broadcast then AllConnections else Rooms(c.participants)
  }

  /** Who gets `messages_read_update`: broadcast chats have no read receipts. */
  function ReadAudience(chat: Option<ChatRow>): Fanout {
    match chat
    case None => NoPush
    case Some(c) => if c.kind == Broadcast then NoPush else Rooms(c.participants)
  }

  /** With unique chat ids, the lookup by id finds the one chat with that id. */
  lemma FindChatUnique(chats: seq<ChatRow>, id: ChatId)
    requires UniqueChatIds(chats)
    ensures forall c :: c in chats && c.id == id ==> FindChat(chats, id) == Some(c)
  {
    forall c | c in chats && c.id == id ensures FindChat(chats, id) == Some(c) {
      var f := FindChat(chats, id).value;
      var i :| 0 <= i < |chats| && chats[i] == c;
      var j :| 0 <= j < |chats| && chats[j] == f;
      assert chats[i].id == chats[j].id;
      assert i == j;
    }
  }

  /** The audience of `receiveMessage` and `reactionUpdated` follows the
      type of the one chat with the id: every connection for a broadcast,
      exactly the participants' rooms otherwise, nobody for an unknown chat. */
  lemma MessageAudienceFollowsChatType(chats: seq<ChatRow>, id: ChatId)
    requires UniqueChatIds(chats)
    ensures MessageAudience(FindChat(chats, id)) == NoPush <==> !HasChat(chats, id)
    ensures MessageAudience(FindChat(chats, id)) == AllConnections
            <==> exists c :: c in chats && c.id == id && c.kind == Broadcast
    ensures forall c :: c in chats && c.id == id && c.kind != Broadcast ==>
              MessageAudience(FindChat(chats, id)) == Rooms(c.participants)
  {
    FindChatUnique(chats, id);
  }

  /** `messages_read_update` never goes to every connection: it goes to the
      participants' rooms of a known chat that is not a broadcast, and to
      nobody otherwise. */
  lemma ReadAudienceFollowsChatType(chats: seq<ChatRow>, id: ChatId)
    requires UniqueChatIds(chats)
    ensures ReadAudience(FindChat(chats, id)) != AllConnections
    ensures forall c :: c in chats && c.id == id && c.kind != Broadcast ==>
              ReadAudience(FindChat(chats, id)) == Rooms(c.participants)
    ensures ReadAudience(FindChat(chats, id)) == NoPush <==>
              forall c :: c in chats && c.id == id ==> c.kind == Broadcast
  {
    FindChatUnique(chats, id);
  }

  // ---------------------------------------------------------------------
  // send_message

  /** The row `send_message` inserts (backend/server.js:314-326). */
  function NewMessageRow(id: MessageId, now: Instant, chatId: ChatId, content: string,
                         senderId: UserId, kind: MessageType, isSecret: bool,
                         replyTo: Option<ReplyData>): MessageRow
  {
    MessageRow(id, chatId, senderId, content, kind, now, if isSecret then 1 else 0,
               replyTo, Some(map[]), Some([]), Sent)
  }

  /** `UPDATE chats SET hiddenBy = '[]' WHERE id = ?` */
  function ClearHidden(chats: seq<ChatRow>, chatId: ChatId): (r: seq<ChatRow>)
    ensures |r| == |chats|
    ensures forall i :: 0 <= i < |chats| ==>
              r[i] == if chats[i].id == chatId then chats[i].(hiddenBy := []) else chats[i]
  {
    seq(|chats|, i requires 0 <= i < |chats| =>
      if chats[i].id == chatId then chats[i].(hiddenBy := []) else chats[i])
  }

  /** What a client receives for a sent message is exactly what was sent:
      the secret flag survives its 1/0 encoding, the reply snapshot (or its
      absence) is kept, and the message starts unread with no reactions. */
  lemma SentMessageDecodes(id: MessageId, now: Instant, chatId: ChatId, content: string,
                           senderId: UserId, kind: MessageType, isSecret: bool,
                           replyTo: Option<ReplyData>)
    ensures ParseMessage(NewMessageRow(id, now, chatId, content, senderId, kind, isSecret, replyTo))
            == MessageView(id, chatId, senderId, content, kind, now, isSecret, replyTo, map[], [], Sent)
    ensures RowOk(NewMessageRow(id, now, chatId, content, senderId, kind, isSecret, replyTo))
  {
  }

  /** After a send, the projection of the target chat holds the new message
      as sent and nobody hides the chat any more. */
  lemma SentMessageProjected(chats: seq<ChatRow>, rows: seq<MessageRow>, id: MessageId, now: Instant,
                             chatId: ChatId, content: string, senderId: UserId, kind: MessageType,
                             isSecret: bool, replyTo: Option<ReplyData>)
    ensures var row := NewMessageRow(id, now, chatId, content, senderId, kind, isSecret, replyTo);
      forall v :: v in ProjectAll(ClearHidden(chats, chatId), rows + [row]) && v.id == chatId ==>
        v.hiddenBy == [] &&
        MessageView(id, chatId, senderId, content, kind, now, isSecret, replyTo, map[], [], Sent) in v.messages
  {
    var row := NewMessageRow(id, now, chatId, content, senderId, kind, isSecret, replyTo);
    var cleared := ClearHidden(chats, chatId);
    forall v | v in ProjectAll(cleared, rows + [row]) && v.id == chatId
      ensures v.hiddenBy == []
      ensures ParseMessage(row) in v.messages
    {
      var i :| 0 <= i < |cleared| && ProjectAll(cleared, rows + [row])[i] == v;
      assert v == ProjectChat(cleared[i], rows + [row]);
      ProjectChatMessages(cleared[i], rows + [row]);
      assert row in rows + [row];
    }
    SentMessageDecodes(id, now, chatId, content, senderId, kind, isSecret, replyTo);
  }

  // ---------------------------------------------------------------------
  // mark_messages_read

  /** One step of the `forEach` of `mark_messages_read` (backend/server.js:347-353). */
  function MarkRow(m: MessageRow, chatId: ChatId, userId: UserId): MessageRow {
    var readBy := StoredReadBy(m.readBy);
    if m.chatId == chatId && OwesReceipt(m.senderId, readBy, userId)
    then m.(readBy := Some(readBy + [userId]), status := Read)
    else m
  }

  function MarkRows(rows: seq<MessageRow>, chatId: ChatId, userId: UserId): (r: seq<MessageRow>)
    ensures |r| == |rows|
    ensures forall i :: 0 <= i < |rows| ==> r[i] == MarkRow(rows[i], chatId, userId)
  {
    seq(|rows|, i requires 0 <= i < |rows| => MarkRow(rows[i], chatId, userId))
  }

  lemma MarkRowKeepsRowOk(m: MessageRow, chatId: ChatId, userId: UserId)
    requires RowOk(m)
    ensures RowOk(MarkRow(m, chatId, userId))
    ensures MarkRow(m, chatId, userId).id == m.id
  {
    var readBy := StoredReadBy(m.readBy);
    if m.chatId == chatId && OwesReceipt(m.senderId, readBy, userId) {
      assert multiset(readBy + [userId]) == multiset(readBy) + multiset{userId};
    }
  }

  /** Every message of the chat that someone else sent ends up read by the
      user, listing the user exactly once and every earlier reader still;
      the user's own messages and the other chats' messages are untouched. */
  lemma MarkReadEffect(rows: seq<MessageRow>, chatId: ChatId, userId: UserId)
    requires forall m :: m in rows ==> RowOk(m)
    ensures var r := MarkRows(rows, chatId, userId);
      && |r| == |rows|
      && (forall i :: 0 <= i < |rows| && rows[i].chatId == chatId && rows[i].senderId != userId ==>
            && multiset(StoredReadBy(r[i].readBy))[userId] == 1
            && r[i].status == Read
            && (forall u :: u in StoredReadBy(rows[i].readBy) ==> u in StoredReadBy(r[i].readBy))
            && r[i] == rows[i].(readBy := r[i].readBy, status := Read))
      && (forall i :: 0 <= i < |rows| && (rows[i].chatId != chatId || rows[i].senderId == userId) ==>
            r[i] == rows[i])
  {
    var r := MarkRows(rows, chatId, userId);
    forall i | 0 <= i < |rows| && rows[i].chatId == chatId && rows[i].senderId != userId
      ensures multiset(StoredReadBy(r[i].readBy))[userId] == 1
      ensures r[i].status == Read
    {
      var m := rows[i];
      assert RowOk(m);
      var readBy := StoredReadBy(m.readBy);
      if userId !in readBy {
        assert multiset(readBy + [userId]) == multiset(readBy) + multiset{userId};
      } else {
        assert userId in multiset(readBy);
      }
    }
  }

  /** Marking a chat read twice is the same as marking it once. */
  lemma MarkReadIdempotent(rows: seq<MessageRow>, chatId: ChatId, userId: UserId)
    ensures MarkRows(MarkRows(rows, chatId, userId), chatId, userId) == MarkRows(rows, chatId, userId)
  {
    var once := MarkRows(rows, chatId, userId);
    forall i | 0 <= i < |rows|
      ensures MarkRow(once[i], chatId, userId) == once[i]
    {
      var readBy := StoredReadBy(rows[i].readBy);
      if rows[i].chatId == chatId && OwesReceipt(rows[i].senderId, readBy, userId) {
        assert userId in readBy + [userId];
      }
    }
  }

  // ---------------------------------------------------------------------
  // add_reaction

  /** The users who reacted with `emoji` (none when the key is absent). */
  function Reactors(r: Reactions, emoji: string): seq<UserId> {
    if emoji in r then r[emoji] else []
  }

  /** The toggle of `add_reaction` (backend/server.js:367-375): the user's
      reaction with `emoji` is removed when present and appended otherwise,
      and an emoji left without reactors loses its key. */
  function ToggleReaction(r: Reactions, emoji: string, userId: UserId): Reactions {
    var current := Reactors(r, emoji);
    if userId in current then
      var kept := Without(current, userId);
      if |kept| == 0 then r - {emoji} else r[emoji := kept]
    else
      r[emoji := current + [userId]]
  }

  /** One toggle flips whether the user reacted with `emoji`, leaves the
      other reactors of it and every other emoji alone, and never leaves an
      emoji key without reactors. */
  lemma ToggleReactionEffect(r: Reactions, emoji: string, userId: UserId)
    ensures var t := ToggleReaction(r, emoji, userId);
      && (userId in Reactors(t, emoji) <==> userId !in Reactors(r, emoji))
      && (forall u :: u != userId ==> multiset(Reactors(t, emoji))[u] == multiset(Reactors(r, emoji))[u])
      && (forall e :: e != emoji ==> (e in t <==> e in r) && Reactors(t, e) == Reactors(r, e))
      && (emoji in t ==> t[emoji] != [])
  {
    var current := Reactors(r, emoji);
    var t := ToggleReaction(r, emoji, userId);
    if userId !in current {
      assert Reactors(t, emoji) == current + [userId];
      assert multiset(current + [userId]) == multiset(current) + multiset{userId};
    } else if |Without(current, userId)| == 0 {
      assert t == r - {emoji};
      assert Reactors(t, emoji) == [] == Without(current, userId);
    } else {
      assert t == r[emoji := Without(current, userId)];
    }
  }

  /** A toggle keeps every emoji's reactors non-empty and free of repeats. */
  lemma ToggleKeepsReactionsOk(r: Reactions, emoji: string, userId: UserId)
    requires ReactionsOk(r)
    ensures ReactionsOk(ToggleReaction(r, emoji, userId))
  {
    var current := Reactors(r, emoji);
    if userId !in current {
      assert multiset(current + [userId]) == multiset(current) + multiset{userId};
    }
  }

  /** Toggling a reaction the user had not made, then toggling it again,
      gives back the very same map. */
  lemma ToggleTwiceRestores(r: Reactions, emoji: string, userId: UserId)
    requires ReactionsOk(r) && userId !in Reactors(r, emoji)
    ensures ToggleReaction(ToggleReaction(r, emoji, userId), emoji, userId) == r
  {
    var current := Reactors(r, emoji);
    var once := ToggleReaction(r, emoji, userId);
    WithoutAppended(current, userId);
    assert once == r[emoji := current + [userId]];
    if emoji in r {
      assert ToggleReaction(once, emoji, userId) == r[emoji := current];
    } else {
      assert current == [];
      assert ToggleReaction(once, emoji, userId) == once - {emoji};
    }
  }

  /** Toggling a reaction the user had made, then toggling it again, moves
      the user to the end of that emoji's reactors. */
  lemma ToggleTwiceMovesToEnd(r: Reactions, emoji: string, userId: UserId)
    requires userId in Reactors(r, emoji)
    ensures ToggleReaction(ToggleReaction(r, emoji, userId), emoji, userId)
            == r[emoji := Without(r[emoji], userId) + [userId]]
  {
    var kept := Without(r[emoji], userId);
    var once := ToggleReaction(r, emoji, userId);
    if |kept| == 0 {
      assert once == r - {emoji};
      assert Reactors(once, emoji) == [];
      assert [] + [userId] == [userId];
      assert kept + [userId] == [userId];
    } else {
      assert once == r[emoji := kept];
      assert Reactors(once, emoji) == kept;
    }
  }

  /** Removing the one occurrence of `x` and appending `x` again keeps the
      multiset. */
  lemma WithoutThenAppend(s: seq<UserId>, x: UserId)
    requires x in s && NoDuplicates(s)
    ensures multiset(Without(s, x) + [x]) == multiset(s)
  {
    var kept := Without(s, x);
    assert multiset(s)[x] == 1 by { assert x in multiset(s); }
    assert multiset(kept + [x]) == multiset(kept) + multiset{x};
    forall u ensures multiset(kept + [x])[u] == multiset(s)[u] {
      if u == x { assert x !in multiset(kept); }
    }
  }

  /** Toggling the same reaction twice gives back the same emoji keys and the
      same reactors for each of them. (When the user had reacted, the second
      toggle appends the user, so the user moves to the end of the list.) */
  lemma ToggleTwice(r: Reactions, emoji: string, userId: UserId)
    requires ReactionsOk(r)
    ensures var t := ToggleReaction(ToggleReaction(r, emoji, userId), emoji, userId);
      t.Keys == r.Keys && forall e :: e in r ==> multiset(t[e]) == multiset(r[e])
  {
    if userId !in Reactors(r, emoji) {
      ToggleTwiceRestores(r, emoji, userId);
    } else {
      ToggleTwiceMovesToEnd(r, emoji, userId);
      WithoutThenAppend(r[emoji], userId);
    }
  }

  /** `UPDATE messages SET reactions = ? WHERE id = ?` */
  function SetReactions(rows: seq<MessageRow>, messageId: MessageId, reactions: Reactions): (r: seq<MessageRow>)
    ensures |r| == |rows|
    ensures forall i :: 0 <= i < |rows| ==>
              r[i] == if rows[i].id == messageId then rows[i].(reactions := Some(reactions)) else rows[i]
  {
    seq(|rows|, i requires 0 <= i < |rows| =>
      if rows[i].id == messageId then rows[i].(reactions := Some(reactions)) else rows[i])
  }

  // ---------------------------------------------------------------------
  // delete_message and delete_chat

  lemma UniqueMessageIdsCons(x: MessageRow, rest: seq<MessageRow>)
    requires UniqueMessageIds(rest)
    requires forall m :: m in rest ==> m.id != x.id
    ensures UniqueMessageIds([x] + rest)
  {
    var s := [x] + rest;
    forall i, j | 0 <= i < j < |s| ensures s[i].id != s[j].id {
      if i == 0 { assert s[j] == rest[j - 1]; assert s[j] in rest; }
      else { assert s[i] == rest[i - 1] && s[j] == rest[j - 1]; }
    }
  }

  lemma UniqueChatIdsCons(x: ChatRow, rest: seq<ChatRow>)
    requires UniqueChatIds(rest)
    requires forall c :: c in rest ==> c.id != x.id
    ensures UniqueChatIds([x] + rest)
  {
    var s := [x] + rest;
    forall i, j | 0 <= i < j < |s| ensures s[i].id != s[j].id {
      if i == 0 { assert s[j] == rest[j - 1]; assert s[j] in rest; }
      else { assert s[i] == rest[i - 1] && s[j] == rest[j - 1]; }
    }
  }

  lemma {:induction false} FilterKeepsUniqueMessageIds(rows: seq<MessageRow>, p: MessageRow -> bool)
    requires UniqueMessageIds(rows)
    ensures UniqueMessageIds(Filter(rows, p))
  {
    if rows != [] {
      assert rows == [rows[0]] + rows[1..];
      assert UniqueMessageIds(rows[1..]) by {
        forall i, j | 0 <= i < j < |rows[1..]| ensures rows[1..][i].id != rows[1..][j].id {
          assert rows[1..][i] == rows[i + 1] && rows[1..][j] == rows[j + 1];
        }
      }
      var rest := Filter(rows[1..], p);
      FilterKeepsUniqueMessageIds(rows[1..], p);
      if p(rows[0]) {
        forall m | m in rest ensures m.id != rows[0].id {
          var k :| 0 <= k < |rows[1..]| && rows[1..][k] == m;
          assert rows[k + 1] == m;
        }
        UniqueMessageIdsCons(rows[0], rest);
      }
    }
  }

  lemma {:induction false} FilterKeepsUniqueChatIds(chats: seq<ChatRow>, p: ChatRow -> bool)
    requires UniqueChatIds(chats)
    ensures UniqueChatIds(Filter(chats, p))
  {
    if chats != [] {
      assert chats == [chats[0]] + chats[1..];
      assert UniqueChatIds(chats[1..]) by {
        forall i, j | 0 <= i < j < |chats[1..]| ensures chats[1..][i].id != chats[1..][j].id {
          assert chats[1..][i] == chats[i + 1] && chats[1..][j] == chats[j + 1];
        }
      }
      var rest := Filter(chats[1..], p);
      FilterKeepsUniqueChatIds(chats[1..], p);
      if p(chats[0]) {
        forall c | c in rest ensures c.id != chats[0].id {
          var k :| 0 <= k < |chats[1..]| && chats[1..][k] == c;
          assert chats[k + 1] == c;
        }
        UniqueChatIdsCons(chats[0], rest);
      }
    }
  }

  /** `DELETE FROM messages WHERE id = ?`: exactly the rows with that id go;
      every other row stays, in order, and ids stay unique. */
  function WithoutMessage(rows: seq<MessageRow>, messageId: MessageId): (r: seq<MessageRow>)
    ensures forall m :: multiset(r)[m] == if m.id == messageId then 0 else multiset(rows)[m]
    ensures forall m :: m in r <==> m in rows && m.id != messageId
    ensures IsSubsequence(r, rows)
    ensures UniqueMessageIds(rows) ==> UniqueMessageIds(r)
  {
    var keep := (m: MessageRow) => m.id != messageId;
    assert UniqueMessageIds(rows) ==> UniqueMessageIds(Filter(rows, keep)) by {
      if UniqueMessageIds(rows) { FilterKeepsUniqueMessageIds(rows, keep); }
    }
    FilterMultiset(rows, keep);
    Filter(rows, keep)
  }

  /** `DELETE FROM messages WHERE chatId = ?` */
  function WithoutChatMessages(rows: seq<MessageRow>, chatId: ChatId): (r: seq<MessageRow>)
    ensures forall m :: multiset(r)[m] == if m.chatId == chatId then 0 else multiset(rows)[m]
    ensures forall m :: m in r <==> m in rows && m.chatId != chatId
    ensures IsSubsequence(r, rows)
    ensures UniqueMessageIds(rows) ==> UniqueMessageIds(r)
  {
    var keep := (m: MessageRow) => m.chatId != chatId;
    assert UniqueMessageIds(rows) ==> UniqueMessageIds(Filter(rows, keep)) by {
      if UniqueMessageIds(rows) { FilterKeepsUniqueMessageIds(rows, keep); }
    }
    FilterMultiset(rows, keep);
    Filter(rows, keep)
  }

  /** `DELETE FROM chats WHERE id = ?` */
  function WithoutChat(chats: seq<ChatRow>, chatId: ChatId): (r: seq<ChatRow>)
    ensures forall c :: multiset(r)[c] == if c.id == chatId then 0 else multiset(chats)[c]
    ensures forall c :: c in r <==> c in chats && c.id != chatId
    ensures IsSubsequence(r, chats)
    ensures UniqueChatIds(chats) ==> UniqueChatIds(r)
  {
    var keep := (c: ChatRow) => c.id != chatId;
    assert UniqueChatIds(chats) ==> UniqueChatIds(Filter(chats, keep)) by {
      if UniqueChatIds(chats) { FilterKeepsUniqueChatIds(chats, keep); }
    }
    FilterMultiset(chats, keep);
    Filter(chats, keep)
  }

  /** After a hard delete no user's snapshot holds the chat, and no message
      of it is left in the table. */
  lemma HardDeleteLeavesNoTrace(chats: seq<ChatRow>, rows: seq<MessageRow>, chatId: ChatId, userId: UserId)
    ensures forall v :: v in Snapshot(WithoutChat(chats, chatId), WithoutChatMessages(rows, chatId), userId)
              ==> v.id != chatId
    ensures forall m :: m in WithoutChatMessages(rows, chatId) ==> m.chatId != chatId
  {
    var cs := WithoutChat(chats, chatId);
    var ms := WithoutChatMessages(rows, chatId);
    forall v | v in Snapshot(cs, ms, userId) ensures v.id != chatId {
      var i :| 0 <= i < |cs| && ProjectAll(cs, ms)[i] == v;
      assert cs[i] in cs;
    }
  }

  /** The soft delete of `delete_chat` (backend/server.js:411-416): the user
      joins `hiddenBy` of the chat unless already there. */
  function HideChat(chats: seq<ChatRow>, chatId: ChatId, userId: UserId): (r: seq<ChatRow>)
    ensures |r| == |chats|
    ensures forall i :: 0 <= i < |chats| ==>
              r[i] == if chats[i].id == chatId && userId !in chats[i].hiddenBy
                      then chats[i].(hiddenBy := chats[i].hiddenBy + [userId]) else chats[i]
  {
    seq(|chats|, i requires 0 <= i < |chats| =>
      if chats[i].id == chatId && userId !in chats[i].hiddenBy
      then chats[i].(hiddenBy := chats[i].hiddenBy + [userId]) else chats[i])
  }

  /** Hiding is idempotent and lists the user once; other chats are untouched. */
  lemma HideChatEffect(chats: seq<ChatRow>, chatId: ChatId, userId: UserId)
    requires forall c :: c in chats ==> NoDuplicates(c.hiddenBy)
    ensures HideChat(HideChat(chats, chatId, userId), chatId, userId) == HideChat(chats, chatId, userId)
    ensures forall i :: 0 <= i < |chats| && chats[i].id == chatId ==>
              multiset(HideChat(chats, chatId, userId)[i].hiddenBy)[userId] == 1
    ensures forall c :: c in HideChat(chats, chatId, userId) ==> NoDuplicates(c.hiddenBy)
  {
    var once := HideChat(chats, chatId, userId);
    forall i | 0 <= i < |chats|
      ensures once[i].id == chatId ==> userId in once[i].hiddenBy
      ensures NoDuplicates(once[i].hiddenBy)
      ensures once[i].id == chatId ==> multiset(once[i].hiddenBy)[userId] == 1
    {
      assert chats[i] in chats;
      var h := chats[i].hiddenBy;
      if chats[i].id == chatId && userId !in h {
        assert multiset(h + [userId]) == multiset(h) + multiset{userId};
        assert userId in h + [userId];
      } else if chats[i].id == chatId {
        assert userId in multiset(h);
      }
    }
    forall c | c in once ensures NoDuplicates(c.hiddenBy) {
      var i :| 0 <= i < |once| && once[i] == c;
    }
  }

  // ---------------------------------------------------------------------
  // The store

  class Store {
    var chats: seq<ChatRow>
    var messages: seq<MessageRow>

    ghost predicate Valid()
      reads this
    {
      TablesOk(chats, messages)
    }

    /** Opens the store on existing tables (the seeded demo data, say). */
    constructor (chats0: seq<ChatRow>, messages0: seq<MessageRow>)
      requires TablesOk(chats0, messages0)
      ensures Valid() && chats == chats0 && messages == messages0
    {
      chats := chats0;
      messages := messages0;
    }

    /** The chat list `refreshDataForUsers` pushes to `userId` right now. */
    function SnapshotFor(userId: UserId): (r: seq<ChatView>)
      reads this
      ensures forall v :: v in r <==> v in ProjectAll(chats, messages) && SharedWith(v, userId)
      ensures forall v :: v in r ==> exists c :: c in chats && c.id == v.id && (c.kind == Broadcast || userId in c.participants)
    {
      Snapshot(chats, messages, userId)
    }

    /** `createGroup` (backend/server.js:266-283): inserts a group chat and
        returns the users who get a fresh snapshot and then the `openChat`
        push with the new group. */
    method CreateGroup(id: ChatId, name: string, participants: seq<UserId>)
      returns (refreshed: seq<UserId>, toOpen: Option<ChatView>)
      requires Valid()
      modifies this
      ensures Valid() && messages == old(messages)
      ensures HasChat(old(chats), id) ==> chats == old(chats) && refreshed == [] && toOpen == None
      ensures !HasChat(old(chats), id) ==>
                && chats == old(chats) + [ChatRow(id, name, Group, participants, [])]
                && refreshed == participants
                && toOpen == Some(ChatView(id, name, Group, participants, [], []))
    {
      if HasChat(chats, id) {
        return [], None;
      }
      InsertChat(ChatRow(id, name, Group, participants, []));
      refreshed := participants;
      toOpen := Some(ChatView(id, name, Group, participants, [], []));
    }

    /** `createDirectChat` (backend/server.js:286-310), find-or-create: an
        existing direct chat listing both users is opened as it is; otherwise
        a new one is inserted, both users are refreshed, and it is opened.
        The `openChat` push goes to the requesting connection only. */
    method CreateDirectChat(id: ChatId, senderId: UserId, participantId: UserId)
      returns (refreshed: seq<UserId>, toOpen: Option<ChatView>)
      requires Valid()
      modifies this
      ensures Valid() && messages == old(messages)
      ensures FindDirect(old(chats), senderId, participantId).Some? ==>
                && chats == old(chats) && refreshed == []
                && toOpen == Some(ProjectChat(FindDirect(old(chats), senderId, participantId).value, messages))
      ensures FindDirect(old(chats), senderId, participantId).None? && HasChat(old(chats), id) ==>
                chats == old(chats) && refreshed == [] && toOpen == None
      ensures FindDirect(old(chats), senderId, participantId).None? && !HasChat(old(chats), id) ==>
                && chats == old(chats) + [ChatRow(id, "Direct Message", Direct, [senderId, participantId], [])]
                && refreshed == [senderId, participantId]
                && toOpen == Some(ChatView(id, "Direct Message", Direct, [senderId, participantId], [], []))
    {
      var existing := FindDirect(chats, senderId, participantId);
      if existing.Some? {
        return [], Some(ProjectChat(existing.value, messages));
      }
      if HasChat(chats, id) {
        return [], None;
      }
      InsertChat(ChatRow(id, "Direct Message", Direct, [senderId, participantId], []));
      refreshed := [senderId, participantId];
      toOpen := Some(ChatView(id, "Direct Message", Direct, [senderId, participantId], [], []));
    }

    /** `INSERT INTO chats` of a row whose id is free. */
    method InsertChat(row: ChatRow)
      requires Valid() && !HasChat(chats, row.id) && row.hiddenBy == []
      modifies this
      ensures Valid() && chats == old(chats) + [row] && messages == old(messages)
    {
      forall i | 0 <= i < |chats| ensures chats[i].id != row.id {
        assert chats[i] in chats;
      }
      chats := chats + [row];
    }

    /** `send_message` (backend/server.js:312-341): inserts the message,
        clears `hiddenBy` of its chat, and pushes the decoded message to the
        chat's audience. The row is inserted even when no chat has that id;
        then nobody is pushed to. */
    method SendMessage(id: MessageId, now: Instant, chatId: ChatId, content: string,
                       senderId: UserId, kind: MessageType, isSecret: bool,
                       replyTo: Option<ReplyData>)
      returns (audience: Fanout, delivered: MessageView)
      requires Valid()
      modifies this
      ensures Valid()
      ensures delivered == ParseMessage(NewMessageRow(id, now, chatId, content, senderId, kind, isSecret, replyTo))
      ensures HasMessage(old(messages), id) ==>
                chats == old(chats) && messages == old(messages) && audience == NoPush
      ensures !HasMessage(old(messages), id) ==>
                && messages == old(messages) + [NewMessageRow(id, now, chatId, content, senderId, kind, isSecret, replyTo)]
                && chats == ClearHidden(old(chats), chatId)
                && audience == MessageAudience(FindChat(old(chats), chatId))
    {
      var row := NewMessageRow(id, now, chatId, content, senderId, kind, isSecret, replyTo);
      delivered := ParseMessage(row);
      if HasMessage(messages, id) {
        return NoPush, delivered;
      }
      SentMessageDecodes(id, now, chatId, content, senderId, kind, isSecret, replyTo);
      SendKeepsTablesOk(chats, messages, row, chatId);
      messages := messages + [row];
      ghost var before := chats;
      chats := ClearHidden(chats, chatId);
      // the chat row is looked up after the update; only hiddenBy changed
      assert FindChat(chats, chatId) == if FindChat(before, chatId).Some?
        then Some(FindChat(before, chatId).value.(hiddenBy := [])) else None by {
        ClearHiddenFind(before, chatId);
      }
      audience := MessageAudience(FindChat(chats, chatId));
    }

    /** `mark_messages_read` (backend/server.js:343-362): every message of the
        chat that the user owes a receipt for gets the user appended to
        `readBy` and status `read`; the chat's participants are then told,
        unless it is a broadcast. */
    method MarkMessagesRead(chatId: ChatId, userId: UserId) returns (audience: Fanout)
      requires Valid()
      modifies this
      ensures Valid() && chats == old(chats)
      ensures messages == MarkRows(old(messages), chatId, userId)
      ensures audience == ReadAudience(FindChat(chats, chatId))
    {
      var i := 0;
      while i < |messages|
        invariant 0 <= i <= |messages| == |old(messages)|
        invariant chats == old(chats)
        invariant forall k :: 0 <= k < i ==> messages[k] == MarkRow(old(messages)[k], chatId, userId)
        invariant forall k :: i <= k < |messages| ==> messages[k] == old(messages)[k]
      {
        var m := messages[i];
        var readBy := StoredReadBy(m.readBy);
        if m.chatId == chatId && OwesReceipt(m.senderId, readBy, userId) {
          messages := messages[i := m.(readBy := Some(readBy + [userId]), status := Read)];
        }
        i := i + 1;
      }
      ghost var was := old(messages);
      forall m | m in messages ensures RowOk(m) {
        var k :| 0 <= k < |messages| && messages[k] == m;
        assert was[k] in was;
        MarkRowKeepsRowOk(was[k], chatId, userId);
      }
      audience := ReadAudience(FindChat(chats, chatId));
    }

    /** `add_reaction` (backend/server.js:364-389): toggles the user's
        reaction on the message with that id and pushes the new reactions to
        the audience of the chat named in the request. An unknown message id
        changes nothing and pushes nothing. */
    method AddReaction(chatId: ChatId, messageId: MessageId, emoji: string, userId: UserId)
      returns (audience: Fanout, reactions: Reactions)
      requires Valid()
      modifies this
      ensures Valid() && chats == old(chats)
      ensures FindMessage(old(messages), messageId).None? ==>
                messages == old(messages) && audience == NoPush
      ensures FindMessage(old(messages), messageId).Some? ==>
                && reactions == ToggleReaction(StoredReactions(FindMessage(old(messages), messageId).value.reactions), emoji, userId)
                && messages == SetReactions(old(messages), messageId, reactions)
                && audience == MessageAudience(FindChat(chats, chatId))
    {
      var found := FindMessage(messages, messageId);
      if found.None? {
        return NoPush, map[];
      }
      var m := found.value;
      assert RowOk(m);
      reactions := ToggleReaction(StoredReactions(m.reactions), emoji, userId);
      ToggleKeepsReactionsOk(StoredReactions(m.reactions), emoji, userId);
      ghost var before := messages;
      messages := SetReactions(messages, messageId, reactions);
      forall x | x in messages ensures RowOk(x) {
        var k :| 0 <= k < |messages| && messages[k] == x;
        assert before[k] in before;
        if before[k].id == messageId {
          var j :| 0 <= j < |before| && before[j] == m;
          assert before[j].id == before[k].id;
          assert j == k;
        }
      }
      audience := MessageAudience(FindChat(chats, chatId));
    }

    /** `delete_message` (backend/server.js:391-398): removes the row with
        that id, whatever chat the request names, and refreshes the
        participants of the named chat (nobody for a broadcast, whose
        participant list is empty). */
    method DeleteMessage(chatId: ChatId, messageId: MessageId) returns (refreshed: seq<UserId>)
      requires Valid()
      modifies this
      ensures Valid() && chats == old(chats)
      ensures messages == WithoutMessage(old(messages), messageId)
      ensures refreshed == match FindChat(chats, chatId)
                           case None => []
                           case Some(c) => c.participants
    {
      messages := WithoutMessage(messages, messageId);
      var chat := FindChat(chats, chatId);
      refreshed := match chat case None => [] case Some(c) => c.participants;
    }

    /** `delete_chat` (backend/server.js:401-420). A hard delete of a
        broadcast is refused; `hard` drops the chat and all its messages;
        `soft` hides the chat for the user; any other mode changes nothing.
        Unless refused, the chat's former participants are refreshed. */
    method DeleteChat(chatId: ChatId, userId: UserId, mode: string) returns (refreshed: seq<UserId>)
      requires Valid()
      modifies this
      ensures Valid()
      ensures FindChat(old(chats), chatId).None? ==>
                chats == old(chats) && messages == old(messages) && refreshed == []
      ensures FindChat(old(chats), chatId).Some? && FindChat(old(chats), chatId).value.kind == Broadcast && mode == "hard" ==>
                chats == old(chats) && messages == old(messages) && refreshed == []
      ensures FindChat(old(chats), chatId).Some? && FindChat(old(chats), chatId).value.kind != Broadcast && mode == "hard" ==>
                && chats == WithoutChat(old(chats), chatId)
                && messages == WithoutChatMessages(old(messages), chatId)
                && refreshed == FindChat(old(chats), chatId).value.participants
      ensures FindChat(old(chats), chatId).Some? && mode == "soft" ==>
                && chats == HideChat(old(chats), chatId, userId)
                && messages == old(messages)
                && refreshed == FindChat(old(chats), chatId).value.participants
      ensures FindChat(old(chats), chatId).Some? && mode != "hard" && mode != "soft" ==>
                && chats == old(chats) && messages == old(messages)
                && refreshed == FindChat(old(chats), chatId).value.participants
    {
      var found := FindChat(chats, chatId);
      if found.None? {
        return [];
      }
      var chat := found.value;
      if chat.kind == Broadcast && mode == "hard" {
        return [];
      }
      var parts := chat.participants;
      if mode == "hard" {
        chats := WithoutChat(chats, chatId);
        messages := WithoutChatMessages(messages, chatId);
      } else if mode == "soft" {
        HideChatEffect(chats, chatId, userId);
        chats := HideChat(chats, chatId, userId);
      }
      refreshed := parts;
    }
  }

  /** Inserting a well-formed row with a fresh id and clearing a chat's
      `hiddenBy` keep both tables well formed. */
  lemma SendKeepsTablesOk(chats: seq<ChatRow>, rows: seq<MessageRow>, row: MessageRow, chatId: ChatId)
    requires TablesOk(chats, rows) && RowOk(row) && !HasMessage(rows, row.id)
    ensures TablesOk(ClearHidden(chats, chatId), rows + [row])
  {
    var cleared := ClearHidden(chats, chatId);
    forall i | 0 <= i < |rows| ensures rows[i].id != row.id {
      assert rows[i] in rows;
    }
    forall c | c in cleared ensures NoDuplicates(c.hiddenBy) {
      var i :| 0 <= i < |cleared| && cleared[i] == c;
      assert chats[i] in chats;
    }
  }

  lemma ClearHiddenFind(chats: seq<ChatRow>, chatId: ChatId)
    ensures FindChat(ClearHidden(chats, chatId), chatId) ==
            if FindChat(chats, chatId).Some? then Some(FindChat(chats, chatId).value.(hiddenBy := [])) else None
  {
    if chats != [] {
      if chats[0].id != chatId {
        assert ClearHidden(chats, chatId)[1..] == ClearHidden(chats[1..], chatId);
        ClearHiddenFind(chats[1..], chatId);
      }
    }
  }
}
