/** The client's chat state (frontend/src/context/ChatContext.tsx): the
    reducers that apply server pushes to the local chat list, the lookups
    the views use, and the provider whose fields those pushes replace.

    The provider is mounted only for a logged-in user, so the current user
    `me` is always known and the `if (user)` guards always pass. Socket
    emits are returned as `Intent` values. */
module ChatContext {
  import opened ChatTypes
  import opened Seqs

  // ---------------------------------------------------------------------
  // receiveMessage

  /** The rewrite of the chat a new message belongs to: the message goes
      last and the current user no longer hides the chat. */
  function WithReceived(c: ChatView, msg: MessageView, me: UserId): ChatView {
    c.(hiddenBy := Without(c.hiddenBy, me), messages := c.messages + [msg])
  }

  /** `receiveMessage` (frontend/src/context/ChatContext.tsx:55-63). */
  function ReceiveMessage(chats: seq<ChatView>, msg: MessageView, me: UserId): (r: seq<ChatView>)
    ensures |r| == |chats|
    ensures forall i :: 0 <= i < |chats| && chats[i].id != msg.chatId ==> r[i] == chats[i]
    ensures forall i :: 0 <= i < |chats| && chats[i].id == msg.chatId ==>
      && |r[i].messages| == |chats[i].messages| + 1
      && r[i].messages[|chats[i].messages|] == msg
      && r[i].messages[..|chats[i].messages|] == chats[i].messages
      && me !in r[i].hiddenBy
      && (forall u :: u != me ==> multiset(r[i].hiddenBy)[u] == multiset(chats[i].hiddenBy)[u])
      && r[i] == chats[i].(hiddenBy := r[i].hiddenBy, messages := r[i].messages)
  {
    seq(|chats|, i requires 0 <= i < |chats| =>
      if chats[i].id == msg.chatId then WithReceived(chats[i], msg, me) else chats[i])
  }

  // ---------------------------------------------------------------------
  // reactionUpdated

  function WithReactions(msgs: seq<MessageView>, messageId: MessageId, reactions: Reactions): (r: seq<MessageView>)
    ensures |r| == |msgs|
    ensures forall k :: 0 <= k < |msgs| ==>
      r[k] == if msgs[k].id == messageId then msgs[k].(reactions := reactions) else msgs[k]
  {
    seq(|msgs|, k requires 0 <= k < |msgs| =>
      if msgs[k].id == messageId then msgs[k].(reactions := reactions) else msgs[k])
  }

  /** `reactionUpdated` (frontend/src/context/ChatContext.tsx:65-75). */
  function ReactionUpdated(chats: seq<ChatView>, chatId: ChatId, messageId: MessageId, reactions: Reactions)
    : (r: seq<ChatView>)
    ensures |r| == |chats|
    ensures forall i :: 0 <= i < |chats| && chats[i].id != chatId ==> r[i] == chats[i]
    ensures forall i :: 0 <= i < |chats| && chats[i].id == chatId ==>
      && r[i] == chats[i].(messages := r[i].messages)
      && |r[i].messages| == |chats[i].messages|
      && (forall k :: 0 <= k < |chats[i].messages| && chats[i].messages[k].id == messageId ==>
            r[i].messages[k].reactions == reactions
            && r[i].messages[k] == chats[i].messages[k].(reactions := reactions))
      && (forall k :: 0 <= k < |chats[i].messages| && chats[i].messages[k].id != messageId ==>
            r[i].messages[k] == chats[i].messages[k])
  {
    seq(|chats|, i requires 0 <= i < |chats| =>
      if chats[i].id == chatId then chats[i].(messages := WithReactions(chats[i].messages, messageId, reactions))
      else chats[i])
  }

  // ---------------------------------------------------------------------
  // messages_read_update

  /** One message under `messages_read_update`: the same receipt rule as the
      server's `mark_messages_read`. */
  function MarkView(m: MessageView, userId: UserId): MessageView {
    if OwesReceipt(m.senderId, m.readBy, userId)
    then m.(readBy := m.readBy + [userId], status := Read)
    else m
  }

  function MarkViews(msgs: seq<MessageView>, userId: UserId): (r: seq<MessageView>)
    ensures |r| == |msgs|
    ensures forall k :: 0 <= k < |msgs| ==> r[k] == MarkView(msgs[k], userId)
  {
    seq(|msgs|, k requires 0 <= k < |msgs| => MarkView(msgs[k], userId))
  }

  /** `messages_read_update` (frontend/src/context/ChatContext.tsx:77-92). */
  function ReadUpdate(chats: seq<ChatView>, chatId: ChatId, userId: UserId): (r: seq<ChatView>)
    ensures |r| == |chats|
    ensures forall i :: 0 <= i < |chats| ==>
      r[i] == if chats[i].id == chatId then chats[i].(messages := MarkViews(chats[i].messages, userId)) else chats[i]
  {
    seq(|chats|, i requires 0 <= i < |chats| =>
      if chats[i].id == chatId then chats[i].(messages := MarkViews(chats[i].messages, userId)) else chats[i])
  }

  /** In the chat read, a message someone else sent that does not list the
      user yet gets the user appended to its readers and status `read`,
      keeping every other field; a message that already lists the user, the
      user's own messages and the other chats are unchanged. Either way each
      message from someone else ends read by the user, and readers stay
      unique. */
  lemma ReadUpdateEffect(chats: seq<ChatView>, chatId: ChatId, userId: UserId)
    ensures var r := ReadUpdate(chats, chatId, userId);
      forall i, k :: 0 <= i < |chats| && chats[i].id == chatId && 0 <= k < |chats[i].messages| ==>
        var m, n := chats[i].messages[k], r[i].messages[k];
        && (m.senderId == userId || userId in m.readBy ==> n == m)
        && (m.senderId != userId && userId !in m.readBy ==>
              && n.readBy == m.readBy + [userId] && n.status == Read
              && n == m.(readBy := n.readBy, status := Read))
        && (m.senderId != userId ==> userId in n.readBy)
        && (NoDuplicates(m.readBy) ==> NoDuplicates(n.readBy))
  {
    var r := ReadUpdate(chats, chatId, userId);
    forall i, k | 0 <= i < |chats| && chats[i].id == chatId && 0 <= k < |chats[i].messages|
      ensures var m, n := chats[i].messages[k], r[i].messages[k];
        (m.senderId != userId ==> userId in n.readBy) && (NoDuplicates(m.readBy) ==> NoDuplicates(n.readBy))
    {
      var m := chats[i].messages[k];
      if OwesReceipt(m.senderId, m.readBy, userId) {
        assert userId in m.readBy + [userId];
        assert multiset(m.readBy + [userId]) == multiset(m.readBy) + multiset{userId};
      }
    }
  }

  /** Applying the same read update twice is the same as applying it once. */
  lemma ReadUpdateIdempotent(chats: seq<ChatView>, chatId: ChatId, userId: UserId)
    ensures ReadUpdate(ReadUpdate(chats, chatId, userId), chatId, userId) == ReadUpdate(chats, chatId, userId)
  {
    var once := ReadUpdate(chats, chatId, userId);
    forall i | 0 <= i < |chats| && chats[i].id == chatId
      ensures MarkViews(once[i].messages, userId) == once[i].messages
    {
      forall k | 0 <= k < |chats[i].messages|
        ensures MarkView(once[i].messages[k], userId) == once[i].messages[k]
      {
        var m := chats[i].messages[k];
        if OwesReceipt(m.senderId, m.readBy, userId) {
          assert userId in m.readBy + [userId];
        }
      }
    }
  }

  // ---------------------------------------------------------------------
  // Lookups

  /** `users.find(u => u.id === id) || null` */
  function GetUserById(users: seq<UserInfo>, id: UserId): (r: Option<UserInfo>)
    ensures r.Some? ==> r.value.id == id
    ensures r.Some? ==> exists i :: 0 <= i < |users| && users[i] == r.value && forall j :: 0 <= j < i ==> users[j].id != id
    ensures r.None? <==> forall u :: u in users ==> u.id != id
  {
    if users == [] then None
    else if users[0].id == id then Some(users[0])
    else
      var rest := GetUserById(users[1..], id);
      assert users == [users[0]] + users[1..];
      assert rest.Some? ==>
               exists i :: 0 <= i < |users| && users[i] == rest.value && forall j :: 0 <= j < i ==> users[j].id != id by {
        if rest.Some? {
          var i :| 0 <= i < |users[1..]| && users[1..][i] == rest.value &&
                   forall j :: 0 <= j < i ==> users[1..][j].id != id;
          assert users[i + 1] == rest.value;
          forall j | 0 <= j < i + 1 ensures users[j].id != id {
            if j > 0 { assert users[j] == users[1..][j - 1]; }
          }
        }
      }
      rest
  }

  /** `chats.find(c => c.id === id)`: the first chat with the id. */
  function ChatById(chats: seq<ChatView>, id: ChatId): (r: Option<ChatView>)
    ensures r.Some? ==> r.value.id == id
    ensures r.None? <==> forall c :: c in chats ==> c.id != id
    ensures r.Some? ==> exists i :: 0 <= i < |chats| && chats[i] == r.value && forall j :: 0 <= j < i ==> chats[j].id != id
  {
    if chats == [] then None
    else if chats[0].id == id then Some(chats[0])
    else
      var rest := ChatById(chats[1..], id);
      assert chats == [chats[0]] + chats[1..];
      assert rest.Some? ==> exists i :: 0 <= i < |chats| && chats[i] == rest.value && forall j :: 0 <= j < i ==> chats[j].id != id by {
        if rest.Some? {
          var i :| 0 <= i < |chats[1..]| && chats[1..][i] == rest.value && forall j :: 0 <= j < i ==> chats[1..][j].id != id;
          assert chats[i + 1] == rest.value;
          forall j | 0 <= j < i + 1 ensures chats[j].id != id {
            if j > 0 { assert chats[j] == chats[1..][j - 1]; }
          }
        }
      }
      rest
  }

  /** `chats.find(c => c.id === activeChatId) || null`: the first chat with
      the active id; none when no chat is active or none has that id. */
  function ActiveChat(chats: seq<ChatView>, activeChatId: Option<ChatId>): (r: Option<ChatView>)
    ensures r.Some? ==> activeChatId == Some(r.value.id) && r.value in chats
    ensures r.None? <==> activeChatId.None? || forall c :: c in chats ==> Some(c.id) != activeChatId
    ensures r.Some? ==> exists i :: 0 <= i < |chats| && chats[i] == r.value && forall j :: 0 <= j < i ==> Some(chats[j].id) != activeChatId
  {
    match activeChatId
    case None => None
    case Some(id) => ChatById(chats, id)
  }

  /** `Array.from(new Set(s))`: the same values, each once. */
  function Distinct(s: seq<UserId>): (r: seq<UserId>)
    ensures forall x :: x in r <==> x in s
    ensures NoDuplicates(r)
  {
    if s == [] then []
    else
      var rest := Distinct(s[..|s| - 1]);
      var last := s[|s| - 1];
      assert s == s[..|s| - 1] + [last];
      if last in rest then rest
      else
        assert multiset(rest + [last]) == multiset(rest) + multiset{last};
        rest + [last]
  }

  /** The members `createGroup` sends: the chosen users and the current
      user, each once. */
  function GroupParticipants(chosen: seq<UserId>, me: UserId): (r: seq<UserId>)
    ensures forall u :: u in r <==> u in chosen || u == me
    ensures NoDuplicates(r)
  {
    Distinct(chosen + [me])
  }

  // ---------------------------------------------------------------------
  // The provider

  class ChatProvider {
    const me: UserId
    var chats: seq<ChatView>
    var activeChatId: Option<ChatId>
    var users: seq<UserInfo>

    constructor (me: UserId)
      ensures this.me == me && chats == [] && activeChatId == None && users == []
    {
      this.me := me;
      chats := [];
      activeChatId := None;
      users := [];
    }

    /** `activeChat` (frontend/src/context/ChatContext.tsx:105). */
    function Active(): Option<ChatView>
      reads this
    {
      ActiveChat(chats, activeChatId)
    }

    /** `initialData`: both lists are replaced by the snapshot. */
    method OnInitialData(newUsers: seq<UserInfo>, newChats: seq<ChatView>)
      modifies this
      ensures users == newUsers && chats == newChats && activeChatId == old(activeChatId)
    {
      users := newUsers;
      chats := newChats;
    }

    /** `openChat`: the pushed chat becomes the active one. */
    method OnOpenChat(chat: ChatView)
      modifies this
      ensures activeChatId == Some(chat.id) && chats == old(chats) && users == old(users)
    {
      activeChatId := Some(chat.id);
    }

    method OnReceiveMessage(msg: MessageView)
      modifies this
      ensures chats == ReceiveMessage(old(chats), msg, me)
      ensures activeChatId == old(activeChatId) && users == old(users)
    {
      chats := ReceiveMessage(chats, msg, me);
    }

    method OnReactionUpdated(chatId: ChatId, messageId: MessageId, reactions: Reactions)
      modifies this
      ensures chats == ReactionUpdated(old(chats), chatId, messageId, reactions)
      ensures activeChatId == old(activeChatId) && users == old(users)
    {
      chats := ReactionUpdated(chats, chatId, messageId, reactions);
    }

    method OnReadUpdate(chatId: ChatId, userId: UserId)
      modifies this
      ensures chats == ReadUpdate(old(chats), chatId, userId)
      ensures activeChatId == old(activeChatId) && users == old(users)
    {
      chats := ReadUpdate(chats, chatId, userId);
    }

    /** `setActiveChat` (frontend/src/context/ChatContext.tsx:106). */
    method SetActiveChat(id: ChatId)
      modifies this
      ensures activeChatId == Some(id) && chats == old(chats) && users == old(users)
      ensures Active().Some? ==> Active().value.id == id
    {
      activeChatId := Some(id);
    }

    /** `createChat`: asks the server to find or create the direct chat. */
    method CreateChat(participantId: UserId) returns (intent: Intent)
      ensures intent == Intent.CreateDirectChat(me, participantId)
    {
      intent := Intent.CreateDirectChat(me, participantId);
    }

    /** `createGroup`: the members sent are the chosen users plus the
        current user, each exactly once. */
    method CreateGroup(name: string, participants: seq<UserId>) returns (intent: Intent)
      ensures intent.CreateGroup? && intent.groupName == name
      ensures forall u :: u in intent.members <==> u in participants || u == me
      ensures NoDuplicates(intent.members)
    {
      intent := Intent.CreateGroup(name, GroupParticipants(participants, me));
    }

    /** `deleteChatConversation`: asks for the deletion and leaves the chat
        if it was the active one; any other active chat stays active. */
    method DeleteChatConversation(chatId: ChatId, mode: string) returns (intent: Intent)
      modifies this
      ensures intent == Intent.DeleteChat(chatId, me, mode)
      ensures old(activeChatId) == Some(chatId) ==> activeChatId == None
      ensures old(activeChatId) != Some(chatId) ==> activeChatId == old(activeChatId)
      ensures chats == old(chats) && users == old(users)
    {
      intent := Intent.DeleteChat(chatId, me, mode);
      if activeChatId == Some(chatId) {
        activeChatId := None;
      }
    }

    /** `markMessagesAsRead`: asks the server to mark the chat read for the
        current user. */
    method MarkMessagesAsRead(chatId: ChatId) returns (intent: Intent)
      ensures intent == Intent.MarkMessagesRead(chatId, me)
    {
      intent := Intent.MarkMessagesRead(chatId, me);
    }
  }
}
