/** The chat list and new-chat dialog (frontend/src/components/chat/ChatSidebar.tsx):
    which chats the user sees and in what order, the per-type sections with
    their search, the contact filter, the unread badge, and the dialog state
    behind group creation. */
module ChatSidebar {
  import opened ChatTypes
  import opened Seqs
  import opened Text
  import opened ChatContext

  // ---------------------------------------------------------------------
  // The chat list

  /** A chat is listed unless the user hid it, and only if it is a broadcast
      or lists the user as a participant. */
  predicate Visible(c: ChatView, me: UserId) {
    me !in c.hiddenBy && (c.kind == Broadcast || me in c.participants)
  }

  /** `visibleChats` (frontend/src/components/chat/ChatSidebar.tsx:121-124). */
  function VisibleChats(chats: seq<ChatView>, me: UserId): (r: seq<ChatView>)
    ensures forall c :: c in r <==> c in chats && me !in c.hiddenBy && (c.kind == Broadcast || me in c.participants)
    ensures IsSubsequence(r, chats)
  {
    Filter(chats, c => Visible(c, me))
  }

  /** The time of a chat's last message; 0 for a chat without messages. */
  function LastActivity(c: ChatView): int {
    if |c.messages| > 0 then c.messages[|c.messages| - 1].timestamp else 0
  }

  /** The ascending sort key for "most recent first". */
  function Recency(c: ChatView): int {
    -LastActivity(c)
  }

  /** `sortedChats` (frontend/src/components/chat/ChatSidebar.tsx:126-130):
      the visible chats, most recent activity first (stable for ties). */
  function SortedChats(chats: seq<ChatView>, me: UserId): (r: seq<ChatView>)
    ensures multiset(r) == multiset(VisibleChats(chats, me))
    ensures forall i, j :: 0 <= i < j < |r| ==> LastActivity(r[i]) >= LastActivity(r[j])
  {
    var sorted := SortBy(VisibleChats(chats, me), Recency);
    MostRecentFirst(sorted);
    sorted
  }

  lemma MostRecentFirst(s: seq<ChatView>)
    requires SortedBy(s, Recency)
    ensures forall i, j :: 0 <= i < j < |s| ==> LastActivity(s[i]) >= LastActivity(s[j])
  {
    forall i, j | 0 <= i < j < |s| ensures LastActivity(s[i]) >= LastActivity(s[j]) {
      assert Recency(s[i]) <= Recency(s[j]);
    }
  }

  /** The sorted list holds exactly the visible chats, each as often as in
      the chat list. */
  lemma SortedChatsAreVisible(chats: seq<ChatView>, me: UserId)
    ensures forall c :: c in SortedChats(chats, me) <==> c in chats && Visible(c, me)
    ensures |SortedChats(chats, me)| == |VisibleChats(chats, me)|
  {
    var r := SortedChats(chats, me);
    var v := VisibleChats(chats, me);
    forall c ensures c in r <==> c in v {
      assert c in r <==> c in multiset(r);
      assert c in v <==> c in multiset(v);
    }
    assert |multiset(r)| == |multiset(v)|;
  }

  /** The first participant who is not the current user. */
  function OtherParticipant(participants: seq<UserId>, me: UserId): (r: Option<UserId>)
    ensures r.Some? ==> r.value in participants && r.value != me
    ensures r.None? <==> forall p :: p in participants ==> p == me
    ensures r.Some? ==> exists i :: 0 <= i < |participants| && participants[i] == r.value && forall j :: 0 <= j < i ==> participants[j] == me
  {
    if participants == [] then None
    else if participants[0] != me then Some(participants[0])
    else
      var rest := OtherParticipant(participants[1..], me);
      assert participants == [participants[0]] + participants[1..];
      assert rest.Some? ==> exists i :: 0 <= i < |participants| && participants[i] == rest.value && forall j :: 0 <= j < i ==> participants[j] == me by {
        if rest.Some? {
          var i :| 0 <= i < |participants[1..]| && participants[1..][i] == rest.value &&
                   forall j :: 0 <= j < i ==> participants[1..][j] == me;
          assert participants[i + 1] == rest.value;
          forall j | 0 <= j < i + 1 ensures participants[j] == me {
            if j > 0 { assert participants[j] == participants[1..][j - 1]; }
          }
        }
      }
      rest
  }

  /** The name `filterChats` searches: a direct chat is named after the
      other participant, or "Unknown" when there is none, the id is empty,
      the user is unknown or the name is empty; other chats by their name. */
  function DisplayName(c: ChatView, me: UserId, users: seq<UserInfo>): (name: string)
    ensures c.kind != Direct ==> name == c.name
    ensures c.kind == Direct ==> name != ""
    ensures c.kind == Direct && name != "Unknown" ==>
              exists u :: u in users && u.name == name && u.id in c.participants && u.id != me
    ensures c.kind == Direct && OtherParticipant(c.participants, me).Some? ==>
              var other := OtherParticipant(c.participants, me).value;
              other != "" && GetUserById(users, other).Some? && GetUserById(users, other).value.name != "" ==>
                name == GetUserById(users, other).value.name
  {
    if c.kind != Direct then c.name
    else
      match OtherParticipant(c.participants, me)
      case None => "Unknown"
      case Some(other) =>
        if other == "" then "Unknown"
        else
          match GetUserById(users, other)
          case None => "Unknown"
          case Some(u) =>
            assert u in users by {
              var i :| 0 <= i < |users| && users[i] == u && forall j :: 0 <= j < i ==> users[j].id != other;
            }
            if u.name == "" then "Unknown" else u.name
  }

  predicate ListedUnder(c: ChatView, kind: ChatType, query: string, me: UserId, users: seq<UserInfo>) {
    c.kind == kind && Matches(DisplayName(c, me, users), query)
  }

  /** `filterChats(type)` (frontend/src/components/chat/ChatSidebar.tsx:137-148):
      the sorted chats of one type whose display name matches the search,
      in the same order. */
  function FilterChats(sorted: seq<ChatView>, kind: ChatType, query: string, me: UserId, users: seq<UserInfo>)
    : (r: seq<ChatView>)
    ensures forall c :: c in r ==> c.kind == kind && Matches(DisplayName(c, me, users), query) && c in sorted
    ensures forall c :: c in sorted && c.kind == kind && Matches(DisplayName(c, me, users), query) ==> c in r
    ensures IsSubsequence(r, sorted)
  {
    Filter(sorted, c => ListedUnder(c, kind, query, me, users))
  }

  predicate ContactListed(u: UserInfo, me: UserId, query: string) {
    u.id != me && (Matches(u.name, query) || Matches(u.department, query) || Includes(u.id, query))
  }

  /** `filteredContacts` (frontend/src/components/chat/ChatSidebar.tsx:132-135):
      every contact but the user whose name or department matches the search
      case-insensitively, or whose id contains it. */
  function FilteredContacts(contacts: seq<UserInfo>, me: UserId, query: string): (r: seq<UserInfo>)
    ensures forall u :: u in r ==> u.id != me
    ensures forall u :: u in r <==>
              u in contacts && u.id != me
              && (Matches(u.name, query) || Matches(u.department, query) || Includes(u.id, query))
    ensures IsSubsequence(r, contacts)
  {
    Filter(contacts, (u: UserInfo) => ContactListed(u, me, query))
  }

  /** Whether a message counts toward the unread badge of the user. */
  predicate Unread(m: MessageView, me: UserId) {
    OwesReceipt(m.senderId, m.readBy, me)
  }

  /** `unreadCount` (frontend/src/components/chat/ChatSidebar.tsx:270-272). */
  function UnreadCount(c: ChatView, me: UserId): (n: nat)
    ensures n <= |c.messages|
    ensures n == 0 <==> forall k :: 0 <= k < |c.messages| ==> c.messages[k].senderId == me || me in c.messages[k].readBy
  {
    var unread := Filter(c.messages, m => Unread(m, me));
    assert unread == [] <==> forall k :: 0 <= k < |c.messages| ==> !Unread(c.messages[k], me) by {
      if unread != [] {
        assert unread[0] in c.messages;
      }
      forall k | 0 <= k < |c.messages| && Unread(c.messages[k], me) ensures unread != [] {
        assert c.messages[k] in unread;
      }
    }
    |unread|
  }

  /** The badge counts the unread messages one by one: a new message adds
      one exactly when it is unread for the user (and a chat without
      messages shows none, by `UnreadCount`'s zero case). */
  lemma UnreadCountAppend(c: ChatView, m: MessageView, me: UserId)
    ensures UnreadCount(c.(messages := c.messages + [m]), me) == UnreadCount(c, me) + (if Unread(m, me) then 1 else 0)
  {
    FilterAppend(c.messages, m, x => Unread(x, me));
  }

  /** Once the read update for the user arrives, no chat it touched shows an
      unread badge for that user. */
  lemma NoUnreadAfterReadUpdate(chats: seq<ChatView>, chatId: ChatId, me: UserId)
    ensures forall c :: c in ReadUpdate(chats, chatId, me) && c.id == chatId ==> UnreadCount(c, me) == 0
  {
    var r := ReadUpdate(chats, chatId, me);
    forall c | c in r && c.id == chatId ensures UnreadCount(c, me) == 0 {
      var i :| 0 <= i < |r| && r[i] == c;
      assert chats[i].id == chatId;
      forall k | 0 <= k < |c.messages| ensures c.messages[k].senderId == me || me in c.messages[k].readBy {
        var m := chats[i].messages[k];
        if OwesReceipt(m.senderId, m.readBy, me) {
          assert me in m.readBy + [me];
        }
      }
    }
  }

  // ---------------------------------------------------------------------
  // The new-chat dialog

  /** `toggleUser`'s update: removes a present id, else appends it. */
  function ToggleSelection(selected: seq<UserId>, userId: UserId): (r: seq<UserId>)
    ensures userId in r <==> userId !in selected
    ensures forall u :: u != userId ==> multiset(r)[u] == multiset(selected)[u]
    ensures userId !in selected ==> r == selected + [userId]
    ensures NoDuplicates(selected) ==> NoDuplicates(r)
  {
    if userId in selected then Without(selected, userId)
    else
      assert multiset(selected + [userId]) == multiset(selected) + multiset{userId};
      selected + [userId]
  }

  /** Selecting an unselected user and toggling again restores the list;
      in any case toggling twice restores who is selected. */
  lemma ToggleSelectionTwice(selected: seq<UserId>, userId: UserId)
    requires NoDuplicates(selected)
    ensures multiset(ToggleSelection(ToggleSelection(selected, userId), userId)) == multiset(selected)
    ensures userId !in selected ==> ToggleSelection(ToggleSelection(selected, userId), userId) == selected
  {
    var once := ToggleSelection(selected, userId);
    var twice := ToggleSelection(once, userId);
    if userId in selected {
      assert multiset(selected)[userId] == 1 by { assert userId in multiset(selected); }
      assert multiset(twice) == multiset(once) + multiset{userId};
    } else {
      WithoutAppended(selected, userId);
    }
  }

  /** The call `handleCreate` makes to the context's `createGroup`. */
  datatype GroupRequest = GroupRequest(name: string, participants: seq<UserId>)

  class Sidebar {
    var isDialogOpen: bool
    var isGroupMode: bool
    var groupName: string
    var selectedUsers: seq<UserId>
    var contactSearch: string

    /** Toggling never lists a user twice, so the selection a group request
        carries has no repeats. */
    ghost predicate Valid()
      reads this
    {
      NoDuplicates(selectedUsers)
    }

    constructor ()
      ensures Valid()
      ensures !isDialogOpen && !isGroupMode && groupName == "" && selectedUsers == [] && contactSearch == ""
    {
      isDialogOpen := false;
      isGroupMode := false;
      groupName := "";
      selectedUsers := [];
      contactSearch := "";
    }

    /** `setIsDialogOpen` with the effect of frontend/src/components/chat/ChatSidebar.tsx:82-92:
        opening a closed dialog starts it afresh in direct mode with nothing
        selected. */
    method SetDialogOpen(open: bool)
      requires Valid()
      modifies this
      ensures Valid()
      ensures isDialogOpen == open
      ensures open && !old(isDialogOpen) ==>
                !isGroupMode && groupName == "" && selectedUsers == [] && contactSearch == ""
      ensures !(open && !old(isDialogOpen)) ==>
                && isGroupMode == old(isGroupMode) && groupName == old(groupName)
                && selectedUsers == old(selectedUsers) && contactSearch == old(contactSearch)
    {
      if open && !isDialogOpen {
        isGroupMode := false;
        groupName := "";
        selectedUsers := [];
        contactSearch := "";
      }
      isDialogOpen := open;
    }

    method SetGroupMode(on: bool)
      requires Valid()
      modifies this
      ensures Valid()
      ensures isGroupMode == on
      ensures isDialogOpen == old(isDialogOpen) && groupName == old(groupName)
      ensures selectedUsers == old(selectedUsers) && contactSearch == old(contactSearch)
    {
      isGroupMode := on;
    }

    method SetGroupName(name: string)
      requires Valid()
      modifies this
      ensures Valid()
      ensures groupName == name
      ensures isDialogOpen == old(isDialogOpen) && isGroupMode == old(isGroupMode)
      ensures selectedUsers == old(selectedUsers) && contactSearch == old(contactSearch)
    {
      groupName := name;
    }

    /** `toggleUser` (frontend/src/components/chat/ChatSidebar.tsx:94-96). */
    method ToggleUser(userId: UserId)
      requires Valid()
      modifies this
      ensures Valid()
      ensures selectedUsers == ToggleSelection(old(selectedUsers), userId)
      ensures isDialogOpen == old(isDialogOpen) && isGroupMode == old(isGroupMode)
      ensures groupName == old(groupName) && contactSearch == old(contactSearch)
    {
      selectedUsers := ToggleSelection(selectedUsers, userId);
    }

    /** `handleCreate` (frontend/src/components/chat/ChatSidebar.tsx:98-104):
        in group mode a group is requested only with a name that is not blank
        and at least one selected user (the name is sent untrimmed), and a
        refused request keeps the dialog open; otherwise the dialog closes. */
    method HandleCreate() returns (request: Option<GroupRequest>)
      requires Valid()
      modifies this
      ensures Valid()
      ensures request.Some? <==> isGroupMode && Trim(groupName) != "" && |selectedUsers| > 0
      ensures request.Some? ==> request.value == GroupRequest(groupName, selectedUsers)
      ensures isDialogOpen == (old(isDialogOpen) && isGroupMode && request.None?)
      ensures isGroupMode == old(isGroupMode) && groupName == old(groupName)
      ensures selectedUsers == old(selectedUsers) && contactSearch == old(contactSearch)
    {
      request := None;
      if isGroupMode {
        if Trim(groupName) == "" || |selectedUsers| == 0 {
          return;
        }
        request := Some(GroupRequest(groupName, selectedUsers));
      }
      isDialogOpen := false;
    }
  }
}
