# GhostLAN-Messenger chat core in Dafny

This project models the state-changing core of GhostLAN-Messenger, a chat for a local network, and proves properties of the model. The core has two sides.

**The server** (`backend/server.js`) has two tables and a set of socket handlers:

- The tables are `chats` (name, type, participants, `hiddenBy`) and `messages` (sender, content, type, timestamp, secret flag, reply snapshot, reactions, `readBy`, status).
- The handlers are `createGroup`, `createDirectChat`, `send_message`, `mark_messages_read`, `add_reaction`, `delete_message` and `delete_chat`.
- The projector `getFullChatHistory` / `parseMessage` joins each chat with its messages in timestamp order.
- `refreshDataForUsers` filters that projection per user into the snapshot it pushes.

**The client** (`frontend/src`) has three parts:

- The chat context's reducers, which apply the pushes `receiveMessage`, `reactionUpdated` and `messages_read_update` to the local chat list. Its lookups and intents are modelled too.
- The sidebar's chat list: visibility, recency order, per-type search, contact filter, unread badge, and the group-creation dialog.
- The chat window's message lists, send and upload guards, replies, deletion and burn-after-reading, and the rule for who may type.

## Files and modules

- `types.dfy`, module `ChatTypes`: identifiers, the chat and message views, the users list, and the socket intents a client emits.
- `seqs.dfy`, module `Seqs`: the list operations the code is written in. These are `filter`, removal of a value, `map`, and the stable `Array.prototype.sort` on a numeric key.
- `text.dfy`, module `Text`: `trim`, ASCII case mapping, `includes`.
- `projection.dfy`, module `Projection`: the table rows, `parseMessage`, `getFullChatHistory` and the per-user snapshot.
- `server.dfy`, module `Server`: the table invariants and the pure row updates, each with its lemmas. Class `Server.Store` holds the two tables as fields, with one method per socket handler.
  - Each handler returns the users whose sidebar it refreshes, or the audience of its push (`Fanout`: nobody, every connection, or the rooms of listed users).
  - Ids and the current time are parameters.
- `context.dfy`, module `ChatContext`: the reducers as functions. Class `ChatContext.ChatProvider` holds `chats`, `activeChatId` and `users`.
- `sidebar.dfy`, module `ChatSidebar`: the list functions. Class `ChatSidebar.Sidebar` holds the new-chat dialog state.
- `window.dfy`, module `ChatWindow`: the message-list functions. Class `ChatWindow.WindowState` holds the draft, secret mode, reply target, burned set and open viewers.
- `consistency.dfy`, module `Consistency`: lemmas showing that, after a push, the client's reducer computes the same chat list as the server's next projection.

Tables are sequences of rows in table order. A duplicate primary key makes the `INSERT` fail, and the handler then stops without changing anything or pushing.

### Where the code decides

- **`send_message` with an unknown chat.** The message is inserted even when no chat has the id, and nothing is pushed (backend/server.js:328-340). The model does the same.
- **`delete_message` ignores the chat id.** The row goes by id alone, whatever chat id the request names (backend/server.js:392). The chat id only picks who is refreshed.
- **`add_reaction` pushes to the request's chat.** The audience is that of the chat named in the request, not the message's own chat (backend/server.js:379).
- **Toggling twice can reorder.** Toggling a reaction or a selected user twice gives back the same set of users. When the user was already in the list, the user moves to its end. The model states exactly this.

## Model

| member | source | states |
|---|---|---|
| Seqs.SortBy | backend/server.js:195 | the sort returns a permutation of its input, in non-decreasing key order |
| Seqs.SortByStable | backend/server.js:195 | the sort is stable: for every key, the elements with that key come out in the order they went in |
| Seqs.SortByAppendLatest | backend/server.js:195 | an element whose key is not below any other's sorts last, after the others in their own sorted order |
| Seqs.SortByMap | backend/server.js:195 | sorting commutes with any rewrite that keeps every key |
| Seqs.FilterAppend | backend/server.js:190 | filtering `s + [x]` is filtering `s`, followed by `x` when `x` passes |
| Seqs.FilterMap | backend/server.js:190 | filtering commutes with a rewrite the filter cannot tell apart |
| Seqs.FilterMultiset | backend/server.js:190 | `filter` keeps each passing element as often as it occurs and drops every other |
| Text.TrimEmptyIffBlank | frontend/src/components/chat/ChatWindow.tsx:92 | `trim()` is empty exactly when every character is JavaScript white space or a line terminator |
| Projection.ParseMessageDecodes | backend/server.js:200-208 | a row decodes with its secret flag true exactly when the stored integer is 1, an empty reactions or readers column as none, and every other column unchanged |
| Projection.ParseAll | backend/server.js:190 | decoding keeps one entry per row; every row's decoding is present and nothing else is |
| Projection.RowsOf | backend/server.js:190 | the rows kept are exactly those whose `chatId` is the chat's id |
| Projection.ProjectChat | backend/server.js:189-197 | the chat keeps its id, name, type, participants and `hiddenBy`; its messages are in non-decreasing timestamp order |
| Projection.ProjectChatMessages | backend/server.js:190-195 | a projected chat holds the decoding of every row of that chat, nothing from another chat or outside the table, and one entry per row |
| Projection.ProjectAll | backend/server.js:184-198 | one projected chat per chat row, in table order |
| Projection.Snapshot | backend/server.js:248-250 | a user's snapshot holds exactly the projected chats that are broadcasts or list the user, in projection order |
| Server.FindChat | backend/server.js:332 | the lookup finds a row with that id, and finds none exactly when no row has it |
| Server.FindMessage | backend/server.js:365 | the lookup finds a row with that id, and finds none exactly when no row has it |
| Server.FindDirect | backend/server.js:288-292 | the chat found is a direct chat listing both users; none is found exactly when no such chat exists |
| Server.MessageAudienceFollowsChatType | backend/server.js:332-340 | with unique chat ids, a message or reaction push goes to every connection for a broadcast and to exactly the participants' rooms otherwise; an unknown chat gets none |
| Server.ReadAudienceFollowsChatType | backend/server.js:357-360 | with unique chat ids, a read update never goes to every connection; it goes to exactly the participants' rooms of a known chat that is not a broadcast, and to nobody otherwise |
| Server.ClearHidden | backend/server.js:329 | only the chat with the id changes, and only its `hiddenBy`, which becomes empty |
| Server.SentMessageDecodes | backend/server.js:314-331 | the row `send_message` inserts decodes to the message as sent: secret flag through 1/0, reply kept or absent, no reactions, no readers, status `sent`; the row is well formed |
| Server.SentMessageProjected | backend/server.js:328-329 | after a send, the target chat's projection holds the new message and its `hiddenBy` is empty |
| Server.SendKeepsTablesOk | backend/server.js:328-329 | inserting a well-formed row with a fresh id and clearing a chat's `hiddenBy` keep both tables well formed |
| Server.ClearHiddenFind | backend/server.js:329-332 | the chat looked up after the update is the one before it with an empty `hiddenBy` |
| Server.MarkRows | backend/server.js:347-353 | the bulk update rewrites each row by the receipt rule, row for row |
| Server.MarkRowKeepsRowOk | backend/server.js:348-351 | appending a receipt keeps readers unique and keeps status `read` exactly when someone has read |
| Server.MarkReadEffect | backend/server.js:347-353 | in the chat, every message from someone else ends read by the user exactly once, with status `read` and its earlier readers kept; other messages are unchanged |
| Server.MarkReadIdempotent | backend/server.js:349 | marking a chat read twice equals marking it once |
| Server.ToggleReactionEffect | backend/server.js:367-375 | the toggle flips the user's membership for the emoji, keeps its other reactors and every other emoji, and never leaves an emoji key with no reactors |
| Server.ToggleKeepsReactionsOk | backend/server.js:368-375 | the toggle keeps every emoji's reactors non-empty and free of repeats |
| Server.ToggleTwiceRestores | backend/server.js:367-375 | toggling a reaction the user had not made, then toggling it again, gives back the very same map |
| Server.ToggleTwiceMovesToEnd | backend/server.js:367-375 | toggling a reaction the user had made, twice, moves the user to the end of that emoji's list |
| Server.WithoutThenAppend | backend/server.js:371-374 | removing the one occurrence of a user and appending the user again keeps the multiset |
| Server.ToggleTwice | backend/server.js:367-375 | toggling twice restores the emoji keys and, for each, the same reactors |
| Server.SetReactions | backend/server.js:377 | only rows with the message id change, and only their reactions |
| Server.FilterKeepsUniqueMessageIds | backend/server.js:392 | deleting message rows keeps message ids unique |
| Server.FilterKeepsUniqueChatIds | backend/server.js:409 | deleting chat rows keeps chat ids unique |
| Server.WithoutMessage | backend/server.js:392 | exactly the rows with that id go; every other row stays, as often as before and in order |
| Server.WithoutChatMessages | backend/server.js:410 | exactly the rows of that chat go; every other row stays, in order |
| Server.WithoutChat | backend/server.js:409 | exactly the chat rows with that id go; every other row stays, in order |
| Server.HardDeleteLeavesNoTrace | backend/server.js:408-410 | after a hard delete, no user's snapshot holds the chat and no message of it is left |
| Server.HideChat | backend/server.js:411-416 | the user joins the chat's `hiddenBy` only when not already listed; no other chat changes |
| Server.HideChatEffect | backend/server.js:412-416 | the soft delete is idempotent, lists the user exactly once and keeps every `hiddenBy` free of repeats |
| Server.Store.SnapshotFor | backend/server.js:246-251 | a user's pushed chat list holds exactly the projected chats that are broadcasts or list the user |
| Server.Store.CreateGroup | backend/server.js:266-283 | inserts one group chat with empty `hiddenBy`, refreshes the participants and opens the group for them; a taken id changes nothing |
| Server.Store.CreateDirectChat | backend/server.js:286-310 | find-or-create: an existing direct chat of the two users is opened unchanged; otherwise exactly one direct chat `[sender, participant]` is inserted, both users are refreshed, and it is opened |
| Server.Store.InsertChat | backend/server.js:275 | the row is appended and the tables stay well formed |
| Server.Store.SendMessage | backend/server.js:312-341 | with a fresh id, appends exactly the new row, empties the chat's `hiddenBy` and pushes to the chat's audience; a taken id changes nothing and pushes nothing |
| Server.Store.MarkMessagesRead | backend/server.js:343-362 | the loop leaves the table as the bulk receipt update and keeps it well formed; the push goes to the chat's read audience |
| Server.Store.AddReaction | backend/server.js:364-389 | an unknown message changes nothing and pushes nothing; otherwise only that message's reactions change, to the toggled map, which is pushed to the request chat's audience |
| Server.Store.DeleteMessage | backend/server.js:391-398 | removes exactly the rows with the id, whatever the chat id, and refreshes the named chat's participants |
| Server.Store.DeleteChat | backend/server.js:401-420 | an unknown chat, or a hard delete of a broadcast, changes nothing; `hard` drops the chat and its messages; `soft` hides the chat for the user; any other mode changes nothing; unless refused, the participants are refreshed |
| ChatContext.ReceiveMessage | frontend/src/context/ChatContext.tsx:55-63 | the message is appended at the end of the matching chat, only the current user leaves its `hiddenBy`, and every other chat is unchanged |
| ChatContext.WithReactions | frontend/src/context/ChatContext.tsx:70 | only messages with the id change, and only their reactions |
| ChatContext.ReactionUpdated | frontend/src/context/ChatContext.tsx:65-75 | only the matching message of the matching chat gets the new reactions; everything else is unchanged |
| ChatContext.MarkViews | frontend/src/context/ChatContext.tsx:82-87 | each message is rewritten by the same receipt rule as the server's |
| ChatContext.ReadUpdate | frontend/src/context/ChatContext.tsx:77-92 | only the matching chat's messages are rewritten |
| ChatContext.ReadUpdateEffect | frontend/src/context/ChatContext.tsx:83-85 | in the chat, a message from someone else that does not list the user gets the user appended to its readers and status `read`, every other field kept; a message that already lists the user, and the user's own messages, are unchanged; readers stay unique |
| ChatContext.ReadUpdateIdempotent | frontend/src/context/ChatContext.tsx:77-92 | applying the read update twice equals applying it once |
| ChatContext.GetUserById | frontend/src/context/ChatContext.tsx:121-123 | the user returned is the first one with that id; none is returned exactly when no user has it |
| ChatContext.ActiveChat | frontend/src/context/ChatContext.tsx:105 | the chat returned is the first in the list with the active id; none is returned exactly when no chat is active or none has that id |
| ChatContext.Distinct | frontend/src/context/ChatContext.tsx:116 | the result holds the same values, each once |
| ChatContext.GroupParticipants | frontend/src/context/ChatContext.tsx:116 | the members are exactly the chosen users and the current user, each once |
| ChatContext.ChatProvider.constructor | frontend/src/context/ChatContext.tsx:26-28 | starts with no chats, no active chat and no users |
| ChatContext.ChatProvider.OnInitialData | frontend/src/context/ChatContext.tsx:46-49 | both lists are replaced by the snapshot; the active chat stays |
| ChatContext.ChatProvider.OnOpenChat | frontend/src/context/ChatContext.tsx:51-53 | the pushed chat becomes the active one; nothing else changes |
| ChatContext.ChatProvider.OnReceiveMessage | frontend/src/context/ChatContext.tsx:55-63 | the chat list becomes the `receiveMessage` rewrite; nothing else changes |
| ChatContext.ChatProvider.OnReactionUpdated | frontend/src/context/ChatContext.tsx:65-75 | the chat list becomes the `reactionUpdated` rewrite; nothing else changes |
| ChatContext.ChatProvider.OnReadUpdate | frontend/src/context/ChatContext.tsx:77-92 | the chat list becomes the read-update rewrite; nothing else changes |
| ChatContext.ChatProvider.SetActiveChat | frontend/src/context/ChatContext.tsx:106 | the active id is set, and the active chat, if any, has that id |
| ChatContext.ChatProvider.CreateChat | frontend/src/context/ChatContext.tsx:108-112 | emits `createDirectChat` from the current user to the participant |
| ChatContext.ChatProvider.CreateGroup | frontend/src/context/ChatContext.tsx:114-119 | emits `createGroup` with the name, and with members that are exactly the chosen users and the current user, each once |
| ChatContext.ChatProvider.DeleteChatConversation | frontend/src/context/ChatContext.tsx:125-130 | emits `delete_chat`; clears the active chat exactly when it is the deleted one |
| ChatContext.ChatProvider.MarkMessagesAsRead | frontend/src/context/ChatContext.tsx:133-137 | emits `mark_messages_read` for the current user |
| ChatSidebar.VisibleChats | frontend/src/components/chat/ChatSidebar.tsx:121-124 | a chat is listed exactly when the user does not hide it and it is a broadcast or lists the user; order is kept |
| ChatSidebar.SortedChats | frontend/src/components/chat/ChatSidebar.tsx:126-130 | a permutation of the visible chats in non-increasing order of last-message time (0 with no messages) |
| ChatSidebar.MostRecentFirst | frontend/src/components/chat/ChatSidebar.tsx:129 | ascending by the negated time is non-increasing by time |
| ChatSidebar.SortedChatsAreVisible | frontend/src/components/chat/ChatSidebar.tsx:126-130 | the sorted list holds exactly the visible chats, as many as there are |
| ChatSidebar.OtherParticipant | frontend/src/components/chat/ChatSidebar.tsx:142 | the participant found is the first who is not the user; none is found exactly when every participant is the user |
| ChatSidebar.DisplayName | frontend/src/components/chat/ChatSidebar.tsx:140-144 | a non-direct chat shows its own name; a direct chat shows a non-empty name: the name of the first other participant when that user is known and named, and otherwise "Unknown" or the name of a user who is another participant |
| ChatSidebar.FilterChats | frontend/src/components/chat/ChatSidebar.tsx:137-148 | an order-preserving subsequence of the sorted chats holding exactly those of the given type whose display name matches the search |
| ChatSidebar.FilteredContacts | frontend/src/components/chat/ChatSidebar.tsx:132-135 | never contains the user; holds exactly the contacts whose name or department matches or whose id contains the search, in order |
| ChatSidebar.UnreadCount | frontend/src/components/chat/ChatSidebar.tsx:270-272 | at most the number of messages, and zero exactly when every message was sent by the user or lists the user as a reader |
| ChatSidebar.UnreadCountAppend | frontend/src/components/chat/ChatSidebar.tsx:270-272 | one more message raises the badge by one exactly when that message is unread for the user, so the badge is the number of unread messages |
| ChatSidebar.NoUnreadAfterReadUpdate | frontend/src/components/chat/ChatSidebar.tsx:270-272 | after the read update for the user, the chat shows no unread message |
| ChatSidebar.ToggleSelection | frontend/src/components/chat/ChatSidebar.tsx:95 | flips the user's membership, appending an absent user at the end, and leaves the others as they were |
| ChatSidebar.ToggleSelectionTwice | frontend/src/components/chat/ChatSidebar.tsx:95 | toggling twice restores who is selected, and restores the list itself when the user was absent |
| ChatSidebar.Sidebar.constructor | frontend/src/components/chat/ChatSidebar.tsx:27-32 | the dialog starts closed, in direct mode, with nothing typed or selected; no user is selected twice, and every method keeps it so |
| ChatSidebar.Sidebar.SetDialogOpen | frontend/src/components/chat/ChatSidebar.tsx:82-92 | opening a closed dialog resets mode, name, selection and search; otherwise only the flag changes |
| ChatSidebar.Sidebar.SetGroupMode | frontend/src/components/chat/ChatSidebar.tsx:177-178 | sets the mode and nothing else |
| ChatSidebar.Sidebar.SetGroupName | frontend/src/components/chat/ChatSidebar.tsx:180 | sets the name and nothing else |
| ChatSidebar.Sidebar.ToggleUser | frontend/src/components/chat/ChatSidebar.tsx:94-96 | the selection becomes the toggled selection; nothing else changes |
| ChatSidebar.Sidebar.HandleCreate | frontend/src/components/chat/ChatSidebar.tsx:98-104 | a group is requested exactly in group mode with a non-blank name and a non-empty selection; the dialog stays open only when a group request is refused |
| ChatWindow.UploadType | frontend/src/components/chat/ChatWindow.tsx:80-82 | `image` for an `image/` prefix, `video` for a `video/` prefix, else `document`; never `text` |
| ChatWindow.ReplySnapshot | frontend/src/components/chat/ChatWindow.tsx:130-137 | copies the id; the name of a known sender with a non-empty name, and "Unknown" for an unknown sender, never an empty name; the text, or `[` + the upper-case type + `]` |
| ChatWindow.AllMessages | frontend/src/components/chat/ChatWindow.tsx:150 | the active chat's messages in order without any burned id; empty with no active chat |
| ChatWindow.DisplayedMessages | frontend/src/components/chat/ChatWindow.tsx:152-154 | all messages for an empty query; otherwise an order-preserving subsequence holding exactly the search hits |
| ChatWindow.MediaMessages | frontend/src/components/chat/ChatWindow.tsx:156 | exactly the non-secret images and videos, in order |
| ChatWindow.DocMessages | frontend/src/components/chat/ChatWindow.tsx:157 | exactly the non-secret documents, in order |
| ChatWindow.PanelsPartitionAttachments | frontend/src/components/chat/ChatWindow.tsx:156-157 | no message is in both panels, and together they hold every non-secret attachment |
| ChatWindow.CanType | frontend/src/components/chat/ChatWindow.tsx:171-173 | false exactly for a broadcast viewed by a user who is neither `admin` nor `head` |
| ChatWindow.ReactionIntent | frontend/src/components/chat/ChatWindow.tsx:139-142 | emits `add_reaction` for the active chat and the current user exactly when a chat is active |
| ChatWindow.BurnedStaysHidden | frontend/src/components/chat/ChatWindow.tsx:150 | a burned id stays out of the message list under any larger burned set |
| ChatWindow.WindowState.constructor | frontend/src/components/chat/ChatWindow.tsx:26-36 | starts with an empty draft, secret mode off, no reply, nothing burned and no viewer open |
| ChatWindow.WindowState.SetMessage | frontend/src/components/chat/ChatWindow.tsx:356 | sets the draft and nothing else |
| ChatWindow.WindowState.SetSecretMode | frontend/src/components/chat/ChatWindow.tsx:355 | sets secret mode and nothing else |
| ChatWindow.WindowState.View | frontend/src/components/chat/ChatWindow.tsx:264 | opens the media or secret-text viewer on the message |
| ChatWindow.WindowState.HandleSend | frontend/src/components/chat/ChatWindow.tsx:91-98 | a blank draft changes nothing; otherwise the draft is sent as text with the secret flag and reply target, when a chat is active, and the draft, secret mode and reply are cleared |
| ChatWindow.WindowState.PickFile | frontend/src/components/chat/ChatWindow.tsx:68-70 | captures the active chat, secret flag and reply target of the moment the file is chosen |
| ChatWindow.WindowState.HandleUploaded | frontend/src/components/chat/ChatWindow.tsx:76-87 | after a successful upload, the file is sent to the chat captured at pick time, with its MIME-derived type and the secret flag and reply captured then; secret mode and reply are then cleared; a failed upload changes nothing |
| ChatWindow.WindowState.HandleReply | frontend/src/components/chat/ChatWindow.tsx:130-137 | the reply target becomes the message's snapshot |
| ChatWindow.WindowState.Burn | frontend/src/components/chat/ChatWindow.tsx:144-148 | with an active chat, emits `delete_message` and adds the id to the burned set, so the list no longer shows it |
| ChatWindow.WindowState.HandleDelete | frontend/src/components/chat/ChatWindow.tsx:144-148 | with an active chat, emits `delete_message` and burns the id; without one, nothing happens |
| ChatWindow.WindowState.HandleDownloadSecretDoc | frontend/src/components/chat/ChatWindow.tsx:122-128 | with an active chat, emits `delete_message` and burns the document |
| ChatWindow.WindowState.ExecuteBurnMedia | frontend/src/components/chat/ChatWindow.tsx:105-111 | with media open and a chat active, deletes and burns it and closes the viewer; otherwise nothing happens |
| ChatWindow.WindowState.ExecuteBurnText | frontend/src/components/chat/ChatWindow.tsx:113-119 | with a secret text open and a chat active, deletes and burns it and closes the viewer; otherwise nothing happens |
| Consistency.ProjectChatMap | backend/server.js:189-195 | rewriting rows in a way that keeps chat ids, then projecting, equals projecting, then rewriting the messages in a way that keeps timestamps |
| Consistency.ReadsAgreeOnChat | frontend/src/context/ChatContext.tsx:77-92 | for one chat, the server's receipt update then projection equals the projection then the client's read update |
| Consistency.ServerAndClientAgreeOnReads | frontend/src/context/ChatContext.tsx:77-92 | the server's `mark_messages_read` followed by a projection gives exactly the chat list that the client's `messages_read_update` makes from the old projection |
| Consistency.NoUnreadAfterMarkRead | backend/server.js:343-353 | after the server marks a chat read for a user, that user's next snapshot shows no unread message in it |
| Consistency.ReactionsAgreeOnChat | frontend/src/context/ChatContext.tsx:65-75 | for one chat, the server's reaction update then projection equals the projection then the client's reaction update |
| Consistency.ServerAndClientAgreeOnReactions | frontend/src/context/ChatContext.tsx:65-75 | when the message belongs to the request's chat, the server's reaction update then projection equals the client's `reactionUpdated` rewrite |
| Consistency.ReceiveMessagesOnChat | backend/server.js:189-195 | appending a row no older than its chat's other messages appends its decoding to that chat's projected messages and changes no other chat |
| Consistency.ReceiveAgreesOnChat | frontend/src/context/ChatContext.tsx:55-63 | for one chat, the server's projection after a send agrees with the client's `receiveMessage` rewrite, except for `hiddenBy`, and visibility agrees |
| Consistency.ServerAndClientAgreeOnReceive | frontend/src/context/ChatContext.tsx:55-63 | for a message no older than its chat's others, the server's projection after `send_message` and the client's `receiveMessage` agree on every chat except for `hiddenBy`; other chats agree fully, and each chat is visible to the user on both sides or on neither |
| Consistency.SoftDeleteOnChat | backend/server.js:411-416 | the soft-deleted chat is invisible to the user; any other chat projects as before |
| Consistency.SoftDeleteHidesOnlyThatChat | backend/server.js:411-418 | after a soft delete, the user's sidebar no longer shows the chat and still shows every other chat it showed |


Some helpers have no contract of their own, and a lemma or caller states what they do:
- `Server.ToggleReaction`: `Server.ToggleReactionEffect` and the toggle-twice lemmas.
- `Server.MarkRow`: `Server.MarkReadEffect` and `Server.MarkRowKeepsRowOk`.
- `Server.NewMessageRow`: `Server.SentMessageDecodes`.
- `Server.MessageAudience` and `Server.ReadAudience`: the two `...AudienceFollowsChatType` lemmas.
- `ChatContext.MarkView`: `ChatContext.ReadUpdateEffect`.
- `ChatContext.WithReceived`: `ChatContext.ReceiveMessage`.
- `ChatContext.ChatById`: `ChatContext.ActiveChat`.
- `ChatSidebar.LastActivity` and `ChatSidebar.Recency`: `ChatSidebar.SortedChats`.

## Left out

- Login and change-password (backend/server.js:220-237) are plain lookups with no logic of their own. The demo seeding (backend/server.js:91-177) is random data.
- The transport is not modelled: Express routes, the upload endpoint, CORS, `server.listen`, socket rooms and `emit`. Handlers return who would be pushed to or refreshed instead of delivering anything.
- `register` and the users list in the snapshot are not modelled. This includes the `isOnline: true` flag that every user gets.
- The promise wrappers, transactions and async interleaving of SQLite are not modelled. In particular, `mark_messages_read` pushes before its un-awaited transaction commits; the model applies the update first.
- `Date.now()` ids and ISO timestamps are method parameters. Timestamps are milliseconds, and `new Date(...)` parsing is not modelled.
- JSON encoding of the row columns is not modelled; columns are kept decoded. A NULL participants or `hiddenBy` column, and a client chat without `hiddenBy`, are taken as empty lists.
- `Text.Lower`, `Text.Upper`: only ASCII letters change case. JavaScript's full Unicode case mapping is not modelled.
- Client plumbing is not modelled: fetching contacts, browser notifications and sounds, `window.open`, the upload request and its `alert`, and date formatting.
- The contact click in the sidebar that calls `createChat` is not a separate member; `ChatContext.ChatProvider.CreateChat` covers it.
- `ChatContext.ChatProvider.Active` and `ChatSidebar.Visible` simply name `ActiveChat` and the visibility test. Their properties are stated on `ChatContext.ActiveChat` and `ChatSidebar.VisibleChats`.
- `Server.ToggleTwice`: when the user had reacted, toggling twice restores the same reactors but not their order (the user moves to the end). `Server.ToggleTwiceRestores` gives equality of the whole map when the user had not reacted.
- `ChatSidebar.ToggleSelectionTwice`: for the same reason, list equality is stated only when the user was not selected; otherwise the same users are selected.
- `Consistency.ServerAndClientAgreeOnReceive`: requires the new message to be no older than the chat's other messages. The server sorts by timestamp, while the client appends.
- `Consistency.ServerAndClientAgreeOnReactions`: requires the message to belong to the chat named in the request. The server pushes with the request's chat id.
