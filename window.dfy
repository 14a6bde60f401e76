/** The open conversation (frontend/src/components/chat/ChatWindow.tsx): the
    message lists it shows, the send and upload paths, replies, deletion and
    burn-after-reading, and who may type. The active chat and the current
    user come from the chat context and are passed in; socket emits are
    returned as `Intent` values. */
module ChatWindow {
  import opened ChatTypes
  import opened Seqs
  import opened Text
  import opened ChatContext

  /** The message type of an uploaded file, from its MIME type
      (frontend/src/components/chat/ChatWindow.tsx:80-82). */
  function UploadType(mime: string): (t: MessageType)
    ensures t != Text
    ensures t == Image <==> "image/" <= mime
    ensures t == Video <==> !("image/" <= mime) && "video/" <= mime
    ensures t == Document <==> !("image/" <= mime) && !("video/" <= mime)
  {
    if "image/" <= mime then Image
    else if "video/" <= mime then Video
    else Document
  }

  /** The snapshot `handleReply` stores (frontend/src/components/chat/ChatWindow.tsx:130-137):
      the message's id, its sender's name ("Unknown" for an unknown sender or
      an empty name), and its text, or the bracketed upper-case type for
      media and documents. */
  function ReplySnapshot(msg: MessageView, users: seq<UserInfo>): (r: ReplyData)
    ensures r.id == msg.id
    ensures r.senderName != ""
    ensures r.senderName != "Unknown" ==> exists u :: u in users && u.id == msg.senderId && u.name == r.senderName
    ensures GetUserById(users, msg.senderId).None? ==> r.senderName == "Unknown"
    ensures GetUserById(users, msg.senderId).Some? && GetUserById(users, msg.senderId).value.name != "" ==>
              r.senderName == GetUserById(users, msg.senderId).value.name
    ensures msg.kind == Text ==> r.content == msg.content
    ensures msg.kind != Text ==> r.content == "[" + Upper(TypeName(msg.kind)) + "]"
  {
    var name := match GetUserById(users, msg.senderId)
      case None => "Unknown"
      case Some(u) =>
        assert u in users by {
          var i :| 0 <= i < |users| && users[i] == u && forall j :: 0 <= j < i ==> users[j].id != msg.senderId;
        }
        if u.name == "" then "Unknown" else u.name;
    var content := if msg.kind == Text then msg.content else "[" + Upper(TypeName(msg.kind)) + "]";
    ReplyData(msg.id, name, content)
  }

  /** `allMessages` (frontend/src/components/chat/ChatWindow.tsx:150): the
      active chat's messages, in order, without the burned ones. */
  function AllMessages(active: Option<ChatView>, burned: set<MessageId>): (r: seq<MessageView>)
    ensures forall m :: m in r ==> m.id !in burned
    ensures active.None? ==> r == []
    ensures active.Some? ==> (forall m :: m in r <==> m in active.value.messages && m.id !in burned)
    ensures active.Some? ==> IsSubsequence(r, active.value.messages)
  {
    var msgs := match active case None => [] case Some(c) => c.messages;
    Filter(msgs, (m: MessageView) => m.id !in burned)
  }

  /** The search test of `displayedMessages`: the content matches
      case-insensitively, or the type name contains the lower-cased query. */
  predicate SearchHit(m: MessageView, query: string) {
    Matches(m.content, query) || Includes(TypeName(m.kind), Lower(query))
  }

  /** `displayedMessages` (frontend/src/components/chat/ChatWindow.tsx:152-154). */
  function DisplayedMessages(all: seq<MessageView>, query: string): (r: seq<MessageView>)
    ensures query == "" ==> r == all
    ensures IsSubsequence(r, all)
    ensures forall m :: m in r <==> m in all && (query == "" || SearchHit(m, query))
  {
    if query == "" then
      assert IsSubsequence(all, all) by { SubsequenceOfItself(all); }
      all
    else Filter(all, (m: MessageView) => SearchHit(m, query))
  }

  predicate IsMedia(m: MessageView) {
    (m.kind == Image || m.kind == Video) && !m.isSecret
  }

  predicate IsDoc(m: MessageView) {
    m.kind == Document && !m.isSecret
  }

  /** `mediaMessages` (frontend/src/components/chat/ChatWindow.tsx:156). */
  function MediaMessages(all: seq<MessageView>): (r: seq<MessageView>)
    ensures forall m :: m in r ==> !m.isSecret && (m.kind == Image || m.kind == Video)
    ensures forall m :: m in all && !m.isSecret && (m.kind == Image || m.kind == Video) ==> m in r
    ensures IsSubsequence(r, all)
  {
    Filter(all, IsMedia)
  }

  /** `docMessages` (frontend/src/components/chat/ChatWindow.tsx:157). */
  function DocMessages(all: seq<MessageView>): (r: seq<MessageView>)
    ensures forall m :: m in r ==> !m.isSecret && m.kind == Document
    ensures forall m :: m in all && !m.isSecret && m.kind == Document ==> m in r
    ensures IsSubsequence(r, all)
  {
    Filter(all, IsDoc)
  }

  /** No message is shown in both the media and the document panel, and
      together they hold every non-secret attachment. */
  lemma PanelsPartitionAttachments(all: seq<MessageView>)
    ensures forall m :: !(m in MediaMessages(all) && m in DocMessages(all))
    ensures forall m :: m in all && !m.isSecret && m.kind != Text ==>
              m in MediaMessages(all) || m in DocMessages(all)
  {
  }

  /** `canType` (frontend/src/components/chat/ChatWindow.tsx:171-173): only
      admins and heads may write in a broadcast; anyone may elsewhere. */
  function CanType(kind: ChatType, role: string): (ok: bool)
    ensures !ok <==> kind == Broadcast && role != "admin" && role != "head"
  {
    kind != Broadcast || role == "admin" || role == "head"
  }

  /** `handleReaction` (frontend/src/components/chat/ChatWindow.tsx:139-142). */
  function ReactionIntent(active: Option<ChatView>, messageId: MessageId, emoji: string, me: UserId): (r: Option<Intent>)
    ensures r.Some? <==> active.Some?
    ensures r.Some? ==> r.value == Intent.AddReaction(active.value.id, messageId, emoji, me)
  {
    match active
    case None => None
    case Some(c) => Some(Intent.AddReaction(c.id, messageId, emoji, me))
  }

  /** What an upload in flight sends with: the values `handleFileChange`
      closed over when the file was picked. */
  datatype PendingUpload = PendingUpload(active: Option<ChatView>, secret: bool, reply: Option<ReplyData>)

  class WindowState {
    var message: string
    var isSecretMode: bool
    var replyingTo: Option<ReplyData>
    var burnedMessages: set<MessageId>
    var viewingMedia: Option<MessageId>
    var viewingSecretText: Option<MessageId>

    constructor ()
      ensures message == "" && !isSecretMode && replyingTo == None && burnedMessages == {}
      ensures viewingMedia == None && viewingSecretText == None
    {
      message := "";
      isSecretMode := false;
      replyingTo := None;
      burnedMessages := {};
      viewingMedia := None;
      viewingSecretText := None;
    }

    method SetMessage(text: string)
      modifies this
      ensures message == text && isSecretMode == old(isSecretMode) && replyingTo == old(replyingTo)
      ensures burnedMessages == old(burnedMessages)
      ensures viewingMedia == old(viewingMedia) && viewingSecretText == old(viewingSecretText)
    {
      message := text;
    }

    method SetSecretMode(on: bool)
      modifies this
      ensures isSecretMode == on && message == old(message) && replyingTo == old(replyingTo)
      ensures burnedMessages == old(burnedMessages)
      ensures viewingMedia == old(viewingMedia) && viewingSecretText == old(viewingSecretText)
    {
      isSecretMode := on;
    }

    /** Opening a media item or a secret text in the viewer. */
    method View(messageId: MessageId, media: bool)
      modifies this
      ensures media ==> viewingMedia == Some(messageId) && viewingSecretText == old(viewingSecretText)
      ensures !media ==> viewingSecretText == Some(messageId) && viewingMedia == old(viewingMedia)
      ensures message == old(message) && isSecretMode == old(isSecretMode) && replyingTo == old(replyingTo)
      ensures burnedMessages == old(burnedMessages)
    {
      if media {
        viewingMedia := Some(messageId);
      } else {
        viewingSecretText := Some(messageId);
      }
    }

    /** `handleSend` (frontend/src/components/chat/ChatWindow.tsx:91-98): a
        message that is not blank is sent as typed, as text, with the secret
        flag and reply target; then the draft, secret mode and reply target
        are cleared. A blank draft changes nothing. */
    method HandleSend(active: Option<ChatView>, me: UserId) returns (intent: Option<Intent>)
      modifies this
      ensures Trim(old(message)) == "" ==>
                intent == None && message == old(message) && isSecretMode == old(isSecretMode)
                && replyingTo == old(replyingTo)
      ensures Trim(old(message)) != "" ==>
                && message == "" && !isSecretMode && replyingTo == None
                && (intent.Some? <==> active.Some?)
                && (intent.Some? ==>
                      intent.value == Intent.SendMessage(active.value.id, old(message), me, Text, old(isSecretMode), old(replyingTo)))
      ensures burnedMessages == old(burnedMessages)
      ensures viewingMedia == old(viewingMedia) && viewingSecretText == old(viewingSecretText)
    {
      intent := None;
      if Trim(message) != "" {
        if active.Some? {
          intent := Some(Intent.SendMessage(active.value.id, message, me, Text, isSecretMode, replyingTo));
        }
        message := "";
        isSecretMode := false;
        replyingTo := None;
      }
    }

    /** The start of `handleFileChange` (frontend/src/components/chat/ChatWindow.tsx:68-70):
        the handler is the one of the render in which the file was chosen, so
        the active chat, the secret flag and the reply target it sends with
        are the ones of that moment, whatever changes while the upload runs. */
    method PickFile(active: Option<ChatView>) returns (pending: PendingUpload)
      ensures pending.active == active
      ensures pending.secret == isSecretMode && pending.reply == replyingTo
    {
      pending := PendingUpload(active, isSecretMode, replyingTo);
    }

    /** The tail of `handleFileChange` (frontend/src/components/chat/ChatWindow.tsx:76-87)
        once the upload answered: on success the file's URL is sent to the
        chat with the type its MIME type gives, and with the secret flag and
        reply target captured when the file was picked; secret mode and the
        reply target are then cleared and the draft text is kept. A failed
        upload changes nothing. */
    method HandleUploaded(pending: PendingUpload, success: bool, fileUrl: string, fileType: string, me: UserId)
      returns (intent: Option<Intent>)
      modifies this
      ensures !success ==> intent == None && isSecretMode == old(isSecretMode) && replyingTo == old(replyingTo)
      ensures success ==>
                && !isSecretMode && replyingTo == None
                && (intent.Some? <==> pending.active.Some?)
                && (intent.Some? ==>
                      intent.value == Intent.SendMessage(pending.active.value.id, fileUrl, me, UploadType(fileType),
                                                         pending.secret, pending.reply))
      ensures message == old(message) && burnedMessages == old(burnedMessages)
      ensures viewingMedia == old(viewingMedia) && viewingSecretText == old(viewingSecretText)
    {
      intent := None;
      if success {
        var kind := UploadType(fileType);
        if pending.active.Some? {
          intent := Some(Intent.SendMessage(pending.active.value.id, fileUrl, me, kind, pending.secret, pending.reply));
        }
        isSecretMode := false;
        replyingTo := None;
      }
    }

    /** `handleReply`: the reply target becomes a snapshot of the message. */
    method HandleReply(msg: MessageView, users: seq<UserInfo>)
      modifies this
      ensures replyingTo == Some(ReplySnapshot(msg, users))
      ensures message == old(message) && isSecretMode == old(isSecretMode) && burnedMessages == old(burnedMessages)
      ensures viewingMedia == old(viewingMedia) && viewingSecretText == old(viewingSecretText)
    {
      replyingTo := Some(ReplySnapshot(msg, users));
    }

    /** Deletes a message on the server and hides it at once; without an
        active chat nothing happens. Shared by `handleDelete` and
        `handleDownloadSecretDoc`. */
    method Burn(active: Option<ChatView>, messageId: MessageId) returns (intent: Option<Intent>)
      modifies this
      ensures active.None? ==> intent == None && burnedMessages == old(burnedMessages)
      ensures active.Some? ==>
                && intent == Some(Intent.DeleteMessage(active.value.id, messageId))
                && burnedMessages == old(burnedMessages) + {messageId}
                && forall m :: m in AllMessages(active, burnedMessages) ==> m.id != messageId
      ensures message == old(message) && isSecretMode == old(isSecretMode) && replyingTo == old(replyingTo)
      ensures viewingMedia == old(viewingMedia) && viewingSecretText == old(viewingSecretText)
    {
      intent := None;
      if active.Some? {
        intent := Some(Intent.DeleteMessage(active.value.id, messageId));
        burnedMessages := burnedMessages + {messageId};
      }
    }

    /** `handleDelete` (frontend/src/components/chat/ChatWindow.tsx:144-148). */
    method HandleDelete(active: Option<ChatView>, messageId: MessageId) returns (intent: Option<Intent>)
      modifies this
      ensures active.Some? ==> messageId in burnedMessages && intent == Some(Intent.DeleteMessage(active.value.id, messageId))
      ensures active.None? ==> intent == None && burnedMessages == old(burnedMessages)
      ensures burnedMessages - {messageId} == old(burnedMessages) - {messageId}
      ensures message == old(message) && isSecretMode == old(isSecretMode) && replyingTo == old(replyingTo)
      ensures viewingMedia == old(viewingMedia) && viewingSecretText == old(viewingSecretText)
    {
      intent := Burn(active, messageId);
    }

    /** `handleDownloadSecretDoc` (frontend/src/components/chat/ChatWindow.tsx:122-128):
        the download itself is browser I/O; the document is burned. */
    method HandleDownloadSecretDoc(active: Option<ChatView>, messageId: MessageId) returns (intent: Option<Intent>)
      modifies this
      ensures active.Some? ==> messageId in burnedMessages && intent == Some(Intent.DeleteMessage(active.value.id, messageId))
      ensures active.None? ==> intent == None && burnedMessages == old(burnedMessages)
      ensures burnedMessages - {messageId} == old(burnedMessages) - {messageId}
      ensures message == old(message) && isSecretMode == old(isSecretMode) && replyingTo == old(replyingTo)
      ensures viewingMedia == old(viewingMedia) && viewingSecretText == old(viewingSecretText)
    {
      intent := Burn(active, messageId);
    }

    /** `executeBurnMedia` (frontend/src/components/chat/ChatWindow.tsx:105-111):
        the viewed media is deleted, burned and the viewer closed; nothing
        happens with no media open or no active chat. */
    method ExecuteBurnMedia(active: Option<ChatView>) returns (intent: Option<Intent>)
      modifies this
      ensures old(viewingMedia).Some? && active.Some? ==>
                && intent == Some(Intent.DeleteMessage(active.value.id, old(viewingMedia).value))
                && burnedMessages == old(burnedMessages) + {old(viewingMedia).value}
                && viewingMedia == None
      ensures !(old(viewingMedia).Some? && active.Some?) ==>
                intent == None && burnedMessages == old(burnedMessages) && viewingMedia == old(viewingMedia)
      ensures message == old(message) && isSecretMode == old(isSecretMode) && replyingTo == old(replyingTo)
      ensures viewingSecretText == old(viewingSecretText)
    {
      intent := None;
      if viewingMedia.Some? && active.Some? {
        intent := Burn(active, viewingMedia.value);
        viewingMedia := None;
      }
    }

    /** `executeBurnText` (frontend/src/components/chat/ChatWindow.tsx:113-119). */
    method ExecuteBurnText(active: Option<ChatView>) returns (intent: Option<Intent>)
      modifies this
      ensures old(viewingSecretText).Some? && active.Some? ==>
                && intent == Some(Intent.DeleteMessage(active.value.id, old(viewingSecretText).value))
                && burnedMessages == old(burnedMessages) + {old(viewingSecretText).value}
                && viewingSecretText == None
      ensures !(old(viewingSecretText).Some? && active.Some?) ==>
                intent == None && burnedMessages == old(burnedMessages) && viewingSecretText == old(viewingSecretText)
      ensures message == old(message) && isSecretMode == old(isSecretMode) && replyingTo == old(replyingTo)
      ensures viewingMedia == old(viewingMedia)
    {
      intent := None;
      if viewingSecretText.Some? && active.Some? {
        intent := Burn(active, viewingSecretText.value);
        viewingSecretText := None;
      }
    }
  }

  /** Burning only grows: a message hidden once stays out of `allMessages`
      whatever the chat later holds. */
  lemma BurnedStaysHidden(active: Option<ChatView>, burned: set<MessageId>, later: set<MessageId>, id: MessageId)
    requires id in burned && burned <= later
    ensures forall m :: m in AllMessages(active, later) ==> m.id != id
  {
  }
}
