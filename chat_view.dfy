/**
 * The open conversation of client/src/components/ChatComponent.jsx: how each socket event
 * changes the message list, the chat id and the typing flag, and the guards on sending and
 * on saving an edit.
 */
module ChatView {
  import opened Wrappers
  import opened Ids
  import opened Text
  import opened ChatModel
  import opened ChatStore
  import opened Socket

  /** The component's state for the conversation of `me` with `peer`. */
  datatype View = View(me: Id, peer: Id, messages: seq<Message>, chatId: Option<Id>, typing: bool)

  /** `prev.map(msg => msg._id === mid ? { ...msg, text } : msg)`. */
  function EditById(msgs: seq<Message>, mid: Id, text: string): (r: seq<Message>)
    ensures |r| == |msgs|
    ensures forall k :: 0 <= k < |msgs| ==> r[k] == if msgs[k].id == mid then msgs[k].(text := text) else msgs[k]
  {
    seq(|msgs|, k requires 0 <= k < |msgs| => if msgs[k].id == mid then msgs[k].(text := text) else msgs[k])
  }

  /**
   * The socket handlers. `receive_message` keeps only messages from the open peer;
   * `messages_read` by the peer marks every message of `me` read; edits and deletes apply only
   * to the open chat; `user_status` and send failures are not handled here.
   */
  function Apply(v: View, e: Event): (r: View)
    ensures r.me == v.me && r.peer == v.peer
  {
    match e
    case ReceiveMessage(cid, m) =>
      if m.sender == v.peer then v.(messages := v.messages + [m], chatId := Some(cid)) else v
    case MessageSent(cid, m) => v.(messages := v.messages + [m], chatId := Some(cid))
    case Typing(s) => if s == v.peer then v.(typing := true) else v
    case StopTyping(s) => if s == v.peer then v.(typing := false) else v
    case MessagesRead(_, reader) => if reader == v.peer then v.(messages := MarkRead(v.messages, SenderIs(v.me))) else v
    case MessageEdited(cid, mid, text) =>
      if v.chatId == Some(cid) then v.(messages := EditById(v.messages, mid, text)) else v
    case MessageDeleted(cid, mid) =>
      if v.chatId == Some(cid) then v.(messages := Pull(v.messages, mid)) else v
    case _ => v
  }

  /**
   * `typing` and `stop_typing` set and clear the flag only when they come from the open peer;
   * from anyone else, and for every other event, the flag stays as it was.
   */
  lemma TypingFromPeerOnly(v: View, e: Event)
    ensures e.Typing? && e.senderId == v.peer ==> Apply(v, e).typing
    ensures e.StopTyping? && e.senderId == v.peer ==> !Apply(v, e).typing
    ensures !((e.Typing? || e.StopTyping?) && e.senderId == v.peer) ==> Apply(v, e).typing == v.typing
    ensures (e.Typing? || e.StopTyping?) ==> Apply(v, e).messages == v.messages && Apply(v, e).chatId == v.chatId
  {
  }

  /**
   * The list only grows at its end with messages from the peer and with echoes of one's own
   * sends; a message from anyone else changes nothing.
   */
  lemma ArrivalsAppend(v: View, cid: Id, m: Message)
    ensures Apply(v, MessageSent(cid, m)).messages == v.messages + [m]
    ensures m.sender == v.peer ==> Apply(v, ReceiveMessage(cid, m)).messages == v.messages + [m]
    ensures m.sender != v.peer ==> Apply(v, ReceiveMessage(cid, m)) == v
  {
  }

  /** Events about another chat, or before any chat is known, leave the list alone. */
  lemma OtherChatIgnored(v: View, cid: Id, mid: Id, text: string)
    requires v.chatId != Some(cid)
    ensures Apply(v, MessageEdited(cid, mid, text)) == v
    ensures Apply(v, MessageDeleted(cid, mid)) == v
  {
  }

  /**
   * No event turns a read flag back to false: apart from a deletion, every message keeps its
   * position and a read message stays read.
   */
  lemma ReadFlagsOnlyRise(v: View, e: Event, k: nat)
    requires !e.MessageDeleted? && k < |v.messages| && v.messages[k].read
    ensures k < |Apply(v, e).messages| && Apply(v, e).messages[k].read
  {
  }

  /**
   * `messages_read` marks one's own messages read only when the open peer is the reader, and an
   * edit or a delete for the open chat replaces the text by id or pulls the message by id;
   * nothing else of the view changes.
   */
  lemma ReadEditDeleteRules(v: View, cid: Id, reader: Id, mid: Id, text: string)
    ensures reader == v.peer ==> Apply(v, MessagesRead(cid, reader)) == v.(messages := MarkRead(v.messages, SenderIs(v.me)))
    ensures reader != v.peer ==> Apply(v, MessagesRead(cid, reader)) == v
    ensures v.chatId == Some(cid) ==> Apply(v, MessageEdited(cid, mid, text)) == v.(messages := EditById(v.messages, mid, text))
    ensures v.chatId == Some(cid) ==> Apply(v, MessageDeleted(cid, mid)) == v.(messages := Pull(v.messages, mid))
  {
  }

  /** Every message of the view is between `me` and `peer`. */
  predicate BetweenUs(msgs: seq<Message>, me: Id, peer: Id)
  {
    forall k :: 0 <= k < |msgs| ==>
      (msgs[k].sender == me && msgs[k].recipient == peer) || (msgs[k].sender == peer && msgs[k].recipient == me)
  }

  /**
   * When the peer reads, the view marks read exactly what the server marked: in a two-party
   * conversation the messages sent by `me` are the messages received by the peer.
   */
  lemma ReadMatchesServer(msgs: seq<Message>, me: Id, peer: Id)
    requires me != peer && BetweenUs(msgs, me, peer)
    ensures MarkRead(msgs, SenderIs(me)) == MarkRead(msgs, RecipientIs(peer))
  {
    var a := MarkRead(msgs, SenderIs(me));
    var b := MarkRead(msgs, RecipientIs(peer));
    assert forall k :: 0 <= k < |msgs| ==> Involves(msgs[k], SenderIs(me)) == Involves(msgs[k], RecipientIs(peer));
    assert forall k :: 0 <= k < |msgs| ==> a[k] == b[k];
  }

  /** With unique ids, an edit by id changes the same element the server edited. */
  lemma EditMatchesServer(msgs: seq<Message>, mid: Id, text: string, k: nat)
    requires MessageIdsUnique(msgs) && FindMessage(msgs, mid) == Some(k)
    ensures EditById(msgs, mid, text) == EditAt(msgs, k, text)
  {
    var a := EditById(msgs, mid, text);
    forall j | 0 <= j < |msgs| ensures a[j] == EditAt(msgs, k, text)[j] {
      if j != k {
        assert msgs[j].id != msgs[k].id;
      }
    }
  }

  /** What the view emits on its socket. */
  datatype Outgoing =
    | SendMessageOut(senderId: Id, recipientId: Id, text: string)
    | StopTypingOut(senderId: Id, recipientId: Id)

  datatype SendStep = SendStep(emitted: seq<Outgoing>, draft: string)

  /**
   * `handleSendMessage`: nothing without non-blank text and a socket; otherwise `send_message`
   * with the draft, the draft cleared, then `stop_typing` to the peer.
   */
  function SendDraft(v: View, draft: string, connected: bool): (r: SendStep)
    ensures r.emitted != [] <==> !Blank(draft) && connected
    ensures r.emitted != [] ==>
              r.emitted == [SendMessageOut(v.me, v.peer, draft), StopTypingOut(v.me, v.peer)]
              && draft != "" && r.draft == ""
    ensures r.emitted == [] ==> r.draft == draft
  {
    if Blank(draft) || !connected then SendStep([], draft)
    else SendStep([SendMessageOut(v.me, v.peer, draft), StopTypingOut(v.me, v.peer)], "")
  }

  /**
   * A text the view sends is never blank to the server, and the `stop_typing` that follows it
   * clears the typing flag in the peer's own view of this conversation.
   */
  lemma SendReachesPeer(v: View, w: View, draft: string, connected: bool)
    requires SendDraft(v, draft, connected).emitted != [] && w.me == v.peer && w.peer == v.me
    ensures Trim(SendDraft(v, draft, connected).emitted[0].text) != ""
    ensures !Apply(w, StopTyping(SendDraft(v, draft, connected).emitted[1].senderId)).typing
  {
    TrimEmptyIffBlank(draft);
  }

  /** `handleSaveEditedMessage` goes ahead only with non-blank text, a chat and a message. */
  predicate MaySaveEdit(text: string, chatId: Option<Id>, editing: Option<Id>)
  {
    !Blank(text) && chatId.Some? && chatId.value != "" && editing.Some? && editing.value != ""
  }

  /** An edit the view lets through is never refused by the server for blank text. */
  lemma SavedEditNotBlank(text: string, chatId: Option<Id>, editing: Option<Id>)
    requires MaySaveEdit(text, chatId, editing)
    ensures Trim(text) != ""
  {
    TrimEmptyIffBlank(text);
  }
}
