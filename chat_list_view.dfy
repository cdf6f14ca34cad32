/**
 * The conversation list of client/src/components/ChatList.jsx: the filter on fetched
 * entries, the online set, the `receive_message` and `messages_read` handlers, and the unread
 * reset after a chat is opened.
 */
module ChatListView {
  import opened Wrappers
  import opened Ids
  import Seqs
  import opened ChatModel
  import opened ChatController
  import opened Socket

  /** `chat.participant && chat.participant._id`. */
  predicate Listable(s: ChatSummary)
  {
    s.participant.Some? && s.participant.value != ""
  }

  /** The fetched list keeps only entries with a participant, in the server's order. */
  function Fetched(response: seq<ChatSummary>): (r: seq<ChatSummary>)
    ensures forall s :: s in r <==> s in response && Listable(s)
  {
    Seqs.Filter(response, Listable)
  }

  /** A fetched list stays ordered by activity, as the server sent it. */
  lemma FetchedKeepsOrder(response: seq<ChatSummary>)
    requires Seqs.SortedDesc(response, (s: ChatSummary) => s.updatedAt)
    ensures Seqs.SortedDesc(Fetched(response), (s: ChatSummary) => s.updatedAt)
  {
    Seqs.FilterKeepsSorted(response, Listable, (s: ChatSummary) => s.updatedAt);
  }

  /** `user_status`: online adds the user to the set, any other status removes it. */
  function Status(online: set<Id>, e: Event): (r: set<Id>)
    ensures e.UserStatus? && e.online ==> r == online + {e.userId}
    ensures e.UserStatus? && !e.online ==> r == online - {e.userId}
    ensures !e.UserStatus? ==> r == online
  {
    match e
    case UserStatus(u, isOnline) => if isOnline then online + {u} else online - {u}
    case _ => online
  }

  /** `findIndex(chat => chat.chatId === chatId)`. */
  function IndexOf(chats: seq<ChatSummary>, chatId: Id): (r: Option<nat>)
    ensures r.Some? ==> r.value < |chats| && chats[r.value].chatId == chatId
                        && forall j :: 0 <= j < r.value ==> chats[j].chatId != chatId
    ensures r.None? ==> forall j :: 0 <= j < |chats| ==> chats[j].chatId != chatId
  {
    if |chats| == 0 then None
    else if chats[0].chatId == chatId then Some(0)
    else match IndexOf(chats[1..], chatId)
      case None => None
      case Some(i) => Some(i + 1)
  }

  /** The entry after a message arrives in it at time `now`. */
  function Bumped(s: ChatSummary, m: Message, me: Id, now: nat): (r: ChatSummary)
    ensures r.chatId == s.chatId && r.participant == s.participant
    ensures r.lastMessage == Some(m) && r.updatedAt == now
    ensures r.unreadCount == if m.sender != me then s.unreadCount + 1 else s.unreadCount
  {
    s.(lastMessage := Some(m), unreadCount := if m.sender != me then s.unreadCount + 1 else s.unreadCount,
       updatedAt := now)
  }

  /**
   * `receive_message`: an unknown chat leaves the list as it is; otherwise the first entry of
   * that chat is bumped and the list re-sorted by activity, newest first.
   */
  function Receive(chats: seq<ChatSummary>, me: Id, chatId: Id, m: Message, now: nat): (r: seq<ChatSummary>)
    ensures IndexOf(chats, chatId).None? ==> r == chats
    ensures IndexOf(chats, chatId).Some? ==>
              var i := IndexOf(chats, chatId).value;
              Seqs.SortedDesc(r, (s: ChatSummary) => s.updatedAt)
              && multiset(r) == multiset(chats[i := Bumped(chats[i], m, me, now)])
  {
    match IndexOf(chats, chatId)
    case None => chats
    case Some(i) => Seqs.SortDesc(chats[i := Bumped(chats[i], m, me, now)], (s: ChatSummary) => s.updatedAt)
  }

  /** After a receive, the bumped entry is listed and no other entry was added or lost. */
  lemma ReceiveKeepsEntries(chats: seq<ChatSummary>, me: Id, chatId: Id, m: Message, now: nat, i: nat)
    requires IndexOf(chats, chatId) == Some(i)
    ensures |Receive(chats, me, chatId, m, now)| == |chats|
    ensures Bumped(chats[i], m, me, now) in Receive(chats, me, chatId, m, now)
    ensures forall j :: 0 <= j < |chats| && j != i ==> chats[j] in Receive(chats, me, chatId, m, now)
  {
    var u := chats[i := Bumped(chats[i], m, me, now)];
    var r := Receive(chats, me, chatId, m, now);
    assert multiset(r) == multiset(u);
    SameEntries(u, r);
    assert u[i] == Bumped(chats[i], m, me, now);
    assert forall j :: 0 <= j < |chats| && j != i ==> u[j] == chats[j];
  }

  /** Two sequences with the same multiset have the same length and the same members. */
  lemma SameEntries(u: seq<ChatSummary>, r: seq<ChatSummary>)
    requires multiset(r) == multiset(u)
    ensures |r| == |u| && forall j :: 0 <= j < |u| ==> u[j] in r
  {
    assert |multiset(r)| == |r| && |multiset(u)| == |u|;
    forall j | 0 <= j < |u| ensures u[j] in r {
      assert u[j] in multiset(u);
    }
  }

  /** `{ ...chat.lastMessage, read: true }`, a null last message staying null. */
  function ReadLast(s: ChatSummary): ChatSummary
  {
    s.(lastMessage := if s.lastMessage.Some? then Some(s.lastMessage.value.(read := true)) else None)
  }

  /** `messages_read`: when another user read, every entry of that chat shows its last message read. */
  function MessagesRead(chats: seq<ChatSummary>, me: Id, chatId: Id, readBy: Id): (r: seq<ChatSummary>)
    ensures |r| == |chats|
    ensures readBy == me ==> r == chats
    ensures forall k :: 0 <= k < |chats| && chats[k].chatId != chatId ==> r[k] == chats[k]
    ensures readBy != me ==> forall k :: 0 <= k < |chats| && chats[k].chatId == chatId ==>
              r[k].lastMessage.Some? == chats[k].lastMessage.Some?
              && (r[k].lastMessage.Some? ==> r[k].lastMessage.value == chats[k].lastMessage.value.(read := true))
              && r[k] == chats[k].(lastMessage := r[k].lastMessage)
  {
    if readBy == me then chats
    else seq(|chats|, k requires 0 <= k < |chats| => if chats[k].chatId == chatId then ReadLast(chats[k]) else chats[k])
  }

  /** Entries the view opens: `handleSelectChat` ignores an entry without a participant. */
  datatype Selection = Ignored | Open(participant: Id, markRead: bool)

  /** `handleSelectChat`: opens the participant, asking for a read only when something is unread. */
  function Select(s: ChatSummary): (r: Selection)
    ensures r.Ignored? <==> !Listable(s)
    ensures r.Open? ==> r.participant == s.participant.value && (r.markRead <==> s.unreadCount > 0)
  {
    if !Listable(s) then Ignored else Open(s.participant.value, s.unreadCount > 0)
  }

  /** After the read call succeeds: that chat's entries count nothing unread, the others unchanged. */
  function ResetUnread(chats: seq<ChatSummary>, chatId: Id): (r: seq<ChatSummary>)
    ensures |r| == |chats|
    ensures forall k :: 0 <= k < |chats| ==>
              r[k] == if chats[k].chatId == chatId then chats[k].(unreadCount := 0) else chats[k]
  {
    seq(|chats|, k requires 0 <= k < |chats| => if chats[k].chatId == chatId then chats[k].(unreadCount := 0) else chats[k])
  }

  /**
   * A message sent by oneself never raises the unread count, and after the reset the opened
   * chat counts zero until someone else writes.
   */
  lemma OwnMessagesNotUnread(chats: seq<ChatSummary>, me: Id, chatId: Id, m: Message, now: nat)
    requires m.sender == me
    requires forall k :: 0 <= k < |chats| && chats[k].chatId == chatId ==> chats[k].unreadCount == 0
    ensures forall s :: s in Receive(chats, me, chatId, m, now) && s.chatId == chatId ==> s.unreadCount == 0
  {
    match IndexOf(chats, chatId)
    case None =>
    case Some(i) =>
      var u := chats[i := Bumped(chats[i], m, me, now)];
      var r := Receive(chats, me, chatId, m, now);
      forall s | s in r && s.chatId == chatId ensures s.unreadCount == 0 {
        assert s in multiset(r);
        assert s in multiset(u);
        var k :| 0 <= k < |u| && u[k] == s;
      }
  }
}
