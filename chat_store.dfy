/**
 * The chat collection as the socket gateway (server/socket.js) and the HTTP chat controller
 * (server/Controllers/ChatController.js) both use it: documents in storage order, looked up by
 * participant pair, by id, and changed by push, `$set` through `arrayFilters`, field assignment
 * and `pull`. Everything here is a pure function of the collection; the handlers that assign
 * the results live in ChatController and Socket.
 */
module ChatStore {
  import opened Wrappers
  import opened Ids
  import opened ChatModel

  /** The filter `{ participants: { $all: [a, b] } }`. */
  predicate Covers(c: Chat, a: Id, b: Id)
  {
    a in c.participants && b in c.participants
  }

  /** `findOne` with that filter: the first chat in storage order naming both users. */
  function FindByPair(chats: seq<Chat>, a: Id, b: Id): (r: Option<nat>)
    ensures r.Some? ==> r.value < |chats| && Covers(chats[r.value], a, b)
    ensures r.Some? ==> forall j :: 0 <= j < r.value ==> !Covers(chats[j], a, b)
    ensures r.None? ==> forall j :: 0 <= j < |chats| ==> !Covers(chats[j], a, b)
  {
    if |chats| == 0 then None
    else if Covers(chats[0], a, b) then Some(0)
    else match FindByPair(chats[1..], a, b)
      case None => None
      case Some(i) => Some(i + 1)
  }

  /** `findById(id)` on the collection. */
  function FindChat(chats: seq<Chat>, id: Id): (r: Option<nat>)
    ensures r.Some? ==> r.value < |chats| && chats[r.value].id == id
    ensures r.None? ==> forall j :: 0 <= j < |chats| ==> chats[j].id != id
  {
    if |chats| == 0 then None
    else if chats[0].id == id then Some(0)
    else match FindChat(chats[1..], id)
      case None => None
      case Some(i) => Some(i + 1)
  }

  /** `chat.messages.id(mid)`: the embedded message with that id, if any. */
  function FindMessage(msgs: seq<Message>, mid: Id): (r: Option<nat>)
    ensures r.Some? ==> r.value < |msgs| && msgs[r.value].id == mid
    ensures r.None? ==> forall j :: 0 <= j < |msgs| ==> msgs[j].id != mid
  {
    if |msgs| == 0 then None
    else if msgs[0].id == mid then Some(0)
    else match FindMessage(msgs[1..], mid)
      case None => None
      case Some(i) => Some(i + 1)
  }

  /** `participants.find(p => p !== u)`: the first participant other than `u`, if there is one. */
  function OtherThan(ps: seq<Id>, u: Id): (r: Option<Id>)
    ensures r.Some? ==> r.value in ps && r.value != u
    ensures r.None? <==> forall p :: p in ps ==> p == u
  {
    if |ps| == 0 then None
    else if ps[0] != u then Some(ps[0])
    else
      assert forall p :: p in ps <==> p == ps[0] || p in ps[1..];
      OtherThan(ps[1..], u)
  }

  /** The messages of the conversation between `a` and `b`, empty when they have none. */
  function Conversation(chats: seq<Chat>, a: Id, b: Id): seq<Message>
  {
    match FindByPair(chats, a, b)
    case None => []
    case Some(i) => chats[i].messages
  }

  /** `$all` ignores the order of the ids, so both users find the same conversation. */
  lemma {:induction false} PairSymmetric(chats: seq<Chat>, a: Id, b: Id)
    ensures FindByPair(chats, a, b) == FindByPair(chats, b, a)
    ensures Conversation(chats, a, b) == Conversation(chats, b, a)
  {
    if |chats| > 0 {
      PairSymmetric(chats[1..], a, b);
    }
  }

  predicate SameParticipants(c1: seq<Chat>, c2: seq<Chat>)
  {
    |c1| == |c2| && forall k :: 0 <= k < |c1| ==> c1[k].participants == c2[k].participants
  }

  /** The pair lookup looks at participants only. */
  lemma {:induction false} FindByPairParticipants(c1: seq<Chat>, c2: seq<Chat>, a: Id, b: Id)
    requires SameParticipants(c1, c2)
    ensures FindByPair(c1, a, b) == FindByPair(c2, a, b)
  {
    if |c1| > 0 {
      assert c1[0].participants == c2[0].participants;
      FindByPairParticipants(c1[1..], c2[1..], a, b);
    }
  }

  // ---------------------------------------------------------------------------------------
  // The collection invariant

  predicate ChatIdsUnique(chats: seq<Chat>)
  {
    forall i, j :: 0 <= i < j < |chats| ==> chats[i].id != chats[j].id
  }

  predicate MessageIdsUnique(msgs: seq<Message>)
  {
    forall i, j :: 0 <= i < j < |msgs| ==> msgs[i].id != msgs[j].id
  }

  /** No two chats are both found by the lookup of the same two distinct users. */
  ghost predicate UniquePairs(chats: seq<Chat>)
  {
    forall i, j, a, b :: 0 <= i < j < |chats| && a != b && Covers(chats[i], a, b) ==> !Covers(chats[j], a, b)
  }

  /**
   * What every sequence of handler steps keeps true of the collection: generated ObjectIds,
   * unique chat and message ids, documents that passed schema validation, and at most one
   * conversation per pair of users.
   */
  ghost predicate StoreValid(chats: seq<Chat>)
  {
    ChatIdsUnique(chats) && UniquePairs(chats)
    && forall k :: 0 <= k < |chats| ==>
         ValidObjectId(chats[k].id) && ChatValid(chats[k]) && MessageIdsUnique(chats[k].messages)
  }

  /** A chat id the id generator may hand out next. */
  predicate FreshChatId(chats: seq<Chat>, id: Id)
  {
    ValidObjectId(id) && forall k :: 0 <= k < |chats| ==> chats[k].id != id
  }

  /** A message id no stored message carries. */
  predicate FreshMessageId(chats: seq<Chat>, id: Id)
  {
    forall k, j :: 0 <= k < |chats| && 0 <= j < |chats[k].messages| ==> chats[k].messages[j].id != id
  }

  /** Replacing one document by a valid one with the same id and participants keeps the invariant. */
  lemma ReplaceKeepsValid(chats: seq<Chat>, i: nat, c: Chat)
    requires StoreValid(chats) && i < |chats|
    requires c.id == chats[i].id && c.participants == chats[i].participants
    requires ChatValid(c) && MessageIdsUnique(c.messages)
    ensures StoreValid(chats[i := c])
  {
    var r := chats[i := c];
    forall k, j, a, b | 0 <= k < j < |r| && a != b && Covers(r[k], a, b)
      ensures !Covers(r[j], a, b)
    {
      assert Covers(chats[k], a, b);
    }
  }

  /** `deleteOne` of one document keeps the invariant. */
  lemma RemoveKeepsValid(chats: seq<Chat>, i: nat)
    requires StoreValid(chats) && i < |chats|
    ensures StoreValid(RemoveChatAt(chats, i))
  {
    var r := RemoveChatAt(chats, i);
    assert forall k :: 0 <= k < |r| ==> r[k] == chats[if k < i then k else k + 1];
    forall k, j, a, b | 0 <= k < j < |r| && a != b && Covers(r[k], a, b)
      ensures !Covers(r[j], a, b)
    {
      var k', j' := if k < i then k else k + 1, if j < i then j else j + 1;
      assert r[k] == chats[k'] && r[j] == chats[j'] && k' < j';
    }
  }

  // ---------------------------------------------------------------------------------------
  // Sending

  datatype SendOutcome = Saved(chats: seq<Chat>, chatId: Id, message: Message) | Rejected

  /** `chat.messages.push(m)` followed by `chat.save()`, which stamps `updatedAt`. */
  function Append(c: Chat, m: Message, now: nat): Chat
  {
    c.(messages := c.messages + [m], updatedAt := now)
  }

  /**
   * The send path shared by the socket event and the HTTP handler: find the pair's chat or
   * start `[sender, recipient]`, push an unread message, save. Saving fails schema
   * validation when an id or the text is the empty string.
   */
  function Send(chats: seq<Chat>, sender: Id, recipient: Id, text: string,
                freshChat: Id, freshMsg: Id, now: nat): (r: SendOutcome)
    ensures r.Saved? <==> sender != "" && recipient != "" && text != ""
    ensures r.Saved? ==> r.message == Message(freshMsg, sender, recipient, text, false, now)
    ensures r.Saved? ==> |r.chats| == |chats| + (if FindByPair(chats, sender, recipient).None? then 1 else 0)
  {
    var m := NewMessage(freshMsg, sender, recipient, text, now);
    if !MessageValid(m) then Rejected
    else match FindByPair(chats, sender, recipient)
      case Some(i) => Saved(chats[i := Append(chats[i], m, now)], chats[i].id, m)
      case None => Saved(chats + [Append(NewChat(freshChat, sender, recipient, now), m, now)], freshChat, m)
  }

  /**
   * A send adds exactly one message, at the end of the pair's conversation, and leaves every
   * other chat alone; the echoed chat id is the id of the chat that received it.
   */
  lemma SendAppends(chats: seq<Chat>, s: Id, r: Id, text: string, fc: Id, fm: Id, now: nat)
    requires Send(chats, s, r, text, fc, fm, now).Saved?
    ensures var out := Send(chats, s, r, text, fc, fm, now);
      Conversation(out.chats, s, r) == Conversation(chats, s, r) + [out.message]
      && FindByPair(out.chats, s, r).Some?
      && out.chats[FindByPair(out.chats, s, r).value].id == out.chatId
      && forall k :: 0 <= k < |chats| && Some(k) != FindByPair(chats, s, r) ==> out.chats[k] == chats[k]
  {
    var out := Send(chats, s, r, text, fc, fm, now);
    match FindByPair(chats, s, r)
    case Some(i) =>
      FindByPairParticipants(chats, out.chats, s, r);
    case None =>
      var n := out.chats;
      assert n[..|chats|] == chats;
      assert Covers(n[|chats|], s, r);
  }

  /** A reply lands in the same conversation, after the message it answers. */
  lemma SendReplyOrder(chats: seq<Chat>, a: Id, b: Id, t1: string, t2: string,
                       fc1: Id, fm1: Id, fc2: Id, fm2: Id, now1: nat, now2: nat)
    requires Send(chats, a, b, t1, fc1, fm1, now1).Saved?
    requires Send(Send(chats, a, b, t1, fc1, fm1, now1).chats, b, a, t2, fc2, fm2, now2).Saved?
    ensures var o1 := Send(chats, a, b, t1, fc1, fm1, now1);
      var o2 := Send(o1.chats, b, a, t2, fc2, fm2, now2);
      Conversation(o2.chats, a, b) == Conversation(chats, a, b) + [o1.message, o2.message]
  {
    var o1 := Send(chats, a, b, t1, fc1, fm1, now1);
    var o2 := Send(o1.chats, b, a, t2, fc2, fm2, now2);
    SendAppends(chats, a, b, t1, fc1, fm1, now1);
    SendAppends(o1.chats, b, a, t2, fc2, fm2, now2);
    PairSymmetric(o1.chats, a, b);
    PairSymmetric(o2.chats, a, b);
  }

  /** With ids from the generator, a send keeps the collection invariant. */
  lemma SendKeepsValid(chats: seq<Chat>, s: Id, r: Id, text: string, fc: Id, fm: Id, now: nat)
    requires StoreValid(chats) && FreshChatId(chats, fc) && FreshMessageId(chats, fm)
    requires Send(chats, s, r, text, fc, fm, now).Saved?
    ensures StoreValid(Send(chats, s, r, text, fc, fm, now).chats)
  {
    var m := NewMessage(fm, s, r, text, now);
    match FindByPair(chats, s, r)
    case Some(i) =>
      var c := Append(chats[i], m, now);
      assert forall j :: 0 <= j < |chats[i].messages| ==> chats[i].messages[j].id != fm;
      assert c.messages[|c.messages| - 1] == m;
      ReplaceKeepsValid(chats, i, c);
    case None =>
      var c := Append(NewChat(fc, s, r, now), m, now);
      var n := chats + [c];
      assert c.messages == [m];
      PairSymmetric(chats, s, r);
      forall k, j, a, b | 0 <= k < j < |n| && a != b && Covers(n[k], a, b)
        ensures !Covers(n[j], a, b)
      {
        if j == |chats| {
          assert n[k] == chats[k];
        }
      }
  }

  // ---------------------------------------------------------------------------------------
  // Read flags

  /** Whose messages an `arrayFilters` update targets: `elem.recipient` or `elem.sender`. */
  datatype Party = RecipientIs(user: Id) | SenderIs(user: Id)

  predicate Involves(m: Message, p: Party)
  {
    match p
    case RecipientIs(u) => m.recipient == u
    case SenderIs(u) => m.sender == u
  }

  /** `$set: { "messages.$[elem].read": true }` with `elem` the unread messages of party `p`. */
  function MarkRead(msgs: seq<Message>, p: Party): (r: seq<Message>)
    ensures |r| == |msgs|
    ensures forall k :: 0 <= k < |msgs| ==> r[k].read == (msgs[k].read || Involves(msgs[k], p))
    ensures forall k :: 0 <= k < |msgs| ==> r[k] == msgs[k].(read := r[k].read)
  {
    if |msgs| == 0 then []
    else
      var m := msgs[0];
      [if Involves(m, p) then m.(read := true) else m] + MarkRead(msgs[1..], p)
  }

  /** The `updateMany` filter: the document holds a message of `p` and some unread message. */
  predicate UpdateMatches(msgs: seq<Message>, p: Party)
  {
    (exists m :: m in msgs && Involves(m, p)) && (exists m :: m in msgs && !m.read)
  }

  /** When the document filter fails no element filter would have matched either. */
  lemma MarkReadUnmatched(msgs: seq<Message>, p: Party)
    requires !UpdateMatches(msgs, p)
    ensures MarkRead(msgs, p) == msgs
  {
    var r := MarkRead(msgs, p);
    forall k | 0 <= k < |msgs| ensures r[k] == msgs[k] {
      assert msgs[k] in msgs;
    }
  }

  lemma MarkReadIdempotent(msgs: seq<Message>, p: Party)
    ensures MarkRead(MarkRead(msgs, p), p) == MarkRead(msgs, p)
  {
    var once := MarkRead(msgs, p);
    var twice := MarkRead(once, p);
    forall k | 0 <= k < |msgs| ensures twice[k] == once[k] {
      assert Involves(once[k], p) == Involves(msgs[k], p);
    }
  }

  /** `messages.filter(m => m.recipient === u && !m.read).length`. */
  function UnreadFor(msgs: seq<Message>, u: Id): (n: nat)
    ensures n <= |msgs|
  {
    if |msgs| == 0 then 0
    else (if msgs[0].recipient == u && !msgs[0].read then 1 else 0) + UnreadFor(msgs[1..], u)
  }

  /** After `mark_read` by `u` nothing addressed to `u` is unread ... */
  lemma {:induction false} MarkReadClearsUnread(msgs: seq<Message>, u: Id)
    ensures UnreadFor(MarkRead(msgs, RecipientIs(u)), u) == 0
  {
    if |msgs| > 0 {
      var r := MarkRead(msgs, RecipientIs(u));
      assert r[1..] == MarkRead(msgs[1..], RecipientIs(u));
      MarkReadClearsUnread(msgs[1..], u);
    }
  }

  /** ... and every other user's unread count is what it was. */
  lemma {:induction false} MarkReadKeepsOthersUnread(msgs: seq<Message>, u: Id, v: Id)
    requires v != u
    ensures UnreadFor(MarkRead(msgs, RecipientIs(u)), v) == UnreadFor(msgs, v)
  {
    if |msgs| > 0 {
      var r := MarkRead(msgs, RecipientIs(u));
      assert r[1..] == MarkRead(msgs[1..], RecipientIs(u));
      MarkReadKeepsOthersUnread(msgs[1..], u, v);
    }
  }

  /**
   * The chat after the `updateMany`: flags set as above, and `updatedAt` stamped when the
   * document filter matched (Mongoose adds the timestamp to the update).
   */
  function MarkReadChat(c: Chat, p: Party, now: nat): (r: Chat)
    ensures r.id == c.id && r.participants == c.participants
    ensures r.messages == MarkRead(c.messages, p)
    ensures !UpdateMatches(c.messages, p) ==> r == c
  {
    if UpdateMatches(c.messages, p) then c.(messages := MarkRead(c.messages, p), updatedAt := now)
    else
      MarkReadUnmatched(c.messages, p);
      c
  }

  /** Setting flags keeps every message valid and every id where it was. */
  lemma MarkReadKeepsValid(c: Chat, p: Party, now: nat)
    requires ChatValid(c) && MessageIdsUnique(c.messages)
    ensures ChatValid(MarkReadChat(c, p, now)) && MessageIdsUnique(MarkReadChat(c, p, now).messages)
  {
    var r := MarkReadChat(c, p, now);
    forall m | m in r.messages ensures MessageValid(m) {
      var k :| 0 <= k < |r.messages| && r.messages[k] == m;
      assert c.messages[k] in c.messages;
    }
  }

  // ---------------------------------------------------------------------------------------
  // Editing and deleting messages

  /** `message.text = text` on the embedded message at index `k`. */
  function EditAt(msgs: seq<Message>, k: nat, text: string): (r: seq<Message>)
    requires k < |msgs|
    ensures |r| == |msgs| && r[k] == msgs[k].(text := text)
    ensures forall j :: 0 <= j < |msgs| && j != k ==> r[j] == msgs[j]
  {
    msgs[k := msgs[k].(text := text)]
  }

  /** `chat.messages.pull(mid)`: every embedded message with that id goes. */
  function Pull(msgs: seq<Message>, mid: Id): (r: seq<Message>)
    ensures forall m :: m in r <==> m in msgs && m.id != mid
    ensures |r| <= |msgs|
  {
    if |msgs| == 0 then []
    else if msgs[0].id == mid then Pull(msgs[1..], mid)
    else [msgs[0]] + Pull(msgs[1..], mid)
  }

  /** With unique ids, pulling a stored message removes exactly that one element. */
  lemma PullFound(msgs: seq<Message>, mid: Id, k: nat)
    requires MessageIdsUnique(msgs) && FindMessage(msgs, mid) == Some(k)
    ensures Pull(msgs, mid) == msgs[..k] + msgs[k + 1..]
  {
    PullAt(msgs, k);
  }

  /** Pulling the id of the message at `k`, when ids are unique, removes position `k` only. */
  lemma {:induction false} PullAt(msgs: seq<Message>, k: nat)
    requires MessageIdsUnique(msgs) && k < |msgs|
    ensures Pull(msgs, msgs[k].id) == msgs[..k] + msgs[k + 1..]
  {
    if k == 0 {
      PullHead(msgs);
    } else {
      TailUnique(msgs);
      PullAt(msgs[1..], k - 1);
      PullStep(msgs, k);
    }
  }

  /** A head whose id no later message carries is the only thing pulled. */
  lemma PullHead(msgs: seq<Message>)
    requires MessageIdsUnique(msgs) && |msgs| > 0
    ensures Pull(msgs, msgs[0].id) == msgs[1..]
  {
    var t := msgs[1..];
    forall j | 0 <= j < |t| ensures t[j].id != msgs[0].id {
      assert t[j] == msgs[j + 1];
    }
    PullAbsent(t, msgs[0].id);
  }

  /** Dropping the head keeps ids unique. */
  lemma TailUnique(msgs: seq<Message>)
    requires MessageIdsUnique(msgs) && |msgs| > 0
    ensures MessageIdsUnique(msgs[1..])
  {
    var t := msgs[1..];
    forall i, j | 0 <= i < j < |t| ensures t[i].id != t[j].id {
      assert t[i] == msgs[i + 1] && t[j] == msgs[j + 1];
    }
  }

  /** One step of `PullAt`: a head with another id is kept in front of the tail's result. */
  lemma PullStep(msgs: seq<Message>, k: nat)
    requires MessageIdsUnique(msgs) && 0 < k < |msgs|
    requires Pull(msgs[1..], msgs[k].id) == msgs[1..][..k - 1] + msgs[1..][k..]
    ensures Pull(msgs, msgs[k].id) == msgs[..k] + msgs[k + 1..]
  {
    assert msgs[0].id != msgs[k].id;
    assert Pull(msgs, msgs[k].id) == [msgs[0]] + Pull(msgs[1..], msgs[k].id);
    SkipShift(msgs, k);
  }

  /** Removing position `k > 0` is keeping the head and removing position `k - 1` of the tail. */
  lemma SkipShift<T>(s: seq<T>, k: nat)
    requires 0 < k < |s|
    ensures s[..k] + s[k + 1..] == [s[0]] + (s[1..][..k - 1] + s[1..][k..])
  {
    assert s[..k] == [s[0]] + s[1..][..k - 1];
    assert s[k + 1..] == s[1..][k..];
  }

  /** Pulling an id nobody carries changes nothing. */
  lemma {:induction false} PullAbsent(msgs: seq<Message>, mid: Id)
    requires forall j :: 0 <= j < |msgs| ==> msgs[j].id != mid
    ensures Pull(msgs, mid) == msgs
  {
    if |msgs| > 0 {
      PullAbsent(msgs[1..], mid);
    }
  }

  lemma {:induction false} PullKeepsUnique(msgs: seq<Message>, mid: Id)
    requires MessageIdsUnique(msgs)
    ensures MessageIdsUnique(Pull(msgs, mid))
  {
    if |msgs| > 0 {
      PullKeepsUnique(msgs[1..], mid);
      if msgs[0].id != mid {
        var r := Pull(msgs, mid);
        forall j | 1 <= j < |r| ensures r[j].id != msgs[0].id {
          assert r[j] in Pull(msgs[1..], mid);
          var k :| 0 <= k < |msgs[1..]| && msgs[1..][k] == r[j];
          assert msgs[k + 1] == r[j];
        }
      }
    }
  }

  /**
   * Pulling a stored message from chat `i` and saving it at `now` removes that message's
   * position and keeps the store valid.
   */
  lemma PullFromChat(chats: seq<Chat>, i: nat, mid: Id, k: nat, now: nat)
    requires StoreValid(chats) && i < |chats| && FindMessage(chats[i].messages, mid) == Some(k)
    ensures Pull(chats[i].messages, mid) == chats[i].messages[..k] + chats[i].messages[k + 1..]
    ensures StoreValid(chats[i := chats[i].(messages := Pull(chats[i].messages, mid), updatedAt := now)])
  {
    var c := chats[i];
    PullFound(c.messages, mid, k);
    PullKeepsUnique(c.messages, mid);
    var c' := c.(messages := Pull(c.messages, mid), updatedAt := now);
    assert ChatValid(c');
    ReplaceKeepsValid(chats, i, c');
  }

  /** Why an edit or delete of one message was refused, in the order the handlers check. */
  datatype Refusal = BadChatId | NoChat | NoMessage | NotSender | NoRefusal

  /** `chat.messages.id(messageId)` finds a message in the chat `findById(chatId)` finds. */
  predicate HasMessage(chats: seq<Chat>, chatId: Id, messageId: Id)
  {
    FindChat(chats, chatId).Some? && FindMessage(chats[FindChat(chats, chatId).value].messages, messageId).Some?
  }

  /** The stored sender of that message. */
  function StoredSender(chats: seq<Chat>, chatId: Id, messageId: Id): Id
    requires HasMessage(chats, chatId, messageId)
  {
    var i := FindChat(chats, chatId).value;
    chats[i].messages[FindMessage(chats[i].messages, messageId).value].sender
  }

  /**
   * The checks in front of every edit and delete of a message, in the order the handlers
   * make them: a chat id that casts, an existing chat, an existing message, and the caller
   * as its stored sender. Only the stored sender gets through.
   */
  function CheckMessageAccess(chats: seq<Chat>, chatId: Id, messageId: Id, userId: Id): (r: Refusal)
    ensures r == BadChatId <==> !ValidObjectId(chatId)
    ensures r == NoChat <==> ValidObjectId(chatId) && FindChat(chats, chatId).None?
    ensures r == NoMessage <==> ValidObjectId(chatId) && FindChat(chats, chatId).Some? && !HasMessage(chats, chatId, messageId)
    ensures r == NotSender <==> ValidObjectId(chatId) && HasMessage(chats, chatId, messageId)
                                && StoredSender(chats, chatId, messageId) != userId
    ensures r == NoRefusal <==> ValidObjectId(chatId) && HasMessage(chats, chatId, messageId)
                                && StoredSender(chats, chatId, messageId) == userId
  {
    if !ValidObjectId(chatId) then BadChatId
    else match FindChat(chats, chatId)
      case None => NoChat
      case Some(i) =>
        match FindMessage(chats[i].messages, messageId)
        case None => NoMessage
        case Some(k) => if chats[i].messages[k].sender != userId then NotSender else NoRefusal
  }

  /** `messages[messages.length - 1] || null`. */
  function LastMessage(msgs: seq<Message>): (r: Option<Message>)
    ensures r.None? <==> msgs == []
    ensures r.Some? ==> r.value == msgs[|msgs| - 1]
  {
    if |msgs| == 0 then None else Some(msgs[|msgs| - 1])
  }

  /** `chat.deleteOne()`. */
  function RemoveChatAt(chats: seq<Chat>, i: nat): (r: seq<Chat>)
    requires i < |chats|
    ensures |r| == |chats| - 1
    ensures forall c :: c in chats && c != chats[i] ==> c in r
  {
    chats[..i] + chats[i + 1..]
  }
}
