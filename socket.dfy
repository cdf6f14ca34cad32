/**
 * The Socket.IO gateway of server/socket.js: the process-wide presence map `onlineUsers` and
 * the event handlers that read and change it and the chat collection. Each handler is one
 * atomic step that returns the events it emits, in emission order.
 */
module Socket {
  import opened Wrappers
  import opened Ids
  import opened ChatModel
  import opened ChatStore
  import opened Db

  type SocketId = string

  /** One entry of `onlineUsers`. */
  datatype Binding = Binding(user: Id, socket: SocketId)

  /**
   * The presence map as its entries in insertion order, the order `entries()` visits them;
   * `set` on a present key keeps the key's place.
   */
  ghost predicate KeysUnique(online: seq<Binding>)
  {
    forall i, j :: 0 <= i < j < |online| ==> online[i].user != online[j].user
  }

  /** `onlineUsers.get(u)`. */
  function Lookup(online: seq<Binding>, u: Id): (r: Option<SocketId>)
    ensures r.Some? ==> Binding(u, r.value) in online
    ensures r.None? <==> forall k :: 0 <= k < |online| ==> online[k].user != u
  {
    if |online| == 0 then None
    else if online[0].user == u then Some(online[0].socket)
    else Lookup(online[1..], u)
  }

  /** With unique keys, the socket found is the one in the key's entry. */
  lemma {:induction false} LookupEntry(online: seq<Binding>, k: nat)
    requires KeysUnique(online) && k < |online|
    ensures Lookup(online, online[k].user) == Some(online[k].socket)
  {
    if k > 0 {
      LookupEntry(online[1..], k - 1);
    }
  }

  /** How many entries carry key `u`. */
  function Entries(online: seq<Binding>, u: Id): (n: nat)
    ensures n <= |online|
  {
    if |online| == 0 then 0
    else (if online[0].user == u then 1 else 0) + Entries(online[1..], u)
  }

  /** `onlineUsers.set(u, s)`. */
  function Bind(online: seq<Binding>, u: Id, s: SocketId): (r: seq<Binding>)
    ensures Lookup(r, u) == Some(s)
    ensures forall v :: v != u ==> Lookup(r, v) == Lookup(online, v)
  {
    if |online| == 0 then [Binding(u, s)]
    else if online[0].user == u then [Binding(u, s)] + online[1..]
    else [online[0]] + Bind(online[1..], u, s)
  }

  /** After `set`, the key has exactly one entry and the keys are still unique. */
  lemma {:induction false} BindOnce(online: seq<Binding>, u: Id, s: SocketId)
    requires KeysUnique(online)
    ensures KeysUnique(Bind(online, u, s)) && Entries(Bind(online, u, s), u) == 1
    ensures forall v :: v != u ==> Entries(Bind(online, u, s), v) == Entries(online, v)
  {
    if |online| > 0 {
      var b, rest := online[0], online[1..];
      KeysTail(online);
      if b.user == u {
        NoEntries(rest, u);
        ConsUnique(Binding(u, s), rest);
      } else {
        BindOnce(rest, u, s);
        ConsUnique(b, Bind(rest, u, s));
      }
    }
  }

  /** The tail of a map with unique keys has unique keys and lacks the head's key. */
  lemma KeysTail(online: seq<Binding>)
    requires KeysUnique(online) && |online| > 0
    ensures KeysUnique(online[1..]) && Lookup(online[1..], online[0].user).None?
  {
    var t := online[1..];
    forall i, j | 0 <= i < j < |t| ensures t[i].user != t[j].user {
      assert t[i] == online[i + 1] && t[j] == online[j + 1];
    }
    forall k | 0 <= k < |t| ensures t[k].user != online[0].user {
      assert t[k] == online[k + 1];
    }
  }

  /** Putting an entry with a new key in front keeps keys unique and adds one entry for it. */
  lemma ConsUnique(b: Binding, t: seq<Binding>)
    requires KeysUnique(t) && Lookup(t, b.user).None?
    ensures KeysUnique([b] + t)
    ensures forall v :: Entries([b] + t, v) == (if b.user == v then 1 else 0) + Entries(t, v)
  {
    var r := [b] + t;
    assert r[1..] == t;
    forall i, j | 0 <= i < j < |r| ensures r[i].user != r[j].user {
      assert r[j] == t[j - 1];
      if i > 0 {
        assert r[i] == t[i - 1];
      }
    }
  }

  lemma {:induction false} NoEntries(online: seq<Binding>, u: Id)
    requires forall k :: 0 <= k < |online| ==> online[k].user != u
    ensures Entries(online, u) == 0
  {
    if |online| > 0 {
      NoEntries(online[1..], u);
    }
  }

  /** Connecting twice leaves one entry for the user, bound to the newer socket. */
  lemma ReconnectKeepsNewest(online: seq<Binding>, u: Id, s1: SocketId, s2: SocketId)
    requires KeysUnique(online)
    ensures var r := Bind(Bind(online, u, s1), u, s2);
            Entries(r, u) == 1 && Lookup(r, u) == Some(s2) && KeysUnique(r)
  {
    BindOnce(online, u, s1);
    BindOnce(Bind(online, u, s1), u, s2);
  }

  /** The index the `disconnect` loop stops at: the first entry bound to socket `s`. */
  function FirstWithSocket(online: seq<Binding>, s: SocketId): (r: Option<nat>)
    ensures r.Some? ==> r.value < |online| && online[r.value].socket == s
    ensures r.Some? ==> forall j :: 0 <= j < r.value ==> online[j].socket != s
    ensures r.None? ==> forall j :: 0 <= j < |online| ==> online[j].socket != s
  {
    if |online| == 0 then None
    else if online[0].socket == s then Some(0)
    else match FirstWithSocket(online[1..], s)
      case None => None
      case Some(i) => Some(i + 1)
  }

  /** `onlineUsers.delete(user)` on the entry at index `k`. */
  function RemoveAt(online: seq<Binding>, k: nat): (r: seq<Binding>)
    requires k < |online|
    ensures |r| == |online| - 1
    ensures forall j :: 0 <= j < k ==> r[j] == online[j]
    ensures forall j :: k < j < |online| ==> r[j - 1] == online[j]
  {
    online[..k] + online[k + 1..]
  }

  /** What `disconnect` leaves: the map without the first entry bound to the closing socket. */
  function Disconnected(online: seq<Binding>, s: SocketId): seq<Binding>
  {
    match FirstWithSocket(online, s)
    case None => online
    case Some(k) => RemoveAt(online, k)
  }

  /** Removing an entry of another key does not change what a key finds. */
  lemma {:induction false} LookupRemove(online: seq<Binding>, k: nat, u: Id)
    requires k < |online| && online[k].user != u
    ensures Lookup(RemoveAt(online, k), u) == Lookup(online, u)
  {
    if k == 0 {
      assert RemoveAt(online, k) == online[1..];
    } else {
      RemoveAtCons(online, k);
      if online[0].user != u {
        LookupRemove(online[1..], k - 1, u);
      }
    }
  }

  /** Removing a later entry keeps the head in front of the tail's removal. */
  lemma RemoveAtCons(online: seq<Binding>, k: nat)
    requires 0 < k < |online|
    ensures RemoveAt(online, k) == [online[0]] + RemoveAt(online[1..], k - 1)
  {
    assert online[..k] == [online[0]] + online[1..][..k - 1];
    assert online[k + 1..] == online[1..][k..];
  }

  lemma RemoveKeepsUnique(online: seq<Binding>, k: nat)
    requires KeysUnique(online) && k < |online|
    ensures KeysUnique(RemoveAt(online, k))
  {
    var r := RemoveAt(online, k);
    assert forall j :: 0 <= j < |r| ==> r[j] == online[if j < k then j else j + 1];
  }

  /**
   * A late `disconnect` of a user's old socket leaves the user's newer binding in place; any
   * other user keeps their binding too, unless it is the entry of the closing socket.
   */
  lemma StaleDisconnect(online: seq<Binding>, u: Id, old_: SocketId, current: SocketId)
    requires KeysUnique(online)
    requires Lookup(online, u) == Some(current) && old_ != current
    ensures Lookup(Disconnected(online, old_), u) == Some(current)
  {
    match FirstWithSocket(online, old_)
    case None =>
    case Some(k) =>
      if online[k].user == u {
        LookupEntry(online, k);
      }
      LookupRemove(online, k, u);
  }

  /** `disconnect` removes at most one entry, and only one bound to the closing socket. */
  lemma DisconnectRemovesOne(online: seq<Binding>, s: SocketId)
    ensures |Disconnected(online, s)| >= |online| - 1
    ensures |Disconnected(online, s)| < |online| <==> exists k :: 0 <= k < |online| && online[k].socket == s
    ensures forall b :: b in online && b.socket != s ==> b in Disconnected(online, s)
  {
    match FirstWithSocket(online, s)
    case None =>
    case Some(k) =>
      forall b | b in online && b.socket != s ensures b in Disconnected(online, s) {
        var j :| 0 <= j < |online| && online[j] == b;
        var r := RemoveAt(online, k);
        if j < k {
          assert r[j] == b;
        } else {
          assert j != k;
          assert r[j - 1] == b;
        }
      }
  }

  // ---------------------------------------------------------------------------------------
  // Events

  /** `io.emit` reaches everyone; `io.to(s).emit` and `socket.emit` reach one socket. */
  datatype Target = Everyone | To(socket: SocketId)

  datatype Event =
    | UserStatus(userId: Id, online: bool)
    | ReceiveMessage(chatId: Id, message: Message)
    | MessageSent(chatId: Id, message: Message)
    | Typing(senderId: Id)
    | StopTyping(senderId: Id)
    | MessagesRead(chatId: Id, readBy: Id)
    | MessageEdited(chatId: Id, messageId: Id, text: string)
    | MessageDeleted(chatId: Id, messageId: Id)
    | SendFailed

  datatype Emission = Emission(target: Target, event: Event)

  /** `if (onlineUsers.get(u)) io.to(...).emit(e)`: one emission when `u` is online, else none. */
  function ToUser(online: seq<Binding>, u: Option<Id>, e: Event): (r: seq<Emission>)
    ensures |r| <= 1
    ensures r != [] <==> u.Some? && Lookup(online, u.value).Some? && Lookup(online, u.value).value != ""
    ensures r != [] ==> r[0] == Emission(To(Lookup(online, u.value).value), e)
  {
    if u.Some? && Lookup(online, u.value).Some? && Lookup(online, u.value).value != "" then
      [Emission(To(Lookup(online, u.value).value), e)]
    else []
  }

  class Gateway {
    var online: seq<Binding>
    const db: Database

    ghost predicate Valid()
      reads this, db
    {
      KeysUnique(online) && StoreValid(db.chats)
    }

    constructor (db: Database)
      requires StoreValid(db.chats)
      ensures Valid() && online == [] && this.db == db
    {
      online := [];
      this.db := db;
    }

    /** `user_connected`: bind the user to the calling socket and announce them to everyone. */
    method UserConnected(caller: SocketId, userId: Id) returns (out: seq<Emission>)
      requires Valid()
      modifies this`online
      ensures Valid()
      ensures online == Bind(old(online), userId, caller)
      ensures out == [Emission(Everyone, UserStatus(userId, true))]
    {
      BindOnce(online, userId, caller);
      online := Bind(online, userId, caller);
      out := [Emission(Everyone, UserStatus(userId, true))];
    }

    /**
     * `send_message`: the shared send path; when the save succeeds the recipient, if online,
     * receives the message and then the caller gets its echo; when it fails only the caller
     * hears about it.
     */
    method SendMessage(caller: SocketId, senderId: Id, recipientId: Id, text: string,
                       freshChat: Id, freshMsg: Id, now: nat) returns (out: seq<Emission>)
      requires Valid()
      requires FreshChatId(db.chats, freshChat) && FreshMessageId(db.chats, freshMsg)
      modifies db`chats
      ensures Valid()
      ensures var o := Send(old(db.chats), senderId, recipientId, text, freshChat, freshMsg, now);
              if o.Rejected? then db.chats == old(db.chats) && out == [Emission(To(caller), SendFailed)]
              else db.chats == o.chats
                   && out == ToUser(online, Some(recipientId), ReceiveMessage(o.chatId, o.message))
                             + [Emission(To(caller), MessageSent(o.chatId, o.message))]
    {
      var o := Send(db.chats, senderId, recipientId, text, freshChat, freshMsg, now);
      if o.Rejected? {
        return [Emission(To(caller), SendFailed)];
      }
      SendKeepsValid(db.chats, senderId, recipientId, text, freshChat, freshMsg, now);
      db.chats := o.chats;
      out := ToUser(online, Some(recipientId), ReceiveMessage(o.chatId, o.message));
      out := out + [Emission(To(caller), MessageSent(o.chatId, o.message))];
    }

    /** `typing`: relayed to the recipient when online, otherwise dropped; nothing is stored. */
    method Typing(senderId: Id, recipientId: Id) returns (out: seq<Emission>)
      ensures out == ToUser(online, Some(recipientId), Event.Typing(senderId))
      ensures |out| <= 1
    {
      out := ToUser(online, Some(recipientId), Event.Typing(senderId));
    }

    /** `stop_typing`: as `typing`. */
    method StopTyping(senderId: Id, recipientId: Id) returns (out: seq<Emission>)
      ensures out == ToUser(online, Some(recipientId), Event.StopTyping(senderId))
      ensures |out| <= 1
    {
      out := ToUser(online, Some(recipientId), Event.StopTyping(senderId));
    }

    /**
     * `mark_read`: every unread message addressed to `userId` in the chat becomes read; the
     * other participant, if online, is told. A malformed chat id is a swallowed cast error.
     */
    method MarkRead(chatId: Id, userId: Id, now: nat) returns (out: seq<Emission>)
      requires Valid()
      modifies db`chats
      ensures Valid()
      ensures !ValidObjectId(chatId) || FindChat(old(db.chats), chatId).None? ==>
                db.chats == old(db.chats) && out == []
      ensures ValidObjectId(chatId) && FindChat(old(db.chats), chatId).Some? ==>
                var i := FindChat(old(db.chats), chatId).value;
                var c := old(db.chats)[i];
                db.chats == old(db.chats)[i := MarkReadChat(c, RecipientIs(userId), now)]
                && out == ToUser(online, OtherThan(c.participants, userId), MessagesRead(chatId, userId))
    {
      if !ValidObjectId(chatId) {
        return [];
      }
      var found := FindChat(db.chats, chatId);
      if found.None? {
        return [];
      }
      var i := found.value;
      var chat := MarkReadChat(db.chats[i], RecipientIs(userId), now);
      MarkReadKeepsValid(db.chats[i], RecipientIs(userId), now);
      ReplaceKeepsValid(db.chats, i, chat);
      db.chats := db.chats[i := chat];
      out := ToUser(online, OtherThan(chat.participants, userId), MessagesRead(chatId, userId));
    }

    /**
     * `edit_message`: changes the store only when the chat and message exist, the stored
     * sender equals `senderId` and the new text passes validation; anything else, including a
     * missing `senderId`, is a silent no-op. On success the other participant (if online) and
     * then the caller are told.
     */
    method EditMessage(caller: SocketId, chatId: Id, messageId: Id, text: string,
                       senderId: Option<Id>, now: nat) returns (out: seq<Emission>)
      requires Valid()
      modifies db`chats
      ensures Valid()
      ensures var ok := senderId.Some? && text != ""
                        && CheckMessageAccess(old(db.chats), chatId, messageId, senderId.value)
                           == NoRefusal;
              if !ok then db.chats == old(db.chats) && out == []
              else
                var i := FindChat(old(db.chats), chatId).value;
                var c := old(db.chats)[i];
                var k := FindMessage(c.messages, messageId).value;
                db.chats == old(db.chats)[i := c.(messages := EditAt(c.messages, k, text), updatedAt := now)]
                && out == ToUser(online, OtherThan(c.participants, senderId.value), MessageEdited(chatId, messageId, text))
                          + [Emission(To(caller), MessageEdited(chatId, messageId, text))]
    {
      if senderId.None? || text == ""
         || CheckMessageAccess(db.chats, chatId, messageId, senderId.value) != NoRefusal {
        return [];
      }
      var i := FindChat(db.chats, chatId).value;
      var chat := db.chats[i];
      var k := FindMessage(chat.messages, messageId).value;
      assert ChatValid(chat) && chat.messages[k] in chat.messages;
      chat := chat.(messages := EditAt(chat.messages, k, text), updatedAt := now);
      assert forall m :: m in chat.messages ==> m == chat.messages[k] || m in db.chats[i].messages;
      ReplaceKeepsValid(db.chats, i, chat);
      db.chats := db.chats[i := chat];
      out := ToUser(online, OtherThan(chat.participants, senderId.value), MessageEdited(chatId, messageId, text));
      out := out + [Emission(To(caller), MessageEdited(chatId, messageId, text))];
    }

    /** `delete_message`: as `edit_message`, pulling the message instead of rewriting it. */
    method DeleteMessage(caller: SocketId, chatId: Id, messageId: Id, senderId: Option<Id>, now: nat)
      returns (out: seq<Emission>)
      requires Valid()
      modifies db`chats
      ensures Valid()
      ensures var ok := senderId.Some?
                        && CheckMessageAccess(old(db.chats), chatId, messageId, senderId.value)
                           == NoRefusal;
              if !ok then db.chats == old(db.chats) && out == []
              else
                var i := FindChat(old(db.chats), chatId).value;
                var c := old(db.chats)[i];
                var k := FindMessage(c.messages, messageId).value;
                db.chats == old(db.chats)[i := c.(messages := c.messages[..k] + c.messages[k + 1..], updatedAt := now)]
                && out == ToUser(online, OtherThan(c.participants, senderId.value), MessageDeleted(chatId, messageId))
                          + [Emission(To(caller), MessageDeleted(chatId, messageId))]
    {
      if senderId.None?
         || CheckMessageAccess(db.chats, chatId, messageId, senderId.value) != NoRefusal {
        return [];
      }
      var i := FindChat(db.chats, chatId).value;
      var chat := db.chats[i];
      var k := FindMessage(chat.messages, messageId).value;
      PullFromChat(db.chats, i, messageId, k, now);
      chat := chat.(messages := Pull(chat.messages, messageId), updatedAt := now);
      db.chats := db.chats[i := chat];
      out := ToUser(online, OtherThan(chat.participants, senderId.value), MessageDeleted(chatId, messageId));
      out := out + [Emission(To(caller), MessageDeleted(chatId, messageId))];
    }

    /**
     * `disconnect`: walk the entries in order and delete the first one bound to the closing
     * socket, announcing that user offline; stop there.
     */
    method Disconnect(caller: SocketId) returns (out: seq<Emission>)
      requires Valid()
      modifies this`online
      ensures Valid()
      ensures online == Disconnected(old(online), caller)
      ensures match FirstWithSocket(old(online), caller)
              case None => out == []
              case Some(k) => out == [Emission(Everyone, UserStatus(old(online)[k].user, false))]
    {
      var k := 0;
      while k < |online|
        invariant 0 <= k <= |online|
        invariant online == old(online)
        invariant forall j :: 0 <= j < k ==> online[j].socket != caller
      {
        if online[k].socket == caller {
          var userId := online[k].user;
          RemoveKeepsUnique(online, k);
          online := RemoveAt(online, k);
          return [Emission(Everyone, UserStatus(userId, false))];
        }
        k := k + 1;
      }
      return [];
    }
  }
}
