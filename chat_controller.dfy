/**
 * The HTTP chat handlers of server/Controllers/ChatController.js. Each handler is one atomic
 * step on the chat collection and answers with a status code; 500 stands for the exceptions
 * the handlers catch (a malformed id failing the ObjectId cast, a document failing validation).
 */
module ChatController {
  import opened Wrappers
  import opened Ids
  import opened Text
  import Seqs
  import opened ChatModel
  import opened ChatStore
  import UserModel
  import opened Db

  /** One entry of the chat list. `participant` is the other user when that user exists. */
  datatype ChatSummary = ChatSummary(
    chatId: Id,
    participant: Option<Id>,
    lastMessage: Option<Message>,
    unreadCount: nat,
    updatedAt: nat)

  predicate HasUser(users: seq<UserModel.User>, id: Id)
  {
    exists k :: 0 <= k < |users| && users[k].id == id
  }

  /** The entry `getUserChats` builds for one chat of `userId`. */
  function Summary(c: Chat, userId: Id, users: seq<UserModel.User>): (s: ChatSummary)
    ensures s.chatId == c.id && s.updatedAt == c.updatedAt
    ensures s.unreadCount == UnreadFor(c.messages, userId)
    ensures s.lastMessage == LastMessage(c.messages)
    ensures s.participant.Some? <==>
              OtherThan(c.participants, userId).Some? && HasUser(users, OtherThan(c.participants, userId).value)
    ensures s.participant.Some? ==> s.participant.value in c.participants && s.participant.value != userId
  {
    var other := OtherThan(c.participants, userId);
    var p := if other.Some? && HasUser(users, other.value) then other else None;
    ChatSummary(c.id, p, LastMessage(c.messages), UnreadFor(c.messages, userId), c.updatedAt)
  }

  /** `find({ participants: userId }).sort({ updatedAt: -1 })`. */
  function ChatsOf(chats: seq<Chat>, userId: Id): (r: seq<Chat>)
    ensures forall c :: c in r <==> c in chats && userId in c.participants
    ensures Seqs.SortedDesc(r, (c: Chat) => c.updatedAt)
    ensures forall c :: multiset(r)[c] == if userId in c.participants then multiset(chats)[c] else 0
  {
    var r := Seqs.SortDesc(Seqs.Filter(chats, (c: Chat) => userId in c.participants), (c: Chat) => c.updatedAt);
    Seqs.SortDescMembers(Seqs.Filter(chats, (c: Chat) => userId in c.participants), (c: Chat) => c.updatedAt);
    Seqs.FilterCount(chats, (c: Chat) => userId in c.participants);
    r
  }

  /**
   * The other participants' ids are cast to ObjectIds for the user query; `filter(Boolean)`
   * drops a missing id first.
   */
  predicate OtherIdCasts(c: Chat, userId: Id)
  {
    var other := OtherThan(c.participants, userId);
    other.None? || other.value == "" || ValidObjectId(other.value)
  }

  function SummarizeAll(cs: seq<Chat>, userId: Id, users: seq<UserModel.User>): (r: seq<ChatSummary>)
    ensures |r| == |cs|
    ensures forall k :: 0 <= k < |cs| ==> r[k] == Summary(cs[k], userId, users)
  {
    seq(|cs|, k requires 0 <= k < |cs| => Summary(cs[k], userId, users))
  }

  /**
   * The summaries of the chats of `userId`, newest first: every chat of the user has its
   * summary in the list, and every entry summarises one of them.
   */
  lemma ListedSummaries(chats: seq<Chat>, users: seq<UserModel.User>, userId: Id)
    ensures var r := SummarizeAll(ChatsOf(chats, userId), userId, users);
            Seqs.SortedDesc(r, (s: ChatSummary) => s.updatedAt)
            && (forall c :: c in chats && userId in c.participants ==> Summary(c, userId, users) in r)
            && (forall k :: 0 <= k < |r| ==>
                  exists c :: c in chats && userId in c.participants && r[k] == Summary(c, userId, users))
  {
    var cs := ChatsOf(chats, userId);
    var r := SummarizeAll(cs, userId, users);
    SummariesCover(cs, userId, users);
    forall k | 0 <= k < |r|
      ensures exists c :: c in chats && userId in c.participants && r[k] == Summary(c, userId, users)
    {
      assert cs[k] in cs;
      assert cs[k] in chats && userId in cs[k].participants && r[k] == Summary(cs[k], userId, users);
    }
    SummariesKeepOrder(cs, userId, users);
  }

  /** Every chat of the list has its summary among the summaries. */
  lemma SummariesCover(cs: seq<Chat>, userId: Id, users: seq<UserModel.User>)
    ensures forall c :: c in cs ==> Summary(c, userId, users) in SummarizeAll(cs, userId, users)
  {
    var r := SummarizeAll(cs, userId, users);
    forall c | c in cs ensures Summary(c, userId, users) in r {
      var k :| 0 <= k < |cs| && cs[k] == c;
      assert r[k] == Summary(c, userId, users);
    }
  }

  /** Summarising keeps each chat's `updatedAt`, so a sorted chat list gives a sorted summary list. */
  lemma SummariesKeepOrder(cs: seq<Chat>, userId: Id, users: seq<UserModel.User>)
    requires Seqs.SortedDesc(cs, (c: Chat) => c.updatedAt)
    ensures Seqs.SortedDesc(SummarizeAll(cs, userId, users), (s: ChatSummary) => s.updatedAt)
  {
    var r := SummarizeAll(cs, userId, users);
    forall i, j | 0 <= i < j < |r| ensures r[i].updatedAt >= r[j].updatedAt {
      assert r[i].updatedAt == cs[i].updatedAt && r[j].updatedAt == cs[j].updatedAt;
    }
  }

  /**
   * `getUserChats`: `None` is the 500 a failed cast produces. Otherwise there is one entry
   * per chat of `userId`, newest activity first, each counting the messages still unread by
   * `userId` and showing the last message of the chat.
   */
  function UserChats(chats: seq<Chat>, users: seq<UserModel.User>, userId: Id): (r: Option<seq<ChatSummary>>)
    ensures r.None? <==> exists c :: c in chats && userId in c.participants && !OtherIdCasts(c, userId)
    ensures r.Some? ==> Seqs.SortedDesc(r.value, (s: ChatSummary) => s.updatedAt)
    ensures r.Some? ==> |r.value| == |Seqs.Filter(chats, (c: Chat) => userId in c.participants)|
    ensures r.Some? ==> forall c :: c in chats && userId in c.participants ==> Summary(c, userId, users) in r.value
    ensures r.Some? ==> forall k :: 0 <= k < |r.value| ==>
              exists c :: c in chats && userId in c.participants && r.value[k] == Summary(c, userId, users)
  {
    var listed := ChatsOf(chats, userId);
    if exists c :: c in listed && !OtherIdCasts(c, userId) then None
    else
      var r := SummarizeAll(listed, userId, users);
      ListedSummaries(chats, users, userId);
      Some(r)
  }

  /**
   * `getChatHistory`: without a chat for the pair the answer is `{ chatId: null, messages: [] }`
   * and nothing changes; otherwise every unread message sent by `recipientId` is marked read
   * and the updated message list is returned.
   */
  method GetChatHistory(db: Database, userId: Id, recipientId: Id, now: nat)
    returns (status: nat, chatId: Option<Id>, messages: seq<Message>)
    requires StoreValid(db.chats)
    modifies db`chats
    ensures StoreValid(db.chats)
    ensures status == 200
    ensures FindByPair(old(db.chats), userId, recipientId).None? ==>
              chatId.None? && messages == [] && db.chats == old(db.chats)
    ensures FindByPair(old(db.chats), userId, recipientId).Some? ==>
              var i := FindByPair(old(db.chats), userId, recipientId).value;
              chatId == Some(old(db.chats)[i].id)
              && db.chats == old(db.chats)[i := MarkReadChat(old(db.chats)[i], SenderIs(recipientId), now)]
              && messages == MarkRead(old(db.chats)[i].messages, SenderIs(recipientId))
  {
    var found := FindByPair(db.chats, userId, recipientId);
    if found.None? {
      return 200, None, [];
    }
    var i := found.value;
    var chat := MarkReadChat(db.chats[i], SenderIs(recipientId), now);
    MarkReadKeepsValid(db.chats[i], SenderIs(recipientId), now);
    ReplaceKeepsValid(db.chats, i, chat);
    db.chats := db.chats[i := chat];
    return 200, Some(chat.id), chat.messages;
  }

  /**
   * `sendMessage`: blank text is refused with 400 before anything is read; an empty id fails
   * validation on save (500); otherwise the shared send path runs and its message is returned.
   */
  method SendMessage(db: Database, senderId: Id, recipientId: Id, text: string,
                     freshChat: Id, freshMsg: Id, now: nat)
    returns (status: nat, message: Option<Message>)
    requires StoreValid(db.chats)
    requires FreshChatId(db.chats, freshChat) && FreshMessageId(db.chats, freshMsg)
    modifies db`chats
    ensures StoreValid(db.chats)
    ensures status == 400 <==> Blank(text)
    ensures status == 500 <==> !Blank(text) && (senderId == "" || recipientId == "")
    ensures status == 200 || status == 400 || status == 500
    ensures status != 200 ==> db.chats == old(db.chats) && message.None?
    ensures status == 200 ==>
              var out := Send(old(db.chats), senderId, recipientId, text, freshChat, freshMsg, now);
              db.chats == out.chats && message == Some(out.message)
  {
    if Trim(text) == "" {
      TrimEmptyIffBlank(text);
      return 400, None;
    }
    TrimEmptyIffBlank(text);
    assert text != "";
    var out := Send(db.chats, senderId, recipientId, text, freshChat, freshMsg, now);
    if out.Rejected? {
      return 500, None;
    }
    SendKeepsValid(db.chats, senderId, recipientId, text, freshChat, freshMsg, now);
    db.chats := out.chats;
    return 200, Some(out.message);
  }

  /**
   * `markMessagesAsRead`: a malformed chat id fails the cast (500); otherwise every unread
   * message addressed to `userId` in that chat becomes read, and `modifiedCount` says whether
   * the chat document matched the update.
   */
  method MarkMessagesAsRead(db: Database, chatId: Id, userId: Id, now: nat)
    returns (status: nat, modifiedCount: nat)
    requires StoreValid(db.chats)
    modifies db`chats
    ensures StoreValid(db.chats)
    ensures status == 500 <==> !ValidObjectId(chatId)
    ensures status != 500 ==> status == 200
    ensures status == 500 || FindChat(old(db.chats), chatId).None? ==> db.chats == old(db.chats) && modifiedCount == 0
    ensures status == 200 && FindChat(old(db.chats), chatId).Some? ==>
              var i := FindChat(old(db.chats), chatId).value;
              db.chats == old(db.chats)[i := MarkReadChat(old(db.chats)[i], RecipientIs(userId), now)]
              && (modifiedCount == 1 <==> UpdateMatches(old(db.chats)[i].messages, RecipientIs(userId)))
              && modifiedCount <= 1
  {
    if !ValidObjectId(chatId) {
      return 500, 0;
    }
    var found := FindChat(db.chats, chatId);
    if found.None? {
      return 200, 0;
    }
    var i := found.value;
    var matched := UpdateMatches(db.chats[i].messages, RecipientIs(userId));
    var chat := MarkReadChat(db.chats[i], RecipientIs(userId), now);
    MarkReadKeepsValid(db.chats[i], RecipientIs(userId), now);
    ReplaceKeepsValid(db.chats, i, chat);
    db.chats := db.chats[i := chat];
    modifiedCount := if matched then 1 else 0;
    status := 200;
  }

  /** `deleteChat`: 500 for a malformed id, 404 when missing, 403 for a non-participant. */
  method DeleteChat(db: Database, chatId: Id, userId: Id) returns (status: nat)
    requires StoreValid(db.chats)
    modifies db`chats
    ensures StoreValid(db.chats)
    ensures status == 500 <==> !ValidObjectId(chatId)
    ensures status == 404 <==> ValidObjectId(chatId) && FindChat(old(db.chats), chatId).None?
    ensures status == 403 <==> ValidObjectId(chatId) && FindChat(old(db.chats), chatId).Some?
                               && userId !in old(db.chats)[FindChat(old(db.chats), chatId).value].participants
    ensures status != 200 ==> db.chats == old(db.chats)
    ensures status == 200 ==> db.chats == RemoveChatAt(old(db.chats), FindChat(old(db.chats), chatId).value)
    ensures status in {200, 403, 404, 500}
  {
    if !ValidObjectId(chatId) {
      return 500;
    }
    var found := FindChat(db.chats, chatId);
    if found.None? {
      return 404;
    }
    if userId !in db.chats[found.value].participants {
      return 403;
    }
    RemoveKeepsValid(db.chats, found.value);
    db.chats := RemoveChatAt(db.chats, found.value);
    return 200;
  }

  function RefusalStatus(r: Refusal): nat
  {
    match r
    case BadChatId => 500
    case NoChat => 404
    case NoMessage => 404
    case NotSender => 403
    case NoRefusal => 200
  }

  /**
   * `editMessage`: the access checks, then 400 for blank text; only then the text of that one
   * message is replaced and the chat saved.
   */
  method EditMessage(db: Database, chatId: Id, messageId: Id, userId: Id, text: string, now: nat)
    returns (status: nat, edited: Option<Message>)
    requires StoreValid(db.chats)
    modifies db`chats
    ensures StoreValid(db.chats)
    ensures var refusal := CheckMessageAccess(old(db.chats), chatId, messageId, userId);
            if refusal != NoRefusal then status == RefusalStatus(refusal)
            else if Blank(text) then status == 400
            else status == 200
    ensures status != 200 ==> db.chats == old(db.chats) && edited.None?
    ensures status == 200 ==>
              var i := FindChat(old(db.chats), chatId).value;
              var c := old(db.chats)[i];
              var k := FindMessage(c.messages, messageId).value;
              db.chats == old(db.chats)[i := c.(messages := EditAt(c.messages, k, text), updatedAt := now)]
              && edited == Some(c.messages[k].(text := text))
  {
    var refusal := CheckMessageAccess(db.chats, chatId, messageId, userId);
    if refusal != NoRefusal {
      return RefusalStatus(refusal), None;
    }
    TrimEmptyIffBlank(text);
    if Trim(text) == "" {
      return 400, None;
    }
    var i := FindChat(db.chats, chatId).value;
    var chat := db.chats[i];
    var k := FindMessage(chat.messages, messageId).value;
    assert ChatValid(chat) && chat.messages[k] in chat.messages && text != "";
    chat := chat.(messages := EditAt(chat.messages, k, text), updatedAt := now);
    assert forall m :: m in chat.messages ==> m == chat.messages[k] || m in db.chats[i].messages;
    ReplaceKeepsValid(db.chats, i, chat);
    db.chats := db.chats[i := chat];
    return 200, Some(chat.messages[k]);
  }

  /** `deleteMessage`: the access checks, then the message is pulled from its chat. */
  method DeleteMessage(db: Database, chatId: Id, messageId: Id, userId: Id, now: nat)
    returns (status: nat)
    requires StoreValid(db.chats)
    modifies db`chats
    ensures StoreValid(db.chats)
    ensures status == RefusalStatus(CheckMessageAccess(old(db.chats), chatId, messageId, userId))
    ensures status != 200 ==> db.chats == old(db.chats)
    ensures status == 200 ==>
              var i := FindChat(old(db.chats), chatId).value;
              var c := old(db.chats)[i];
              var k := FindMessage(c.messages, messageId).value;
              db.chats == old(db.chats)[i := c.(messages := c.messages[..k] + c.messages[k + 1..], updatedAt := now)]
  {
    var refusal := CheckMessageAccess(db.chats, chatId, messageId, userId);
    if refusal != NoRefusal {
      return RefusalStatus(refusal);
    }
    var i := FindChat(db.chats, chatId).value;
    var chat := db.chats[i];
    var k := FindMessage(chat.messages, messageId).value;
    PullFromChat(db.chats, i, messageId, k, now);
    chat := chat.(messages := Pull(chat.messages, messageId), updatedAt := now);
    db.chats := db.chats[i := chat];
    return 200;
  }
}
