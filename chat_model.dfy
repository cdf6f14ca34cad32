/**
 * The record shapes of server/Models/chatModel.js: a conversation document owns its participants
 * and an embedded, ordered array of messages.
 */
module ChatModel {
  import opened Ids

  /** One element of a conversation's `messages` array; `createdAt` is its schema timestamp. */
  datatype Message = Message(id: Id, sender: Id, recipient: Id, text: string, read: bool, createdAt: nat)

  /** A conversation document; `updatedAt` is the timestamp the chat list is sorted on. */
  datatype Chat = Chat(id: Id, participants: seq<Id>, messages: seq<Message>, updatedAt: nat)

  /** Mongoose's `required` validator on a String path rejects the empty string. */
  predicate Present(s: string)
  {
    s != ""
  }

  /** `sender`, `recipient` and `text` are required strings. */
  predicate MessageValid(m: Message)
  {
    Present(m.sender) && Present(m.recipient) && Present(m.text)
  }

  /** What `chat.save()` validates: every participant id and every embedded message. */
  predicate ChatValid(c: Chat)
  {
    (forall p :: p in c.participants ==> Present(p))
    && (forall m :: m in c.messages ==> MessageValid(m))
  }

  /** The message both send paths build; `read` is the schema default, false. */
  function NewMessage(id: Id, sender: Id, recipient: Id, text: string, now: nat): Message
  {
    Message(id, sender, recipient, text, false, now)
  }

  /** `new ChatModel({ participants: [a, b], messages: [] })`. */
  function NewChat(id: Id, a: Id, b: Id, now: nat): Chat
  {
    Chat(id, [a, b], [], now)
  }
}
