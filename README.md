# RUETSocial core, modelled in Dafny

RUETSocial is a student social network. Its server is Node/Express over MongoDB with a
Socket.IO chat gateway; its client is React. This project models the parts of it that hold
the rules:

- the chat store and the socket gateway: the presence map, sending, typing relays,
  read receipts, sender-only edit and delete, and disconnect;
- the REST chat controller, including the per-user chat list with unread counts;
- accounts: the RUET address and roll rules, pre-registration with an e-mailed code that
  lasts thirty minutes, verification, resending, the older direct registration, and login;
- the social graph: every handler that writes accounts keeps `followers` and `following`
  mirrored, and only oneself or an admin claim may update or delete an account;
- posts: the like toggle, comments, hashtag extraction, owner-only updates and deletes,
  bookmarks as a toggle under a unique index, and the bookmark listing;
- notification records and their read flags;
- the client reducers and guards: the registration form, the six-slot code input, the
  post composer, and the socket handlers of the open conversation and the conversation list.

MongoDB is one `Db.Database` object. Its fields are the collections: users, chats, saved
posts and notifications are sequences in storage order, while posts and comments are maps
keyed by id. Each HTTP or socket handler is one method that changes the fields named in its
`modifies` clause and returns the status code it answers with. The socket gateway is a
class (`Socket.Gateway`) holding the presence map and returning the events it emits.
Generated ids, verification codes, the clock and the outcome of sending an e-mail are
parameters. Password hashing is an injective stand-in (`UserModel.Hash`). The client
handlers are pure functions from the previous state and the event to the next state.

Where the code and its documentation disagree, the model follows the code:

- The socket `send_message` has no trimmed-text check. Only schema validation stops it, so
  `""` is refused and `"   "` is stored. The REST path refuses both with 400.
- An unauthorised socket edit or delete is a silent no-op, where REST answers 403. The
  client sends no `senderId` on these socket events, so for this client the socket guard
  never passes. `Socket.Gateway.EditMessage` and `DeleteMessage` take `senderId` as an
  `Option` to state this.
- `updatePost` does not recompute `tags` from a new description. Its `$set` of the request
  body stores a `null` image as sent, so the edit form clears the image this way.
- `deletePost` leaves the post's comments and bookmarks stored. The bookmark listing drops
  bookmarks whose post is gone.
- `registerUser` and `preRegisterUser` test the roll prefix before `!roll`, so an empty
  roll is reported as a mismatch (`AuthController.EmptyRollIsMismatch`). Because the address
  lookup comes first, the roll lookup never refuses anything on its own
  (`AuthController.PreRegisterRollCheckRedundant`, `AuthController.RegisterRollCheckRedundant`).

## Model

| member | source | states |
|---|---|---|
| Text.TrimStart | server/Controllers/ChatController.js:46 | Trimming the front leaves nothing exactly when the text is all whitespace, and otherwise starts at a non-space |
| Text.TrimEnd | server/Controllers/ChatController.js:98 | Trimming the back leaves nothing exactly when the text is all whitespace |
| Text.TrimEmptyIffBlank | server/Controllers/PostController.js:85 | `text.trim() === ""` holds exactly when every character is whitespace |
| Text.Lower | server/Controllers/PostController.js:131 | ASCII lowering, which is what `toLowerCase` does on the `#\w+` matches it is applied to: the length is kept and each character is lowered in place |
| Text.BeforeAt | server/Models/userModel.js:72-75 | `split("@")[0]` is the longest prefix without `@`, followed by `@` when shorter than the text |
| Text.BeforeAtDigits | server/Controllers/AuthController.js:20 | The part before `@` of digits followed by `@…` is those digits |
| Seqs.RemoveAll | server/Controllers/PostController.js:64 | `$pull` removes every copy of the value and nothing else, and is the identity when the value is absent |
| Seqs.RemoveAllAppended | server/Controllers/UserController.js:172-174 | Pulling a value just pushed gives the list without it, as before the push |
| Seqs.RemoveAllNoDup | server/Controllers/UserController.js:172-174 | Pulling keeps a duplicate-free list duplicate-free |
| Seqs.Filter | client/src/components/ChatList.jsx:32 | `filter` keeps exactly the members satisfying the predicate, never growing the list |
| Seqs.FilterCount | server/Controllers/ChatController.js:7 | A query's filter keeps every copy of a matching document and no copy of another |
| Seqs.FilterAll | client/src/components/ChatList.jsx:32 | A filter every element passes returns the list unchanged |
| Seqs.Dedupe | client/src/components/CreatePost.jsx:17 | `[...new Set(xs)]` has no duplicates and the same members as `xs` |
| Seqs.DedupeInto | client/src/components/CreatePost.jsx:17 | Set insertion keeps the first-seen prefix, has no duplicates and holds the members of both inputs |
| Seqs.DedupeNoDup | client/src/components/CreatePost.jsx:17 | On a duplicate-free list the set round trip changes nothing |
| Seqs.InsertDesc | server/Controllers/ChatController.js:7 | Inserting into a list sorted newest first keeps it sorted and adds exactly that element |
| Seqs.SortDesc | client/src/components/ChatList.jsx:69 | Sorting by a key descending yields a sorted permutation of the input |
| Seqs.SortDescMembers | server/Controllers/NotificationController.js:37 | Sorting keeps exactly the same members |
| Seqs.FilterKeepsSorted | client/src/components/ChatList.jsx:32 | Filtering a list sorted by a key keeps it sorted |
| Hashtags.WordRun | server/Controllers/PostController.js:126 | `\w+` after `#` takes the longest run of word characters |
| Hashtags.Matches | server/Controllers/PostController.js:126 | Every `#\w+` match is a hashtag; a text without `#` has none |
| Hashtags.LowerAll | server/Controllers/PostController.js:131 | `tags.map(t => t.toLowerCase())` lowers each tag in place |
| Hashtags.LowerKeepsWordChars | server/Controllers/PostController.js:126-131 | ASCII lowering of a character neither creates nor destroys a `\w` character or `#`, so a lowered `#\w+` match is still one |
| Hashtags.ServerTags | server/Controllers/PostController.js:125-131 | The stored tags are lowercase hashtags, none without a description, duplicates kept |
| Hashtags.ClientTags | client/src/components/CreatePost.jsx:14-18 | The client's list has no duplicates and the same members as the server's tags for the same text |
| Hashtags.LowerHashtag | client/src/components/CreatePost.jsx:17 | A lowered hashtag is still a hashtag and lowering again changes nothing |
| UserModel.EmailIsRollAtDomain | server/Models/userModel.js:5-12 | An address matching the RUET pattern is its digit prefix followed by the student domain |
| UserModel.RollFollowsEmail | server/Models/userModel.js:72-75 | A roll equal to a valid address's prefix is all digits and rebuilds the address |
| UserModel.SameRollSameEmail | server/Models/userModel.js:14-21 | Two valid users with the same roll have the same address |
| UserModel.NewUser | server/Models/userModel.js:38-53 | A new document is not an admin, follows nobody and has no followers |
| UserModel.PublicHidesOnlyPassword | server/Controllers/UserController.js:11 | `select('-password')` views agree exactly when the documents differ at most in the password |
| Users.FindUser | server/Controllers/UserController.js:11 | `findById` finds the position holding the id, or proves no user has it |
| Users.FindByEmail | server/Controllers/AuthController.js:35 | `findOne({ email })` finds a holder of the address, or proves none exists |
| Users.FindByRoll | server/Controllers/AuthController.js:43 | `findOne({ roll, isVerified: true })` finds a (verified) holder of the roll, or proves none exists |
| Users.ReplaceKeepsAccounts | server/Controllers/AuthController.js:59-68 | Saving a valid document over one with the same id and address keeps ids and addresses unique |
| Users.ReplaceKeepsMirror | server/Controllers/AuthController.js:68 | Saving an account in place with its id and follow lists keeps followers and following mirrored |
| Users.AppendKeepsMirror | server/Controllers/AuthController.js:83-92 | Creating an account with a never-used id and empty follow lists keeps followers and following mirrored |
| Users.AppendKeepsAccounts | server/Controllers/AuthController.js:83-92 | Creating a valid account with a never-used id and an address no account holds keeps ids and addresses unique |
| Users.RollLookupIsEmailLookup | server/Controllers/AuthController.js:216-229 | Among valid users the holder of the roll also holds the matching address |
| AuthController.CheckForm | server/Controllers/AuthController.js:11-32 | The three opening guards pass exactly for a RUET address whose prefix is the roll with a department; "missing field" only ever means a missing department |
| AuthController.EmptyRollIsMismatch | server/Controllers/AuthController.js:19-32 | An empty roll with a valid address fails as a mismatch before the required check |
| AuthController.Issued | server/Controllers/AuthController.js:50-52 | A newly issued code expires thirty minutes after issue and nothing else changes |
| AuthController.IssuedCodeWindow | server/Controllers/AuthController.js:124-132 | An issued code verifies exactly until thirty minutes have passed |
| AuthController.OnlyIssuedCodeVerifies | server/Controllers/AuthController.js:129-132 | Any code other than the issued one is refused with 400 |
| AuthController.PreRegister | server/Controllers/AuthController.js:7-112 | 400 with no change for a failed guard, a verified owner of the address or the roll, or a document failing validation; else an unverified owner is refreshed in place or a new unverified user appended, then 200 or 500 by the e-mail outcome; verified accounts never change; followers and following stay mirrored |
| AuthController.PreRegisterKeepsInvariants | server/Controllers/AuthController.js:60-92 | Saving the refreshed or new account keeps ids and addresses unique and follow lists mirrored |
| AuthController.VerifyEmail | server/Controllers/AuthController.js:115-151 | 500 for an id that does not cast, 404 when missing; expiry is checked before the code; success sets verified and clears code and expiry; followers and following stay mirrored |
| AuthController.ResendVerificationCode | server/Controllers/AuthController.js:154-185 | 404 when missing, 400 once verified, otherwise a new code with a new expiry, and 200 or 500 by the e-mail outcome; followers and following stay mirrored |
| AuthController.Registered | server/Controllers/AuthController.js:235-240 | `registerUser` saves an unverified user with a hashed password and no code |
| AuthController.Register | server/Controllers/AuthController.js:188-257 | Any existing holder of the address or roll, verified or not, is refused with 400 and no change; otherwise exactly one user is appended; followers and following stay mirrored |
| AuthController.PreRegisterRollCheckRedundant | server/Controllers/AuthController.js:34-48 | A verified holder of the roll already owns the address, so the roll lookup adds no refusal |
| AuthController.RegisterRollCheckRedundant | server/Controllers/AuthController.js:215-229 | An account holding the roll already holds the address |
| AuthController.Login | server/Controllers/AuthController.js:260-301 | 404 for an unknown address; an unverified account gets a new code and 403 with `requiresVerification` before the password is checked; then 400 or 200 by the password; followers and following stay mirrored |
| UserController.GetUser | server/Controllers/UserController.js:7-23 | 500, 404 or 200 by cast and lookup; a found user is returned without the password |
| UserController.AllUsers | server/Controllers/UserController.js:188-195 | Every stored user, in order, without the password |
| UserController.AllUsersIgnorePasswords | server/Controllers/UserController.js:190 | Collections that differ only in passwords read back identically |
| UserController.ApplyKeepsUser | server/Controllers/UserController.js:41-45 | An accepted update keeps the document valid, keeps id, address, roll, flags and follow lists, and stores a given password only as its hash |
| UserController.UpdateUser | server/Controllers/UserController.js:28-63 | 401 with no change unless self or admin claim; 500 for a cast or validation failure; 404 when missing; otherwise the update is applied; followers and following stay mirrored |
| UserController.RemoveKeepsAccounts | server/Controllers/UserController.js:73 | Deleting an account keeps ids and addresses unique |
| UserController.RemoveDropsOnlyId | server/Controllers/UserController.js:73 | Deleting removes exactly the users with that id |
| Users.RemoveKeepsMirror | server/Controllers/UserController.js:73 | Deleting an account keeps the remaining accounts' follow lists mirrored |
| UserController.DeleteUser | server/Controllers/UserController.js:66-83 | 401 with no change unless self or admin claim; 500 for an id that does not cast; otherwise 200 and exactly that id is gone; followers and following stay mirrored |
| UserController.AccountsIdsDistinct | server/Controllers/UserController.js:122-123 | Valid accounts have pairwise distinct ids |
| UserController.ListsKeepAccounts | server/Controllers/UserController.js:131-132 | Rewriting the follow lists of two accounts keeps the account invariant |
| UserController.FollowKeepsMirror | server/Controllers/UserController.js:130-132 | The two pushes of a follow keep `followers` and `following` mirrored |
| UserController.UnfollowKeepsMirror | server/Controllers/UserController.js:171-174 | The two pulls of an unfollow keep the lists mirrored |
| UserController.UnfollowUndoesFollow | server/Controllers/UserController.js:130-174 | Unfollowing right after a follow restores both lists exactly |
| UserController.FollowUser | server/Controllers/UserController.js:113-151 | 403 on oneself before any lookup, 500 for an id that does not cast, 404 for a missing user, 400 with no change when already following; otherwise both lists grow together and a `follow` notification without a post is stored |
| UserController.UnfollowUser | server/Controllers/UserController.js:155-184 | The same refusals, 400 with no change when not following; otherwise both entries are pulled together |
| NotificationModel.Build | server/Models/notificationModel.js:12-19 | A new notification is unread and carries a post exactly when a post id is given |
| NotificationModel.BuildValid | server/Models/notificationModel.js:5-18 | With recipient and sender present, a built notification passes the schema exactly when a like or comment carries a post |
| NotificationController.FindNotification | server/Controllers/NotificationController.js:55 | `findById` finds the position holding the id, or proves none has it |
| NotificationController.CreateNotification | server/Controllers/NotificationController.js:5-29 | A notification passing validation is appended; one failing it leaves the store as it was |
| NotificationController.NotificationsFor | server/Controllers/NotificationController.js:32-44 | Exactly the recipient's notifications, newest first |
| NotificationController.MarkAsRead | server/Controllers/NotificationController.js:47-66 | 400 for a malformed id, 404 when missing; otherwise only that notification becomes read |
| NotificationController.MarkAllRead | server/Controllers/NotificationController.js:73 | Every notification of the recipient is read afterwards; everyone else's are untouched |
| NotificationController.MarkAllReadDone | server/Controllers/NotificationController.js:69-80 | After marking all read the recipient has no unread notification, and repeating it changes nothing |
| NotificationController.MarkAllAsRead | server/Controllers/NotificationController.js:69-80 | Answers 200 and stores the marked-all-read collection |
| NotificationController.RemoveKeepsValid | server/Controllers/NotificationController.js:91 | Deleting one notification keeps ids unique and drops exactly the one with its id |
| NotificationController.DeleteNotification | server/Controllers/NotificationController.js:83-102 | 400 for a malformed id, 404 when missing; otherwise exactly that notification is removed |
| PostController.ToggleLike | server/Controllers/PostController.js:48-66 | The liker is in the result exactly when not in the input; everyone else is unchanged |
| PostController.ToggleLikeTwice | server/Controllers/PostController.js:48-66 | Liking then unliking restores the list |
| PostController.LikePost | server/Controllers/PostController.js:38-71 | 500 for an id that does not cast, 404 when missing; otherwise the toggle, and a new like by someone other than the owner stores a `like` notification |
| PostController.AddComment | server/Controllers/PostController.js:73-122 | 400 before any lookup for a bad post id, missing user id or blank content; 404 when the post is missing; 500 for content over 500 characters; otherwise the comment is stored, its id appended to the post, and the owner notified unless commenting on their own post |
| PostController.CreatePost | server/Controllers/PostController.js:124-139 | A post without an owner fails with 500 and no change; otherwise it is stored with the lowercased hashtags of its description, no likes and no comments |
| PostController.CreatedTags | server/Controllers/PostController.js:126-131 | Every stored tag starts with `#` and is lowercase; a description without `#` gives none |
| PostController.UpdatePost | server/Controllers/PostController.js:214-229 | 500 for a missing post, 403 with no change unless the owner; otherwise each of description and image present in the body is stored as sent, `null` included, an absent one is kept, and tags, likes and comments are kept |
| PostController.PatchIdempotent | server/Controllers/PostController.js:221 | Sending the same update twice stores what sending it once does; setting a field to its stored value changes nothing; `null` clears it |
| PostController.DeletePost | server/Controllers/PostController.js:231-246 | 500 for a missing post, 403 with no change unless the owner; otherwise exactly that post is removed |
| PostController.FindSaved | server/Controllers/PostController.js:326 | `findOne({ userId, postId })` finds the bookmark of that pair, or proves none exists |
| PostController.RemoveSavedKeepsValid | server/Models/savedPostModel.js:18 | Deleting one bookmark keeps the pair index unique, unbookmarks that pair and no other |
| PostController.SavePost | server/Controllers/PostController.js:308-346 | 400 for ids that do not cast, 404 when missing; then the pair's bookmark is toggled and every other pair keeps its state |
| PostController.LiveSaves | server/Controllers/PostController.js:358-368 | The user's bookmarks whose post still exists, newest save first, each listed exactly as often as it is stored |
| PostController.GetSavedPosts | server/Controllers/PostController.js:349-375 | 400 for a user id that does not cast; otherwise the bookmarked posts in bookmark order, deleted posts dropped |
| PostController.SavedPostsOrdered | server/Controllers/PostController.js:358-368 | In the listing an earlier post was saved no earlier than a later one, and only by that user |
| PostController.EditComment | server/Controllers/PostController.js:467-493 | 400, 404, then 403 unless the author; content the schema refuses gives 500; otherwise only the content changes |
| PostController.RemoveCommentKeepsValid | server/Controllers/PostController.js:518-519 | Deleting a comment and pulling its id from its post keeps the invariant, and then no post lists it |
| PostController.DeleteComment | server/Controllers/PostController.js:495-526 | 400, 404 for the comment, 404 for its post, 403 unless author or post owner; otherwise the comment is gone and no post lists it |
| ChatStore.FindByPair | server/socket.js:49 | `findOne({ participants: { $all: [a, b] } })` finds the first chat holding both users, or proves none does |
| ChatStore.FindChat | server/Controllers/ChatController.js:78 | `findById` finds the chat with that id, or proves none has it |
| ChatStore.FindMessage | server/Controllers/ChatController.js:95 | `chat.messages.id(mid)` finds the message with that id, or proves none has it |
| ChatStore.OtherThan | server/socket.js:85 | `participants.find(p => p !== u)` returns a participant other than `u`, and none exactly when all are `u` |
| ChatStore.PairSymmetric | server/socket.js:49 | The lookup by pair finds the same chat for (A, B) and (B, A) |
| ChatStore.FindByPairParticipants | server/socket.js:49 | Changes that keep every chat's participants keep the pair lookup |
| ChatStore.ReplaceKeepsValid | server/socket.js:100-102 | Saving a valid chat over one with the same id and participants keeps the store valid |
| ChatStore.RemoveKeepsValid | server/Controllers/ChatController.js:81 | Deleting a chat keeps the store valid |
| ChatStore.Send | server/socket.js:46-54 | A send is saved exactly when sender, recipient and text are present; the saved message is unread, and a chat is created only when none exists for the pair |
| ChatStore.SendAppends | server/socket.js:51-54 | A send appends exactly one message at the end of the pair's chat, every earlier message and every other chat unchanged |
| ChatStore.SendReplyOrder | server/Controllers/ChatController.js:47-52 | A reply lands in the same chat, after the message it answers |
| ChatStore.SendKeepsValid | server/socket.js:49-53 | A send keeps ids unique and one chat per pair |
| ChatStore.MarkRead | server/socket.js:78-82 | Exactly the matching unread messages become read; no flag goes back and nothing else changes |
| ChatStore.MarkReadUnmatched | server/socket.js:78-82 | With no matching unread message, the update changes nothing |
| ChatStore.MarkReadIdempotent | server/Controllers/ChatController.js:63-67 | Marking read twice is marking read once |
| ChatStore.UnreadFor | server/Controllers/ChatController.js:15 | The unread count never exceeds the number of messages |
| ChatStore.MarkReadClearsUnread | server/Controllers/ChatController.js:63-67 | After marking read for a user that user counts nothing unread |
| ChatStore.MarkReadKeepsOthersUnread | server/Controllers/ChatController.js:63-67 | Marking read for one user leaves every other user's unread count alone |
| ChatStore.MarkReadChat | server/Controllers/ChatController.js:30-35 | The chat keeps its id and participants, its messages are marked, and a no-op update leaves it untouched |
| ChatStore.MarkReadKeepsValid | server/socket.js:78-82 | Marking read keeps a chat valid |
| ChatStore.EditAt | server/socket.js:101 | Rewriting one message's text changes that message only |
| ChatStore.Pull | server/socket.js:120 | `messages.pull(mid)` keeps exactly the messages with another id |
| ChatStore.PullFound | server/socket.js:120 | With unique ids, pulling a found message removes exactly that position |
| ChatStore.PullAbsent | server/socket.js:120 | Pulling an absent id changes nothing |
| ChatStore.PullFromChat | server/Controllers/ChatController.js:117-118 | Pulling a stored message from a chat and saving it removes exactly that position and keeps every chat valid, ids and pairs unique |
| ChatStore.PullAt | server/socket.js:120 | With unique ids, pulling the id stored at a position removes that position and nothing else |
| ChatStore.PullKeepsUnique | server/socket.js:120 | Pulling keeps message ids unique |
| ChatStore.CheckMessageAccess | server/Controllers/ChatController.js:93-97 | The refusals in the handlers' order, each exactly in its case: an id that does not cast, no chat, no message, a caller who is not the stored sender; no refusal exactly for the stored sender of an existing message |
| ChatStore.LastMessage | server/Controllers/ChatController.js:14 | The last message, or null exactly for an empty chat |
| ChatStore.RemoveChatAt | server/Controllers/ChatController.js:81 | Deleting a chat removes one entry and keeps every other chat |
| ChatController.Summary | server/Controllers/ChatController.js:11-17 | A list entry has the chat's id and `updatedAt`, its last message, the user's unread count, and another participant when one is stored |
| ChatController.ChatsOf | server/Controllers/ChatController.js:7 | Exactly the user's chats, each as often as it is stored, most recently updated first |
| ChatController.SummarizeAll | server/Controllers/ChatController.js:11-17 | One entry per chat, in order |
| ChatController.SummariesCover | server/Controllers/ChatController.js:11-17 | Every listed chat has its summary among the entries |
| ChatController.SummariesKeepOrder | server/Controllers/ChatController.js:7-17 | A chat list sorted by last activity gives entries sorted by last activity |
| ChatController.UserChats | server/Controllers/ChatController.js:4-23 | Fails only when another participant's id does not cast; otherwise one entry per chat of the user (as many entries as the user has chats), most recent first |
| ChatController.ListedSummaries | server/Controllers/ChatController.js:4-23 | The summaries of the user's chats are ordered by last activity, cover every chat of the user and summarise nothing else |
| ChatController.GetChatHistory | server/Controllers/ChatController.js:25-41 | No chat for the pair answers no chat id and no messages with no change; otherwise the messages sent by the other user are marked read and the updated list returned |
| ChatController.SendMessage | server/Controllers/ChatController.js:43-58 | 400 with no change exactly for blank text; otherwise the shared send appends one unread message and returns it |
| ChatController.MarkMessagesAsRead | server/Controllers/ChatController.js:60-73 | 500 for an id that does not cast; otherwise the unread messages addressed to the user become read and the modified count is reported |
| ChatController.DeleteChat | server/Controllers/ChatController.js:75-87 | 404 when missing, 403 for a non-participant, both with no change; otherwise the whole chat is removed |
| ChatController.EditMessage | server/Controllers/ChatController.js:89-106 | Checks chat (404), message (404), sender (403), then blank text (400); only then is that one message's text replaced |
| ChatController.DeleteMessage | server/Controllers/ChatController.js:108-124 | The same three checks; then exactly that message is removed |
| Socket.Lookup | server/socket.js:55 | `onlineUsers.get(u)` returns a socket bound to `u`, and none exactly when `u` has no entry |
| Socket.LookupEntry | server/socket.js:42 | With one entry per user, looking a user up returns that entry's socket |
| Socket.Bind | server/socket.js:42 | `onlineUsers.set(u, s)` makes `u` map to `s` and leaves every other user's lookup alone |
| Socket.BindOnce | server/socket.js:40-44 | After a connect the user has exactly one entry and nobody else's entries change |
| Socket.ReconnectKeepsNewest | server/socket.js:40-44 | Connecting twice leaves the user bound to the newer socket only |
| Socket.FirstWithSocket | server/socket.js:136-137 | The walk over entries stops at the first entry bound to the closing socket, or finds none |
| Socket.RemoveAt | server/socket.js:138 | Deleting the entry at `k` shortens the map by one; entries before it keep their place and those after move up by one |
| Socket.LookupRemove | server/socket.js:138 | Deleting another user's entry leaves a user's lookup alone |
| Socket.RemoveKeepsUnique | server/socket.js:138 | Deleting an entry keeps one entry per user |
| Socket.StaleDisconnect | server/socket.js:134-142 | A late disconnect of an old socket leaves the user bound to the newer one |
| Socket.DisconnectRemovesOne | server/socket.js:134-142 | A disconnect removes at most one entry, exactly when one is bound to that socket, and keeps every entry bound elsewhere |
| Socket.ToUser | server/socket.js:55-58 | An event goes to a user only when they are online, to their socket, at most once |
| Socket.Gateway.constructor | server/socket.js:4 | The gateway starts with nobody online |
| Socket.Gateway.UserConnected | server/socket.js:40-44 | Binds the user to the calling socket and broadcasts them online |
| Socket.Gateway.SendMessage | server/socket.js:46-64 | On a successful save the store gets the send, the recipient gets `receive_message` if online, then the caller gets `message_sent`; on failure the caller alone gets `error` |
| Socket.Gateway.Typing | server/socket.js:66-69 | Relayed to the recipient only when online; the store is untouched |
| Socket.Gateway.StopTyping | server/socket.js:71-74 | Relayed to the recipient only when online; the store is untouched |
| Socket.Gateway.MarkRead | server/socket.js:76-94 | The unread messages addressed to the user become read and the other participant, if online, gets `messages_read` |
| Socket.Gateway.EditMessage | server/socket.js:96-113 | Changes the store only for the stored sender of an existing message and valid text; otherwise no change and no event; on success the other participant (if online) and the caller are told |
| Socket.Gateway.DeleteMessage | server/socket.js:115-132 | As the edit, removing exactly that message |
| Socket.Gateway.Disconnect | server/socket.js:134-143 | Removes the first entry bound to the closing socket, announcing that user offline, and nothing else |
| RegisterPage.Validate | client/src/pages/Register.jsx:32-66 | Passes exactly when roll is digits, the address matches, its prefix is the roll, a department is chosen and the passwords agree; otherwise reports the first failing check |
| RegisterPage.RollCheckOnlyOrders | client/src/pages/Register.jsx:34-51 | The verdict is the same without the roll-digits check, which only decides the message |
| RegisterPage.AcceptedPassesServerGuards | client/src/pages/Register.jsx:68-79 | A form the page accepts passes the server's opening guards |
| RegisterPage.HandleSubmit | client/src/pages/Register.jsx:68-87 | `preRegisterUser` is called exactly when validation passes, with a form the server's guards accept |
| VerifyEmailForm.Blank6 | client/src/components/VerifyEmail.jsx:16 | Six empty slots |
| VerifyEmailForm.InputChange | client/src/components/VerifyEmail.jsx:37-50 | A non-digit value is ignored; otherwise only slot `index` changes, and the empty value clears it |
| VerifyEmailForm.Paste | client/src/components/VerifyEmail.jsx:59-73 | Exactly six digits fill the six slots in order; anything else changes nothing |
| VerifyEmailForm.Split | client/src/components/VerifyEmail.jsx:65 | `split("")` gives one single-character piece per character |
| VerifyEmailForm.JoinSplit | client/src/components/VerifyEmail.jsx:65-80 | Joining the split pieces gives the text back |
| VerifyEmailForm.EditsKeepWellFormed | client/src/components/VerifyEmail.jsx:37-73 | Typing and pasting keep six slots of at most one digit each |
| VerifyEmailForm.JoinFull | client/src/components/VerifyEmail.jsx:80-82 | Joined single-character slots are as long as the slot count exactly when none is empty |
| VerifyEmailForm.Submit | client/src/components/VerifyEmail.jsx:75-89 | `verifyEmail` is called exactly when the joined code has six characters, with that code |
| VerifyEmailForm.SubmitNeedsAllSlots | client/src/components/VerifyEmail.jsx:80-86 | With well-formed slots, submitting goes ahead exactly when all six are filled |
| VerifyEmailForm.PasteThenSubmit | client/src/components/VerifyEmail.jsx:59-89 | Pasting six digits then submitting sends exactly those digits |
| PostComposer.TextChange | client/src/components/CreatePost.jsx:20-24 | The text changes and the hashtags follow it; image, preview and error are untouched |
| PostComposer.ImageChange | client/src/components/CreatePost.jsx:26-45 | No file changes nothing; a file over 5 MB or not an image sets the error and is not stored; otherwise it is stored and the error cleared |
| PostComposer.PreviewLoaded | client/src/components/CreatePost.jsx:40-42 | The preview is shown and nothing else changes |
| PostComposer.RemoveImage | client/src/components/CreatePost.jsx:99-103 | Image, preview and error are cleared and the text and hashtags kept, so a post can then be sent exactly when the text is not blank |
| PostComposer.Submit | client/src/components/CreatePost.jsx:47-67 | A post is sent exactly when there is non-blank text or an image, with the text, image and current hashtags |
| PostComposer.AfterSuccess | client/src/components/CreatePost.jsx:87-90 | After a successful post text, image, preview, hashtags and error are cleared, so nothing can be submitted until something is entered |
| PostComposer.NoTextNoTags | client/src/components/CreatePost.jsx:87-90 | Empty text has no hashtags, so the reset state is consistent |
| PostComposer.HandlersKeepInvariant | client/src/components/CreatePost.jsx:20-103 | Every state-changing handler (text, image, preview loaded, remove image, reset after success) keeps the hashtags in step with the text and only an acceptable image stored |
| PostComposer.SentTagsMatchServer | client/src/components/CreatePost.jsx:62-67 | The tags sent have no duplicates and the same members as the tags the server stores |
| ChatView.EditById | client/src/components/ChatComponent.jsx:87-91 | Only messages with the edited id get the new text; the list keeps its length and order |
| ChatView.Apply | client/src/components/ChatComponent.jsx:57-108 | No socket event changes whose conversation the view shows |
| ChatView.TypingFromPeerOnly | client/src/components/ChatComponent.jsx:73-79 | `typing` sets and `stop_typing` clears the flag exactly when sent by the open peer; every other event keeps the flag, and typing events leave messages and chat id alone |
| ChatView.ArrivalsAppend | client/src/components/ChatComponent.jsx:60-71 | An echo of one's own send and a message from the peer are appended at the end; a message from anyone else changes nothing |
| ChatView.OtherChatIgnored | client/src/components/ChatComponent.jsx:87-97 | Edits and deletes for another chat leave the view unchanged |
| ChatView.ReadEditDeleteRules | client/src/components/ChatComponent.jsx:81-97 | A `messages_read` from the open peer marks every message sent by `me` read and one from anyone else changes nothing; for the open chat, `message_edited` replaces the text of the messages with that id and `message_deleted` pulls them; the chat id, the peer and the typing flag are kept |
| ChatView.ReadFlagsOnlyRise | client/src/components/ChatComponent.jsx:81-91 | Apart from a deletion, a read message stays read at its position under every event |
| ChatView.ReadMatchesServer | client/src/components/ChatComponent.jsx:81-85 | In a two-party conversation the view marks read exactly the messages the server marked |
| ChatView.EditMatchesServer | client/src/components/ChatComponent.jsx:87-91 | With unique ids the view's edit by id changes the same message the server edited |
| ChatView.SendDraft | client/src/components/ChatComponent.jsx:123-129 | Nothing is emitted and the draft stays unless the text is non-blank and a socket exists; then `send_message` with the draft and `stop_typing`, in that order, to the peer, and the draft is cleared |
| ChatView.SendReachesPeer | client/src/components/ChatComponent.jsx:77-79 | A sent text is never blank to the server, and the `stop_typing` that follows a send clears the typing flag in the peer's view of the conversation |
| ChatView.SavedEditNotBlank | client/src/components/ChatComponent.jsx:137-140 | An edit the view saves is never refused by the server for blank text |
| ChatListView.Fetched | client/src/components/ChatList.jsx:28-33 | Exactly the fetched entries with a participant |
| ChatListView.FetchedKeepsOrder | client/src/components/ChatList.jsx:32 | The filtered list stays most recent first, as the server sent it |
| ChatListView.Status | client/src/components/ChatList.jsx:47-53 | Online adds the user to the set, any other status removes them, other events change nothing |
| ChatListView.IndexOf | client/src/components/ChatList.jsx:57 | `findIndex` returns the first entry of the chat, or proves none exists |
| ChatListView.Bumped | client/src/components/ChatList.jsx:60-68 | The entry takes the new last message and time; unread grows by one only for someone else's message |
| ChatListView.Receive | client/src/components/ChatList.jsx:55-73 | An unknown chat leaves the list as it is; otherwise the bumped list is re-sorted, most recent first, as a permutation |
| ChatListView.ReceiveKeepsEntries | client/src/components/ChatList.jsx:59-69 | After a receive the list has the same length, holds the bumped entry and keeps every other entry |
| ChatListView.SameEntries | client/src/components/ChatList.jsx:69 | A sort keeps the length and every member |
| ChatListView.MessagesRead | client/src/components/ChatList.jsx:75-85 | Another user's read marks that chat's last message read, a null last message staying null; one's own read and other chats change nothing |
| ChatListView.Select | client/src/components/ChatList.jsx:94-103 | An entry without a participant is ignored; otherwise its participant opens, and a read is requested exactly when something is unread |
| ChatListView.ResetUnread | client/src/components/ChatList.jsx:97-98 | After the read call that chat counts zero unread and every other entry is unchanged |
| ChatListView.OwnMessagesNotUnread | client/src/components/ChatList.jsx:63-66 | One's own message never raises the unread count of an opened chat |

## Left out

- I/O and foreign services: bcrypt salts, JWT signing, nodemailer, Cloudinary uploads and the
  preview's FileReader are not modelled. Hashing is an injective stand-in, and the e-mail
  outcome and generated codes are parameters.
- Timers and interleavings: `handleTyping` with its delayed `stop_typing`, the verification
  countdown and polling are not modelled. Every handler is one atomic step, so races between
  `await` points are not captured.
- Wall-clock dates are natural numbers. `verificationCodeExpires < new Date()` with a null
  expiry compares as 0.
- Mongo ids: `ObjectId.isValid` is modelled as 24 hexadecimal characters. The 12-character
  form it also accepts is not. A cast failure is modelled as the 500 (or the swallowed
  error) the handler answers with.
- Lower-case ids: every id is taken in the lower-case 24-hex form the server emits. Mongo's
  `findById`, `findByIdAndUpdate`, `findByIdAndDelete` and `messages.id()` cast an id
  case-insensitively, so the source also finds a document through an upper-case spelling of
  its id. The model's lookups and the post and comment maps compare exact strings and answer
  404 there. The `===`, `includes`, `$push` and `$pull` comparisons are exact in both.
- UserController.FollowUser: `FollowMirror` is proved for lower-case ids only. Given an
  upper-case spelling of `currentUserId` as `id`, the source passes the `===` self-follow guard
  (UserController.js:117), finds the same user twice and pushes both spellings (:131-132).
  That stores a self-follow under a second spelling and breaks the mirror; the model answers
  404 and changes nothing.
- UserController.UnfollowUser: with an upper-case spelling of `currentUserId` as `id` the
  source answers 400 where the model answers 404; neither changes anything.
- Users.FindUser: compares ids as exact strings, so an upper-case spelling is not found.
- ChatStore.FindChat: compares ids as exact strings, so an upper-case spelling is not found.
- ChatStore.FindMessage: compares ids as exact strings, so an upper-case spelling is not found.
- NotificationController.FindNotification: compares ids as exact strings, so an upper-case
  spelling is not found.
- Text.Lower: lowers ASCII `A`-`Z` only. It stands for `toLowerCase` applied to `#\w+`
  matches, which are ASCII, and there the two agree. `toLowerCase` on other text (the Kelvin
  sign U+212A becomes `k`, `İ` becomes two characters) is not modelled.
- Hashtags.LowerKeepsWordChars: is about the ASCII lowering of `Text.Lower`. Under full
  `toLowerCase` a non-word character can lower to a word character (U+212A to `k`).
- Request bodies spread into documents (`...req.body`) carry only the fields the model
  names. Extra fields, including an `isAdmin` a client could send, are not modelled.
- UserController.UpdateUser: only names, department and password are updatable; changes to
  address, roll and other profile fields are not modelled, and the admin claim is the
  request body's `currentUserAdminStatus`, as the source trusts it.
- Regex search with user patterns (`getPostsByHashtag`, `searchPosts`), the aggregations
  (`getTrendingHashtags`, `getTimelinePosts`) and the count and lookup endpoints
  (`getPost`, `getComments`, `getPostLikes`, `isPostSaved`, `getSavedPostsCount`,
  `getMultipleUsers`, `getUserPosts`) are not modelled.
- Mongo sort ties: equal keys keep storage order, as a stable insertion sort.
- Comment length is counted in characters, not UTF-16 code units.
- The three copies of `createNotification` (NotificationController.js, PostController.js
  and UserController.js) behave alike and are modelled once; a save failure returns null
  and is modelled as leaving the store unchanged.
- The stray `navigate("/login")` after `deleteUser` answers is not modelled.
- The null dereference in `updatePost`/`deletePost` and in the socket edit/delete handlers
  on a missing post or chat is modelled as the 500 or the silent no-op it causes.
- The client's re-emission of `mark_read` after `receive_message`, after loading history and
  after selecting a chat is not modelled; the server-side handler it triggers is.
- A missing `currentUserId` in a request body is modelled as an id no user has.
- The registration page does not check first and last names; neither does the model.
- UI rendering, routing and transport plumbing (Socket.IO options, CORS, route tables) are
  not modelled.
