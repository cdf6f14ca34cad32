/**
 * The MongoDB database the handlers share, one field per collection. Collections read with
 * `findOne` or `find` keep storage order and are sequences; collections read only by id are
 * maps from id to document.
 */
module Db {
  import opened Ids
  import ChatModel
  import UserModel
  import PostModel
  import NotificationModel

  class Database {
    var users: seq<UserModel.User>
    var posts: map<Id, PostModel.Post>
    var comments: map<Id, PostModel.Comment>
    var saved: seq<PostModel.SavedPost>
    var notifications: seq<NotificationModel.Notification>
    var chats: seq<ChatModel.Chat>

    /** An empty database. */
    constructor ()
      ensures users == [] && posts == map[] && comments == map[]
      ensures saved == [] && notifications == [] && chats == []
    {
      users := [];
      posts := map[];
      comments := map[];
      saved := [];
      notifications := [];
      chats := [];
    }
  }
}
