/** The notification document of server/Models/notificationModel.js. */
module NotificationModel {
  import opened Wrappers
  import opened Ids

  /** The `enum` of the `type` path. */
  datatype Kind = Like | Comment | Follow

  datatype Notification = Notification(
    id: Id,
    recipient: Id,
    sender: Id,
    kind: Kind,
    post: Option<Id>,
    read: bool,
    createdAt: nat)

  /** `post` is required exactly for likes and comments. */
  predicate PostRequired(k: Kind)
  {
    k == Like || k == Comment
  }

  /** The schema's checks: required recipient and sender, a post where the kind needs one. */
  predicate NotificationValid(n: Notification)
  {
    n.recipient != "" && n.sender != ""
    && (PostRequired(n.kind) ==> n.post.Some?)
    && (n.post.Some? ==> ValidObjectId(n.post.value))
  }

  /**
   * The document `createNotification` builds: `post` only when a truthy post id is given,
   * `read` at its default, false.
   */
  function Build(id: Id, recipient: Id, sender: Id, kind: Kind, postId: Option<Id>, now: nat): (n: Notification)
    ensures !n.read
    ensures n.post.Some? <==> postId.Some? && postId.value != ""
  {
    var post := if postId.Some? && postId.value != "" then postId else None;
    Notification(id, recipient, sender, kind, post, false, now)
  }

  /** A follow needs no post; a like or a comment is rejected by validation without one. */
  lemma BuildValid(id: Id, recipient: Id, sender: Id, kind: Kind, postId: Option<Id>, now: nat)
    requires recipient != "" && sender != ""
    requires postId.Some? ==> ValidObjectId(postId.value)
    ensures NotificationValid(Build(id, recipient, sender, kind, postId, now))
            <==> (PostRequired(kind) ==> postId.Some?)
  {
  }
}
