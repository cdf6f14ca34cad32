/**
 * The notification handlers of server/Controllers/NotificationController.js, and the
 * `createNotification` helper the like, comment and follow handlers call.
 */
module NotificationController {
  import opened Wrappers
  import opened Ids
  import Seqs
  import opened NotificationModel
  import opened Db

  /** `findById` on the notification collection. */
  function FindNotification(ns: seq<Notification>, id: Id): (r: Option<nat>)
    ensures r.Some? ==> r.value < |ns| && ns[r.value].id == id
    ensures r.None? ==> forall j :: 0 <= j < |ns| ==> ns[j].id != id
  {
    if |ns| == 0 then None
    else if ns[0].id == id then Some(0)
    else match FindNotification(ns[1..], id)
      case None => None
      case Some(i) => Some(i + 1)
  }

  /** Generated ids, each used once, and documents that passed validation. */
  ghost predicate NotificationsValid(ns: seq<Notification>)
  {
    (forall i, j :: 0 <= i < j < |ns| ==> ns[i].id != ns[j].id)
    && forall k :: 0 <= k < |ns| ==> ValidObjectId(ns[k].id) && NotificationValid(ns[k])
  }

  predicate FreshNotificationId(ns: seq<Notification>, id: Id)
  {
    ValidObjectId(id) && forall k :: 0 <= k < |ns| ==> ns[k].id != id
  }

  /**
   * `createNotification`: build the document, save it, and return it; a document that fails
   * validation is not saved and the helper returns null instead of throwing.
   */
  method CreateNotification(db: Database, id: Id, recipient: Id, sender: Id, kind: Kind,
                            postId: Option<Id>, now: nat) returns (saved: Option<Notification>)
    requires NotificationsValid(db.notifications) && FreshNotificationId(db.notifications, id)
    modifies db`notifications
    ensures NotificationsValid(db.notifications)
    ensures var n := Build(id, recipient, sender, kind, postId, now);
            if NotificationValid(n) then saved == Some(n) && db.notifications == old(db.notifications) + [n]
            else saved.None? && db.notifications == old(db.notifications)
  {
    var n := Build(id, recipient, sender, kind, postId, now);
    if !NotificationValid(n) {
      return None;
    }
    db.notifications := db.notifications + [n];
    return Some(n);
  }

  /** `find({ recipient: userId }).sort({ createdAt: -1 })`. */
  function NotificationsFor(ns: seq<Notification>, userId: Id): (r: seq<Notification>)
    ensures forall n :: n in r <==> n in ns && n.recipient == userId
    ensures Seqs.SortedDesc(r, (n: Notification) => n.createdAt)
    ensures multiset(r) == multiset(Seqs.Filter(ns, (n: Notification) => n.recipient == userId))
  {
    var mine := Seqs.Filter(ns, (n: Notification) => n.recipient == userId);
    Seqs.SortDescMembers(mine, (n: Notification) => n.createdAt);
    Seqs.SortDesc(mine, (n: Notification) => n.createdAt)
  }

  /** `markAsRead`: 400 for a malformed id, 404 when missing, else that one flag is set. */
  method MarkAsRead(db: Database, id: Id) returns (status: nat, updated: Option<Notification>)
    requires NotificationsValid(db.notifications)
    modifies db`notifications
    ensures NotificationsValid(db.notifications)
    ensures status == 400 <==> !ValidObjectId(id)
    ensures status == 404 <==> ValidObjectId(id) && FindNotification(old(db.notifications), id).None?
    ensures status == 200 || status == 400 || status == 404
    ensures status != 200 ==> db.notifications == old(db.notifications) && updated.None?
    ensures status == 200 ==>
              var i := FindNotification(old(db.notifications), id).value;
              db.notifications == old(db.notifications)[i := old(db.notifications)[i].(read := true)]
              && updated == Some(db.notifications[i])
  {
    if !ValidObjectId(id) {
      return 400, None;
    }
    var found := FindNotification(db.notifications, id);
    if found.None? {
      return 404, None;
    }
    var i := found.value;
    db.notifications := db.notifications[i := db.notifications[i].(read := true)];
    return 200, Some(db.notifications[i]);
  }

  /** The update of `markAllAsRead`: the unread notifications of `userId` become read. */
  function MarkAllRead(ns: seq<Notification>, userId: Id): (r: seq<Notification>)
    ensures |r| == |ns|
    ensures forall k :: 0 <= k < |ns| && ns[k].recipient == userId ==> r[k] == ns[k].(read := true)
    ensures forall k :: 0 <= k < |ns| && ns[k].recipient != userId ==> r[k] == ns[k]
  {
    seq(|ns|, k requires 0 <= k < |ns| =>
      if ns[k].recipient == userId && !ns[k].read then ns[k].(read := true) else ns[k])
  }

  /** After `markAllAsRead` the user has nothing unread, and marking again changes nothing. */
  lemma MarkAllReadDone(ns: seq<Notification>, userId: Id)
    ensures forall n :: n in NotificationsFor(MarkAllRead(ns, userId), userId) ==> n.read
    ensures MarkAllRead(MarkAllRead(ns, userId), userId) == MarkAllRead(ns, userId)
  {
    var r := MarkAllRead(ns, userId);
    forall n | n in NotificationsFor(r, userId) ensures n.read {
      var k :| 0 <= k < |r| && r[k] == n;
    }
  }

  /** `markAllAsRead`: one `updateMany` over the recipient's unread notifications. */
  method MarkAllAsRead(db: Database, userId: Id) returns (status: nat)
    requires NotificationsValid(db.notifications)
    modifies db`notifications
    ensures NotificationsValid(db.notifications)
    ensures status == 200 && db.notifications == MarkAllRead(old(db.notifications), userId)
  {
    db.notifications := MarkAllRead(db.notifications, userId);
    return 200;
  }

  /** `deleteNotification`: 400 for a malformed id, 404 when missing, else the document goes. */
  method DeleteNotification(db: Database, id: Id) returns (status: nat)
    requires NotificationsValid(db.notifications)
    modifies db`notifications
    ensures NotificationsValid(db.notifications)
    ensures status == 400 <==> !ValidObjectId(id)
    ensures status == 404 <==> ValidObjectId(id) && FindNotification(old(db.notifications), id).None?
    ensures status == 200 || status == 400 || status == 404
    ensures status != 200 ==> db.notifications == old(db.notifications)
    ensures status == 200 ==>
              var i := FindNotification(old(db.notifications), id).value;
              db.notifications == old(db.notifications)[..i] + old(db.notifications)[i + 1..]
    ensures forall n :: n in db.notifications <==> n in old(db.notifications) && n.id != id
  {
    if !ValidObjectId(id) {
      return 400;
    }
    var found := FindNotification(db.notifications, id);
    if found.None? {
      return 404;
    }
    var i := found.value;
    RemoveKeepsValid(db.notifications, i);
    db.notifications := db.notifications[..i] + db.notifications[i + 1..];
    return 200;
  }

  /** Removing one notification keeps the invariant and drops exactly the one with its id. */
  lemma RemoveKeepsValid(ns: seq<Notification>, i: nat)
    requires NotificationsValid(ns) && i < |ns|
    ensures NotificationsValid(ns[..i] + ns[i + 1..])
    ensures forall n :: n in ns[..i] + ns[i + 1..] <==> n in ns && n.id != ns[i].id
  {
    var r := ns[..i] + ns[i + 1..];
    assert forall j :: 0 <= j < |r| ==> r[j] == ns[if j < i then j else j + 1];
    forall n | n in ns && n.id != ns[i].id ensures n in r {
      var j :| 0 <= j < |ns| && ns[j] == n;
      assert r[if j < i then j else j - 1] == n;
    }
  }
}
