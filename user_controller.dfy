/**
 * The profile handlers of server/Controllers/UserController.js: password-free reads, the
 * self-or-admin rule of update and delete, and follow/unfollow on two user documents.
 */
module UserController {
  import opened Wrappers
  import opened Ids
  import Seqs
  import opened UserModel
  import opened Users
  import opened NotificationModel
  import opened NotificationController
  import opened Db

  /** `getUser`: `findById(id).select('-password')`. */
  method GetUser(db: Database, id: Id) returns (status: nat, user: Option<PublicUser>)
    ensures status == 500 <==> !ValidObjectId(id)
    ensures status == 404 <==> ValidObjectId(id) && FindUser(db.users, id).None?
    ensures status == 200 <==> ValidObjectId(id) && FindUser(db.users, id).Some?
    ensures status == 200 ==> user == Some(Public(db.users[FindUser(db.users, id).value]))
    ensures status != 200 ==> user.None?
  {
    if !ValidObjectId(id) {
      return 500, None;
    }
    var found := FindUser(db.users, id);
    if found.None? {
      return 404, None;
    }
    return 200, Some(Public(db.users[found.value]));
  }

  /** `getAllUsers`: every stored user, in storage order, without the password. */
  function AllUsers(users: seq<User>): (r: seq<PublicUser>)
    ensures |r| == |users|
    ensures forall k :: 0 <= k < |users| ==> r[k].id == users[k].id && r[k] == Public(users[k])
  {
    seq(|users|, k requires 0 <= k < |users| => Public(users[k]))
  }

  /** Two stored collections that differ only in passwords read back the same. */
  lemma AllUsersIgnorePasswords(a: seq<User>, b: seq<User>)
    requires |a| == |b|
    requires forall k :: 0 <= k < |a| ==> b[k] == a[k].(password := b[k].password)
    ensures AllUsers(a) == AllUsers(b)
  {
    forall k | 0 <= k < |a| ensures AllUsers(a)[k] == AllUsers(b)[k] {
      PublicHidesOnlyPassword(a[k], b[k]);
    }
  }

  /** The self-or-admin rule; the admin flag is the one the request body carries. */
  predicate MayManage(id: Id, currentUserId: Id, adminClaim: bool)
  {
    id == currentUserId || adminClaim
  }

  /** The profile fields an update body may carry; `None` leaves a field as stored. */
  datatype Patch = Patch(firstname: Option<string>, lastname: Option<string>,
                         department: Option<string>, password: Option<string>)

  /**
   * The update validators: a required field set to "" fails. An empty password is falsy, so it
   * is not hashed and reaches the validator as "".
   */
  predicate PatchValid(p: Patch)
  {
    p.firstname != Some("") && p.lastname != Some("") && p.department != Some("")
    && p.password != Some("")
  }

  function Override(old_: string, given: Option<string>): string
  {
    if given.Some? then given.value else old_
  }

  /** The stored user after `findByIdAndUpdate`, the password hashed first. */
  function Apply(u: User, p: Patch): User
  {
    u.(firstname := Override(u.firstname, p.firstname),
       lastname := Override(u.lastname, p.lastname),
       department := Override(u.department, p.department),
       password := if p.password.Some? then Hash(p.password.value) else u.password)
  }

  /**
   * A patch the validators accept keeps a valid document valid and leaves its id, address,
   * roll, flags and follow lists alone; a password it carries is stored only as a digest.
   */
  lemma ApplyKeepsUser(u: User, p: Patch)
    requires UserValid(u) && PatchValid(p)
    ensures var v := Apply(u, p);
            UserValid(v) && v.id == u.id && v.email == u.email && v.roll == u.roll
            && v.isAdmin == u.isAdmin && v.isVerified == u.isVerified
            && v.followers == u.followers && v.following == u.following
            && (p.password.Some? ==> v.password == Hash(p.password.value) && Matches(p.password.value, v.password))
            && (p.password.None? ==> v.password == u.password)
  {
  }

  /**
   * `updateUser`: 401 unless self or admin; then a cast failure or a validation failure is a
   * 500, a missing user a 404, and otherwise the patch is applied.
   */
  method UpdateUser(db: Database, id: Id, currentUserId: Id, adminClaim: bool, p: Patch)
    returns (status: nat, updated: Option<User>)
    requires AccountsValid(db.users) && FollowMirror(db.users)
    modifies db`users
    ensures AccountsValid(db.users) && FollowMirror(db.users)
    ensures status == 401 <==> !MayManage(id, currentUserId, adminClaim)
    ensures status == 500 <==> MayManage(id, currentUserId, adminClaim) && (!ValidObjectId(id) || !PatchValid(p))
    ensures status == 404 <==> MayManage(id, currentUserId, adminClaim) && ValidObjectId(id) && PatchValid(p)
                               && FindUser(old(db.users), id).None?
    ensures status != 200 ==> db.users == old(db.users) && updated.None?
    ensures status == 200 ==>
              var i := FindUser(old(db.users), id).value;
              db.users == old(db.users)[i := Apply(old(db.users)[i], p)] && updated == Some(db.users[i])
  {
    if !MayManage(id, currentUserId, adminClaim) {
      return 401, None;
    }
    if !ValidObjectId(id) || !PatchValid(p) {
      return 500, None;
    }
    var found := FindUser(db.users, id);
    if found.None? {
      return 404, None;
    }
    var i := found.value;
    var user := Apply(db.users[i], p);
    ApplyKeepsUser(db.users[i], p);
    ReplaceKeepsAccounts(db.users, i, user);
    ReplaceKeepsMirror(db.users, i, user);
    db.users := db.users[i := user];
    return 200, Some(user);
  }

  /** Removing an account keeps the invariant. */
  lemma RemoveKeepsAccounts(users: seq<User>, i: nat)
    requires AccountsValid(users) && i < |users|
    ensures AccountsValid(users[..i] + users[i + 1..])
  {
    var r := users[..i] + users[i + 1..];
    Seqs.DeleteAt(users, i);
    forall a, b | 0 <= a < b < |r| ensures r[a].id != r[b].id && r[a].email != r[b].email {
      var a', b' := if a < i then a else a + 1, if b < i then b else b + 1;
      assert r[a] == users[a'] && r[b] == users[b'];
    }
    forall k | 0 <= k < |r| ensures ValidObjectId(r[k].id) && UserValid(r[k]) {
      assert r[k] == users[if k < i then k else k + 1];
    }
  }

  /** Removing the account at `i` drops exactly the users with its id. */
  lemma RemoveDropsOnlyId(users: seq<User>, i: nat)
    requires IdsDistinct(users) && i < |users|
    ensures forall u :: u in users[..i] + users[i + 1..] <==> u in users && u.id != users[i].id
  {
    var r := users[..i] + users[i + 1..];
    assert forall k :: 0 <= k < |r| ==> r[k] == users[if k < i then k else k + 1];
    forall u | u in users && u.id != users[i].id ensures u in r {
      var k :| 0 <= k < |users| && users[k] == u;
      assert r[if k < i then k else k - 1] == u;
    }
  }

  /** `deleteUser`: 401 unless self or admin; deleting a missing user still answers 200. */
  method DeleteUser(db: Database, id: Id, currentUserId: Id, adminClaim: bool) returns (status: nat)
    requires AccountsValid(db.users) && FollowMirror(db.users)
    modifies db`users
    ensures AccountsValid(db.users) && FollowMirror(db.users)
    ensures status == 401 <==> !MayManage(id, currentUserId, adminClaim)
    ensures status == 500 <==> MayManage(id, currentUserId, adminClaim) && !ValidObjectId(id)
    ensures status == 200 <==> MayManage(id, currentUserId, adminClaim) && ValidObjectId(id)
    ensures status != 200 ==> db.users == old(db.users)
    ensures status == 200 ==>
              match FindUser(old(db.users), id)
              case None => db.users == old(db.users)
              case Some(i) => db.users == old(db.users)[..i] + old(db.users)[i + 1..]
    ensures forall u :: u in db.users <==> u in old(db.users) && (status != 200 || u.id != id)
  {
    if !MayManage(id, currentUserId, adminClaim) {
      return 401;
    }
    if !ValidObjectId(id) {
      return 500;
    }
    var found := FindUser(db.users, id);
    if found.Some? {
      var i := found.value;
      var us := db.users;
      RemoveKeepsAccounts(us, i);
      AccountsIdsDistinct(us);
      RemoveDropsOnlyId(us, i);
      RemoveKeepsMirror(us, i);
      db.users := us[..i] + us[i + 1..];
    }
    return 200;
  }

  /** The two `$push` updates of `followUser`: user `j` starts following user `i`. */
  function FollowStep(users: seq<User>, i: nat, j: nat): seq<User>
    requires i < |users| && j < |users|
  {
    var t := users[i].(followers := users[i].followers + [users[j].id]);
    var c := users[j].(following := users[j].following + [users[i].id]);
    users[i := t][j := c]
  }

  /** The two `$pull` updates of `unFollowUser`: user `j` stops following user `i`. */
  function UnfollowStep(users: seq<User>, i: nat, j: nat): seq<User>
    requires i < |users| && j < |users|
  {
    var t := users[i].(followers := Seqs.RemoveAll(users[i].followers, users[j].id));
    var c := users[j].(following := Seqs.RemoveAll(users[j].following, users[i].id));
    users[i := t][j := c]
  }

  /** Distinct positions hold distinct ids. */
  ghost predicate IdsDistinct(users: seq<User>)
  {
    forall p, q :: 0 <= p < |users| && 0 <= q < |users| && p != q ==> users[p].id != users[q].id
  }

  lemma AccountsIdsDistinct(users: seq<User>)
    requires AccountsValid(users)
    ensures IdsDistinct(users)
  {
    forall p, q | 0 <= p < |users| && 0 <= q < |users| && p != q ensures users[p].id != users[q].id {
      if p > q {
        assert users[q].id != users[p].id;
      }
    }
  }

  /** Changing the follow lists of two accounts keeps the account invariant. */
  lemma ListsKeepAccounts(users: seq<User>, i: nat, j: nat, followers: seq<Id>, following: seq<Id>)
    requires AccountsValid(users) && i < |users| && j < |users| && i != j
    ensures AccountsValid(users[i := users[i].(followers := followers)][j := users[j].(following := following)])
  {
    var t := users[i].(followers := followers);
    ReplaceKeepsAccounts(users, i, t);
    ReplaceKeepsAccounts(users[i := t], j, users[j].(following := following));
  }

  /** Following keeps the lists mirrored when `j` did not follow `i` yet. */
  lemma FollowKeepsMirror(users: seq<User>, i: nat, j: nat)
    requires IdsDistinct(users) && FollowMirror(users)
    requires i < |users| && j < |users| && i != j
    requires users[j].id !in users[i].followers
    ensures FollowMirror(FollowStep(users, i, j))
  {
    var r := FollowStep(users, i, j);
    forall a, b | 0 <= a < |r| && 0 <= b < |r|
      ensures r[b].id in r[a].followers <==> r[a].id in r[b].following
    {
      assert r[a].id == users[a].id && r[b].id == users[b].id;
      if a == i {
        assert r[a].followers == users[i].followers + [users[j].id];
        if b != j {
          assert users[b].id != users[j].id;
          assert r[b].following == users[b].following;
        }
      } else if b == j {
        assert r[a].followers == users[a].followers;
        assert users[a].id != users[i].id;
        assert r[b].following == users[j].following + [users[i].id];
      } else {
        assert r[a].followers == users[a].followers;
        assert r[b].following == users[b].following;
      }
    }
  }

  /** Unfollowing keeps the lists mirrored. */
  lemma UnfollowKeepsMirror(users: seq<User>, i: nat, j: nat)
    requires IdsDistinct(users) && FollowMirror(users)
    requires i < |users| && j < |users| && i != j
    ensures FollowMirror(UnfollowStep(users, i, j))
  {
    var r := UnfollowStep(users, i, j);
    forall a, b | 0 <= a < |r| && 0 <= b < |r|
      ensures r[b].id in r[a].followers <==> r[a].id in r[b].following
    {
      assert r[a].id == users[a].id && r[b].id == users[b].id;
      if a == i {
        assert r[a].followers == Seqs.RemoveAll(users[i].followers, users[j].id);
        if b != j {
          assert users[b].id != users[j].id;
          assert r[b].following == users[b].following;
        }
      } else if b == j {
        assert r[a].followers == users[a].followers;
        assert users[a].id != users[i].id;
        assert r[b].following == Seqs.RemoveAll(users[j].following, users[i].id);
      } else {
        assert r[a].followers == users[a].followers;
        assert r[b].following == users[b].following;
      }
    }
  }

  /** Unfollowing right after a follow restores both lists exactly. */
  lemma UnfollowUndoesFollow(users: seq<User>, i: nat, j: nat)
    requires FollowMirror(users)
    requires i < |users| && j < |users| && i != j
    requires users[j].id !in users[i].followers
    ensures UnfollowStep(FollowStep(users, i, j), i, j) == users
  {
    assert users[i].id !in users[j].following;
    Seqs.RemoveAllAppended(users[i].followers, users[j].id);
    Seqs.RemoveAllAppended(users[j].following, users[i].id);
  }

  /**
   * `followUser`: 403 on oneself before any lookup; 500 when either id does not cast; 404
   * when either user is missing; 400 when already a follower; otherwise both lists grow and a
   * `follow` notification without a post is recorded.
   */
  method FollowUser(db: Database, id: Id, currentUserId: Id, notificationId: Id, now: nat)
    returns (status: nat)
    requires AccountsValid(db.users) && FollowMirror(db.users)
    requires NotificationsValid(db.notifications) && FreshNotificationId(db.notifications, notificationId)
    modifies db`users, db`notifications
    ensures AccountsValid(db.users) && FollowMirror(db.users)
    ensures NotificationsValid(db.notifications)
    ensures status == 403 <==> currentUserId == id
    ensures status == 500 <==> currentUserId != id && (!ValidObjectId(id) || !ValidObjectId(currentUserId))
    ensures status == 404 <==> currentUserId != id && ValidObjectId(id) && ValidObjectId(currentUserId)
                               && (FindUser(old(db.users), id).None? || FindUser(old(db.users), currentUserId).None?)
    ensures status == 400 ==> currentUserId in old(db.users)[FindUser(old(db.users), id).value].followers
    ensures status != 200 ==> db.users == old(db.users) && db.notifications == old(db.notifications)
    ensures status == 200 ==>
              var i := FindUser(old(db.users), id).value;
              var j := FindUser(old(db.users), currentUserId).value;
              currentUserId !in old(db.users)[i].followers
              && db.users == FollowStep(old(db.users), i, j)
              && db.notifications == old(db.notifications) + [Build(notificationId, id, currentUserId, Follow, None, now)]
    ensures status in {200, 400, 403, 404, 500}
  {
    if currentUserId == id {
      return 403;
    }
    if !ValidObjectId(id) || !ValidObjectId(currentUserId) {
      return 500;
    }
    var target := FindUser(db.users, id);
    var current := FindUser(db.users, currentUserId);
    if target.None? || current.None? {
      return 404;
    }
    var i, j := target.value, current.value;
    if currentUserId in db.users[i].followers {
      return 400;
    }
    ListsKeepAccounts(db.users, i, j, db.users[i].followers + [db.users[j].id], db.users[j].following + [db.users[i].id]);
    AccountsIdsDistinct(db.users);
    FollowKeepsMirror(db.users, i, j);
    db.users := FollowStep(db.users, i, j);
    BuildValid(notificationId, id, currentUserId, Follow, None, now);
    var _ := CreateNotification(db, notificationId, id, currentUserId, Follow, None, now);
    return 200;
  }

  /**
   * `unFollowUser`: the same first three refusals; 400 when not a follower; otherwise both
   * entries are pulled.
   */
  method UnfollowUser(db: Database, id: Id, currentUserId: Id) returns (status: nat)
    requires AccountsValid(db.users) && FollowMirror(db.users)
    modifies db`users
    ensures AccountsValid(db.users) && FollowMirror(db.users)
    ensures status == 403 <==> currentUserId == id
    ensures status == 500 <==> currentUserId != id && (!ValidObjectId(id) || !ValidObjectId(currentUserId))
    ensures status == 404 <==> currentUserId != id && ValidObjectId(id) && ValidObjectId(currentUserId)
                               && (FindUser(old(db.users), id).None? || FindUser(old(db.users), currentUserId).None?)
    ensures status == 400 ==> currentUserId !in old(db.users)[FindUser(old(db.users), id).value].followers
    ensures status != 200 ==> db.users == old(db.users)
    ensures status == 200 ==>
              var i := FindUser(old(db.users), id).value;
              var j := FindUser(old(db.users), currentUserId).value;
              currentUserId in old(db.users)[i].followers
              && db.users == UnfollowStep(old(db.users), i, j)
              && currentUserId !in db.users[i].followers && id !in db.users[j].following
    ensures status in {200, 400, 403, 404, 500}
  {
    if currentUserId == id {
      return 403;
    }
    if !ValidObjectId(id) || !ValidObjectId(currentUserId) {
      return 500;
    }
    var target := FindUser(db.users, id);
    var current := FindUser(db.users, currentUserId);
    if target.None? || current.None? {
      return 404;
    }
    var i, j := target.value, current.value;
    if currentUserId !in db.users[i].followers {
      return 400;
    }
    ListsKeepAccounts(db.users, i, j, Seqs.RemoveAll(db.users[i].followers, db.users[j].id),
                      Seqs.RemoveAll(db.users[j].following, db.users[i].id));
    AccountsIdsDistinct(db.users);
    UnfollowKeepsMirror(db.users, i, j);
    db.users := UnfollowStep(db.users, i, j);
    return 200;
  }
}
