/**
 * The post handlers of server/Controllers/PostController.js: likes, comments, tag extraction
 * on creation, owner-only update and delete, bookmarks and the bookmark listing.
 */
module PostController {
  import opened Wrappers
  import opened Ids
  import Seqs
  import opened Text
  import opened Hashtags
  import opened PostModel
  import opened NotificationModel
  import opened NotificationController
  import opened Db

  /**
   * Stored posts and comments passed validation under generated ids, and a post lists only
   * stored comments that point back to it.
   */
  ghost predicate PostsValid(posts: map<Id, Post>, comments: map<Id, Comment>)
  {
    (forall pid :: pid in posts ==> ValidObjectId(pid) && PostValid(posts[pid]))
    && (forall cid :: cid in comments ==> ValidObjectId(cid) && CommentValid(comments[cid]))
    && forall pid, cid :: pid in posts && cid in posts[pid].comments ==>
         cid in comments && comments[cid].postId == pid
  }

  /** The like toggle: add `userId` when absent, `$pull` it when present. */
  function ToggleLike(likes: seq<Id>, userId: Id): (r: seq<Id>)
    ensures userId in r <==> userId !in likes
    ensures forall v :: v != userId ==> (v in r <==> v in likes)
  {
    if userId !in likes then likes + [userId] else Seqs.RemoveAll(likes, userId)
  }

  /** Liking and then unliking gives back the same list. */
  lemma ToggleLikeTwice(likes: seq<Id>, userId: Id)
    requires userId !in likes
    ensures ToggleLike(ToggleLike(likes, userId), userId) == likes
  {
    Seqs.RemoveAllAppended(likes, userId);
  }

  /** A like or comment notification goes to the owner, and only when someone else acts. */
  predicate Notifies(owner: Id, actor: Id)
  {
    owner != actor
  }

  /**
   * `likePost`: 500 when the id does not cast, 404 for a missing post, otherwise the toggle;
   * a new like by someone other than the owner records a `like` notification.
   */
  method LikePost(db: Database, id: Id, userId: Id, notificationId: Id, now: nat) returns (status: nat)
    requires PostsValid(db.posts, db.comments)
    requires NotificationsValid(db.notifications) && FreshNotificationId(db.notifications, notificationId)
    modifies db`posts, db`notifications
    ensures PostsValid(db.posts, db.comments) && NotificationsValid(db.notifications)
    ensures status == 500 <==> !ValidObjectId(id)
    ensures status == 404 <==> ValidObjectId(id) && id !in old(db.posts)
    ensures status != 200 ==> db.posts == old(db.posts) && db.notifications == old(db.notifications)
    ensures status == 200 ==>
              var post := old(db.posts)[id];
              db.posts == old(db.posts)[id := post.(likes := ToggleLike(post.likes, userId))]
              && (if userId !in post.likes && Notifies(post.userId, userId) then
                    var n := Build(notificationId, post.userId, userId, Like, Some(id), now);
                    db.notifications == old(db.notifications) + (if NotificationValid(n) then [n] else [])
                  else db.notifications == old(db.notifications))
  {
    if !ValidObjectId(id) {
      return 500;
    }
    if id !in db.posts {
      return 404;
    }
    var post := db.posts[id];
    db.posts := db.posts[id := post.(likes := ToggleLike(post.likes, userId))];
    if userId !in post.likes && Notifies(post.userId, userId) {
      var _ := CreateNotification(db, notificationId, post.userId, userId, Like, Some(id), now);
    }
    return 200;
  }

  /**
   * `addComment`: three 400s before any lookup (post id, user id, blank content), 404 for a
   * missing post, 500 when the comment fails validation (content over 500 characters); then
   * the comment is stored, its id appended to the post, and the owner notified.
   */
  method AddComment(db: Database, postId: Id, userId: Id, content: string, commentId: Id,
                    notificationId: Id, now: nat) returns (status: nat)
    requires PostsValid(db.posts, db.comments) && ValidObjectId(commentId) && commentId !in db.comments
    requires NotificationsValid(db.notifications) && FreshNotificationId(db.notifications, notificationId)
    modifies db`posts, db`comments, db`notifications
    ensures PostsValid(db.posts, db.comments) && NotificationsValid(db.notifications)
    ensures status == 400 <==> !ValidObjectId(postId) || userId == "" || Blank(content)
    ensures status == 404 <==> ValidObjectId(postId) && userId != "" && !Blank(content) && postId !in old(db.posts)
    ensures status == 500 <==> ValidObjectId(postId) && userId != "" && !Blank(content) && postId in old(db.posts)
                               && |content| > MaxCommentLength
    ensures status != 200 ==>
              db.posts == old(db.posts) && db.comments == old(db.comments)
              && db.notifications == old(db.notifications)
    ensures status == 200 ==>
              var post := old(db.posts)[postId];
              db.comments == old(db.comments)[commentId := Comment.Comment(userId, postId, content)]
              && db.posts == old(db.posts)[postId := post.(comments := post.comments + [commentId])]
              && (if Notifies(post.userId, userId) then
                    db.notifications == old(db.notifications) + [Build(notificationId, post.userId, userId, Kind.Comment, Some(postId), now)]
                  else db.notifications == old(db.notifications))
  {
    if !ValidObjectId(postId) {
      return 400;
    }
    if userId == "" {
      return 400;
    }
    if Blank(content) {
      return 400;
    }
    if postId !in db.posts {
      return 404;
    }
    var comment := Comment.Comment(userId, postId, content);
    if !CommentValid(comment) {
      return 500;
    }
    var post := db.posts[postId];
    db.comments := db.comments[commentId := comment];
    db.posts := db.posts[postId := post.(comments := post.comments + [commentId])];
    if Notifies(post.userId, userId) {
      BuildValid(notificationId, post.userId, userId, Kind.Comment, Some(postId), now);
      var _ := CreateNotification(db, notificationId, post.userId, userId, Kind.Comment, Some(postId), now);
    }
    return 200;
  }

  /**
   * `createPost`: `tags` are the lowercased `#\w+` matches of `desc`, duplicates kept, none
   * without a description; a post without an owner fails validation.
   */
  method CreatePost(db: Database, postId: Id, userId: Id, desc: Option<string>, image: Option<string>,
                    now: nat) returns (status: nat)
    requires PostsValid(db.posts, db.comments) && ValidObjectId(postId) && postId !in db.posts
    modifies db`posts
    ensures PostsValid(db.posts, db.comments)
    ensures status == 500 <==> userId == ""
    ensures status == 500 ==> db.posts == old(db.posts)
    ensures status == 200 ==>
              db.posts == old(db.posts)[postId := Post(userId, desc, image, [], [], ServerTags(desc), now)]
    ensures status == 200 || status == 500
  {
    var post := Post(userId, desc, image, [], [], ServerTags(desc), now);
    if !PostValid(post) {
      return 500;
    }
    db.posts := db.posts[postId := post];
    return 200;
  }

  /** Every stored tag is a lowercase hashtag, and a description without `#` yields none. */
  lemma CreatedTags(desc: Option<string>)
    ensures forall t :: t in ServerTags(desc) ==> t[0] == '#' && Lower(t) == t
    ensures desc.Some? && '#' !in desc.value ==> ServerTags(desc) == []
  {
    forall t | t in ServerTags(desc) ensures t[0] == '#' {
      assert IsHashtag(t);
    }
  }

  /**
   * One field of an update body: absent from the body (`Keep`), or present with a string or
   * with `null` (`SetTo(None)`), which `$set` stores as is.
   */
  datatype FieldUpdate = Keep | SetTo(value: Option<string>)

  /** The description and image an update body may `$set`. */
  datatype PostPatch = PostPatch(desc: FieldUpdate, image: FieldUpdate)

  /** What `$set` leaves in a field: the stored value for an absent key, else the body's. */
  function Patched(stored: Option<string>, f: FieldUpdate): Option<string>
  {
    match f
    case Keep => stored
    case SetTo(v) => v
  }

  /**
   * Sending the same body twice stores what sending it once does, and a body that sets a
   * field to what is stored changes nothing in that field; `null` clears a stored value.
   */
  lemma PatchIdempotent(stored: Option<string>, f: FieldUpdate)
    ensures Patched(Patched(stored, f), f) == Patched(stored, f)
    ensures Patched(stored, SetTo(stored)) == stored
    ensures Patched(stored, SetTo(None)).None?
  {
  }

  /**
   * `updatePost`: a missing post or an id that does not cast ends in 500; anyone but the owner
   * gets 403. The stored tags are not recomputed from a new description.
   */
  method UpdatePost(db: Database, postId: Id, userId: Id, p: PostPatch) returns (status: nat)
    requires PostsValid(db.posts, db.comments)
    modifies db`posts
    ensures PostsValid(db.posts, db.comments)
    ensures status == 500 <==> !ValidObjectId(postId) || postId !in old(db.posts)
    ensures status == 403 <==> ValidObjectId(postId) && postId in old(db.posts) && old(db.posts)[postId].userId != userId
    ensures status != 200 ==> db.posts == old(db.posts)
    ensures status == 200 ==>
              var post := old(db.posts)[postId];
              post.userId == userId
              && db.posts == old(db.posts)[postId := post.(desc := Patched(post.desc, p.desc),
                                                          image := Patched(post.image, p.image))]
              && (p.desc.Keep? ==> db.posts[postId].desc == post.desc)
              && (p.desc.SetTo? ==> db.posts[postId].desc == p.desc.value)
              && (p.image.Keep? ==> db.posts[postId].image == post.image)
              && (p.image.SetTo? ==> db.posts[postId].image == p.image.value)
              && db.posts[postId].tags == post.tags
  {
    if !ValidObjectId(postId) || postId !in db.posts {
      return 500;
    }
    var post := db.posts[postId];
    if post.userId != userId {
      return 403;
    }
    post := post.(desc := Patched(post.desc, p.desc), image := Patched(post.image, p.image));
    db.posts := db.posts[postId := post];
    return 200;
  }

  /** `deletePost`: the same 500s and owner check; the post goes, its comments stay stored. */
  method DeletePost(db: Database, postId: Id, userId: Id) returns (status: nat)
    requires PostsValid(db.posts, db.comments)
    modifies db`posts
    ensures PostsValid(db.posts, db.comments)
    ensures status == 500 <==> !ValidObjectId(postId) || postId !in old(db.posts)
    ensures status == 403 <==> ValidObjectId(postId) && postId in old(db.posts) && old(db.posts)[postId].userId != userId
    ensures status != 200 ==> db.posts == old(db.posts)
    ensures status == 200 ==> db.posts == old(db.posts) - {postId} && old(db.posts)[postId].userId == userId
  {
    if !ValidObjectId(postId) || postId !in db.posts {
      return 500;
    }
    if db.posts[postId].userId != userId {
      return 403;
    }
    db.posts := db.posts - {postId};
    return 200;
  }

  /** `findOne({ userId, postId })` on the bookmarks. */
  function FindSaved(saved: seq<SavedPost>, userId: Id, postId: Id): (r: Option<nat>)
    ensures r.Some? ==> r.value < |saved| && saved[r.value].userId == userId && saved[r.value].postId == postId
    ensures r.None? ==> forall k :: 0 <= k < |saved| ==> saved[k].userId != userId || saved[k].postId != postId
  {
    if |saved| == 0 then None
    else if saved[0].userId == userId && saved[0].postId == postId then Some(0)
    else match FindSaved(saved[1..], userId, postId)
      case None => None
      case Some(i) => Some(i + 1)
  }

  /** The unique index on `(userId, postId)`, and generated record ids used once. */
  ghost predicate SavedValid(saved: seq<SavedPost>)
  {
    forall i, j :: 0 <= i < j < |saved| ==>
      saved[i].id != saved[j].id && (saved[i].userId != saved[j].userId || saved[i].postId != saved[j].postId)
  }

  /** Whether the user has bookmarked the post (`isPostSaved`). */
  predicate IsSaved(saved: seq<SavedPost>, userId: Id, postId: Id)
  {
    exists k :: 0 <= k < |saved| && saved[k].userId == userId && saved[k].postId == postId
  }

  /** Removing a bookmark keeps the index and unbookmarks exactly that pair. */
  lemma RemoveSavedKeepsValid(saved: seq<SavedPost>, i: nat)
    requires SavedValid(saved) && i < |saved|
    ensures SavedValid(saved[..i] + saved[i + 1..])
    ensures !IsSaved(saved[..i] + saved[i + 1..], saved[i].userId, saved[i].postId)
    ensures forall u, p :: (u != saved[i].userId || p != saved[i].postId) ==>
              (IsSaved(saved[..i] + saved[i + 1..], u, p) <==> IsSaved(saved, u, p))
  {
    var r := saved[..i] + saved[i + 1..];
    assert forall k :: 0 <= k < |r| ==> r[k] == saved[if k < i then k else k + 1];
    forall u, p | (u != saved[i].userId || p != saved[i].postId) && IsSaved(saved, u, p)
      ensures IsSaved(r, u, p)
    {
      var k :| 0 <= k < |saved| && saved[k].userId == u && saved[k].postId == p;
      assert r[if k < i then k else k - 1] == saved[k];
    }
  }

  /**
   * `savePost`: 400 for either id not casting, 404 for a missing post; then the bookmark is
   * toggled: an existing record is deleted, otherwise one is created at `now`.
   */
  method SavePost(db: Database, postId: Id, userId: Id, savedId: Id, now: nat) returns (status: nat)
    requires SavedValid(db.saved) && forall k :: 0 <= k < |db.saved| ==> db.saved[k].id != savedId
    modifies db`saved
    ensures SavedValid(db.saved)
    ensures status == 400 <==> !ValidObjectId(postId) || !ValidObjectId(userId)
    ensures status == 404 <==> ValidObjectId(postId) && ValidObjectId(userId) && postId !in db.posts
    ensures status != 200 ==> db.saved == old(db.saved)
    ensures status == 200 ==>
              (IsSaved(db.saved, userId, postId) <==> !IsSaved(old(db.saved), userId, postId))
              && match FindSaved(old(db.saved), userId, postId)
                 case Some(i) => db.saved == old(db.saved)[..i] + old(db.saved)[i + 1..]
                 case None => db.saved == old(db.saved) + [SavedPost(savedId, userId, postId, now)]
    ensures forall u, p :: (u != userId || p != postId) ==> (IsSaved(db.saved, u, p) <==> IsSaved(old(db.saved), u, p))
  {
    if !ValidObjectId(postId) || !ValidObjectId(userId) {
      return 400;
    }
    if postId !in db.posts {
      return 404;
    }
    var existing := FindSaved(db.saved, userId, postId);
    if existing.Some? {
      var i := existing.value;
      RemoveSavedKeepsValid(db.saved, i);
      db.saved := db.saved[..i] + db.saved[i + 1..];
    } else {
      var s := db.saved;
      db.saved := s + [SavedPost(savedId, userId, postId, now)];
      assert db.saved[|s|].userId == userId && db.saved[|s|].postId == postId;
      forall u, p | IsSaved(s, u, p) ensures IsSaved(db.saved, u, p) {
        var k :| 0 <= k < |s| && s[k].userId == u && s[k].postId == p;
        assert db.saved[k] == s[k];
      }
    }
    return 200;
  }

  /** The user's bookmarks, newest save first, whose post is still stored. */
  function LiveSaves(saved: seq<SavedPost>, posts: map<Id, Post>, userId: Id): (r: seq<SavedPost>)
    ensures Seqs.SortedDesc(r, (s: SavedPost) => s.savedAt)
    ensures forall s :: s in r <==> s in saved && s.userId == userId && s.postId in posts
    ensures forall s :: multiset(r)[s] == if s.userId == userId && s.postId in posts then multiset(saved)[s] else 0
  {
    var mine := Seqs.SortDesc(Seqs.Filter(saved, (s: SavedPost) => s.userId == userId), (s: SavedPost) => s.savedAt);
    Seqs.SortDescMembers(Seqs.Filter(saved, (s: SavedPost) => s.userId == userId), (s: SavedPost) => s.savedAt);
    Seqs.FilterKeepsSorted(mine, (s: SavedPost) => s.postId in posts, (s: SavedPost) => s.savedAt);
    Seqs.FilterCount(saved, (s: SavedPost) => s.userId == userId);
    Seqs.FilterCount(mine, (s: SavedPost) => s.postId in posts);
    Seqs.Filter(mine, (s: SavedPost) => s.postId in posts)
  }

  /**
   * `getSavedPosts`: 400 when the user id does not cast; otherwise the posts of the user's
   * bookmarks, newest save first, bookmarks of deleted posts dropped.
   */
  function GetSavedPosts(saved: seq<SavedPost>, posts: map<Id, Post>, userId: Id): (r: Result)
    ensures r.status == 400 <==> !ValidObjectId(userId)
    ensures r.status == 200 ==>
              var live := LiveSaves(saved, posts, userId);
              |r.posts| == |live|
              && forall k :: 0 <= k < |live| ==> live[k].postId in posts && r.posts[k] == posts[live[k].postId]
    ensures r.status == 400 || r.status == 200
  {
    if !ValidObjectId(userId) then Result(400, [])
    else
      Result(200, PostsOf(LiveSaves(saved, posts, userId), posts))
  }

  datatype Result = Result(status: nat, posts: seq<Post>)

  /** The stored post of each bookmark, in the bookmarks' order. */
  function PostsOf(live: seq<SavedPost>, posts: map<Id, Post>): (r: seq<Post>)
    requires forall s :: s in live ==> s.postId in posts
    ensures |r| == |live|
    ensures forall k :: 0 <= k < |live| ==> live[k].postId in posts && r[k] == posts[live[k].postId]
  {
    seq(|live|, k requires 0 <= k < |live| => posts[live[k].postId])
  }

  /** A bookmark listing is ordered by save time and contains only the user's own bookmarks. */
  lemma SavedPostsOrdered(saved: seq<SavedPost>, posts: map<Id, Post>, userId: Id, i: nat, j: nat)
    requires ValidObjectId(userId)
    requires i < j < |GetSavedPosts(saved, posts, userId).posts|
    ensures var live := LiveSaves(saved, posts, userId);
            live[i].savedAt >= live[j].savedAt && live[i] in saved && live[i].userId == userId
  {
  }

  /**
   * `editComment`: 400 when the id does not cast, 404 when missing, 403 unless the author;
   * then content the schema refuses (empty, over 500 characters) ends in 500.
   */
  method EditComment(db: Database, commentId: Id, userId: Id, content: string) returns (status: nat)
    requires PostsValid(db.posts, db.comments)
    modifies db`comments
    ensures PostsValid(db.posts, db.comments)
    ensures status == 400 <==> !ValidObjectId(commentId)
    ensures status == 404 <==> ValidObjectId(commentId) && commentId !in old(db.comments)
    ensures status == 403 <==> ValidObjectId(commentId) && commentId in old(db.comments)
                               && old(db.comments)[commentId].userId != userId
    ensures status == 500 <==> ValidObjectId(commentId) && commentId in old(db.comments)
                               && old(db.comments)[commentId].userId == userId
                               && !(1 <= |content| <= MaxCommentLength)
    ensures status != 200 ==> db.comments == old(db.comments)
    ensures status == 200 ==>
              db.comments == old(db.comments)[commentId := old(db.comments)[commentId].(content := content)]
  {
    if !ValidObjectId(commentId) {
      return 400;
    }
    if commentId !in db.comments {
      return 404;
    }
    var comment := db.comments[commentId];
    if comment.userId != userId {
      return 403;
    }
    comment := comment.(content := content);
    if !CommentValid(comment) {
      return 500;
    }
    db.comments := db.comments[commentId := comment];
    return 200;
  }

  /** Who may delete a comment: its author or the owner of its post. */
  predicate MayDeleteComment(c: Comment, post: Post, userId: Id)
  {
    c.userId == userId || post.userId == userId
  }

  /** The post after `$pull` of one of its comments. */
  function Unlisted(post: Post, commentId: Id): Post
  {
    post.(comments := Seqs.RemoveAll(post.comments, commentId))
  }

  /**
   * Deleting a comment and pulling its id from its own post keeps the invariant, and then no
   * post lists the comment: only its own post ever did.
   */
  lemma RemoveCommentKeepsValid(posts: map<Id, Post>, comments: map<Id, Comment>, commentId: Id)
    requires PostsValid(posts, comments)
    requires commentId in comments && comments[commentId].postId in posts
    ensures var pid := comments[commentId].postId;
            var posts' := posts[pid := Unlisted(posts[pid], commentId)];
            PostsValid(posts', comments - {commentId})
            && forall q :: q in posts' ==> commentId !in posts'[q].comments
  {
    var pid := comments[commentId].postId;
    var posts' := posts[pid := Unlisted(posts[pid], commentId)];
    var comments' := comments - {commentId};
    forall q, c | q in posts' && c in posts'[q].comments
      ensures c in comments' && comments'[c].postId == q
    {
      if q == pid {
        assert c in posts[pid].comments && c != commentId;
      } else {
        assert c in posts[q].comments;
        assert c != commentId;
      }
    }
  }

  /**
   * `deleteComment`: 400, 404 for the comment, 404 for its post, 403 unless author or post
   * owner; then the comment goes and its id is pulled from the post.
   */
  method DeleteComment(db: Database, commentId: Id, userId: Id) returns (status: nat)
    requires PostsValid(db.posts, db.comments)
    modifies db`posts, db`comments
    ensures PostsValid(db.posts, db.comments)
    ensures status == 400 <==> !ValidObjectId(commentId)
    ensures status == 404 <==> ValidObjectId(commentId)
                               && (commentId !in old(db.comments) || old(db.comments)[commentId].postId !in old(db.posts))
    ensures status == 403 <==> ValidObjectId(commentId) && commentId in old(db.comments)
                               && old(db.comments)[commentId].postId in old(db.posts)
                               && !MayDeleteComment(old(db.comments)[commentId], old(db.posts)[old(db.comments)[commentId].postId], userId)
    ensures status != 200 ==> db.posts == old(db.posts) && db.comments == old(db.comments)
    ensures status == 200 ==>
              var pid := old(db.comments)[commentId].postId;
              var post := old(db.posts)[pid];
              db.comments == old(db.comments) - {commentId}
              && db.posts == old(db.posts)[pid := Unlisted(post, commentId)]
              && forall q :: q in db.posts ==> commentId !in db.posts[q].comments
  {
    if !ValidObjectId(commentId) {
      return 400;
    }
    if commentId !in db.comments {
      return 404;
    }
    var comment := db.comments[commentId];
    if comment.postId !in db.posts {
      return 404;
    }
    var post := db.posts[comment.postId];
    if !MayDeleteComment(comment, post, userId) {
      return 403;
    }
    RemoveCommentKeepsValid(db.posts, db.comments, commentId);
    db.comments := db.comments - {commentId};
    db.posts := db.posts[comment.postId := Unlisted(post, commentId)];
    return 200;
  }
}
