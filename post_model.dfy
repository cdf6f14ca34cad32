/**
 * The post, comment and saved-post documents (server/Models/postModel.js, commentModel.js,
 * savedPostModel.js) as the post controller reads and writes them.
 */
module PostModel {
  import opened Wrappers
  import opened Ids

  /** A post; its id is its key in the collection. `likes` and `comments` hold ids. */
  datatype Post = Post(
    userId: Id,
    desc: Option<string>,
    image: Option<string>,
    likes: seq<Id>,
    comments: seq<Id>,
    tags: seq<string>,
    createdAt: nat)

  /** The only required path of a post. */
  predicate PostValid(p: Post)
  {
    p.userId != ""
  }

  /** A comment document; its id is its key in the collection. */
  datatype Comment = Comment(userId: Id, postId: Id, content: string)

  /** The longest comment `content` the schema accepts. */
  const MaxCommentLength: nat := 500

  /** `userId` required, `postId` an ObjectId, `content` required with length 1 to 500. */
  predicate CommentValid(c: Comment)
  {
    c.userId != "" && ValidObjectId(c.postId) && 1 <= |c.content| <= MaxCommentLength
  }

  /** One bookmark of a post by a user; `savedAt` defaults to the time of saving. */
  datatype SavedPost = SavedPost(id: Id, userId: Id, postId: Id, savedAt: nat)
}
