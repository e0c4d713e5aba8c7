/** The rows and projections of the data model (the model and entity packages,
    and the response types of the dto packages). Timestamps, the privacy flag
    and the GORM association slices are not modelled: the associations are
    computed from the edge tables by the queries in Store. */
module Entities {

  /** A row of the users table. `password` holds the password digest. */
  datatype User = User(
    id: nat,
    username: string,
    fullName: string,
    email: string,
    password: string,
    bio: string,
    gender: string,
    profilePicture: string)

  /** The zero value of User: what GORM leaves in an association whose row
      does not exist. */
  const ZeroUser: User := User(0, "", "", "", "", "", "", "")

  /** A row of the posts table; the two counters are the denormalised
      numbers of view and like edges. */
  datatype Post = Post(
    id: nat,
    userId: nat,
    image: string,
    caption: string,
    viewersCount: int,
    likesCount: int)

  /** A row of user_followers: the account `followerId` follows the account
      `userId`. */
  datatype FollowEdge = FollowEdge(userId: nat, followerId: nat)

  /** A row of user_viewed_posts or user_liked_posts: account `userId`
      viewed (or liked) post `postId`. */
  datatype PostEdge = PostEdge(userId: nat, postId: nat)

  /** A row of the comments table (app tree only). */
  datatype Comment = Comment(id: nat, postId: nat, userId: nat, content: string)

  /** A post as the queries load it: the row with its `User` association
      (the owner) preloaded. */
  datatype PostWithOwner = PostWithOwner(post: Post, owner: User)

  datatype PreviewUser = PreviewUser(id: nat, username: string, profilePicture: string)

  datatype PostWithUser = PostWithUser(
    id: nat,
    image: string,
    caption: string,
    user: PreviewUser,
    viewersCount: int,
    likesCount: int)

  datatype PreviewComment = PreviewComment(id: nat, content: string, user: PreviewUser)

  datatype UserProfileWithConnection = UserProfileWithConnection(
    id: nat,
    username: string,
    fullName: string,
    bio: string,
    profilePicture: string,
    followers: nat,
    following: nat)

  /** What the file-upload collaborator gives back for one file: the stored
      path, or the reason it failed. */
  datatype Upload = Uploaded(path: string) | UploadFailed(reason: string)

  /** The lightweight account projection used by every listing. */
  function Preview(u: User): PreviewUser {
    PreviewUser(u.id, u.username, u.profilePicture)
  }
}
