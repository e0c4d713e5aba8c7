/** pkg/util/DataFormat.go: turning loaded posts into the PostWithUser
    records every post listing returns. */
module DataFormat {
  import opened Entities

  /** The record built for one loaded post. */
  function Display(p: PostWithOwner): PostWithUser {
    PostWithUser(p.post.id, p.post.image, p.post.caption, Preview(p.owner),
                 p.post.viewersCount, p.post.likesCount)
  }

  /** The records built for a list of loaded posts, in the same order. */
  function DisplayAll(posts: seq<PostWithOwner>): seq<PostWithUser> {
    seq(|posts|, i requires 0 <= i < |posts| => Display(posts[i]))
  }

  /** ConvertToUserPosts: one output per input post, at the same position,
      copying the post's fields and previewing its owner. */
  method ConvertToUserPosts(posts: seq<PostWithOwner>) returns (displayPosts: seq<PostWithUser>)
    ensures |displayPosts| == |posts|
    ensures forall i :: 0 <= i < |posts| ==>
      && displayPosts[i].id == posts[i].post.id
      && displayPosts[i].image == posts[i].post.image
      && displayPosts[i].caption == posts[i].post.caption
      && displayPosts[i].viewersCount == posts[i].post.viewersCount
      && displayPosts[i].likesCount == posts[i].post.likesCount
      && displayPosts[i].user == PreviewUser(posts[i].owner.id, posts[i].owner.username, posts[i].owner.profilePicture)
    ensures displayPosts == DisplayAll(posts)
  {
    displayPosts := [];
    for k := 0 to |posts|
      invariant |displayPosts| == k
      invariant forall i :: 0 <= i < k ==> displayPosts[i] == Display(posts[i])
    {
      var post := posts[k];
      var previewUser := PreviewUser(post.owner.id, post.owner.username, post.owner.profilePicture);
      var newDisplayPost := PostWithUser(post.post.id, post.post.image, post.post.caption, previewUser,
                                         post.post.viewersCount, post.post.likesCount);
      displayPosts := displayPosts + [newDisplayPost];
    }
  }
}
