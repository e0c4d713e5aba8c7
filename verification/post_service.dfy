/** The post interaction service (app/service/post_service.go and its twin
    internal/service/post_service.go, which is the same code without the
    comment operations). Each mutating operation is specified by a step
    function on Tables; the class PostService performs it on the shared
    Database and is proved to agree with that function. */
module PostService {
  import opened Entities
  import opened Errors
  import opened Store
  import opened DataFormat

  // =====================================================================
  // State transitions
  // =====================================================================

  /** `post.ViewersCount += delta` followed by `tx.Save(&post)`. */
  function BumpViewers(posts: seq<Post>, i: nat, delta: int): seq<Post>
    requires i < |posts|
  {
    posts[i := posts[i].(viewersCount := posts[i].viewersCount + delta)]
  }

  /** `post.LikesCount += delta` followed by `tx.Save(&post)`. */
  function BumpLikes(posts: seq<Post>, i: nat, delta: int): seq<Post>
    requires i < |posts|
  {
    posts[i := posts[i].(likesCount := posts[i].likesCount + delta)]
  }

  /** CreatePost: store the uploaded image, then insert a post owned by the
      caller with both counters at zero. */
  function CreatePostStep(t: Tables, userId: nat, caption: string, upload: Upload): Transition {
    match upload
    case UploadFailed(reason) =>
      Transition(Fail(ServiceError(UploadFileError, Text(reason))), t)
    case Uploaded(path) =>
      Transition(Ok, t.(posts := t.posts + [Post(t.nextPostId, userId, path, caption, 0, 0)],
                        nextPostId := t.nextPostId + 1))
  }

  /** ViewPost: both rows must exist; the first view by this account writes
      the edge and raises `ViewersCount`, a repeated view writes nothing. */
  function ViewPostStep(t: Tables, userId: nat, postId: nat): Transition {
    if FindUser(t.users, userId).None? then
      Transition(Fail(ServiceError(ValueDoesntExist, Text("user not found"))), t)
    else match FindPost(t.posts, postId)
      case None =>
        Transition(Fail(ServiceError(ValueDoesntExist, Text("post not found"))), t)
      case Some(i) =>
        if PairCount(t.views, userId, postId) == 0 then
          Transition(Ok, t.(views := t.views + [PostEdge(userId, postId)],
                            posts := BumpViewers(t.posts, i, 1)))
        else
          Transition(Ok, t)
  }

  /** LikePost: a missing row is reported as a database error carrying
      GORM's "record not found"; liking twice is a silent success. */
  function LikePostStep(t: Tables, userId: nat, postId: nat): Transition {
    if FindUser(t.users, userId).None? then
      Transition(Fail(ServiceError(DatabaseError, RecordNotFound)), t)
    else match FindPost(t.posts, postId)
      case None =>
        Transition(Fail(ServiceError(DatabaseError, RecordNotFound)), t)
      case Some(i) =>
        if PairCount(t.likes, userId, postId) == 0 then
          Transition(Ok, t.(likes := t.likes + [PostEdge(userId, postId)],
                            posts := BumpLikes(t.posts, i, 1)))
        else
          Transition(Ok, t)
  }

  /** UnLikePost: deletes every like row of the pair and lowers
      `LikesCount` by one; unliking what is not liked is a silent success. */
  function UnLikePostStep(t: Tables, userId: nat, postId: nat): Transition {
    if FindUser(t.users, userId).None? then
      Transition(Fail(ServiceError(DatabaseError, RecordNotFound)), t)
    else match FindPost(t.posts, postId)
      case None =>
        Transition(Fail(ServiceError(DatabaseError, RecordNotFound)), t)
      case Some(i) =>
        if PairCount(t.likes, userId, postId) != 0 then
          Transition(Ok, t.(likes := Without(t.likes, PostEdge(userId, postId)),
                            posts := BumpLikes(t.posts, i, -1)))
        else
          Transition(Ok, t)
  }

  /** CreateCommentPost (app tree): a missing post or author is a database
      error; otherwise one comment row is inserted. */
  function CreateCommentPostStep(t: Tables, postId: nat, userId: nat, content: string): Transition {
    if FindPost(t.posts, postId).None? || FindUser(t.users, userId).None? then
      Transition(Fail(ServiceError(DatabaseError, RecordNotFound)), t)
    else
      Transition(Ok, t.(comments := t.comments + [Comment(t.nextCommentId, postId, userId, content)],
                        nextCommentId := t.nextCommentId + 1))
  }

  /** DeletePostComment (app tree): `Delete(&Comment{}, id)` removes the row
      if there is one and reports no error when there is none, so the
      source's "comment not found" branch is never taken. */
  function DeletePostCommentStep(t: Tables, commentId: nat): Transition {
    Transition(Ok, t.(comments := CommentsWithoutId(t.comments, commentId)))
  }

  // =====================================================================
  // Queries
  // =====================================================================

  /** The `Limit(10)` of the popularity fallback. */
  const FeedLimit: nat := 10

  /** A post with the largest `ViewersCount` (the earliest of equals). */
  function MaxViewsIndex(posts: seq<Post>): (m: nat)
    requires |posts| > 0
    ensures m < |posts|
    ensures forall j :: 0 <= j < |posts| ==> posts[j].viewersCount <= posts[m].viewersCount
  {
    if |posts| == 1 then 0
    else
      var m := MaxViewsIndex(posts[..|posts| - 1]);
      if posts[|posts| - 1].viewersCount > posts[m].viewersCount then |posts| - 1 else m
  }

  /** The posts without the one at index m. */
  function RemoveAt(posts: seq<Post>, m: nat): (r: seq<Post>)
    requires m < |posts|
    ensures |r| == |posts| - 1
    ensures multiset(posts) == multiset(r) + multiset{posts[m]}
  {
    assert posts == posts[..m] + [posts[m]] + posts[m + 1..];
    posts[..m] + posts[m + 1..]
  }

  /** `Order("viewers_count DESC").Limit(n)`: the n most viewed posts, most
      viewed first. */
  function TopByViews(posts: seq<Post>, n: nat): (r: seq<Post>)
    ensures |r| == if n < |posts| then n else |posts|
    ensures multiset(r) <= multiset(posts)
    decreases n
  {
    if n == 0 || |posts| == 0 then []
    else
      var m := MaxViewsIndex(posts);
      [posts[m]] + TopByViews(RemoveAt(posts, m), n - 1)
  }

  /** Non-increasing `ViewersCount` along the sequence. */
  ghost predicate DescendingByViews(s: seq<Post>) {
    forall i, j :: 0 <= i < j < |s| ==> s[i].viewersCount >= s[j].viewersCount
  }

  /** No post of `all` that `chosen` leaves out has more views than a post
      `chosen` includes. */
  ghost predicate NoneLeftOutViewedMore(all: seq<Post>, chosen: seq<Post>) {
    forall q :: q in all && q !in chosen ==> ViewedAtMostAll(q.viewersCount, chosen)
  }

  ghost predicate ViewedAtMostAll(views: int, chosen: seq<Post>) {
    forall k :: 0 <= k < |chosen| ==> views <= chosen[k].viewersCount
  }

  /** No post has more views than the one MaxViewsIndex picks. */
  lemma MaxViewsBound(posts: seq<Post>, q: Post)
    requires q in posts
    ensures q.viewersCount <= posts[MaxViewsIndex(posts)].viewersCount
  {
    var j :| 0 <= j < |posts| && posts[j] == q;
  }

  /** The ids collected from the caller's view rows, in row order. */
  function ViewedPostIds(viewed: seq<PostEdge>): seq<nat> {
    seq(|viewed|, i requires 0 <= i < |viewed| => viewed[i].postId)
  }

  /** The posts GetUserFeed selects: those the account viewed if it viewed
      any, otherwise the ten most viewed. */
  function FeedPosts(t: Tables, userId: nat): seq<Post> {
    var viewed := EdgesByUser(t.views, userId);
    if |viewed| > 0 then PostsWithIds(t.posts, ViewedPostIds(viewed))
    else TopByViews(t.posts, FeedLimit)
  }

  /** `Preload("User")`: each post with its owner. */
  function UserFeed(t: Tables, userId: nat): seq<PostWithUser> {
    DisplayAll(WithOwners(t.users, FeedPosts(t, userId)))
  }

  /** One preview per edge, of the edge's account. */
  function UserPreviews(users: seq<User>, edges: seq<PostEdge>): seq<PreviewUser> {
    seq(|edges|, i requires 0 <= i < |edges| => Preview(UserOrZero(users, edges[i].userId)))
  }

  /** GetViewersOnPost: nothing for a missing post. */
  function ViewersOnPost(t: Tables, postId: nat): seq<PreviewUser> {
    if FindPost(t.posts, postId).None? then [] else UserPreviews(t.users, EdgesOnPost(t.views, postId))
  }

  /** GetUserWhoLikedPost: nothing for a missing post. */
  function LikersOfPost(t: Tables, postId: nat): seq<PreviewUser> {
    if FindPost(t.posts, postId).None? then [] else UserPreviews(t.users, EdgesOnPost(t.likes, postId))
  }

  function CommentPreview(users: seq<User>, c: Comment): PreviewComment {
    PreviewComment(c.id, c.content, Preview(UserOrZero(users, c.userId)))
  }

  function CommentPreviews(users: seq<User>, comments: seq<Comment>): seq<PreviewComment> {
    seq(|comments|, i requires 0 <= i < |comments| => CommentPreview(users, comments[i]))
  }

  /** GetPostComments: a missing post is a database error. */
  function PostComments(t: Tables, postId: nat): Result<seq<PreviewComment>> {
    if FindPost(t.posts, postId).None? then Failure(ServiceError(DatabaseError, RecordNotFound))
    else Success(CommentPreviews(t.users, CommentsOnPost(t.comments, postId)))
  }

  // =====================================================================
  // The invariant is preserved
  // =====================================================================

  lemma BumpKeepsIds(posts: seq<Post>, i: nat, delta: int)
    requires i < |posts|
    ensures SameIds(posts, BumpViewers(posts, i, delta))
    ensures SameIds(posts, BumpLikes(posts, i, delta))
  {
  }

  /** Writing a fresh view edge and bumping its post's counter keeps the
      invariant. */
  lemma {:induction false} AddViewKeepsInvariant(t: Tables, i: nat, e: PostEdge)
    requires Invariant(t) && i < |t.posts| && t.posts[i].id == e.postId && e !in t.views
    ensures Invariant(t.(views := t.views + [e], posts := BumpViewers(t.posts, i, 1)))
  {
    var posts', views' := BumpViewers(t.posts, i, 1), t.views + [e];
    BumpKeepsIds(t.posts, i, 1);
    SameIdsKeepReferences(t.views, t.posts, posts');
    SameIdsKeepReferences(t.likes, t.posts, posts');
    assert HasPost(posts', e.postId) by { assert posts'[i].id == e.postId; }
    assert NoDuplicates(views') by {
      forall x ensures multiset(views')[x] <= 1 {
        assert multiset(views')[x] == multiset(t.views)[x] + (if x == e then 1 else 0);
      }
    }
    forall k | 0 <= k < |posts'|
      ensures posts'[k].viewersCount == |EdgesOnPost(views', posts'[k].id)|
    {
      EdgesOnPostAppend(t.views, e, posts'[k].id);
    }
  }

  lemma {:induction false} AddLikeKeepsInvariant(t: Tables, i: nat, e: PostEdge)
    requires Invariant(t) && i < |t.posts| && t.posts[i].id == e.postId && e !in t.likes
    ensures Invariant(t.(likes := t.likes + [e], posts := BumpLikes(t.posts, i, 1)))
  {
    var posts', likes' := BumpLikes(t.posts, i, 1), t.likes + [e];
    BumpKeepsIds(t.posts, i, 1);
    SameIdsKeepReferences(t.views, t.posts, posts');
    SameIdsKeepReferences(t.likes, t.posts, posts');
    assert HasPost(posts', e.postId) by { assert posts'[i].id == e.postId; }
    assert NoDuplicates(likes') by {
      forall x ensures multiset(likes')[x] <= 1 {
        assert multiset(likes')[x] == multiset(t.likes)[x] + (if x == e then 1 else 0);
      }
    }
    forall k | 0 <= k < |posts'|
      ensures posts'[k].likesCount == |EdgesOnPost(likes', posts'[k].id)|
    {
      EdgesOnPostAppend(t.likes, e, posts'[k].id);
    }
  }

  /** Deleting a like edge leaves every remaining edge pointing at a post. */
  lemma WithoutKeepsReferences(edges: seq<PostEdge>, posts: seq<Post>, e: PostEdge)
    requires EdgesReferencePosts(edges, posts)
    ensures EdgesReferencePosts(Without(edges, e), posts)
  {
    forall x | x in Without(edges, e) ensures HasPost(posts, x.postId) {
      assert x in multiset(Without(edges, e));
    }
  }

  lemma {:induction false} RemoveLikeKeepsCounters(posts: seq<Post>, likes: seq<PostEdge>, i: nat, e: PostEdge)
    requires LikeCountersMatch(posts, likes) && NoDuplicates(likes)
    requires i < |posts| && posts[i].id == e.postId && e in likes
    requires forall k, j :: 0 <= k < j < |posts| ==> posts[k].id < posts[j].id
    ensures LikeCountersMatch(BumpLikes(posts, i, -1), Without(likes, e))
  {
    var posts', likes' := BumpLikes(posts, i, -1), Without(likes, e);
    assert multiset(likes)[e] == 1 by { assert e in multiset(likes); }
    forall k | 0 <= k < |posts'|
      ensures posts'[k].likesCount == |EdgesOnPost(likes', posts'[k].id)|
    {
      EdgesOnPostWithout(likes, e, posts'[k].id);
      if k != i {
        assert posts[k].id != posts[i].id by {
          if k < i { assert posts[k].id < posts[i].id; } else { assert posts[i].id < posts[k].id; }
        }
      }
    }
  }

  lemma {:induction false} RemoveLikeKeepsInvariant(t: Tables, i: nat, e: PostEdge)
    requires Invariant(t) && i < |t.posts| && t.posts[i].id == e.postId && e in t.likes
    ensures Invariant(t.(likes := Without(t.likes, e), posts := BumpLikes(t.posts, i, -1)))
  {
    var posts', likes' := BumpLikes(t.posts, i, -1), Without(t.likes, e);
    BumpKeepsIds(t.posts, i, -1);
    SameIdsKeepReferences(t.views, t.posts, posts');
    WithoutKeepsReferences(t.likes, t.posts, e);
    SameIdsKeepReferences(likes', t.posts, posts');
    RemoveLikeKeepsCounters(t.posts, t.likes, i, e);
    assert NoDuplicates(likes') by {
      forall x ensures multiset(likes')[x] <= 1 {
        assert multiset(likes')[x] <= multiset(t.likes)[x];
      }
    }
  }

  /** A new post is never the target of an existing edge, so its zero
      counters agree with the edge tables. */
  lemma {:induction false} AppendPostKeepsCounters(t: Tables, p: Post)
    requires Invariant(t) && p.id == t.nextPostId && p.viewersCount == 0 && p.likesCount == 0
    ensures ViewCountersMatch(t.posts + [p], t.views)
    ensures LikeCountersMatch(t.posts + [p], t.likes)
  {
    NewPostHasNoEdges(t.views, t.posts, t.nextPostId, p.id);
    NewPostHasNoEdges(t.likes, t.posts, t.nextPostId, p.id);
    var posts' := t.posts + [p];
    assert forall k :: 0 <= k < |t.posts| ==> posts'[k] == t.posts[k];
  }

  /** No edge points at the next post id: it belongs to no post yet. */
  lemma NewPostHasNoEdges(edges: seq<PostEdge>, posts: seq<Post>, next: nat, id: nat)
    requires EdgesReferencePosts(edges, posts) && PostIdsAscending(posts, next) && id == next
    ensures EdgesOnPost(edges, id) == []
  {
    forall e | e in edges ensures e.postId != id {
      var k :| 0 <= k < |posts| && posts[k].id == e.postId;
    }
    NoEdgesOnAbsentPost(edges, id);
  }

  lemma AppendPostKeepsReferences(edges: seq<PostEdge>, posts: seq<Post>, p: Post)
    requires EdgesReferencePosts(edges, posts)
    ensures EdgesReferencePosts(edges, posts + [p])
  {
    forall e | e in edges ensures HasPost(posts + [p], e.postId) {
      var k :| 0 <= k < |posts| && posts[k].id == e.postId;
      assert (posts + [p])[k] == posts[k];
    }
  }

  lemma CreatePostPreservesInvariant(t: Tables, userId: nat, caption: string, upload: Upload)
    requires Invariant(t)
    ensures Invariant(CreatePostStep(t, userId, caption, upload).after)
  {
    if upload.Uploaded? {
      var p := Post(t.nextPostId, userId, upload.path, caption, 0, 0);
      PostIdsAppend(t.posts, t.nextPostId, p);
      AppendPostKeepsCounters(t, p);
      AppendPostKeepsReferences(t.views, t.posts, p);
      AppendPostKeepsReferences(t.likes, t.posts, p);
    }
  }

  lemma ViewPostPreservesInvariant(t: Tables, userId: nat, postId: nat)
    requires Invariant(t)
    ensures Invariant(ViewPostStep(t, userId, postId).after)
  {
    if FindUser(t.users, userId).Some? && FindPost(t.posts, postId).Some?
       && PairCount(t.views, userId, postId) == 0 {
      AddViewKeepsInvariant(t, FindPost(t.posts, postId).value, PostEdge(userId, postId));
    }
  }

  lemma LikePostPreservesInvariant(t: Tables, userId: nat, postId: nat)
    requires Invariant(t)
    ensures Invariant(LikePostStep(t, userId, postId).after)
  {
    if FindUser(t.users, userId).Some? && FindPost(t.posts, postId).Some?
       && PairCount(t.likes, userId, postId) == 0 {
      AddLikeKeepsInvariant(t, FindPost(t.posts, postId).value, PostEdge(userId, postId));
    }
  }

  lemma UnLikePostPreservesInvariant(t: Tables, userId: nat, postId: nat)
    requires Invariant(t)
    ensures Invariant(UnLikePostStep(t, userId, postId).after)
  {
    if FindUser(t.users, userId).Some? && FindPost(t.posts, postId).Some?
       && PairCount(t.likes, userId, postId) != 0 {
      RemoveLikeKeepsInvariant(t, FindPost(t.posts, postId).value, PostEdge(userId, postId));
    }
  }

  lemma CreateCommentPostPreservesInvariant(t: Tables, postId: nat, userId: nat, content: string)
    requires Invariant(t)
    ensures Invariant(CreateCommentPostStep(t, postId, userId, content).after)
  {
    CommentIdsAppend(t.comments, t.nextCommentId, Comment(t.nextCommentId, postId, userId, content));
  }

  lemma {:induction false} DeletePostCommentPreservesInvariant(t: Tables, commentId: nat)
    requires Invariant(t)
    ensures Invariant(DeletePostCommentStep(t, commentId).after)
  {
    CommentsWithoutIdAscending(t.comments, commentId, t.nextCommentId);
  }

  lemma {:induction false} CommentsWithoutIdAscending(comments: seq<Comment>, id: nat, next: nat)
    requires CommentIdsAscending(comments, next)
    ensures CommentIdsAscending(CommentsWithoutId(comments, id), next)
    decreases |comments|
  {
    if |comments| > 0 {
      var init, last := comments[..|comments| - 1], comments[|comments| - 1];
      assert comments == init + [last];
      CommentsWithoutIdAscending(init, id, next);
      var r := CommentsWithoutId(init, id);
      forall c | c in r ensures c.id < last.id {
        var k :| 0 <= k < |init| && init[k] == c;
      }
    }
  }

  // =====================================================================
  // What each operation does
  // =====================================================================

  /** Raising a counter changes no id, so `First` finds the same row. */
  lemma FindPostSameIds(posts: seq<Post>, posts': seq<Post>, id: nat)
    requires SameIds(posts, posts')
    ensures FindPost(posts', id) == FindPost(posts, id)
  {
  }

  /** CreatePost: a failed upload is an `upload_file_error` and writes
      nothing; otherwise exactly one post is added, with a fresh id, the
      caller as owner and both counters at zero. */
  lemma CreatePostAddsOne(t: Tables, userId: nat, caption: string, upload: Upload)
    requires Invariant(t)
    ensures var r := CreatePostStep(t, userId, caption, upload);
      match upload
      case UploadFailed(reason) =>
        r == Transition(Fail(ServiceError(UploadFileError, Text(reason))), t)
      case Uploaded(path) =>
        && r.outcome == Ok
        && FindPost(t.posts, t.nextPostId) == None
        && r.after.posts == t.posts + [Post(t.nextPostId, userId, path, caption, 0, 0)]
        && FindPost(r.after.posts, t.nextPostId) == Some(|t.posts|)
        && r.after == t.(posts := r.after.posts, nextPostId := t.nextPostId + 1)
  {
    if upload.Uploaded? {
      var posts' := CreatePostStep(t, userId, caption, upload).after.posts;
      assert forall k :: 0 <= k < |t.posts| ==> posts'[k] == t.posts[k];
      assert posts'[|t.posts|].id == t.nextPostId;
      assert forall k :: 0 <= k < |t.posts| ==> posts'[k].id != t.nextPostId;
    }
  }

  /** ViewPost on a missing user or post: `value_doesnt_exist`, nothing
      written. These are the only failures. */
  lemma ViewPostRejectsMissing(t: Tables, userId: nat, postId: nat)
    ensures var r := ViewPostStep(t, userId, postId);
      && (r.outcome.Fail? <==> FindUser(t.users, userId).None? || FindPost(t.posts, postId).None?)
      && (r.outcome.Fail? ==> r.after == t && r.outcome.error.kind == ValueDoesntExist)
      && (FindUser(t.users, userId).None? ==> r.outcome.error.message == Text("user not found"))
      && (FindUser(t.users, userId).Some? && FindPost(t.posts, postId).None? ==>
            r.outcome.error.message == Text("post not found"))
  {
  }

  /** The first view of a post by an account writes exactly that one view
      edge and raises that post's `ViewersCount` by one; every other row and
      table stays as it was. */
  lemma {:induction false} ViewPostFirstView(t: Tables, userId: nat, postId: nat, i: nat)
    requires Invariant(t) && FindUser(t.users, userId).Some? && FindPost(t.posts, postId) == Some(i)
    requires PostEdge(userId, postId) !in t.views
    ensures var r := ViewPostStep(t, userId, postId);
      && r.outcome == Ok
      && r.after.views == t.views + [PostEdge(userId, postId)]
      && |EdgesOnPost(r.after.views, postId)| == |EdgesOnPost(t.views, postId)| + 1
      && r.after.posts[i] == t.posts[i].(viewersCount := t.posts[i].viewersCount + 1)
      && (forall k :: 0 <= k < |t.posts| && k != i ==> r.after.posts[k] == t.posts[k])
      && r.after == t.(views := r.after.views, posts := r.after.posts)
      && Invariant(r.after)
  {
    EdgesOnPostAppend(t.views, PostEdge(userId, postId), postId);
    ViewPostPreservesInvariant(t, userId, postId);
  }

  /** A repeated view succeeds and writes nothing. */
  lemma ViewPostRepeat(t: Tables, userId: nat, postId: nat)
    requires FindUser(t.users, userId).Some? && FindPost(t.posts, postId).Some?
    requires PostEdge(userId, postId) in t.views
    ensures ViewPostStep(t, userId, postId) == Transition(Ok, t)
  {
  }

  /** Viewing twice is viewing once. */
  lemma ViewPostIdempotent(t: Tables, userId: nat, postId: nat)
    ensures var once := ViewPostStep(t, userId, postId).after;
      ViewPostStep(once, userId, postId) == Transition(if ViewPostStep(t, userId, postId).outcome.Ok? then Ok else ViewPostStep(t, userId, postId).outcome, once)
  {
    var r := ViewPostStep(t, userId, postId);
    if r.after != t {
      var i := FindPost(t.posts, postId).value;
      BumpKeepsIds(t.posts, i, 1);
      FindPostSameIds(t.posts, r.after.posts, postId);
      assert PostEdge(userId, postId) in r.after.views;
    }
  }

  /** LikePost and UnLikePost on a missing user or post fail with
      `database_error` carrying "record not found", not with
      `value_doesnt_exist`, and write nothing. */
  lemma LikeRejectsMissing(t: Tables, userId: nat, postId: nat)
    requires FindUser(t.users, userId).None? || FindPost(t.posts, postId).None?
    ensures LikePostStep(t, userId, postId) == Transition(Fail(ServiceError(DatabaseError, RecordNotFound)), t)
    ensures UnLikePostStep(t, userId, postId) == Transition(Fail(ServiceError(DatabaseError, RecordNotFound)), t)
  {
  }

  /** A first like writes one like edge and raises `LikesCount` by one; a
      second like is a silent success that writes nothing. */
  lemma LikePostOnce(t: Tables, userId: nat, postId: nat, i: nat)
    requires FindUser(t.users, userId).Some? && FindPost(t.posts, postId) == Some(i)
    ensures var r := LikePostStep(t, userId, postId);
      && r.outcome == Ok
      && (PostEdge(userId, postId) in t.likes ==> r.after == t)
      && (PostEdge(userId, postId) !in t.likes ==>
            && r.after.likes == t.likes + [PostEdge(userId, postId)]
            && |EdgesOnPost(r.after.likes, postId)| == |EdgesOnPost(t.likes, postId)| + 1
            && r.after.posts[i] == t.posts[i].(likesCount := t.posts[i].likesCount + 1)
            && (forall k :: 0 <= k < |t.posts| && k != i ==> r.after.posts[k] == t.posts[k])
            && r.after == t.(likes := r.after.likes, posts := r.after.posts))
  {
    EdgesOnPostAppend(t.likes, PostEdge(userId, postId), postId);
  }

  /** An unlike of a liked post deletes its like edge and lowers
      `LikesCount` by one; an unlike of a post not liked is a silent success
      that writes nothing. */
  lemma UnLikePostOnce(t: Tables, userId: nat, postId: nat, i: nat)
    requires FindUser(t.users, userId).Some? && FindPost(t.posts, postId) == Some(i)
    ensures var r := UnLikePostStep(t, userId, postId);
      && r.outcome == Ok
      && (PostEdge(userId, postId) !in t.likes ==> r.after == t)
      && (PostEdge(userId, postId) in t.likes ==>
            && multiset(r.after.likes) == multiset(t.likes)[PostEdge(userId, postId) := 0]
            && r.after.posts[i] == t.posts[i].(likesCount := t.posts[i].likesCount - 1)
            && (forall k :: 0 <= k < |t.posts| && k != i ==> r.after.posts[k] == t.posts[k])
            && r.after == t.(likes := r.after.likes, posts := r.after.posts))
  {
    if PostEdge(userId, postId) in t.likes {
      UnLikeWrites(t, userId, postId, i);
    }
  }

  /** When the pair is liked once, as the invariant guarantees, the unlike
      leaves the post with exactly one like edge fewer. */
  lemma UnLikePostDropsOneEdge(t: Tables, userId: nat, postId: nat, i: nat)
    requires multiset(t.likes)[PostEdge(userId, postId)] <= 1
    requires FindUser(t.users, userId).Some? && FindPost(t.posts, postId) == Some(i)
    requires PostEdge(userId, postId) in t.likes
    ensures |EdgesOnPost(UnLikePostStep(t, userId, postId).after.likes, postId)| == |EdgesOnPost(t.likes, postId)| - 1
  {
    var e := PostEdge(userId, postId);
    UnLikeWrites(t, userId, postId, i);
    assert multiset(t.likes)[e] == 1 by { assert e in multiset(t.likes); }
    EdgesOnPostWithout(t.likes, e, postId);
  }

  /** The rows UnLikePost writes when the pair is liked. */
  lemma UnLikeWrites(t: Tables, userId: nat, postId: nat, i: nat)
    requires FindUser(t.users, userId).Some? && FindPost(t.posts, postId) == Some(i)
    requires PostEdge(userId, postId) in t.likes
    ensures UnLikePostStep(t, userId, postId)
         == Transition(Ok, t.(likes := Without(t.likes, PostEdge(userId, postId)), posts := BumpLikes(t.posts, i, -1)))
  {
    assert PostEdge(userId, postId) in multiset(t.likes);
  }

  /** A like followed by an unlike restores the like edges and every post,
      `LikesCount` included. */
  lemma {:induction false} LikeThenUnlikeRestores(t: Tables, userId: nat, postId: nat)
    requires FindUser(t.users, userId).Some? && FindPost(t.posts, postId).Some?
    requires PostEdge(userId, postId) !in t.likes
    ensures var liked := LikePostStep(t, userId, postId).after;
      UnLikePostStep(liked, userId, postId) == Transition(Ok, t)
  {
    var e := PostEdge(userId, postId);
    var i := FindPost(t.posts, postId).value;
    var liked := LikePostStep(t, userId, postId).after;
    BumpKeepsIds(t.posts, i, 1);
    FindPostSameIds(t.posts, liked.posts, postId);
    assert e in liked.likes;
    WithoutAppendAbsent(t.likes, e);
    assert BumpLikes(liked.posts, i, -1) == t.posts;
  }

  /** One like or unlike request from the HTTP layer. */
  datatype LikeRequest = Like(userId: nat, postId: nat) | Unlike(userId: nat, postId: nat)

  /** The store after serving the requests in order. */
  function RunLikeRequests(t: Tables, requests: seq<LikeRequest>): Tables
    decreases |requests|
  {
    if |requests| == 0 then t
    else
      var after := match requests[0]
        case Like(u, p) => LikePostStep(t, u, p).after
        case Unlike(u, p) => UnLikePostStep(t, u, p).after;
      RunLikeRequests(after, requests[1..])
  }

  /** Whatever likes and unlikes arrive, every post's `LikesCount` stays
      equal to the number of its like edges. */
  lemma {:induction false} LikeRequestsKeepCounters(t: Tables, requests: seq<LikeRequest>)
    requires Invariant(t)
    ensures LikeCountersMatch(RunLikeRequests(t, requests).posts, RunLikeRequests(t, requests).likes)
    ensures Invariant(RunLikeRequests(t, requests))
    decreases |requests|
  {
    if |requests| > 0 {
      match requests[0]
      case Like(u, p) =>
        LikePostPreservesInvariant(t, u, p);
        LikeRequestsKeepCounters(LikePostStep(t, u, p).after, requests[1..]);
      case Unlike(u, p) =>
        UnLikePostPreservesInvariant(t, u, p);
        LikeRequestsKeepCounters(UnLikePostStep(t, u, p).after, requests[1..]);
    }
  }

  /** CreateCommentPost on a missing post or author is a `database_error`
      that writes nothing; otherwise the new comment is the last one listed
      for the post, after the ones that were there. */
  lemma {:induction false} CreateCommentThenListed(t: Tables, postId: nat, userId: nat, content: string)
    ensures var r := CreateCommentPostStep(t, postId, userId, content);
      && (FindPost(t.posts, postId).None? || FindUser(t.users, userId).None? ==>
            r == Transition(Fail(ServiceError(DatabaseError, RecordNotFound)), t))
      && (FindPost(t.posts, postId).Some? && FindUser(t.users, userId).Some? ==>
            && r.outcome == Ok
            && PostComments(r.after, postId)
               == Success(CommentPreviews(t.users, CommentsOnPost(t.comments, postId))
                          + [CommentPreview(t.users, Comment(t.nextCommentId, postId, userId, content))]))
  {
    var c := Comment(t.nextCommentId, postId, userId, content);
    assert (t.comments + [c])[..|t.comments|] == t.comments;
    assert CommentsOnPost(t.comments + [c], postId) == CommentsOnPost(t.comments, postId) + [c];
    CommentPreviewsAppend(t.users, CommentsOnPost(t.comments, postId), c);
  }

  lemma CommentPreviewsAppend(users: seq<User>, comments: seq<Comment>, c: Comment)
    ensures CommentPreviews(users, comments + [c]) == CommentPreviews(users, comments) + [CommentPreview(users, c)]
  {
    assert forall k :: 0 <= k < |comments| ==> (comments + [c])[k] == comments[k];
  }

  /** DeletePostComment always succeeds: the comment with the id is gone
      and every other comment stays; with no such comment nothing changes. */
  lemma {:induction false} DeleteCommentOutcome(t: Tables, commentId: nat)
    ensures var r := DeletePostCommentStep(t, commentId);
      && r.outcome == Ok
      && (forall c :: c in r.after.comments <==> c in t.comments && c.id != commentId)
      && ((forall c :: c in t.comments ==> c.id != commentId) ==> r.after == t)
  {
    if forall c :: c in t.comments ==> c.id != commentId {
      CommentsWithoutAbsent(t.comments, commentId);
    }
  }

  lemma {:induction false} CommentsWithoutAbsent(comments: seq<Comment>, id: nat)
    requires forall c :: c in comments ==> c.id != id
    ensures CommentsWithoutId(comments, id) == comments
    decreases |comments|
  {
    if |comments| > 0 {
      var init := comments[..|comments| - 1];
      assert comments == init + [comments[|comments| - 1]];
      CommentsWithoutAbsent(init, id);
    }
  }

  /** The viewers listed for a post number exactly its `ViewersCount`, and
      the likers its `LikesCount`: one preview per edge, in edge order. A
      missing post lists nobody. */
  lemma ListingsMatchCounters(t: Tables, postId: nat)
    requires Invariant(t)
    ensures FindPost(t.posts, postId).None? ==> ViewersOnPost(t, postId) == [] && LikersOfPost(t, postId) == []
    ensures FindPost(t.posts, postId).Some? ==>
      && |ViewersOnPost(t, postId)| == t.posts[FindPost(t.posts, postId).value].viewersCount
      && |LikersOfPost(t, postId)| == t.posts[FindPost(t.posts, postId).value].likesCount
      && (forall k :: 0 <= k < |ViewersOnPost(t, postId)| ==>
            ViewersOnPost(t, postId)[k] == Preview(UserOrZero(t.users, EdgesOnPost(t.views, postId)[k].userId)))
  {
  }

  // =====================================================================
  // The feed
  // =====================================================================

  /** An account with view history gets exactly the stored posts it viewed. */
  lemma FeedFromHistory(t: Tables, userId: nat)
    requires EdgesByUser(t.views, userId) != []
    ensures forall p :: p in FeedPosts(t, userId) <==>
      p in t.posts && exists e :: e in t.views && e.userId == userId && e.postId == p.id
  {
    var viewed := EdgesByUser(t.views, userId);
    var ids := ViewedPostIds(viewed);
    forall id: nat ensures id in ids <==> exists e :: e in t.views && e.userId == userId && e.postId == id {
      if id in ids {
        var k :| 0 <= k < |ids| && ids[k] == id;
        assert viewed[k] in viewed;
      }
      if exists e :: e in t.views && e.userId == userId && e.postId == id {
        var e :| e in t.views && e.userId == userId && e.postId == id;
        var k :| 0 <= k < |viewed| && viewed[k] == e;
        assert ids[k] == id;
      }
    }
  }

  /** The most viewed post comes first, and so on: the fallback feed is in
      non-increasing `ViewersCount` order. */
  lemma {:induction false} TopByViewsDescending(posts: seq<Post>, n: nat)
    ensures DescendingByViews(TopByViews(posts, n))
    decreases n
  {
    if n > 0 && |posts| > 0 {
      var m := MaxViewsIndex(posts);
      var tail := TopByViews(RemoveAt(posts, m), n - 1);
      TopByViewsDescending(RemoveAt(posts, m), n - 1);
      TailBelowHead(posts, n);
      HeadThenDescending(posts[m], tail);
    }
  }

  /** Every post after the first pick has at most its views. */
  lemma TailBelowHead(posts: seq<Post>, n: nat)
    requires n > 0 && |posts| > 0
    ensures forall x :: x in TopByViews(RemoveAt(posts, MaxViewsIndex(posts)), n - 1) ==>
      x.viewersCount <= posts[MaxViewsIndex(posts)].viewersCount
  {
    var m := MaxViewsIndex(posts);
    var rest := RemoveAt(posts, m);
    forall x | x in TopByViews(rest, n - 1) ensures x.viewersCount <= posts[m].viewersCount {
      assert x in multiset(TopByViews(rest, n - 1));
      assert x in multiset(rest);
      assert x in multiset(posts);
      MaxViewsBound(posts, x);
    }
  }

  lemma HeadThenDescending(head: Post, tail: seq<Post>)
    requires DescendingByViews(tail)
    requires forall x :: x in tail ==> x.viewersCount <= head.viewersCount
    ensures DescendingByViews([head] + tail)
  {
    var r := [head] + tail;
    forall i, j | 0 <= i < j < |r| ensures r[i].viewersCount >= r[j].viewersCount {
      assert r[j] == tail[j - 1];
      if i > 0 { assert r[i] == tail[i - 1]; }
    }
  }

  /** No post left out of the fallback feed has more views than one in it. */
  lemma {:induction false} TopByViewsIsTop(posts: seq<Post>, n: nat)
    ensures NoneLeftOutViewedMore(posts, TopByViews(posts, n))
    decreases n
  {
    if n > 0 && |posts| > 0 {
      var m := MaxViewsIndex(posts);
      var rest := RemoveAt(posts, m);
      var tail := TopByViews(rest, n - 1);
      TopByViewsIsTop(rest, n - 1);
      ConsKeepsTop(posts, rest, posts[m], tail, TopByViews(posts, n));
    } else {
      NothingChosen(posts);
    }
  }

  lemma NothingChosen(all: seq<Post>)
    ensures NoneLeftOutViewedMore(all, [])
  {
    var none: seq<Post> := [];
    forall q | q in all && q !in none ensures ViewedAtMostAll(q.viewersCount, none) {
    }
  }

  /** Putting a post that bounds every other in front of a selection from
      the rest keeps every left-out post below every chosen one. */
  lemma ConsKeepsTop(all: seq<Post>, rest: seq<Post>, head: Post, tail: seq<Post>, chosen: seq<Post>)
    requires chosen == [head] + tail
    requires multiset(all) == multiset(rest) + multiset{head}
    requires forall j :: 0 <= j < |all| ==> all[j].viewersCount <= head.viewersCount
    requires NoneLeftOutViewedMore(rest, tail)
    ensures NoneLeftOutViewedMore(all, chosen)
  {
    var r := chosen;
    forall q | q in all && q !in r
      ensures ViewedAtMostAll(q.viewersCount, r)
    {
      assert q in rest by { assert q in multiset(all); }
      assert q !in tail;
      forall k | 0 <= k < |r| ensures q.viewersCount <= r[k].viewersCount {
        if k > 0 { assert r[k] == tail[k - 1]; }
      }
    }
  }

  /** An account without view history gets the `FeedLimit` most viewed
      posts (all of them if there are fewer), most viewed first. */
  lemma FeedWithoutHistory(t: Tables, userId: nat)
    requires EdgesByUser(t.views, userId) == []
    ensures var r := FeedPosts(t, userId);
      && |r| == (if |t.posts| < FeedLimit then |t.posts| else FeedLimit)
      && multiset(r) <= multiset(t.posts)
      && DescendingByViews(r)
      && NoneLeftOutViewedMore(t.posts, r)
  {
    TopByViewsDescending(t.posts, FeedLimit);
    TopByViewsIsTop(t.posts, FeedLimit);
  }

  // =====================================================================
  // The service
  // =====================================================================

  /** PostServiceImpl: the post operations on the shared database. */
  class PostService {
    const db: Database

    constructor (db: Database)
      ensures this.db == db
    {
      this.db := db;
    }

    method CreatePost(userId: nat, caption: string, upload: Upload) returns (r: Outcome)
      requires db.Valid()
      modifies db
      ensures db.Valid()
      ensures Transition(r, db.Snapshot()) == CreatePostStep(old(db.Snapshot()), userId, caption, upload)
    {
      ghost var t := db.Snapshot();
      CreatePostPreservesInvariant(t, userId, caption, upload);
      match upload {
        case UploadFailed(reason) =>
          return Fail(ServiceError(UploadFileError, Text(reason)));
        case Uploaded(path) =>
          db.CreatePost(Post(0, userId, path, caption, 0, 0));
          return Ok;
      }
    }

    method ViewPost(userId: nat, postId: nat) returns (r: Outcome)
      requires db.Valid()
      modifies db
      ensures db.Valid()
      ensures Transition(r, db.Snapshot()) == ViewPostStep(old(db.Snapshot()), userId, postId)
    {
      ghost var t := db.Snapshot();
      ViewPostPreservesInvariant(t, userId, postId);
      if FindUser(db.users, userId).None? {
        return Fail(ServiceError(ValueDoesntExist, Text("user not found")));
      }
      var found := FindPost(db.posts, postId);
      if found.None? {
        return Fail(ServiceError(ValueDoesntExist, Text("post not found")));
      }
      var countUserViewed := PairCount(db.views, userId, postId);
      if countUserViewed == 0 {
        ghost var after := t.(views := t.views + [PostEdge(userId, postId)], posts := BumpViewers(t.posts, found.value, 1));
        assert ViewPostStep(t, userId, postId) == Transition(Ok, after);
        var post := db.posts[found.value];
        post := post.(viewersCount := post.viewersCount + 1);
        db.CreateView(PostEdge(userId, postId));
        db.SavePost(found.value, post);
        assert db.Snapshot() == after;
        return Ok;
      }
      return Ok;
    }

    method LikePost(userId: nat, postId: nat) returns (r: Outcome)
      requires db.Valid()
      modifies db
      ensures db.Valid()
      ensures Transition(r, db.Snapshot()) == LikePostStep(old(db.Snapshot()), userId, postId)
    {
      ghost var t := db.Snapshot();
      LikePostPreservesInvariant(t, userId, postId);
      if FindUser(db.users, userId).None? {
        return Fail(ServiceError(DatabaseError, RecordNotFound));
      }
      var found := FindPost(db.posts, postId);
      if found.None? {
        return Fail(ServiceError(DatabaseError, RecordNotFound));
      }
      var countLikedPost := PairCount(db.likes, userId, postId);
      if countLikedPost == 0 {
        ghost var after := t.(likes := t.likes + [PostEdge(userId, postId)], posts := BumpLikes(t.posts, found.value, 1));
        assert LikePostStep(t, userId, postId) == Transition(Ok, after);
        var post := db.posts[found.value];
        post := post.(likesCount := post.likesCount + 1);
        db.CreateLike(PostEdge(userId, postId));
        db.SavePost(found.value, post);
        assert db.Snapshot() == after;
        return Ok;
      }
      return Ok;
    }

    method UnLikePost(userId: nat, postId: nat) returns (r: Outcome)
      requires db.Valid()
      modifies db
      ensures db.Valid()
      ensures Transition(r, db.Snapshot()) == UnLikePostStep(old(db.Snapshot()), userId, postId)
    {
      if FindUser(db.users, userId).None? {
        return Fail(ServiceError(DatabaseError, RecordNotFound));
      }
      var found := FindPost(db.posts, postId);
      if found.None? {
        return Fail(ServiceError(DatabaseError, RecordNotFound));
      }
      var countLikedPost := PairCount(db.likes, userId, postId);
      if countLikedPost != 0 {
        RemoveLike(userId, postId, found.value);
        return Ok;
      }
      return Ok;
    }

    /** The write branch of UnLikePost: delete the like rows, then save the
        post with `LikesCount` lowered by one. */
    method RemoveLike(userId: nat, postId: nat, i: nat)
      requires db.Valid()
      requires FindUser(db.users, userId).Some? && FindPost(db.posts, postId) == Some(i)
      requires PairCount(db.likes, userId, postId) != 0
      modifies db
      ensures db.Valid()
      ensures db.Snapshot() == UnLikePostStep(old(db.Snapshot()), userId, postId).after
    {
      ghost var t := db.Snapshot();
      UnLikePostPreservesInvariant(t, userId, postId);
      ghost var after := t.(likes := Without(t.likes, PostEdge(userId, postId)), posts := BumpLikes(t.posts, i, -1));
      assert UnLikePostStep(t, userId, postId).after == after;
      var post := db.posts[i];
      post := post.(likesCount := post.likesCount - 1);
      db.DeleteLike(PostEdge(userId, postId));
      db.SavePost(i, post);
      assert db.Snapshot() == after;
    }

    method CreateCommentPost(postId: nat, userId: nat, content: string) returns (r: Outcome)
      requires db.Valid()
      modifies db
      ensures db.Valid()
      ensures Transition(r, db.Snapshot()) == CreateCommentPostStep(old(db.Snapshot()), postId, userId, content)
    {
      ghost var t := db.Snapshot();
      CreateCommentPostPreservesInvariant(t, postId, userId, content);
      if FindPost(db.posts, postId).None? || FindUser(db.users, userId).None? {
        return Fail(ServiceError(DatabaseError, RecordNotFound));
      }
      db.CreateComment(Comment(0, postId, userId, content));
      return Ok;
    }

    method DeletePostComment(commentId: nat) returns (r: Outcome)
      requires db.Valid()
      modifies db
      ensures db.Valid()
      ensures Transition(r, db.Snapshot()) == DeletePostCommentStep(old(db.Snapshot()), commentId)
    {
      DeletePostCommentPreservesInvariant(db.Snapshot(), commentId);
      db.DeleteComment(commentId);
      return Ok;
    }

    /** GetUserFeed: collect the viewed post ids, then load those posts, or
        the most viewed ones when there are none. */
    method GetUserFeed(userId: nat) returns (feed: seq<PostWithUser>)
      ensures feed == UserFeed(db.Snapshot(), userId)
    {
      var userViewedPost := EdgesByUser(db.views, userId);
      var userPost: seq<Post>;
      if |userViewedPost| > 0 {
        var postIds: seq<nat> := [];
        for k := 0 to |userViewedPost|
          invariant |postIds| == k
          invariant forall j :: 0 <= j < k ==> postIds[j] == userViewedPost[j].postId
        {
          postIds := postIds + [userViewedPost[k].postId];
        }
        assert postIds == ViewedPostIds(userViewedPost);
        userPost := PostsWithIds(db.posts, postIds);
      } else {
        userPost := TopByViews(db.posts, FeedLimit);
      }
      feed := ConvertToUserPosts(WithOwners(db.users, userPost));
    }

    /** The `for ... append` loop of GetViewersOnPost and
        GetUserWhoLikedPost. */
    method PreviewEdges(edges: seq<PostEdge>) returns (previews: seq<PreviewUser>)
      ensures previews == UserPreviews(db.users, edges)
    {
      previews := [];
      for k := 0 to |edges|
        invariant |previews| == k
        invariant forall j :: 0 <= j < k ==> previews[j] == Preview(UserOrZero(db.users, edges[j].userId))
      {
        var user := UserOrZero(db.users, edges[k].userId);
        previews := previews + [PreviewUser(user.id, user.username, user.profilePicture)];
      }
    }

    method GetViewersOnPost(postId: nat) returns (previews: seq<PreviewUser>)
      ensures previews == ViewersOnPost(db.Snapshot(), postId)
    {
      previews := [];
      if FindPost(db.posts, postId).Some? {
        previews := PreviewEdges(EdgesOnPost(db.views, postId));
      }
    }

    method GetUserWhoLikedPost(postId: nat) returns (previews: seq<PreviewUser>)
      ensures previews == LikersOfPost(db.Snapshot(), postId)
    {
      if FindPost(db.posts, postId).None? {
        return [];
      }
      previews := PreviewEdges(EdgesOnPost(db.likes, postId));
    }

    method GetPostComments(postId: nat) returns (r: Result<seq<PreviewComment>>)
      ensures r == PostComments(db.Snapshot(), postId)
    {
      if FindPost(db.posts, postId).None? {
        return Failure(ServiceError(DatabaseError, RecordNotFound));
      }
      var comments := CommentsOnPost(db.comments, postId);
      var previews: seq<PreviewComment> := [];
      for k := 0 to |comments|
        invariant |previews| == k
        invariant forall j :: 0 <= j < k ==> previews[j] == CommentPreview(db.users, comments[j])
      {
        var user := UserOrZero(db.users, comments[k].userId);
        previews := previews + [PreviewComment(comments[k].id, comments[k].content,
                                               PreviewUser(user.id, user.username, user.profilePicture))];
      }
      assert previews == CommentPreviews(db.users, comments);
      return Success(previews);
    }
  }
}
