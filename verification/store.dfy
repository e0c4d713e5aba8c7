/** The persistence layer as an abstract in-memory store: one sequence per
    table in insertion order, plus the next auto-increment id of the tables
    whose ids the services read back. Each GORM call the services make is
    one atomic step on this store; the queries below are those calls. */
module Store {
  import opened Entities
  import opened Errors

  datatype Option<T> = None | Some(value: T)

  /** The value of the whole database at one moment. */
  datatype Tables = Tables(
    users: seq<User>,
    posts: seq<Post>,
    follows: seq<FollowEdge>,
    views: seq<PostEdge>,
    likes: seq<PostEdge>,
    comments: seq<Comment>,
    nextUserId: nat,
    nextPostId: nat,
    nextCommentId: nat)

  /** What one service call returns, with the database after it. */
  datatype Transition = Transition(outcome: Outcome, after: Tables)

  /** A freshly migrated database. */
  const Empty: Tables := Tables([], [], [], [], [], [], 1, 1, 1)

  // ---------------------------------------------------------------------
  // Lookups. `First` returns the matching row with the lowest primary key;
  // ids ascend along every table (see Invariant), so that is the first
  // match in table order, which is what these functions return.
  // ---------------------------------------------------------------------

  /** `First(&user, id)`: the index of the user with this id. */
  function FindUser(users: seq<User>, id: nat): (r: Option<nat>)
    ensures r.Some? ==> r.value < |users| && users[r.value].id == id
    ensures r.Some? ==> forall j :: 0 <= j < r.value ==> users[j].id != id
    ensures r.None? <==> forall j :: 0 <= j < |users| ==> users[j].id != id
  {
    if |users| == 0 then None
    else if users[0].id == id then Some(0)
    else match FindUser(users[1..], id)
      case None => None
      case Some(k) => Some(k + 1)
  }

  /** `Where("username = ?", name).First(&user)`. */
  function FindUserByUsername(users: seq<User>, username: string): (r: Option<nat>)
    ensures r.Some? ==> r.value < |users| && users[r.value].username == username
    ensures r.Some? ==> forall j :: 0 <= j < r.value ==> users[j].username != username
    ensures r.None? <==> forall j :: 0 <= j < |users| ==> users[j].username != username
  {
    if |users| == 0 then None
    else if users[0].username == username then Some(0)
    else match FindUserByUsername(users[1..], username)
      case None => None
      case Some(k) => Some(k + 1)
  }

  /** `Where("email = ? OR username = ?", email, username).First(&user)`. */
  function FindUserByEmailOrUsername(users: seq<User>, email: string, username: string): (r: Option<nat>)
    ensures r.Some? ==> r.value < |users| && (users[r.value].email == email || users[r.value].username == username)
    ensures r.Some? ==> forall j :: 0 <= j < r.value ==> users[j].email != email && users[j].username != username
    ensures r.None? <==> forall j :: 0 <= j < |users| ==> users[j].email != email && users[j].username != username
  {
    if |users| == 0 then None
    else if users[0].email == email || users[0].username == username then Some(0)
    else match FindUserByEmailOrUsername(users[1..], email, username)
      case None => None
      case Some(k) => Some(k + 1)
  }

  /** `First(&post, id)`: the index of the post with this id. */
  function FindPost(posts: seq<Post>, id: nat): (r: Option<nat>)
    ensures r.Some? ==> r.value < |posts| && posts[r.value].id == id
    ensures r.Some? ==> forall j :: 0 <= j < r.value ==> posts[j].id != id
    ensures r.None? <==> forall j :: 0 <= j < |posts| ==> posts[j].id != id
  {
    if |posts| == 0 then None
    else if posts[0].id == id then Some(0)
    else match FindPost(posts[1..], id)
      case None => None
      case Some(k) => Some(k + 1)
  }

  /** A preloaded `User` association: the account with this id, or GORM's
      zero value when there is none. */
  function UserOrZero(users: seq<User>, id: nat): User {
    match FindUser(users, id)
    case Some(i) => users[i]
    case None => ZeroUser
  }

  /** `Preload("User")` on a list of posts: each post with its owner. */
  function WithOwners(users: seq<User>, posts: seq<Post>): seq<PostWithOwner> {
    seq(|posts|, i requires 0 <= i < |posts| => PostWithOwner(posts[i], UserOrZero(users, posts[i].userId)))
  }

  // ---------------------------------------------------------------------
  // Associations and WHERE filters, in table order.
  // ---------------------------------------------------------------------

  /** Edges pointing at one post: `Post.ViewedBy` over the view table,
      `Post.Likes` over the like table. */
  function EdgesOnPost(edges: seq<PostEdge>, postId: nat): (r: seq<PostEdge>)
    ensures forall e :: e in r <==> e in edges && e.postId == postId
  {
    if |edges| == 0 then []
    else
      var last := edges[|edges| - 1];
      assert edges == edges[..|edges| - 1] + [last];
      EdgesOnPost(edges[..|edges| - 1], postId) + (if last.postId == postId then [last] else [])
  }

  /** Edges from one account: `Where("user_id = ?", id)` on the view table,
      `User.LikedPosts` on the like table. */
  function EdgesByUser(edges: seq<PostEdge>, userId: nat): (r: seq<PostEdge>)
    ensures forall e :: e in r <==> e in edges && e.userId == userId
  {
    if |edges| == 0 then []
    else
      var last := edges[|edges| - 1];
      assert edges == edges[..|edges| - 1] + [last];
      EdgesByUser(edges[..|edges| - 1], userId) + (if last.userId == userId then [last] else [])
  }

  /** `User.Followers`: the follow rows whose `UserID` is the account. */
  function FollowerEdges(follows: seq<FollowEdge>, userId: nat): (r: seq<FollowEdge>)
    ensures forall e :: e in r <==> e in follows && e.userId == userId
  {
    if |follows| == 0 then []
    else
      var last := follows[|follows| - 1];
      assert follows == follows[..|follows| - 1] + [last];
      FollowerEdges(follows[..|follows| - 1], userId) + (if last.userId == userId then [last] else [])
  }

  /** `User.Following`: the follow rows whose `FollowerID` is the account. */
  function FollowingEdges(follows: seq<FollowEdge>, followerId: nat): (r: seq<FollowEdge>)
    ensures forall e :: e in r <==> e in follows && e.followerId == followerId
  {
    if |follows| == 0 then []
    else
      var last := follows[|follows| - 1];
      assert follows == follows[..|follows| - 1] + [last];
      FollowingEdges(follows[..|follows| - 1], followerId) + (if last.followerId == followerId then [last] else [])
  }

  /** `Post.Comments`. */
  function CommentsOnPost(comments: seq<Comment>, postId: nat): (r: seq<Comment>)
    ensures forall c :: c in r <==> c in comments && c.postId == postId
  {
    if |comments| == 0 then []
    else
      var last := comments[|comments| - 1];
      assert comments == comments[..|comments| - 1] + [last];
      CommentsOnPost(comments[..|comments| - 1], postId) + (if last.postId == postId then [last] else [])
  }

  /** `Where("posts.user_id = ?", id)`. */
  function PostsOwnedBy(posts: seq<Post>, userId: nat): (r: seq<Post>)
    ensures forall p :: p in r <==> p in posts && p.userId == userId
  {
    if |posts| == 0 then []
    else
      var last := posts[|posts| - 1];
      assert posts == posts[..|posts| - 1] + [last];
      PostsOwnedBy(posts[..|posts| - 1], userId) + (if last.userId == userId then [last] else [])
  }

  /** `Where("id IN (?)", ids)`. */
  function PostsWithIds(posts: seq<Post>, ids: seq<nat>): (r: seq<Post>)
    ensures forall p :: p in r <==> p in posts && p.id in ids
  {
    if |posts| == 0 then []
    else
      var last := posts[|posts| - 1];
      assert posts == posts[..|posts| - 1] + [last];
      PostsWithIds(posts[..|posts| - 1], ids) + (if last.id in ids then [last] else [])
  }

  /** The filters keep each matching row as often as the table holds it,
      and no other row: the number of rows they return is the number the
      table holds for the post or the account. */
  lemma {:induction false} EdgesOnPostCounts(edges: seq<PostEdge>, postId: nat)
    ensures forall e :: multiset(EdgesOnPost(edges, postId))[e] == if e.postId == postId then multiset(edges)[e] else 0
    decreases |edges|
  {
    if |edges| > 0 {
      var init, last := edges[..|edges| - 1], edges[|edges| - 1];
      assert edges == init + [last];
      EdgesOnPostCounts(init, postId);
    }
  }

  lemma {:induction false} EdgesByUserCounts(edges: seq<PostEdge>, userId: nat)
    ensures forall e :: multiset(EdgesByUser(edges, userId))[e] == if e.userId == userId then multiset(edges)[e] else 0
    decreases |edges|
  {
    if |edges| > 0 {
      var init, last := edges[..|edges| - 1], edges[|edges| - 1];
      assert edges == init + [last];
      EdgesByUserCounts(init, userId);
    }
  }

  lemma {:induction false} FollowerEdgesCounts(follows: seq<FollowEdge>, userId: nat)
    ensures forall e :: multiset(FollowerEdges(follows, userId))[e] == if e.userId == userId then multiset(follows)[e] else 0
    decreases |follows|
  {
    if |follows| > 0 {
      var init, last := follows[..|follows| - 1], follows[|follows| - 1];
      assert follows == init + [last];
      FollowerEdgesCounts(init, userId);
    }
  }

  lemma {:induction false} FollowingEdgesCounts(follows: seq<FollowEdge>, followerId: nat)
    ensures forall e :: multiset(FollowingEdges(follows, followerId))[e] == if e.followerId == followerId then multiset(follows)[e] else 0
    decreases |follows|
  {
    if |follows| > 0 {
      var init, last := follows[..|follows| - 1], follows[|follows| - 1];
      assert follows == init + [last];
      FollowingEdgesCounts(init, followerId);
    }
  }

  lemma {:induction false} CommentsOnPostCounts(comments: seq<Comment>, postId: nat)
    ensures forall c :: multiset(CommentsOnPost(comments, postId))[c] == if c.postId == postId then multiset(comments)[c] else 0
    decreases |comments|
  {
    if |comments| > 0 {
      var init, last := comments[..|comments| - 1], comments[|comments| - 1];
      assert comments == init + [last];
      CommentsOnPostCounts(init, postId);
    }
  }

  lemma {:induction false} PostsOwnedByCounts(posts: seq<Post>, userId: nat)
    ensures forall p :: multiset(PostsOwnedBy(posts, userId))[p] == if p.userId == userId then multiset(posts)[p] else 0
    decreases |posts|
  {
    if |posts| > 0 {
      var init, last := posts[..|posts| - 1], posts[|posts| - 1];
      assert posts == init + [last];
      PostsOwnedByCounts(init, userId);
    }
  }

  /** `Where(<every column of x>).Delete(...)`: every row equal to x goes. */
  function Without<T(==)>(s: seq<T>, x: T): (r: seq<T>)
    ensures multiset(r) == multiset(s)[x := 0]
  {
    if |s| == 0 then []
    else
      var last := s[|s| - 1];
      assert s == s[..|s| - 1] + [last];
      Without(s[..|s| - 1], x) + (if last == x then [] else [last])
  }

  /** `Delete(&Comment{}, id)`. */
  function CommentsWithoutId(comments: seq<Comment>, id: nat): (r: seq<Comment>)
    ensures forall c :: c in r <==> c in comments && c.id != id
  {
    if |comments| == 0 then []
    else
      var last := comments[|comments| - 1];
      assert comments == comments[..|comments| - 1] + [last];
      CommentsWithoutId(comments[..|comments| - 1], id) + (if last.id == id then [] else [last])
  }

  /** `Model(&Edge{}).Where("user_id = ? AND post_id = ?").Count(&n)`. */
  function PairCount(edges: seq<PostEdge>, userId: nat, postId: nat): (n: nat)
    ensures n == 0 <==> PostEdge(userId, postId) !in edges
  {
    multiset(edges)[PostEdge(userId, postId)]
  }

  // ---------------------------------------------------------------------
  // How the edge filters react to the two writes the services make.
  // ---------------------------------------------------------------------

  lemma EdgesOnPostAppend(edges: seq<PostEdge>, e: PostEdge, postId: nat)
    ensures EdgesOnPost(edges + [e], postId)
         == EdgesOnPost(edges, postId) + (if e.postId == postId then [e] else [])
  {
    assert (edges + [e])[..|edges|] == edges;
  }

  lemma WithoutAppend<T>(s: seq<T>, last: T, x: T)
    ensures Without(s + [last], x) == Without(s, x) + (if last == x then [] else [last])
  {
    assert (s + [last])[..|s|] == s;
  }

  lemma {:induction false} EdgesOnPostWithout(edges: seq<PostEdge>, e: PostEdge, postId: nat)
    ensures |EdgesOnPost(Without(edges, e), postId)|
         == |EdgesOnPost(edges, postId)| - (if e.postId == postId then multiset(edges)[e] else 0)
    decreases |edges|
  {
    if |edges| > 0 {
      var init, last := edges[..|edges| - 1], edges[|edges| - 1];
      assert edges == init + [last];
      EdgesOnPostWithout(init, e, postId);
      var before := |EdgesOnPost(init, postId)|;
      var after := |EdgesOnPost(Without(init, e), postId)|;
      var m := multiset(init)[e];
      assert after == before - (if e.postId == postId then m else 0);
      EdgesOnPostAppend(init, last, postId);
      assert |EdgesOnPost(edges, postId)| == before + (if last.postId == postId then 1 else 0);
      assert multiset(edges)[e] == m + (if last == e then 1 else 0);
      WithoutAppend(init, last, e);
      if last == e {
        assert Without(edges, e) == Without(init, e);
      } else {
        assert Without(edges, e) == Without(init, e) + [last];
        EdgesOnPostAppend(Without(init, e), last, postId);
        assert |EdgesOnPost(Without(edges, e), postId)| == after + (if last.postId == postId then 1 else 0);
      }
    }
  }

  lemma NoEdgesOnAbsentPost(edges: seq<PostEdge>, postId: nat)
    requires forall e :: e in edges ==> e.postId != postId
    ensures EdgesOnPost(edges, postId) == []
  {
  }

  lemma FollowerEdgesAppend(follows: seq<FollowEdge>, e: FollowEdge, userId: nat)
    ensures FollowerEdges(follows + [e], userId)
         == FollowerEdges(follows, userId) + (if e.userId == userId then [e] else [])
  {
    assert (follows + [e])[..|follows|] == follows;
  }

  lemma FollowingEdgesAppend(follows: seq<FollowEdge>, e: FollowEdge, followerId: nat)
    ensures FollowingEdges(follows + [e], followerId)
         == FollowingEdges(follows, followerId) + (if e.followerId == followerId then [e] else [])
  {
    assert (follows + [e])[..|follows|] == follows;
  }

  lemma {:induction false} WithoutAppendAbsent<T>(s: seq<T>, x: T)
    requires x !in s
    ensures Without(s + [x], x) == s
    decreases |s|
  {
    assert (s + [x])[..|s|] == s;
    WithoutAbsent(s, x);
  }

  lemma {:induction false} WithoutAbsent<T>(s: seq<T>, x: T)
    requires x !in s
    ensures Without(s, x) == s
    decreases |s|
  {
    if |s| > 0 {
      var init := s[..|s| - 1];
      assert s == init + [s[|s| - 1]];
      WithoutAbsent(init, x);
    }
  }

  // ---------------------------------------------------------------------
  // The invariant every service operation preserves.
  // ---------------------------------------------------------------------

  /** Ids are positive, strictly ascending along the table and below the
      next auto-increment value. */
  ghost predicate UserIdsAscending(users: seq<User>, next: nat) {
    && 1 <= next
    && (forall i :: 0 <= i < |users| ==> 1 <= users[i].id < next)
    && (forall i, j :: 0 <= i < j < |users| ==> users[i].id < users[j].id)
  }

  ghost predicate PostIdsAscending(posts: seq<Post>, next: nat) {
    && 1 <= next
    && (forall i :: 0 <= i < |posts| ==> 1 <= posts[i].id < next)
    && (forall i, j :: 0 <= i < j < |posts| ==> posts[i].id < posts[j].id)
  }

  ghost predicate CommentIdsAscending(comments: seq<Comment>, next: nat) {
    && 1 <= next
    && (forall i :: 0 <= i < |comments| ==> 1 <= comments[i].id < next)
    && (forall i, j :: 0 <= i < j < |comments| ==> comments[i].id < comments[j].id)
  }

  /** No two accounts share an email or a username. */
  ghost predicate AccountsUnique(users: seq<User>) {
    forall i, j :: 0 <= i < j < |users| ==>
      users[i].email != users[j].email && users[i].username != users[j].username
  }

  /** Each edge table holds every (subject, object) pair at most once. */
  ghost predicate NoDuplicates<T(!new)>(s: seq<T>) {
    forall x :: multiset(s)[x] <= 1
  }

  ghost predicate HasPost(posts: seq<Post>, id: nat) {
    exists k :: 0 <= k < |posts| && posts[k].id == id
  }

  /** Every view or like edge points at an existing post. */
  ghost predicate EdgesReferencePosts(edges: seq<PostEdge>, posts: seq<Post>) {
    forall e :: e in edges ==> HasPost(posts, e.postId)
  }

  /** Every post's `ViewersCount` equals the number of its view edges. */
  ghost predicate ViewCountersMatch(posts: seq<Post>, views: seq<PostEdge>) {
    forall k :: 0 <= k < |posts| ==> posts[k].viewersCount == |EdgesOnPost(views, posts[k].id)|
  }

  /** Every post's `LikesCount` equals the number of its like edges. */
  ghost predicate LikeCountersMatch(posts: seq<Post>, likes: seq<PostEdge>) {
    forall k :: 0 <= k < |posts| ==> posts[k].likesCount == |EdgesOnPost(likes, posts[k].id)|
  }

  ghost predicate Invariant(t: Tables) {
    && UserIdsAscending(t.users, t.nextUserId)
    && PostIdsAscending(t.posts, t.nextPostId)
    && CommentIdsAscending(t.comments, t.nextCommentId)
    && AccountsUnique(t.users)
    && NoDuplicates(t.follows)
    && NoDuplicates(t.views)
    && NoDuplicates(t.likes)
    && EdgesReferencePosts(t.views, t.posts)
    && EdgesReferencePosts(t.likes, t.posts)
    && ViewCountersMatch(t.posts, t.views)
    && LikeCountersMatch(t.posts, t.likes)
  }

  /** Two versions of the posts table with the same ids at the same places. */
  ghost predicate SameIds(posts: seq<Post>, posts': seq<Post>) {
    |posts| == |posts'| && forall k :: 0 <= k < |posts| ==> posts[k].id == posts'[k].id
  }

  lemma SameIdsKeepReferences(edges: seq<PostEdge>, posts: seq<Post>, posts': seq<Post>)
    requires SameIds(posts, posts') && EdgesReferencePosts(edges, posts)
    ensures EdgesReferencePosts(edges, posts')
  {
    forall e | e in edges ensures HasPost(posts', e.postId) {
      var k :| 0 <= k < |posts| && posts[k].id == e.postId;
      assert posts'[k].id == e.postId;
    }
  }

  /** Inserting a row with the next auto-increment id keeps ids ascending. */
  lemma PostIdsAppend(posts: seq<Post>, next: nat, p: Post)
    requires PostIdsAscending(posts, next) && p.id == next
    ensures PostIdsAscending(posts + [p], next + 1)
  {
    var posts' := posts + [p];
    assert forall i :: 0 <= i < |posts| ==> posts'[i] == posts[i];
  }

  lemma CommentIdsAppend(comments: seq<Comment>, next: nat, c: Comment)
    requires CommentIdsAscending(comments, next) && c.id == next
    ensures CommentIdsAscending(comments + [c], next + 1)
  {
    var comments' := comments + [c];
    assert forall i :: 0 <= i < |comments| ==> comments'[i] == comments[i];
  }

  lemma UserIdsAppend(users: seq<User>, next: nat, u: User)
    requires UserIdsAscending(users, next) && u.id == next
    ensures UserIdsAscending(users + [u], next + 1)
  {
    var users' := users + [u];
    assert forall i :: 0 <= i < |users| ==> users'[i] == users[i];
  }

  lemma EmptyInvariant()
    ensures Invariant(Empty)
  {
  }

  /** With ascending ids, the preloaded account for an existing user's id is
      that user. */
  lemma UserOrZeroFinds(users: seq<User>, next: nat, i: nat)
    requires UserIdsAscending(users, next) && i < |users|
    ensures UserOrZero(users, users[i].id) == users[i]
  {
  }

  /** The database connection the services share. */
  class Database {
    var users: seq<User>
    var posts: seq<Post>
    var follows: seq<FollowEdge>
    var views: seq<PostEdge>
    var likes: seq<PostEdge>
    var comments: seq<Comment>
    var nextUserId: nat
    var nextPostId: nat
    var nextCommentId: nat

    /** The current contents of every table. */
    function Snapshot(): Tables
      reads this
    {
      Tables(users, posts, follows, views, likes, comments, nextUserId, nextPostId, nextCommentId)
    }

    ghost predicate Valid()
      reads this
    {
      Invariant(Snapshot())
    }

    constructor ()
      ensures Valid() && Snapshot() == Empty
    {
      users, posts, follows, views, likes, comments := [], [], [], [], [], [];
      nextUserId, nextPostId, nextCommentId := 1, 1, 1;
    }

    // The writes the services issue. Each is one GORM call: `Create`
    // appends a row, `Save` overwrites the row it loaded, `Delete` removes
    // every matching row. None of them checks the invariant; the services
    // keep it.

    /** `Create(&user)`: the row gets the next id. */
    method CreateUser(u: User)
      modifies this
      ensures Snapshot() == old(Snapshot()).(users := old(users) + [u.(id := old(nextUserId))], nextUserId := old(nextUserId) + 1)
    {
      users := users + [u.(id := nextUserId)];
      nextUserId := nextUserId + 1;
    }

    /** `Save(&user)` of the row loaded from index i. */
    method SaveUser(i: nat, u: User)
      requires i < |users|
      modifies this
      ensures Snapshot() == old(Snapshot()).(users := old(users)[i := u])
    {
      users := users[i := u];
    }

    /** `Create(&post)`: the row gets the next id. */
    method CreatePost(p: Post)
      modifies this
      ensures Snapshot() == old(Snapshot()).(posts := old(posts) + [p.(id := old(nextPostId))], nextPostId := old(nextPostId) + 1)
    {
      posts := posts + [p.(id := nextPostId)];
      nextPostId := nextPostId + 1;
    }

    /** `Save(&post)` of the row loaded from index i. */
    method SavePost(i: nat, p: Post)
      requires i < |posts|
      modifies this
      ensures Snapshot() == old(Snapshot()).(posts := old(posts)[i := p])
    {
      posts := posts[i := p];
    }

    method CreateFollow(e: FollowEdge)
      modifies this
      ensures Snapshot() == old(Snapshot()).(follows := old(follows) + [e])
    {
      follows := follows + [e];
    }

    /** `Where(&edge).Delete(&UserFollower{})`. */
    method DeleteFollow(e: FollowEdge)
      modifies this
      ensures Snapshot() == old(Snapshot()).(follows := Without(old(follows), e))
    {
      follows := Without(follows, e);
    }

    method CreateView(e: PostEdge)
      modifies this
      ensures Snapshot() == old(Snapshot()).(views := old(views) + [e])
    {
      views := views + [e];
    }

    method CreateLike(e: PostEdge)
      modifies this
      ensures Snapshot() == old(Snapshot()).(likes := old(likes) + [e])
    {
      likes := likes + [e];
    }

    /** `Where("user_id = ? AND post_id = ?").Delete(&UserLikedPost{})`. */
    method DeleteLike(e: PostEdge)
      modifies this
      ensures Snapshot() == old(Snapshot()).(likes := Without(old(likes), e))
    {
      likes := Without(likes, e);
    }

    /** `Create(&comment)`: the row gets the next id. */
    method CreateComment(c: Comment)
      modifies this
      ensures Snapshot() == old(Snapshot()).(comments := old(comments) + [c.(id := old(nextCommentId))], nextCommentId := old(nextCommentId) + 1)
    {
      comments := comments + [c.(id := nextCommentId)];
      nextCommentId := nextCommentId + 1;
    }

    /** `Delete(&Comment{}, id)`. */
    method DeleteComment(id: nat)
      modifies this
      ensures Snapshot() == old(Snapshot()).(comments := CommentsWithoutId(old(comments), id))
    {
      comments := CommentsWithoutId(comments, id);
    }
  }
}
