/** The account and social-graph service (app/service/user_service.go and
    its twin internal/service/user_service.go, which differs only in how
    UpdateUserProfile receives the avatar file). */
module UserService {
  import opened Entities
  import opened Errors
  import opened Store
  import opened DataFormat

  // =====================================================================
  // Follow and unfollow
  // =====================================================================

  /** `Model(&UserFollower{}).Where("user_id = ? AND follower_id = ?").Count`. */
  function FollowCount(follows: seq<FollowEdge>, followingId: nat, followerId: nat): nat {
    multiset(follows)[FollowEdge(followingId, followerId)]
  }

  /** IsFollowingUser: `count > 0`. */
  function IsFollowingUser(follows: seq<FollowEdge>, followingId: nat, followerId: nat): (b: bool)
    ensures b <==> exists e :: e in follows && e.userId == followingId && e.followerId == followerId
  {
    FollowCount(follows, followingId, followerId) > 0
  }

  /** FollowUser: both accounts must exist; the row (UserID = followingId,
      FollowerID = followerId) is written only when it is not there yet. */
  function FollowStep(t: Tables, followingId: nat, followerId: nat): Transition {
    if FindUser(t.users, followingId).None? then
      Transition(Fail(ServiceError(ValueDoesntExist, AccountIdNotFound(followingId))), t)
    else if FindUser(t.users, followerId).None? then
      Transition(Fail(ServiceError(ValueDoesntExist, AccountIdNotFound(followerId))), t)
    else if !IsFollowingUser(t.follows, followingId, followerId) then
      Transition(Ok, t.(follows := t.follows + [FollowEdge(followingId, followerId)]))
    else
      Transition(Fail(ServiceError(UserFollowerError, Text("You have done following"))), t)
  }

  /** UnfollowUser: both accounts must exist (a missing follower is
      reported with the id of the followed account); the row is deleted
      when it is there. */
  function UnfollowStep(t: Tables, followingId: nat, followerId: nat): Transition {
    if FindUser(t.users, followingId).None? then
      Transition(Fail(ServiceError(ValueDoesntExist, AccountIdNotFound(followingId))), t)
    else if FindUser(t.users, followerId).None? then
      Transition(Fail(ServiceError(ValueDoesntExist, AccountIdNotFound(followingId))), t)
    else if IsFollowingUser(t.follows, followingId, followerId) then
      Transition(Ok, t.(follows := Without(t.follows, FollowEdge(followingId, followerId))))
    else
      Transition(Fail(ServiceError(UserFollowerError, Text("You haven't followed yet"))), t)
  }

  lemma FollowPreservesInvariant(t: Tables, followingId: nat, followerId: nat)
    requires Invariant(t)
    ensures Invariant(FollowStep(t, followingId, followerId).after)
  {
    var e := FollowEdge(followingId, followerId);
    var follows' := t.follows + [e];
    if FollowStep(t, followingId, followerId).after != t {
      forall x ensures multiset(follows')[x] <= 1 {
        assert multiset(follows')[x] == multiset(t.follows)[x] + (if x == e then 1 else 0);
      }
    }
  }

  lemma UnfollowPreservesInvariant(t: Tables, followingId: nat, followerId: nat)
    requires Invariant(t)
    ensures Invariant(UnfollowStep(t, followingId, followerId).after)
  {
    var follows' := Without(t.follows, FollowEdge(followingId, followerId));
    forall x ensures multiset(follows')[x] <= 1 {
      assert multiset(follows')[x] <= multiset(t.follows)[x];
    }
  }

  /** FollowUser on a missing account fails with `value_doesnt_exist` naming
      the missing id, and writes nothing. */
  lemma FollowRejectsMissing(t: Tables, followingId: nat, followerId: nat)
    ensures var r := FollowStep(t, followingId, followerId);
      && (FindUser(t.users, followingId).None? ==>
            r == Transition(Fail(ServiceError(ValueDoesntExist, AccountIdNotFound(followingId))), t))
      && (FindUser(t.users, followingId).Some? && FindUser(t.users, followerId).None? ==>
            r == Transition(Fail(ServiceError(ValueDoesntExist, AccountIdNotFound(followerId))), t))
  {
  }

  /** UnfollowUser on a missing account fails with `value_doesnt_exist`;
      both messages carry the id of the followed account. */
  lemma UnfollowRejectsMissing(t: Tables, followingId: nat, followerId: nat)
    requires FindUser(t.users, followingId).None? || FindUser(t.users, followerId).None?
    ensures UnfollowStep(t, followingId, followerId)
         == Transition(Fail(ServiceError(ValueDoesntExist, AccountIdNotFound(followingId))), t)
  {
  }

  /** A first follow adds exactly one row and raises the followed account's
      follower count and the follower's following count by one; the same
      follow again fails with "You have done following" and writes nothing. */
  lemma {:induction false} FollowTwice(t: Tables, followingId: nat, followerId: nat)
    requires FindUser(t.users, followingId).Some? && FindUser(t.users, followerId).Some?
    requires FollowEdge(followingId, followerId) !in t.follows
    ensures var once := FollowStep(t, followingId, followerId);
      && once.outcome == Ok
      && once.after == t.(follows := t.follows + [FollowEdge(followingId, followerId)])
      && |FollowerEdges(once.after.follows, followingId)| == |FollowerEdges(t.follows, followingId)| + 1
      && |FollowingEdges(once.after.follows, followerId)| == |FollowingEdges(t.follows, followerId)| + 1
      && FollowStep(once.after, followingId, followerId)
         == Transition(Fail(ServiceError(UserFollowerError, Text("You have done following"))), once.after)
  {
    var e := FollowEdge(followingId, followerId);
    FollowerEdgesAppend(t.follows, e, followingId);
    FollowingEdgesAppend(t.follows, e, followerId);
    assert e in t.follows + [e];
  }

  /** UnfollowUser without a follow row fails with "You haven't followed
      yet" and writes nothing; with one, it deletes it. */
  lemma UnfollowOutcome(t: Tables, followingId: nat, followerId: nat)
    requires FindUser(t.users, followingId).Some? && FindUser(t.users, followerId).Some?
    ensures var r := UnfollowStep(t, followingId, followerId);
      && (FollowEdge(followingId, followerId) !in t.follows ==>
            r == Transition(Fail(ServiceError(UserFollowerError, Text("You haven't followed yet"))), t))
      && (FollowEdge(followingId, followerId) in t.follows ==>
            && r.outcome == Ok
            && FollowEdge(followingId, followerId) !in r.after.follows
            && (forall e :: e != FollowEdge(followingId, followerId) ==> (e in r.after.follows <==> e in t.follows))
            && r.after == t.(follows := r.after.follows))
  {
    var e := FollowEdge(followingId, followerId);
    var r := UnfollowStep(t, followingId, followerId);
    if e in t.follows {
      assert e !in multiset(r.after.follows);
      forall x | x != e ensures x in r.after.follows <==> x in t.follows {
        assert x in multiset(r.after.follows) <==> x in multiset(t.follows);
      }
    }
  }

  /** Follow followed by unfollow restores the follow table. */
  lemma {:induction false} FollowThenUnfollowRestores(t: Tables, followingId: nat, followerId: nat)
    requires FindUser(t.users, followingId).Some? && FindUser(t.users, followerId).Some?
    requires FollowEdge(followingId, followerId) !in t.follows
    ensures var once := FollowStep(t, followingId, followerId).after;
      UnfollowStep(once, followingId, followerId) == Transition(Ok, t)
  {
    var e := FollowEdge(followingId, followerId);
    assert e in t.follows + [e];
    WithoutAppendAbsent(t.follows, e);
  }

  // =====================================================================
  // Profile and listings
  // =====================================================================

  function ProfileOf(u: User, follows: seq<FollowEdge>): UserProfileWithConnection {
    UserProfileWithConnection(u.id, u.username, u.fullName, u.bio, u.profilePicture,
                              |FollowerEdges(follows, u.id)|, |FollowingEdges(follows, u.id)|)
  }

  /** GetUserProfile: the account's public fields with `len(Followers)` and
      `len(Following)`. */
  function GetUserProfile(t: Tables, username: string): Result<UserProfileWithConnection> {
    match FindUserByUsername(t.users, username)
    case None => Failure(ServiceError(ValueDoesntExist, AccountUsernameNotFound(username)))
    case Some(i) => Success(ProfileOf(t.users[i], t.follows))
  }

  /** A missing username is `value_doesnt_exist`; otherwise the profile is
      the account's, its follower count is the number of rows following it
      and its following count the number of rows it follows. */
  lemma {:induction false} ProfileCounts(t: Tables, username: string)
    requires NoDuplicates(t.follows)
    ensures var r := GetUserProfile(t, username);
      && (r.Failure? <==> forall j :: 0 <= j < |t.users| ==> t.users[j].username != username)
      && (r.Failure? ==> r.error == ServiceError(ValueDoesntExist, AccountUsernameNotFound(username)))
      && (r.Success? ==>
            var u := t.users[FindUserByUsername(t.users, username).value];
            && r.value.id == u.id
            && r.value.username == username
            && r.value.fullName == u.fullName
            && r.value.bio == u.bio
            && r.value.profilePicture == u.profilePicture
            && r.value.followers == |set e | e in t.follows && e.userId == u.id|
            && r.value.following == |set e | e in t.follows && e.followerId == u.id|)
  {
    var r := GetUserProfile(t, username);
    if r.Success? {
      var u := t.users[FindUserByUsername(t.users, username).value];
      FollowerEdgesSubset(t.follows, u.id);
      FollowingEdgesSubset(t.follows, u.id);
      DistinctEdgesCounted(FollowerEdges(t.follows, u.id), t.follows);
      DistinctEdgesCounted(FollowingEdges(t.follows, u.id), t.follows);
      assert (set e | e in FollowerEdges(t.follows, u.id)) == (set e | e in t.follows && e.userId == u.id);
      assert (set e | e in FollowingEdges(t.follows, u.id)) == (set e | e in t.follows && e.followerId == u.id);
    }
  }

  /** The filters keep rows, never add any. */
  lemma {:induction false} FollowerEdgesSubset(follows: seq<FollowEdge>, userId: nat)
    ensures multiset(FollowerEdges(follows, userId)) <= multiset(follows)
    decreases |follows|
  {
    if |follows| > 0 {
      var init := follows[..|follows| - 1];
      assert follows == init + [follows[|follows| - 1]];
      FollowerEdgesSubset(init, userId);
    }
  }

  lemma {:induction false} FollowingEdgesSubset(follows: seq<FollowEdge>, followerId: nat)
    ensures multiset(FollowingEdges(follows, followerId)) <= multiset(follows)
    decreases |follows|
  {
    if |follows| > 0 {
      var init := follows[..|follows| - 1];
      assert follows == init + [follows[|follows| - 1]];
      FollowingEdgesSubset(init, followerId);
    }
  }

  /** A filter of a table without repeated rows has as many rows as it has
      distinct rows. */
  lemma {:induction false} DistinctEdgesCounted(s: seq<FollowEdge>, all: seq<FollowEdge>)
    requires NoDuplicates(all) && multiset(s) <= multiset(all)
    ensures |s| == |set e | e in s|
    decreases |s|
  {
    if |s| > 0 {
      var init, last := s[..|s| - 1], s[|s| - 1];
      assert s == init + [last];
      assert multiset(s) == multiset(init) + multiset{last};
      DistinctEdgesCounted(init, all);
      assert multiset(s)[last] == multiset(init)[last] + 1;
      assert (set e | e in s) == (set e | e in init) + {last};
    }
  }

  /** Each follow row, previewed by its `User` side. */
  function FollowerPreviews(users: seq<User>, edges: seq<FollowEdge>): seq<PreviewUser> {
    seq(|edges|, i requires 0 <= i < |edges| => Preview(UserOrZero(users, edges[i].userId)))
  }

  /** GetUserFollowers: one preview per row with `UserID` = the account,
      built from the row's `User` side. */
  function FollowersOf(t: Tables, username: string): Result<seq<PreviewUser>> {
    match FindUserByUsername(t.users, username)
    case None => Failure(ServiceError(ValueDoesntExist, AccountUsernameNotFound(username)))
    case Some(i) => Success(FollowerPreviews(t.users, FollowerEdges(t.follows, t.users[i].id)))
  }

  /** GetUserFollowing: one preview per row with `FollowerID` = the
      account, built from the row's `User` side, the followed account. */
  function FollowingOf(t: Tables, username: string): Result<seq<PreviewUser>> {
    match FindUserByUsername(t.users, username)
    case None => Failure(ServiceError(ValueDoesntExist, AccountUsernameNotFound(username)))
    case Some(i) => Success(FollowerPreviews(t.users, FollowingEdges(t.follows, t.users[i].id)))
  }

  /** The follower listing previews the account itself once per follower:
      the `User` side of a row with `UserID` = the account is the account. */
  lemma FollowersListTheAccount(t: Tables, username: string)
    requires Invariant(t)
    ensures var r := FollowersOf(t, username);
      r.Success? ==>
        var u := t.users[FindUserByUsername(t.users, username).value];
        && |r.value| == |FollowerEdges(t.follows, u.id)|
        && forall k :: 0 <= k < |r.value| ==> r.value[k] == Preview(u)
  {
    match FindUserByUsername(t.users, username)
    case None =>
    case Some(i) =>
      var edges := FollowerEdges(t.follows, t.users[i].id);
      UserOrZeroFinds(t.users, t.nextUserId, i);
      forall k | 0 <= k < |edges| ensures edges[k].userId == t.users[i].id {
        assert edges[k] in edges;
      }
  }

  /** The following listing previews, per row the account follows, the
      account followed. */
  lemma FollowingListsFollowed(t: Tables, username: string)
    ensures var r := FollowingOf(t, username);
      r.Success? ==>
        var u := t.users[FindUserByUsername(t.users, username).value];
        && |r.value| == |FollowingEdges(t.follows, u.id)|
        && forall k :: 0 <= k < |r.value| ==>
             var e := FollowingEdges(t.follows, u.id)[k];
             e in t.follows && e.followerId == u.id && r.value[k] == Preview(UserOrZero(t.users, e.userId))
  {
    match FindUserByUsername(t.users, username)
    case None =>
    case Some(i) =>
      var edges := FollowingEdges(t.follows, t.users[i].id);
      forall k | 0 <= k < |edges| ensures edges[k] in t.follows && edges[k].followerId == t.users[i].id {
        assert edges[k] in edges;
      }
  }

  /** The `JOIN user_viewed_posts ON posts.id = user_viewed_posts.post_id`
      of GetPostsWatchedByUser: one post per view row of any account. */
  function JoinViewed(posts: seq<Post>, views: seq<PostEdge>): seq<Post> {
    if |views| == 0 then []
    else
      var last := views[|views| - 1];
      JoinViewed(posts, views[..|views| - 1])
        + match FindPost(posts, last.postId) { case Some(i) => [posts[i]] case None => [] }
  }

  /** GetPostsWatchedByUser: the username must exist, but the join does not
      filter by it. */
  function WatchedPosts(t: Tables, username: string): Result<seq<PostWithUser>> {
    match FindUserByUsername(t.users, username)
    case None => Failure(ServiceError(ValueDoesntExist, AccountUsernameNotFound(username)))
    case Some(_) => Success(DisplayAll(WithOwners(t.users, JoinViewed(t.posts, t.views))))
  }

  /** With every view row pointing at a post, the join gives one post per
      view row, of whichever account. */
  lemma {:induction false} JoinViewedOnePerRow(posts: seq<Post>, views: seq<PostEdge>)
    requires EdgesReferencePosts(views, posts)
    ensures |JoinViewed(posts, views)| == |views|
    ensures forall k :: 0 <= k < |views| ==> JoinViewed(posts, views)[k].id == views[k].postId
    decreases |views|
  {
    if |views| > 0 {
      var init, last := views[..|views| - 1], views[|views| - 1];
      assert forall e :: e in init ==> e in views;
      JoinViewedOnePerRow(posts, init);
      assert last in views;
      var k :| 0 <= k < |posts| && posts[k].id == last.postId;
    }
  }

  /** Any two existing accounts get the same watched list: every view row
      of the table, one entry each. */
  lemma WatchedIgnoresAccount(t: Tables, a: string, b: string)
    requires Invariant(t)
    requires FindUserByUsername(t.users, a).Some? && FindUserByUsername(t.users, b).Some?
    ensures WatchedPosts(t, a) == WatchedPosts(t, b)
    ensures |WatchedPosts(t, a).value| == |t.views|
  {
    JoinViewedOnePerRow(t.posts, t.views);
  }

  /** GetUserUploadedPosts: the posts whose owner is the account. */
  function UploadedPosts(t: Tables, username: string): Result<seq<PostWithUser>> {
    match FindUserByUsername(t.users, username)
    case None => Failure(ServiceError(ValueDoesntExist, AccountUsernameNotFound(username)))
    case Some(i) => Success(DisplayAll(WithOwners(t.users, PostsOwnedBy(t.posts, t.users[i].id))))
  }

  /** The uploaded listing holds exactly the account's posts, each shown
      with the account as its user. */
  lemma UploadedAreOwned(t: Tables, username: string)
    requires Invariant(t)
    ensures var r := UploadedPosts(t, username);
      r.Success? ==>
        var u := t.users[FindUserByUsername(t.users, username).value];
        && (forall k :: 0 <= k < |r.value| ==> r.value[k].user == Preview(u))
        && (forall p :: p in t.posts ==> (p.userId == u.id <==> ListsPost(r.value, p.id)))
  {
    match FindUserByUsername(t.users, username)
    case None =>
    case Some(i) =>
      UserOrZeroFinds(t.users, t.nextUserId, i);
      OwnedListingShowsOwner(t.users, t.posts, t.users[i]);
      OwnedListingMembers(t.users, t.posts, t.nextPostId, t.users[i].id);
  }

  lemma OwnedListingShowsOwner(users: seq<User>, posts: seq<Post>, u: User)
    requires UserOrZero(users, u.id) == u
    ensures var r := DisplayAll(WithOwners(users, PostsOwnedBy(posts, u.id)));
      forall k :: 0 <= k < |r| ==> r[k].user == Preview(u)
  {
    var owned := PostsOwnedBy(posts, u.id);
    forall k | 0 <= k < |owned| ensures owned[k].userId == u.id {
      assert owned[k] in owned;
    }
  }

  /** Some entry of the listing shows the post with this id. */
  ghost predicate ListsPost(r: seq<PostWithUser>, id: nat) {
    exists k :: 0 <= k < |r| && r[k].id == id
  }

  /** With unique post ids, a post is listed (by id) iff the account owns it. */
  lemma OwnedListingMembers(users: seq<User>, posts: seq<Post>, next: nat, owner: nat)
    requires PostIdsAscending(posts, next)
    ensures forall p :: p in posts ==>
      (p.userId == owner <==> ListsPost(DisplayAll(WithOwners(users, PostsOwnedBy(posts, owner))), p.id))
  {
    var owned := PostsOwnedBy(posts, owner);
    var r := DisplayAll(WithOwners(users, owned));
    assert forall k :: 0 <= k < |r| ==> r[k].id == owned[k].id;
    forall p | p in posts
      ensures p.userId == owner <==> ListsPost(r, p.id)
    {
      if p.userId == owner {
        var k :| 0 <= k < |owned| && owned[k] == p;
        assert r[k].id == p.id;
      }
      if ListsPost(r, p.id) {
        var k :| 0 <= k < |r| && r[k].id == p.id;
        var q := owned[k];
        assert q in owned;
        var a :| 0 <= a < |posts| && posts[a] == p;
        var b :| 0 <= b < |posts| && posts[b] == q;
        PostIdsDistinct(posts, next, a, b);
      }
    }
  }

  /** Ascending ids identify a post's position. */
  lemma PostIdsDistinct(posts: seq<Post>, next: nat, a: nat, b: nat)
    requires PostIdsAscending(posts, next) && a < |posts| && b < |posts| && posts[a].id == posts[b].id
    ensures a == b
  {
  }

  /** `Preload("LikedPosts.User")` for an account whose like rows are
      `likes`. GORM reads the join rows, loads the posts they name with one
      `id IN (...)` query, and appends each loaded post once per join row
      naming it: the list follows the posts table, not the like rows. Each
      post carries its preloaded owner. */
  function LikedPostsOf(users: seq<User>, posts: seq<Post>, likes: seq<PostEdge>): seq<PostWithOwner>
    decreases |posts|
  {
    if |posts| == 0 then []
    else
      var p := posts[|posts| - 1];
      LikedPostsOf(users, posts[..|posts| - 1], likes)
        + seq(|EdgesOnPost(likes, p.id)|, _ => PostWithOwner(p, UserOrZero(users, p.userId)))
  }

  /** GetUserLikedPosts. */
  function LikedPosts(t: Tables, username: string): Result<seq<PostWithUser>> {
    match FindUserByUsername(t.users, username)
    case None => Failure(ServiceError(ValueDoesntExist, AccountUsernameNotFound(username)))
    case Some(i) => Success(DisplayAll(LikedPostsOf(t.users, t.posts, EdgesByUser(t.likes, t.users[i].id))))
  }

  /** Some like row names the post. */
  ghost predicate Liked(likes: seq<PostEdge>, postId: nat) {
    exists e :: e in likes && e.postId == postId
  }

  /** A loaded entry: a stored post some like row names, with its owner. */
  ghost predicate LoadsLikedPost(users: seq<User>, posts: seq<Post>, likes: seq<PostEdge>, entry: PostWithOwner) {
    entry.post in posts && Liked(likes, entry.post.id) && entry.owner == UserOrZero(users, entry.post.userId)
  }

  /** Every entry of the liked list is a stored, liked post with its owner. */
  lemma {:induction false} LikedEntriesLoaded(users: seq<User>, posts: seq<Post>, likes: seq<PostEdge>)
    ensures forall k :: 0 <= k < |LikedPostsOf(users, posts, likes)| ==>
      LoadsLikedPost(users, posts, likes, LikedPostsOf(users, posts, likes)[k])
    decreases |posts|
  {
    if |posts| > 0 {
      var init, p := posts[..|posts| - 1], posts[|posts| - 1];
      assert posts == init + [p];
      LikedEntriesLoaded(users, init, likes);
      var prev := LikedPostsOf(users, init, likes);
      var block := seq(|EdgesOnPost(likes, p.id)|, _ => PostWithOwner(p, UserOrZero(users, p.userId)));
      var all := prev + block;
      assert LikedPostsOf(users, posts, likes) == all;
      forall k | 0 <= k < |all|
        ensures LoadsLikedPost(users, posts, likes, all[k])
      {
        if k < |prev| {
          assert all[k] == prev[k];
        } else {
          assert all[k] == block[k - |prev|];
          assert EdgesOnPost(likes, p.id)[0] in EdgesOnPost(likes, p.id);
        }
      }
    }
  }

  /** Every stored post some like row names is in the liked list. */
  lemma {:induction false} LikedCoversLikes(users: seq<User>, posts: seq<Post>, likes: seq<PostEdge>)
    ensures forall e, p :: e in likes && p in posts && p.id == e.postId ==>
      exists k :: 0 <= k < |LikedPostsOf(users, posts, likes)| && LikedPostsOf(users, posts, likes)[k].post == p
    decreases |posts|
  {
    if |posts| > 0 {
      var init, last := posts[..|posts| - 1], posts[|posts| - 1];
      assert posts == init + [last];
      LikedCoversLikes(users, init, likes);
      var prev := LikedPostsOf(users, init, likes);
      var block := seq(|EdgesOnPost(likes, last.id)|, _ => PostWithOwner(last, UserOrZero(users, last.userId)));
      var all := prev + block;
      assert LikedPostsOf(users, posts, likes) == all;
      forall e, p | e in likes && p in posts && p.id == e.postId
        ensures exists k :: 0 <= k < |all| && all[k].post == p
      {
        if p in init {
          var k :| 0 <= k < |prev| && prev[k].post == p;
          assert all[k] == prev[k];
        } else {
          assert p == last;
          assert e in EdgesOnPost(likes, last.id);
          assert all[|prev|] == block[0];
        }
      }
    }
  }

  /** With ids ascending along the posts table, the liked list is in
      table order: its ids never decrease. */
  lemma {:induction false} LikedInTableOrder(users: seq<User>, posts: seq<Post>, likes: seq<PostEdge>)
    requires forall i, j :: 0 <= i < j < |posts| ==> posts[i].id < posts[j].id
    ensures forall i, j :: 0 <= i < j < |LikedPostsOf(users, posts, likes)| ==>
      LikedPostsOf(users, posts, likes)[i].post.id <= LikedPostsOf(users, posts, likes)[j].post.id
    decreases |posts|
  {
    if |posts| > 0 {
      var init, p := posts[..|posts| - 1], posts[|posts| - 1];
      assert posts == init + [p];
      LikedInTableOrder(users, init, likes);
      LikedEntriesLoaded(users, init, likes);
      var prev := LikedPostsOf(users, init, likes);
      var block := seq(|EdgesOnPost(likes, p.id)|, _ => PostWithOwner(p, UserOrZero(users, p.userId)));
      var all := prev + block;
      assert LikedPostsOf(users, posts, likes) == all;
      forall k | 0 <= k < |prev| ensures prev[k].post.id < p.id {
        var a :| 0 <= a < |init| && init[a] == prev[k].post;
        assert posts[a] == init[a];
      }
      forall i, j | 0 <= i < j < |all| ensures all[i].post.id <= all[j].post.id {
        if j < |prev| {
          assert all[i] == prev[i] && all[j] == prev[j];
        } else if i < |prev| {
          assert all[i] == prev[i] && all[j] == block[j - |prev|];
        } else {
          assert all[i] == block[i - |prev|] && all[j] == block[j - |prev|];
        }
      }
    }
  }

  /** The like rows naming a post of the table. */
  ghost function LikesOn(likes: seq<PostEdge>, posts: seq<Post>): seq<PostEdge>
    decreases |likes|
  {
    if |likes| == 0 then []
    else
      var e := likes[|likes| - 1];
      LikesOn(likes[..|likes| - 1], posts) + (if HasPost(posts, e.postId) then [e] else [])
  }

  /** A post with a new id adds exactly its own like rows. */
  lemma {:induction false} LikesOnAppend(likes: seq<PostEdge>, posts: seq<Post>, p: Post)
    requires forall i :: 0 <= i < |posts| ==> posts[i].id != p.id
    ensures |LikesOn(likes, posts + [p])| == |LikesOn(likes, posts)| + |EdgesOnPost(likes, p.id)|
    decreases |likes|
  {
    if |likes| > 0 {
      var init, e := likes[..|likes| - 1], likes[|likes| - 1];
      assert likes == init + [e];
      LikesOnAppend(init, posts, p);
      var posts' := posts + [p];
      if HasPost(posts', e.postId) {
        var k :| 0 <= k < |posts'| && posts'[k].id == e.postId;
        if k < |posts| {
          assert posts'[k] == posts[k];
        }
      }
      if HasPost(posts, e.postId) {
        var k :| 0 <= k < |posts| && posts[k].id == e.postId;
        assert posts'[k] == posts[k];
      }
      if e.postId == p.id {
        assert posts'[|posts|] == p;
      }
    }
  }

  /** No like row names a post of an empty table. */
  lemma {:induction false} LikesOnEmpty(likes: seq<PostEdge>)
    ensures LikesOn(likes, []) == []
    decreases |likes|
  {
    if |likes| > 0 {
      LikesOnEmpty(likes[..|likes| - 1]);
    }
  }

  /** When every like row names a stored post, all of them are kept. */
  lemma {:induction false} LikesOnAll(likes: seq<PostEdge>, posts: seq<Post>)
    requires forall e :: e in likes ==> HasPost(posts, e.postId)
    ensures LikesOn(likes, posts) == likes
    decreases |likes|
  {
    if |likes| > 0 {
      var init, e := likes[..|likes| - 1], likes[|likes| - 1];
      assert likes == init + [e];
      assert forall x :: x in init ==> x in likes;
      LikesOnAll(init, posts);
      assert e in likes;
    }
  }

  /** The liked list holds one entry per like row naming a stored post. */
  lemma {:induction false} LikedCountsLikesOn(users: seq<User>, posts: seq<Post>, likes: seq<PostEdge>)
    requires forall i, j :: 0 <= i < j < |posts| ==> posts[i].id < posts[j].id
    ensures |LikedPostsOf(users, posts, likes)| == |LikesOn(likes, posts)|
    decreases |posts|
  {
    if |posts| == 0 {
      LikesOnEmpty(likes);
    } else {
      var init, p := posts[..|posts| - 1], posts[|posts| - 1];
      assert posts == init + [p];
      LikedCountsLikesOn(users, init, likes);
      forall i | 0 <= i < |init| ensures init[i].id != p.id {
        assert posts[i] == init[i];
      }
      LikesOnAppend(likes, init, p);
    }
  }

  /** With unique post ids and every like row naming a stored post, the
      liked list has exactly one entry per like row. */
  lemma LikedOnePerLike(users: seq<User>, posts: seq<Post>, likes: seq<PostEdge>)
    requires forall i, j :: 0 <= i < j < |posts| ==> posts[i].id < posts[j].id
    requires forall e :: e in likes ==> HasPost(posts, e.postId)
    ensures |LikedPostsOf(users, posts, likes)| == |likes|
  {
    LikedCountsLikesOn(users, posts, likes);
    LikesOnAll(likes, posts);
  }

  /** The listing entry built for a liked post: the stored post's fields
      with its owner's preview. */
  ghost predicate ShowsLikedPost(t: Tables, likes: seq<PostEdge>, entry: PostWithUser) {
    exists p :: p in t.posts && Liked(likes, p.id)
      && entry == PostWithUser(p.id, p.image, p.caption, Preview(UserOrZero(t.users, p.userId)),
                               p.viewersCount, p.likesCount)
  }

  /** Each displayed entry shows a liked post with its owner's preview. */
  lemma LikedShown(t: Tables, likes: seq<PostEdge>)
    ensures var r := DisplayAll(LikedPostsOf(t.users, t.posts, likes));
      forall k :: 0 <= k < |r| ==> ShowsLikedPost(t, likes, r[k])
  {
    var listed := LikedPostsOf(t.users, t.posts, likes);
    var r := DisplayAll(listed);
    LikedEntriesLoaded(t.users, t.posts, likes);
    forall k | 0 <= k < |r|
      ensures ShowsLikedPost(t, likes, r[k])
    {
      assert r[k] == Display(listed[k]);
      assert LoadsLikedPost(t.users, t.posts, likes, listed[k]);
    }
  }

  /** Every like naming a stored post shows up in the displayed list. */
  lemma LikedShownCovers(t: Tables, likes: seq<PostEdge>)
    requires forall e :: e in likes ==> HasPost(t.posts, e.postId)
    ensures forall e :: e in likes ==> ListsPost(DisplayAll(LikedPostsOf(t.users, t.posts, likes)), e.postId)
  {
    var listed := LikedPostsOf(t.users, t.posts, likes);
    var r := DisplayAll(listed);
    LikedCoversLikes(t.users, t.posts, likes);
    forall e | e in likes
      ensures ListsPost(r, e.postId)
    {
      var a :| 0 <= a < |t.posts| && t.posts[a].id == e.postId;
      assert t.posts[a] in t.posts;
      var k :| 0 <= k < |listed| && listed[k].post == t.posts[a];
      assert r[k] == Display(listed[k]);
    }
  }

  /** The displayed list keeps the table order of the posts. */
  lemma LikedShownInOrder(t: Tables, likes: seq<PostEdge>)
    requires forall i, j :: 0 <= i < j < |t.posts| ==> t.posts[i].id < t.posts[j].id
    ensures var r := DisplayAll(LikedPostsOf(t.users, t.posts, likes));
      forall i, j :: 0 <= i < j < |r| ==> r[i].id <= r[j].id
  {
    var listed := LikedPostsOf(t.users, t.posts, likes);
    var r := DisplayAll(listed);
    LikedInTableOrder(t.users, t.posts, likes);
    forall i, j | 0 <= i < j < |r|
      ensures r[i].id <= r[j].id
    {
      assert r[i] == Display(listed[i]) && r[j] == Display(listed[j]);
    }
  }

  /** GetUserLikedPosts lists one entry per like of the account, each built
      from a post the account liked and that post's owner, covering every
      like, in posts-table order. */
  lemma LikedListsAccountLikes(t: Tables, username: string)
    requires PostIdsAscending(t.posts, t.nextPostId)
    requires EdgesReferencePosts(t.likes, t.posts)
    ensures var r := LikedPosts(t, username);
      r.Success? ==>
        var likes := EdgesByUser(t.likes, t.users[FindUserByUsername(t.users, username).value].id);
        && |r.value| == |likes|
        && (forall k :: 0 <= k < |r.value| ==> ShowsLikedPost(t, likes, r.value[k]))
        && (forall e :: e in likes ==> ListsPost(r.value, e.postId))
        && (forall i, j :: 0 <= i < j < |r.value| ==> r.value[i].id <= r.value[j].id)
  {
    match FindUserByUsername(t.users, username)
    case None =>
    case Some(u) =>
      var likes := EdgesByUser(t.likes, t.users[u].id);
      assert forall e :: e in likes ==> HasPost(t.posts, e.postId);
      LikedOnePerLike(t.users, t.posts, likes);
      LikedShown(t, likes);
      LikedShownCovers(t, likes);
      LikedShownInOrder(t, likes);
  }

  // =====================================================================
  // Profile update
  // =====================================================================

  /** The gender guard `g != "Male" || g != "Female" || g != "Unknown"`. */
  predicate GenderAccepted(g: string) {
    g != "Male" || g != "Female" || g != "Unknown"
  }

  /** No string is rejected by the guard, so the "invalid gender" branch is
      never taken. */
  lemma GenderAlwaysAccepted(g: string)
    ensures GenderAccepted(g)
  {
    if g == "Male" {
      assert g[0] == 'M';
      assert "Female"[0] == 'F';
    }
  }

  /** The in-memory edits UpdateUserProfile makes to the loaded row. */
  function EditProfile(u: User, picture: Option<string>, bio: string, gender: string): Result<User> {
    var u1 := match picture { case Some(path) => u.(profilePicture := path) case None => u };
    var u2 := if bio != "" || bio != u1.bio then u1.(bio := bio) else u1;
    if gender != "" && gender != u2.gender then
      if GenderAccepted(gender) then Success(u2.(gender := gender))
      else Failure(ServiceError(InvalidValueError, Text("invalid gender")))
    else Success(u2)
  }

  /** A string column written by `Updates(&struct)`: zero values are
      skipped. */
  function NonZero(edited: string, stored: string): string {
    if edited == "" then stored else edited
  }

  /** `Updates(&user)` with the edited struct: every non-empty field is
      written, the id is the key. */
  function Updates(stored: User, edited: User): User {
    User(stored.id,
         NonZero(edited.username, stored.username),
         NonZero(edited.fullName, stored.fullName),
         NonZero(edited.email, stored.email),
         NonZero(edited.password, stored.password),
         NonZero(edited.bio, stored.bio),
         NonZero(edited.gender, stored.gender),
         NonZero(edited.profilePicture, stored.profilePicture))
  }

  /** UpdateUserProfile: load the row, store the avatar if one was sent,
      edit bio and gender in memory, then `Updates`. */
  function UpdateProfileStep(t: Tables, userId: nat, picture: Option<Upload>, bio: string, gender: string): Transition {
    match FindUser(t.users, userId)
    case None =>
      Transition(Fail(ServiceError(ValueDoesntExist, Text("account could not be found"))), t)
    case Some(i) =>
      match picture
      case Some(UploadFailed(reason)) =>
        Transition(Fail(ServiceError(UploadFileError, Text(reason))), t)
      case _ =>
        var path := match picture { case Some(Uploaded(p)) => Some(p) case _ => None };
        match EditProfile(t.users[i], path, bio, gender)
        case Failure(err) => Transition(Fail(err), t)
        case Success(edited) => Transition(Ok, t.(users := t.users[i := Updates(t.users[i], edited)]))
  }

  /** The internal tree's UpdateUserProfile(files, ...): the avatar is the
      first uploaded file, if any file was sent. */
  function UpdateProfileFilesStep(t: Tables, files: seq<Upload>, userId: nat, bio: string, gender: string): Transition {
    UpdateProfileStep(t, userId, if |files| == 0 then None else Some(files[0]), bio, gender)
  }

  /** In memory the bio always becomes the request's bio, and the gender
      becomes the request's gender iff that is non-empty: no value is
      rejected. */
  lemma EditSetsBioAndGender(u: User, picture: Option<string>, bio: string, gender: string)
    ensures var r := EditProfile(u, picture, bio, gender);
      && r.Success?
      && r.value.bio == bio
      && r.value.gender == (if gender != "" then gender else u.gender)
      && r.value.profilePicture == (if picture.Some? then picture.value else u.profilePicture)
      && r.value == u.(bio := r.value.bio, gender := r.value.gender, profilePicture := r.value.profilePicture)
  {
    GenderAlwaysAccepted(gender);
  }

  /** The stored row after UpdateUserProfile: a missing account or a failed
      upload writes nothing; otherwise bio, gender and avatar take the
      request's values where those are non-empty (`Updates` skips empty
      strings, so an empty bio leaves the stored one), and nothing else of
      the account or of any other account changes. */
  lemma {:induction false} UpdateProfileEffect(t: Tables, userId: nat, picture: Option<Upload>, bio: string, gender: string)
    ensures var r := UpdateProfileStep(t, userId, picture, bio, gender);
      && (FindUser(t.users, userId).None? ==>
            r == Transition(Fail(ServiceError(ValueDoesntExist, Text("account could not be found"))), t))
      && (FindUser(t.users, userId).Some? && picture.Some? && picture.value.UploadFailed? ==>
            r == Transition(Fail(ServiceError(UploadFileError, Text(picture.value.reason))), t))
      && (FindUser(t.users, userId).Some? && !(picture.Some? && picture.value.UploadFailed?) ==>
            var i := FindUser(t.users, userId).value;
            var u := t.users[i];
            && r.outcome == Ok
            && |r.after.users| == |t.users|
            && r.after.users[i] == u.(bio := NonZero(bio, u.bio),
                                      gender := NonZero(gender, u.gender),
                                      profilePicture := if picture.Some? then NonZero(picture.value.path, u.profilePicture)
                                                        else u.profilePicture)
            && (forall k :: 0 <= k < |t.users| && k != i ==> r.after.users[k] == t.users[k])
            && r.after == t.(users := r.after.users))
  {
    match FindUser(t.users, userId)
    case None =>
    case Some(i) =>
      var path := match picture { case Some(Uploaded(p)) => Some(p) case _ => None };
      EditSetsBioAndGender(t.users[i], path, bio, gender);
  }

  /** The internal tree: the avatar changes iff at least one file was sent
      and the first one was stored. */
  lemma UpdateProfileFilesAvatar(t: Tables, files: seq<Upload>, userId: nat, bio: string, gender: string)
    requires FindUser(t.users, userId).Some?
    ensures var r := UpdateProfileFilesStep(t, files, userId, bio, gender);
      var i := FindUser(t.users, userId).value;
      && (|files| == 0 ==> r.outcome == Ok && r.after.users[i].profilePicture == t.users[i].profilePicture)
      && (|files| > 0 && files[0].Uploaded? ==>
            r.outcome == Ok && r.after.users[i].profilePicture == NonZero(files[0].path, t.users[i].profilePicture))
      && (|files| > 0 && files[0].UploadFailed? ==> r.outcome.Fail? && r.after == t)
  {
    UpdateProfileEffect(t, userId, if |files| == 0 then None else Some(files[0]), bio, gender);
  }

  lemma UpdateProfilePreservesInvariant(t: Tables, userId: nat, picture: Option<Upload>, bio: string, gender: string)
    requires Invariant(t)
    ensures Invariant(UpdateProfileStep(t, userId, picture, bio, gender).after)
  {
    UpdateProfileEffect(t, userId, picture, bio, gender);
  }

  // =====================================================================
  // The service
  // =====================================================================

  /** userServiceStruct: the account operations on the shared database. */
  class UserService {
    const db: Database

    constructor (db: Database)
      ensures this.db == db
    {
      this.db := db;
    }

    method FollowUser(followingId: nat, followerId: nat) returns (r: Outcome)
      requires db.Valid()
      modifies db
      ensures db.Valid()
      ensures Transition(r, db.Snapshot()) == FollowStep(old(db.Snapshot()), followingId, followerId)
    {
      ghost var t := db.Snapshot();
      FollowPreservesInvariant(t, followingId, followerId);
      if FindUser(db.users, followingId).None? {
        return Fail(ServiceError(ValueDoesntExist, AccountIdNotFound(followingId)));
      }
      if FindUser(db.users, followerId).None? {
        return Fail(ServiceError(ValueDoesntExist, AccountIdNotFound(followerId)));
      }
      var isFollowing := IsFollowingUser(db.follows, followingId, followerId);
      if !isFollowing {
        db.CreateFollow(FollowEdge(followingId, followerId));
        return Ok;
      }
      return Fail(ServiceError(UserFollowerError, Text("You have done following")));
    }

    method UnfollowUser(followingId: nat, followerId: nat) returns (r: Outcome)
      requires db.Valid()
      modifies db
      ensures db.Valid()
      ensures Transition(r, db.Snapshot()) == UnfollowStep(old(db.Snapshot()), followingId, followerId)
    {
      ghost var t := db.Snapshot();
      UnfollowPreservesInvariant(t, followingId, followerId);
      if FindUser(db.users, followingId).None? {
        return Fail(ServiceError(ValueDoesntExist, AccountIdNotFound(followingId)));
      }
      if FindUser(db.users, followerId).None? {
        return Fail(ServiceError(ValueDoesntExist, AccountIdNotFound(followingId)));
      }
      var isFollowing := IsFollowingUser(db.follows, followingId, followerId);
      if isFollowing {
        db.DeleteFollow(FollowEdge(followingId, followerId));
        return Ok;
      }
      return Fail(ServiceError(UserFollowerError, Text("You haven't followed yet")));
    }

    /** The app tree's UpdateUserProfile; `picture` is the avatar upload,
        if the request carried a file. */
    method UpdateUserProfile(userId: nat, picture: Option<Upload>, bio: string, gender: string) returns (r: Outcome)
      requires db.Valid()
      modifies db
      ensures db.Valid()
      ensures Transition(r, db.Snapshot()) == UpdateProfileStep(old(db.Snapshot()), userId, picture, bio, gender)
    {
      ghost var t := db.Snapshot();
      UpdateProfilePreservesInvariant(t, userId, picture, bio, gender);
      var found := FindUser(db.users, userId);
      if found.None? {
        return Fail(ServiceError(ValueDoesntExist, Text("account could not be found")));
      }
      var user := db.users[found.value];
      if picture.Some? {
        match picture.value {
          case UploadFailed(reason) =>
            return Fail(ServiceError(UploadFileError, Text(reason)));
          case Uploaded(path) =>
            user := user.(profilePicture := path);
        }
      }
      if bio != "" || bio != user.bio {
        user := user.(bio := bio);
      }
      if gender != "" && gender != user.gender {
        GenderAlwaysAccepted(gender);
        user := user.(gender := gender);
      }
      db.SaveUser(found.value, Updates(db.users[found.value], user));
      return Ok;
    }

    /** The internal tree's UpdateUserProfile(files, ...). */
    method UpdateUserProfileFiles(files: seq<Upload>, userId: nat, bio: string, gender: string) returns (r: Outcome)
      requires db.Valid()
      modifies db
      ensures db.Valid()
      ensures Transition(r, db.Snapshot()) == UpdateProfileFilesStep(old(db.Snapshot()), files, userId, bio, gender)
    {
      var picture := if |files| != 0 then Some(files[0]) else None;
      r := UpdateUserProfile(userId, picture, bio, gender);
    }

    /** The `for ... append` loop of GetUserFollowers and GetUserFollowing. */
    method PreviewFollowRows(edges: seq<FollowEdge>) returns (previews: seq<PreviewUser>)
      ensures previews == FollowerPreviews(db.users, edges)
    {
      previews := [];
      for k := 0 to |edges|
        invariant |previews| == k
        invariant forall j :: 0 <= j < k ==> previews[j] == Preview(UserOrZero(db.users, edges[j].userId))
      {
        var user := UserOrZero(db.users, edges[k].userId);
        previews := previews + [PreviewUser(user.id, user.username, user.profilePicture)];
      }
    }

    method GetUserFollowers(username: string) returns (r: Result<seq<PreviewUser>>)
      ensures r == FollowersOf(db.Snapshot(), username)
    {
      var found := FindUserByUsername(db.users, username);
      if found.None? {
        return Failure(ServiceError(ValueDoesntExist, AccountUsernameNotFound(username)));
      }
      var previews := PreviewFollowRows(FollowerEdges(db.follows, db.users[found.value].id));
      return Success(previews);
    }

    method GetUserFollowing(username: string) returns (r: Result<seq<PreviewUser>>)
      ensures r == FollowingOf(db.Snapshot(), username)
    {
      var found := FindUserByUsername(db.users, username);
      if found.None? {
        return Failure(ServiceError(ValueDoesntExist, AccountUsernameNotFound(username)));
      }
      var previews := PreviewFollowRows(FollowingEdges(db.follows, db.users[found.value].id));
      return Success(previews);
    }

    method GetPostsWatchedByUser(username: string) returns (r: Result<seq<PostWithUser>>)
      ensures r == WatchedPosts(db.Snapshot(), username)
    {
      if FindUserByUsername(db.users, username).None? {
        return Failure(ServiceError(ValueDoesntExist, AccountUsernameNotFound(username)));
      }
      var posts := JoinViewed(db.posts, db.views);
      var owned := WithOwners(db.users, posts);
      var userPosts := ConvertToUserPosts(owned);
      return Success(userPosts);
    }

    method GetUserUploadedPosts(username: string) returns (r: Result<seq<PostWithUser>>)
      ensures r == UploadedPosts(db.Snapshot(), username)
    {
      var found := FindUserByUsername(db.users, username);
      if found.None? {
        return Failure(ServiceError(ValueDoesntExist, AccountUsernameNotFound(username)));
      }
      var posts := PostsOwnedBy(db.posts, db.users[found.value].id);
      var owned := WithOwners(db.users, posts);
      var userPost := ConvertToUserPosts(owned);
      return Success(userPost);
    }

    method GetUserLikedPosts(username: string) returns (r: Result<seq<PostWithUser>>)
      ensures r == LikedPosts(db.Snapshot(), username)
    {
      var found := FindUserByUsername(db.users, username);
      if found.None? {
        return Failure(ServiceError(ValueDoesntExist, AccountUsernameNotFound(username)));
      }
      var likedPosts := LikedPostsOf(db.users, db.posts, EdgesByUser(db.likes, db.users[found.value].id));
      var posts: seq<PostWithUser> := [];
      for k := 0 to |likedPosts|
        invariant |posts| == k
        invariant forall j :: 0 <= j < k ==> posts[j] == Display(likedPosts[j])
      {
        var post := likedPosts[k].post;
        var owner := likedPosts[k].owner;
        var previewUser := PreviewUser(owner.id, owner.username, owner.profilePicture);
        posts := posts + [PostWithUser(post.id, post.image, post.caption, previewUser, post.viewersCount, post.likesCount)];
      }
      assert posts == DisplayAll(likedPosts);
      return Success(posts);
    }
  }
}
