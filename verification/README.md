# social-app service core in Dafny

This project models the service layer of a small social network written in
Go with the GORM ORM. Accounts sign up and log in. They follow each other,
upload posts with an image and a caption, view, like and comment on posts,
and read feeds and listings built from those actions. The model covers the
three services (posts, users, authentication) in both trees where they
appear (`app/service` and `internal/service`), and the helper that turns
loaded posts into response records (`pkg/util/DataFormat.go`).

The two trees hold the same code, with three differences:

- The internal post service has no comment operations.
- The internal `UpdateUserProfile` receives the avatar as a slice of files and uses the first one.
- The token helper lives in a different package.

Each model member serves both trees. The internal avatar variant has its own
members: `UserService.UpdateProfileFilesStep`, the lemma
`UserService.UpdateProfileFilesAvatar` and the method
`UserService.UserService.UpdateUserProfileFiles`.

## Structure

- `errors.dfy` (`Errors`) holds the `ServiceError` values: a type tag and a
  message. It also has `Outcome`, for calls that return only `error`, and
  `Result<T>`, for calls that return a value and an `error`.
- `entities.dfy` (`Entities`) holds the rows of the tables and the response
  projections: `PreviewUser`, `PostWithUser`, `PreviewComment` and
  `UserProfileWithConnection`.
- `store.dfy` (`Store`) models the database as one sequence per table, in
  insertion order, plus the next auto-increment id of each table.
  - `Tables` is the value of the whole database at one moment.
  - The functions model the GORM queries the services issue: `First`,
    `Where`, `Count`, `Preload`, `Delete`.
  - `Invariant` states what every operation preserves:
    - ids are positive, ascend along each table and stay below the next id;
    - no two accounts share an email or a username;
    - each (account, post) or (account, account) edge appears at most once;
    - every view and like edge points at an existing post;
    - `ViewersCount` and `LikesCount` equal the number of view and like edges.
  - The class `Database` is the shared connection. Its fields are those
    tables, and its write methods are the GORM `Create`, `Save` and
    `Delete` calls.
- `data_format.dfy` (`DataFormat`) is `ConvertToUserPosts`, the loop that
  builds one `PostWithUser` per loaded post.
- `post_service.dfy`, `user_service.dfy` and `auth_service.dfy` hold one
  module per service. Each mutating operation has two parts:
  - A pure step function (`ViewPostStep`, `FollowStep`, `SignupStep`, ...)
    maps the tables before the call to the returned outcome and the tables
    after it. The lemmas about the operation are stated on this function.
  - A method of the service class performs the operation on the `Database`.
    Its postcondition says that the outcome and the new database contents
    are what the step function gives, and that `Invariant` still holds.

  Read-only operations have a function giving their result and a method
  with the source's loop, proved equal to it.

### Behaviour modelled as written

The model follows these behaviours of the code as written. Most of them
are stated by a lemma in the table below.

- `LikePost`, `UnLikePost` and `CreateCommentPost` report a missing account
  or post as `database_error` with GORM's "record not found". `ViewPost`
  reports the same case as `value_doesnt_exist`.
- `DeletePostComment` deletes by primary key. GORM reports no error when no
  row matches, so the "comment not found" branch is never taken and the
  operation always succeeds.
- `UnfollowUser` reports a missing follower with the id of the followed
  account.
- `GetUserFollowers` previews the `User` side of each follow row. For the
  rows that follow an account, that side is the account itself, so the
  listing repeats the account once per follower.
- `GetPostsWatchedByUser` checks that the username exists. Its join is not
  filtered by that account, so it returns one post per view row of every
  account.
- The gender guard `g != "Male" || g != "Female" || g != "Unknown"` holds
  for every string. Every non-empty gender is accepted.
- The bio guard `bio != "" || bio != stored` holds unless both are empty.
  The in-memory bio therefore always becomes the request's bio. `Updates`
  skips empty strings, so an empty request bio leaves the stored bio.
- `UnfollowUser` opens a transaction but deletes through the plain
  connection. Under one-step atomicity this makes no difference.

## Model

| member | source | states |
|---|---|---|
| Store.FindUser | app/service/post_service.go:218 | `First(&user, id)`: the index of the first account with the id; None exactly when no account has it |
| Store.FindUserByUsername | app/service/user_service.go:183 | `Where("username = ?").First`: the first account with the username; None exactly when none has it |
| Store.FindUserByEmailOrUsername | app/service/auth_service.go:30 | `Where("email = ? OR username = ?").First`: the first account matching either; None exactly when no account has the email or the username |
| Store.FindPost | app/service/post_service.go:224 | `First(&post, id)`: the index of the first post with the id; None exactly when no post has it |
| Store.EdgesOnPost | app/service/post_service.go:182-184 | `Preload("ViewedBy")` / `Preload("Likes")`: exactly the edges of the table that point at the post |
| Store.EdgesByUser | app/service/post_service.go:134-136 | `Where("user_id = ?")` on the view table, `LikedPosts` on the like table: exactly the edges from the account |
| Store.FollowerEdges | app/service/user_service.go:192 | `Preload("Followers")`: exactly the follow rows whose `UserID` is the account |
| Store.FollowingEdges | app/service/user_service.go:227 | `Preload("Following")`: exactly the follow rows whose `FollowerID` is the account |
| Store.CommentsOnPost | app/service/post_service.go:403 | `Preload("Comments")`: exactly the comments on the post |
| Store.PostsOwnedBy | app/service/user_service.go:337-339 | `Where("posts.user_id = ?")`: exactly the posts the account owns |
| Store.EdgesOnPostCounts | app/service/post_service.go:182-184 | the preload returns each row pointing at the post as often as the table holds it, and no other row |
| Store.EdgesByUserCounts | app/service/post_service.go:134-136 | the filter returns each row from the account as often as the table holds it, and no other row |
| Store.FollowerEdgesCounts | app/service/user_service.go:192 | `Preload("Followers")` returns each follow row with `UserID` the account as often as the table holds it |
| Store.FollowingEdgesCounts | app/service/user_service.go:227 | `Preload("Following")` returns each follow row with `FollowerID` the account as often as the table holds it |
| Store.CommentsOnPostCounts | app/service/post_service.go:403 | `Preload("Comments")` returns each comment of the post as often as the table holds it |
| Store.PostsOwnedByCounts | app/service/user_service.go:337-339 | the owner filter returns each owned post as often as the table holds it |
| Store.PostsWithIds | app/service/post_service.go:151 | `Where("id IN (?)")`: exactly the posts whose id is in the list |
| Store.Without | app/service/post_service.go:305 | `Where(...).Delete`: every row equal to the given one is removed and no other row changes (as multisets) |
| Store.CommentsWithoutId | app/service/post_service.go:427 | `Delete(&Comment{}, id)`: exactly the comments whose id differs remain |
| Store.PairCount | app/service/post_service.go:91 | `Count` of the (user, post) rows: zero exactly when the edge is absent |
| Store.Database.CreateUser | app/service/auth_service.go:48 | `Create(&user)` appends the row with the next id and advances the counter; nothing else changes |
| Store.Database.SaveUser | app/service/user_service.go:280 | the loaded account's row is replaced; nothing else changes |
| Store.Database.CreatePost | app/service/post_service.go:50 | `Create(&post)` appends the row with the next id and advances the counter |
| Store.Database.SavePost | app/service/post_service.go:112 | `Save(&post)` replaces the loaded post's row |
| Store.Database.CreateFollow | app/service/user_service.go:110 | `Create(&follower)` appends the follow row |
| Store.Database.DeleteFollow | app/service/user_service.go:161 | deletes every copy of the follow row |
| Store.Database.CreateView | app/service/post_service.go:104 | appends the view row |
| Store.Database.CreateLike | app/service/post_service.go:247 | appends the like row |
| Store.Database.DeleteLike | app/service/post_service.go:305 | deletes every copy of the like row |
| Store.Database.CreateComment | app/service/post_service.go:385 | appends the comment with the next id and advances the counter |
| Store.Database.DeleteComment | app/service/post_service.go:427 | removes the comments with the id |
| Store.EmptyInvariant | pkg/database/database.go:33 | a freshly migrated, empty database satisfies the invariant |
| Store.UserOrZeroFinds | app/service/post_service.go:183 | with ascending ids, the preloaded `User` of an existing account's id is that account |
| DataFormat.ConvertToUserPosts | pkg/util/DataFormat.go:7-30 | one record per loaded post, at the same position, with the post's id, image, caption and counters and a preview (id, username, avatar) of its owner |
| PostService.MaxViewsIndex | app/service/post_service.go:166 | an index into the posts (the head of `ORDER BY viewers_count DESC`) |
| PostService.MaxViewsBound | app/service/post_service.go:166 | no post has more views than the one `MaxViewsIndex` picks |
| PostService.RemoveAt | app/service/post_service.go:166-167 | one post fewer, and the removed post plus the rest is the original multiset |
| PostService.TopByViews | app/service/post_service.go:166-167 | `Order("viewers_count DESC").Limit(n)` returns min(n, number of posts) posts, drawn from the table without repetition (multiset inclusion) |
| PostService.TopByViewsDescending | app/service/post_service.go:166 | the selection is in non-increasing `ViewersCount` order |
| PostService.TopByViewsIsTop | app/service/post_service.go:166-167 | no post left out of the selection has more views than any post in it |
| PostService.FeedWithoutHistory | app/service/post_service.go:162-175 | an account with no view rows gets min(10, number of posts) distinct posts of the table, most viewed first, none left out viewed more than one chosen |
| PostService.FeedFromHistory | app/service/post_service.go:134-159 | an account with view rows gets exactly the existing posts it has a view row for |
| PostService.CreatePostAddsOne | app/service/post_service.go:36-56 | a failed upload is `upload_file_error` and writes nothing; otherwise one post is appended with a fresh id, the caller as owner, the stored path, the caption and zero counters, and nothing else changes |
| PostService.CreatePostPreservesInvariant | app/service/post_service.go:44-50 | creating a post keeps the store invariant |
| PostService.ViewPostRejectsMissing | app/service/post_service.go:67-88 | ViewPost fails exactly when the account or the post is missing, with `value_doesnt_exist` "user not found" / "post not found", writing nothing |
| PostService.ViewPostFirstView | app/service/post_service.go:90-118 | a first view appends exactly that view row, raises that post's `ViewersCount` by one, leaves every other post and table as it was, and keeps the invariant |
| PostService.ViewPostRepeat | app/service/post_service.go:97-126 | a repeated view succeeds and writes nothing |
| PostService.ViewPostIdempotent | app/service/post_service.go:58-127 | viewing twice leaves the store as viewing once |
| PostService.ViewPostPreservesInvariant | app/service/post_service.go:97-116 | ViewPost keeps the invariant, counters included |
| PostService.LikeRejectsMissing | app/service/post_service.go:218-228 | LikePost and UnLikePost on a missing account or post fail with `database_error` "record not found" and write nothing |
| PostService.LikePostOnce | app/service/post_service.go:236-270 | a first like appends one like row and raises `LikesCount` by one, nothing else changes; a repeated like is a silent success that writes nothing |
| PostService.LikePostPreservesInvariant | app/service/post_service.go:246-259 | LikePost keeps the invariant |
| PostService.UnLikePostOnce | app/service/post_service.go:295-328 | an unlike of a liked post deletes every copy of its like row and lowers `LikesCount` by one, nothing else changes; an unlike of a post not liked succeeds and writes nothing |
| PostService.UnLikePostDropsOneEdge | app/service/post_service.go:304-311 | with the pair liked once (as the invariant keeps it), the post has exactly one like row fewer afterwards |
| PostService.UnLikePostPreservesInvariant | app/service/post_service.go:304-317 | UnLikePost keeps the invariant |
| PostService.LikeThenUnlikeRestores | app/service/post_service.go:208-329 | a like followed by an unlike of the same post restores the store exactly |
| PostService.LikeRequestsKeepCounters | app/service/post_service.go:208-329 | after any sequence of likes and unlikes, every post's `LikesCount` still equals its number of like rows |
| PostService.CreateCommentThenListed | app/service/post_service.go:359-397 | a missing post or author is `database_error` "record not found"; otherwise the new comment is listed last among the post's comments, after the ones already there |
| PostService.CreateCommentPostPreservesInvariant | app/service/post_service.go:379-388 | CreateCommentPost keeps the invariant |
| PostService.DeleteCommentOutcome | app/service/post_service.go:426-437 | DeletePostComment always succeeds; exactly the comments with another id remain, and with no such comment nothing changes |
| PostService.DeletePostCommentPreservesInvariant | app/service/post_service.go:427 | DeletePostComment keeps the invariant |
| PostService.ListingsMatchCounters | app/service/post_service.go:178-206 | GetViewersOnPost lists exactly `ViewersCount` previews (one per view row, of its account) and GetUserWhoLikedPost exactly `LikesCount`; a missing post lists nobody |
| PostService.PostService.CreatePost | app/service/post_service.go:36-56 | performs CreatePostStep on the database and keeps the invariant |
| PostService.PostService.ViewPost | app/service/post_service.go:58-127 | performs ViewPostStep and keeps the invariant |
| PostService.PostService.LikePost | app/service/post_service.go:208-271 | performs LikePostStep and keeps the invariant |
| PostService.PostService.UnLikePost | app/service/post_service.go:273-329 | performs UnLikePostStep and keeps the invariant |
| PostService.PostService.CreateCommentPost | app/service/post_service.go:359-397 | performs CreateCommentPostStep and keeps the invariant |
| PostService.PostService.DeletePostComment | app/service/post_service.go:426-437 | performs DeletePostCommentStep and keeps the invariant |
| PostService.PostService.GetUserFeed | app/service/post_service.go:129-176 | the id-collecting loop and the conversion return the feed the history lemmas describe |
| PostService.PostService.PreviewEdges | app/service/post_service.go:194-202 | the preview loop yields one preview per edge, of that edge's account, in order |
| PostService.PostService.GetViewersOnPost | app/service/post_service.go:178-206 | returns the viewers listing of ListingsMatchCounters |
| PostService.PostService.GetUserWhoLikedPost | app/service/post_service.go:331-357 | returns the likers listing of ListingsMatchCounters |
| PostService.PostService.GetPostComments | app/service/post_service.go:399-424 | a missing post is `database_error`; otherwise one preview per comment on the post with its author |
| UserService.IsFollowingUser | app/service/user_service.go:35-44 | true exactly when a follow row (followed, follower) exists |
| UserService.FollowRejectsMissing | app/service/user_service.go:77-95 | FollowUser on a missing account is `value_doesnt_exist` naming the missing id, writing nothing |
| UserService.FollowTwice | app/service/user_service.go:97-125 | a first follow appends exactly that row, raising the followed account's follower count and the follower's following count by one; repeating it fails with `user_follower_error` "You have done following" and writes nothing |
| UserService.FollowPreservesInvariant | app/service/user_service.go:103-114 | FollowUser keeps follow rows unique and the rest of the invariant |
| UserService.UnfollowRejectsMissing | app/service/user_service.go:134-152 | UnfollowUser on a missing account is `value_doesnt_exist`, both messages carrying the followed account's id |
| UserService.UnfollowOutcome | app/service/user_service.go:154-176 | without a follow row, `user_follower_error` "You haven't followed yet" and nothing written; with one, that row is gone and every other row stays |
| UserService.UnfollowPreservesInvariant | app/service/user_service.go:160-165 | UnfollowUser keeps the invariant |
| UserService.FollowThenUnfollowRestores | app/service/user_service.go:71-177 | a follow followed by an unfollow restores the store exactly |
| UserService.ProfileCounts | app/service/user_service.go:46-69 | a missing username is `value_doesnt_exist` with the username; otherwise the profile carries the found account's id, username, full name, bio and avatar, its followers count is the number of follow rows whose `UserID` is that account's id and its following count the number whose `FollowerID` is |
| UserService.FollowersListTheAccount | app/service/user_service.go:179-212 | the followers listing has one entry per follower row, each a preview of the account itself |
| UserService.FollowingListsFollowed | app/service/user_service.go:214-242 | the following listing has one entry per row the account follows, each previewing the followed account |
| UserService.JoinViewedOnePerRow | app/service/user_service.go:307-309 | the `JOIN user_viewed_posts` yields one post per view row, the post that row points at |
| UserService.WatchedIgnoresAccount | app/service/user_service.go:294-321 | any two existing accounts get the same watched list, one entry per view row of the whole table |
| UserService.UploadedAreOwned | app/service/user_service.go:323-352 | the uploaded listing holds exactly the account's posts, each shown with the account as its user |
| UserService.LikedEntriesLoaded | app/service/user_service.go:367 | every post the `LikedPosts.User` preload yields is a stored post that a like row of the account names, with its preloaded owner |
| UserService.LikedCoversLikes | app/service/user_service.go:367 | every stored post that a like row of the account names is in the preloaded list |
| UserService.LikedInTableOrder | app/service/user_service.go:367 | the preloaded list follows the posts table (the `id IN (...)` query), so its ids never decrease |
| UserService.LikedOnePerLike | app/service/user_service.go:367 | with unique post ids and every like row naming a stored post, the preloaded list has exactly one post per like row |
| UserService.LikedShown | app/service/user_service.go:375-393 | each built entry carries a liked post's id, image, caption and counters and its owner's preview |
| UserService.LikedShownCovers | app/service/user_service.go:375-393 | every like row naming a stored post is listed by that post's id |
| UserService.LikedShownInOrder | app/service/user_service.go:375-393 | the built entries keep the posts-table order |
| UserService.LikedListsAccountLikes | app/service/user_service.go:354-396 | the liked listing has one entry per like of the account; each entry carries a liked post's id, image, caption and counters and its owner's preview; every liked post is listed; the entries follow the posts table, not the like rows |
| UserService.GenderAlwaysAccepted | app/service/user_service.go:273 | the gender guard holds for every string |
| UserService.EditSetsBioAndGender | app/service/user_service.go:260-278 | the in-memory edit never fails; the bio becomes the request's bio, the gender the request's gender when non-empty, the avatar the uploaded path when there is one, and nothing else changes |
| UserService.UpdateProfileEffect | app/service/user_service.go:244-292 | missing account: `value_doesnt_exist`, nothing written; failed upload: `upload_file_error`, nothing written; otherwise bio, gender and avatar take the request's non-empty values, and no other field or account changes |
| UserService.UpdateProfileFilesAvatar | internal/service/user_service.go:245-293 | with no files the avatar stays; with a stored first file it becomes that path; a failed first upload fails and writes nothing |
| UserService.UpdateProfilePreservesInvariant | app/service/user_service.go:280 | UpdateUserProfile keeps the invariant |
| UserService.UserService.FollowUser | app/service/user_service.go:71-126 | performs FollowStep and keeps the invariant |
| UserService.UserService.UnfollowUser | app/service/user_service.go:128-177 | performs UnfollowStep and keeps the invariant |
| UserService.UserService.UpdateUserProfile | app/service/user_service.go:244-292 | performs UpdateProfileStep and keeps the invariant |
| UserService.UserService.UpdateUserProfileFiles | internal/service/user_service.go:245-293 | performs UpdateProfileFilesStep and keeps the invariant |
| UserService.UserService.PreviewFollowRows | app/service/user_service.go:201-209 | the preview loop yields one preview per follow row, of its `User` side, in order |
| UserService.UserService.GetUserFollowers | app/service/user_service.go:179-212 | returns the followers listing described above |
| UserService.UserService.GetUserFollowing | app/service/user_service.go:214-242 | returns the following listing described above |
| UserService.UserService.GetPostsWatchedByUser | app/service/user_service.go:294-321 | returns the watched listing described above |
| UserService.UserService.GetUserUploadedPosts | app/service/user_service.go:323-352 | returns the uploaded listing described above |
| UserService.UserService.GetUserLikedPosts | app/service/user_service.go:354-396 | the copying loop returns the liked listing described above |
| AuthService.SignupRejectsTaken | app/service/auth_service.go:30-60 | Signup fails with `value_exist` "email or username already exist" exactly when an account has the email or the username; a failed Signup writes nothing |
| AuthService.SignupAddsOne | app/service/auth_service.go:31-53 | with a free email and username and a successful hash, exactly one account is appended with the next id, the given username, full name and email, and the password's digest; nothing else changes |
| AuthService.SignupPreservesInvariant | internal/service/auth_service.go:30-53 | Signup keeps emails and usernames unique and the rest of the invariant |
| AuthService.LoginRejectsUnknown | app/service/auth_service.go:66-69 | Login fails with `value_doesnt_exist` "account could not be found with this email" exactly when no account has the email or the username |
| AuthService.LoginChecksPassword | app/service/auth_service.go:75-94 | a mismatched password is `authentication_error` "password don't match"; a successful Login means the password matched and the token was issued for the account's id and username |
| AuthService.SignupThenLogin | app/service/auth_service.go:27-95 | after a successful Signup, Login with the same email, username and password returns the token for the new account's id and username |
| AuthService.SignupThenLoginByEmail | internal/service/auth_service.go:27-95 | the same when logging in by email alone, provided no account has an empty username |
| AuthService.AuthService.Signup | app/service/auth_service.go:27-61 | performs SignupStep and keeps the invariant |
| AuthService.AuthService.Login | app/service/auth_service.go:63-95 | returns LoginResult and changes nothing |

## Left out

- Database infrastructure failures (a failed `Begin`, `Commit`, query or
  insert returning `database_error`) are not modelled. Every GORM call
  either succeeds or reports "record not found". The rollback paths exist
  only to undo such failures.
- Concurrency is not modelled. Each service call is one atomic step on the
  store, so the transactions' isolation is not modelled.
- Timestamps (`CreatedAt`, `ViewedAt`, `LikedAt`, `FollowedAt`), the
  privacy flag, and the JWT expiry claim are not modelled.
- The upload helpers (`util.UploadImage`, `util.Upload`) are file-system
  I/O. The model takes their result, a stored path or a failure reason, as
  a parameter (`Upload`).
- bcrypt and the JWT signer are the three functions of a `Crypto` value.
  Their only assumed property is `Sound`: a password matches its own
  digest. Salting is not modelled, so the hash is deterministic.
- The HTTP controllers, routes, middleware and request validation are not
  part of this model. For example, the controllers pass the follow
  arguments in the order (body's follower id, caller).
- Row order: SQL without `ORDER BY` has no defined order. Every query is
  taken to return rows in insertion order; this includes `id IN (...)` and
  the join. For the many-to-many `Preload("LikedPosts.User")` this means
  the liked posts come in posts-table order (GORM appends the rows of its
  `id IN (...)` query), not in like-row order, and `UserService.LikedPostsOf`
  is built that way.
- Store.FindUserByUsername, Store.FindUserByEmailOrUsername,
  AuthService.SignupStep, AuthService.LoginResult,
  AuthService.SignupRejectsTaken, AuthService.LoginRejectsUnknown: emails
  and usernames are compared exactly. The connection opens MySQL with
  `charset=utf8mb4` and no collation (pkg/database/database.go:14), and the
  default utf8mb4 collations ignore case and accents. With an account
  "alice", the program refuses a signup as "Alice" and finds the account
  on a login as "ALICE"; the model inserts a second account and reports
  the login as unknown. The same holds for every other lookup by username
  (`GetUserProfile` and the listings) and for `Store.AccountsUnique`,
  which is stated with exact equality.
- Equal `viewers_count` values may come out of the database in any order.
  The model breaks ties by taking the earliest post.
- Go's `uint` ids and `int` counters are unbounded here. Overflow is not
  modelled.
- PostService.ViewPostFirstView (with `PostService.ViewPostStep` and
  `PostService.PostService.ViewPost`): assumes the first-view writes
  persist. As written, `ViewPost` returns from its first-view branch
  without calling `Commit`, so the view row and the `ViewersCount` update
  stay in an open transaction that no other connection sees. The model
  does not capture those lost writes or the transaction left open.
- The failure of `Create(&post)` when the owner does not exist (a foreign
  key) is not modelled. The model inserts the post.
- PostService.TopByViewsIsTop: states "left out" by membership. Posts are
  whole rows with unique ids, so that equals the row-count statement.
- PostService.FeedFromHistory: states which posts the feed holds, not
  their order.
- UserService.LikedPostsOf, UserService.JoinViewed: a like or view row
  whose post is missing contributes nothing. The invariant rules such rows
  out.
