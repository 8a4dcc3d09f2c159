/**
 * The toggles and guarded writes of the social service
 * (mini_social_media/social.ts), over the store model. A thrown `Error` is an
 * `Err` carrying its message's meaning; the store state after the call is
 * returned either way.
 */
module SocialService {
  import opened Wrappers
  import opened SocialStore

  datatype ServiceError =
    | PostNotFound              // "Post not found"
    | CannotFollowYourself      // "Cannot follow yourself"
    | UserNotFound              // "User not found"
    | FailedToUpdateProfile     // "Failed to update profile"
    | FailedToRetrieveProfile   // "Failed to retrieve updated profile"
    | StoreFailed(cause: Failure)

  datatype Reply<T> = Reply(db: Db, result: Result<T, ServiceError>)

  /** What `getPost(postId)` without a viewer finds: the post and its author row. */
  predicate PostVisible(db: Db, postId: int) {
    postId in db.posts && HasAuthor(db, db.posts[postId])
  }

  /**
   * `togglePostLike`: a post that `getPost` cannot find is an error and changes
   * nothing; otherwise the like is removed if present and added if not, and
   * `liked` reports the new state.
   */
  function TogglePostLike(db: Db, userId: int, postId: int): (r: Reply<bool>)
    requires Valid(db)
    ensures Valid(r.db)
    ensures r.result.Err? <==> !PostVisible(db, postId)
    ensures r.result.Err? ==> r.result.error == PostNotFound && r.db == db
    ensures r.result.Ok? ==> (r.result.value <==> IsPostLiked(r.db, userId, postId))
    ensures r.result.Ok? ==> (IsPostLiked(r.db, userId, postId) <==> !IsPostLiked(db, userId, postId))
    ensures forall q :: q != (userId, postId) ==> (q in r.db.postLikes <==> q in db.postLikes)
    ensures r.db == db.(postLikes := r.db.postLikes)
  {
    if !PostVisible(db, postId) then Reply(db, Err(PostNotFound))
    else if IsPostLiked(db, userId, postId) then Reply(UnlikePost(db, userId, postId), Ok(false))
    else Reply(LikePost(db, userId, postId), Ok(true))
  }

  /** `toggleCommentLike`: flips the like with no check that the comment exists. */
  function ToggleCommentLike(db: Db, userId: int, commentId: int): (r: Reply<bool>)
    requires Valid(db)
    ensures Valid(r.db) && r.result.Ok?
    ensures r.result.value <==> IsCommentLiked(r.db, userId, commentId)
    ensures IsCommentLiked(r.db, userId, commentId) <==> !IsCommentLiked(db, userId, commentId)
    ensures forall q :: q != (userId, commentId) ==> (q in r.db.commentLikes <==> q in db.commentLikes)
    ensures r.db == db.(commentLikes := r.db.commentLikes)
  {
    if IsCommentLiked(db, userId, commentId) then Reply(UnlikeComment(db, userId, commentId), Ok(false))
    else Reply(LikeComment(db, userId, commentId), Ok(true))
  }

  /**
   * `toggleFollow`: following oneself is refused before the store is
   * touched, an unknown target is refused next, and otherwise the follow is
   * removed if present and added (at `now`) if not.
   */
  function ToggleFollow(db: Db, followerId: int, followingId: int, now: int): (r: Reply<bool>)
    requires Valid(db)
    ensures Valid(r.db)
    ensures followerId == followingId ==> r.result == Err(CannotFollowYourself) && r.db == db
    ensures followerId != followingId && followingId !in db.users ==> r.result == Err(UserNotFound) && r.db == db
    ensures r.result.Ok? <==> followerId != followingId && followingId in db.users
    ensures r.result.Ok? ==> (r.result.value <==> IsFollowing(r.db, followerId, followingId))
    ensures r.result.Ok? ==> (IsFollowing(r.db, followerId, followingId) <==> !IsFollowing(db, followerId, followingId))
    ensures forall f :: f != (followerId, followingId) ==> (f in r.db.follows <==> f in db.follows)
    ensures forall f :: f in r.db.follows && f in db.follows ==> r.db.follows[f] == db.follows[f]
    ensures r.db == db.(follows := r.db.follows)
  {
    if followerId == followingId then Reply(db, Err(CannotFollowYourself))
    else if followingId !in db.users then Reply(db, Err(UserNotFound))
    else if IsFollowing(db, followerId, followingId) then Reply(UnfollowUser(db, followerId, followingId), Ok(false))
    else Reply(FollowUser(db, followerId, followingId, now), Ok(true))
  }

  /**
   * `createComment` in the service: a post `getPost` cannot find is an error
   * and nothing is inserted; otherwise the store inserts the comment.
   */
  function CreateComment(db: Db, userId: int, postId: int, content: string, now: int): (r: Reply<CommentView>)
    requires Valid(db)
    ensures Valid(r.db)
    ensures !PostVisible(db, postId) ==> r.result == Err(PostNotFound) && r.db == db
    ensures PostVisible(db, postId) ==>
      var id := db.lastCommentId + 1;
      && r.db.comments == db.comments[id := Comment(id, postId, userId, content, now, now)]
      && r.db == db.(comments := r.db.comments, lastCommentId := id)
      && (r.result.Ok? <==> userId in db.users)
      && (r.result.Ok? ==> r.result.value.comment.postId == postId && r.result.value.comment.content == content)
  {
    if !PostVisible(db, postId) then Reply(db, Err(PostNotFound))
    else
      var out := SocialStore.CreateComment(db, userId, postId, content, now);
      match out.result
      case Ok(c) => Reply(out.db, Ok(c))
      case Err(e) => Reply(out.db, Err(StoreFailed(e)))
  }

  /**
   * `updateProfile`: the store update (which fails outright when no field is
   * given), then the profile re-read with the user as viewer. The re-read can
   * never come back empty once the update returned a user.
   */
  function UpdateProfile(db: Db, userId: int, bio: Option<string>, avatarUrl: Option<string>, displayName: Option<string>): (r: Reply<Profile>)
    requires Valid(db)
    ensures Valid(r.db)
    ensures r.result.Err? ==> r.db == db && r.result.error != FailedToRetrieveProfile
    ensures bio.None? && avatarUrl.None? && displayName.None? ==> r.result == Err(StoreFailed(EmptySetList))
    ensures (bio.Some? || avatarUrl.Some? || displayName.Some?) && userId !in db.users ==> r.result == Err(FailedToUpdateProfile)
    ensures r.result.Ok? <==> (bio.Some? || avatarUrl.Some? || displayName.Some?) && userId in db.users
    ensures r.result.Ok? ==>
      var p := r.result.value;
      && userId in r.db.users
      && p.user == PublicOf(r.db.users[userId])
      && p.isOwnProfile && !p.isFollowing
      && p.user.bio == (if bio.Some? then bio else db.users[userId].bio)
      && p.user.avatarUrl == (if avatarUrl.Some? then avatarUrl else db.users[userId].avatarUrl)
      && p.user.displayName == (if displayName.Some? then displayName else db.users[userId].displayName)
  {
    var out := UpdateUserProfile(db, userId, bio, avatarUrl, displayName);
    match out.result
    case Err(e) => Reply(out.db, Err(StoreFailed(e)))
    case Ok(None) => Reply(out.db, Err(FailedToUpdateProfile))
    case Ok(Some(_)) =>
      match GetUserProfile(out.db, userId, Some(userId))
      case None => Reply(out.db, Err(FailedToRetrieveProfile))
      case Some(p) => Reply(out.db, Ok(p))
  }

  /** Liking a post twice in a row gives back the store it started from. */
  lemma TogglePostLikeTwice(db: Db, userId: int, postId: int)
    requires Valid(db) && PostVisible(db, postId)
    ensures var first := TogglePostLike(db, userId, postId);
            var second := TogglePostLike(first.db, userId, postId);
            && first.result.Ok? && second.result.Ok?
            && second.result.value == !first.result.value
            && second.db == db
  {
    var first := TogglePostLike(db, userId, postId);
    assert first.db.posts == db.posts && first.db.users == db.users;
    var second := TogglePostLike(first.db, userId, postId);
    assert second.db.postLikes == db.postLikes;
  }

  /** Toggling a comment like twice gives back the store it started from. */
  lemma ToggleCommentLikeTwice(db: Db, userId: int, commentId: int)
    requires Valid(db)
    ensures var first := ToggleCommentLike(db, userId, commentId);
            var second := ToggleCommentLike(first.db, userId, commentId);
            && second.result.value == !first.result.value
            && second.db == db
  {
    var first := ToggleCommentLike(db, userId, commentId);
    var second := ToggleCommentLike(first.db, userId, commentId);
    assert second.db.commentLikes == db.commentLikes;
  }

  /** Two follow toggles restore who follows whom (a re-follow gets a new `created_at`). */
  lemma ToggleFollowTwice(db: Db, followerId: int, followingId: int, t1: int, t2: int)
    requires Valid(db) && followerId != followingId && followingId in db.users
    ensures var first := ToggleFollow(db, followerId, followingId, t1);
            var second := ToggleFollow(first.db, followerId, followingId, t2);
            && first.result.Ok? && second.result.Ok?
            && second.result.value == !first.result.value
            && second.db.follows.Keys == db.follows.Keys
            && (!IsFollowing(db, followerId, followingId) ==> second.db == db)
  {
    var first := ToggleFollow(db, followerId, followingId, t1);
    var second := ToggleFollow(first.db, followerId, followingId, t2);
    assert first.db.users == db.users;
    assert second.db.follows.Keys == db.follows.Keys by {
      forall f ensures f in second.db.follows <==> f in db.follows {
        if f == (followerId, followingId) {
          assert IsFollowing(second.db, followerId, followingId) <==> IsFollowing(db, followerId, followingId);
        }
      }
    }
    if !IsFollowing(db, followerId, followingId) {
      assert second.db.follows == db.follows;
    }
  }
}
