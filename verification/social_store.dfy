/**
 * The social tables of the mini social-media database layer
 * (mini_social_media/db.ts): users, posts, comments, likes and follows, with
 * the store operations the social service calls.
 *
 * Tables are maps keyed by primary key. Likes are two sets of
 * `(user_id, target_id)` pairs, one for posts and one for comments: the
 * `likes` table's two UNIQUE constraints each only bite when their target
 * column is set. Follows map `(follower_id, following_id)` to the follow's
 * `created_at`, because the follower listings are ordered by it. Time is an
 * integer clock `now` standing for `CURRENT_TIMESTAMP`.
 *
 * No `PRAGMA foreign_keys` is issued, so no foreign key is enforced and no
 * delete cascades: a like may name a post that does not exist, and deleting a
 * post leaves its comments and likes behind.
 */
module SocialStore {
  import opened Wrappers
  import Ordering

  datatype User = User(
    id: int,
    username: string,
    email: string,
    displayName: Option<string>,
    bio: Option<string>,
    avatarUrl: Option<string>,
    createdAt: int)

  datatype Post = Post(id: int, userId: int, content: string, imageUrl: Option<string>, createdAt: int, updatedAt: int)

  datatype Comment = Comment(id: int, postId: int, userId: int, content: string, createdAt: int, updatedAt: int)

  datatype Db = Db(
    users: map<int, User>,
    posts: map<int, Post>,
    comments: map<int, Comment>,
    postLikes: set<(int, int)>,
    commentLikes: set<(int, int)>,
    follows: map<(int, int), int>,
    lastPostId: int,
    lastCommentId: int)

  /**
   * Table invariants: rows are filed under their own id, AUTOINCREMENT ids
   * never exceed the last one handed out, and the CHECK on `follows` keeps
   * self-follows out.
   */
  predicate Valid(db: Db) {
    && (forall k :: k in db.users ==> db.users[k].id == k)
    && (forall k :: k in db.posts ==> db.posts[k].id == k && k <= db.lastPostId)
    && (forall k :: k in db.comments ==> db.comments[k].id == k && k <= db.lastCommentId)
    && (forall f :: f in db.follows ==> f.0 != f.1)
  }

  /** Why a statement failed. */
  datatype Failure =
    | EmptySetList      // `UPDATE users SET  WHERE id = ?` is an SQL syntax error
    | MissingJoinedUser // a row re-read through `JOIN users` came back undefined

  /** A write's new state together with what the method returned or threw. */
  datatype Outcome<T> = Outcome(db: Db, result: Result<T, Failure>)

  /** JavaScript truthiness of an optional viewer id: absent and 0 are falsy. */
  predicate Truthy(viewer: Option<int>) {
    viewer.Some? && viewer.value != 0
  }

  /** `x || null` on an optional string: the empty string is stored as NULL. */
  function NullIfEmpty(s: Option<string>): (r: Option<string>)
    ensures r.Some? <==> s.Some? && s.value != ""
    ensures r.Some? ==> r == s
  {
    if s == Some("") then None else s
  }

  // ---------------------------------------------------------------------------
  // Likes
  // ---------------------------------------------------------------------------

  /** `isPostLiked`: a like row for that user and post exists. */
  predicate IsPostLiked(db: Db, userId: int, postId: int) {
    (userId, postId) in db.postLikes
  }

  /** `isCommentLiked`: a like row for that user and comment exists. */
  predicate IsCommentLiked(db: Db, userId: int, commentId: int) {
    (userId, commentId) in db.commentLikes
  }

  /** `likePost`: INSERT OR IGNORE, so a second like of the same post is dropped. */
  function LikePost(db: Db, userId: int, postId: int): (r: Db)
    requires Valid(db)
    ensures Valid(r)
    ensures IsPostLiked(r, userId, postId)
    ensures forall q :: q != (userId, postId) ==> (q in r.postLikes <==> q in db.postLikes)
    ensures r == db.(postLikes := r.postLikes)
    ensures IsPostLiked(db, userId, postId) ==> r == db
  {
    db.(postLikes := db.postLikes + {(userId, postId)})
  }

  /** `unlikePost`: deletes the like if there is one. */
  function UnlikePost(db: Db, userId: int, postId: int): (r: Db)
    requires Valid(db)
    ensures Valid(r)
    ensures !IsPostLiked(r, userId, postId)
    ensures forall q :: q != (userId, postId) ==> (q in r.postLikes <==> q in db.postLikes)
    ensures r == db.(postLikes := r.postLikes)
    ensures !IsPostLiked(db, userId, postId) ==> r == db
  {
    db.(postLikes := db.postLikes - {(userId, postId)})
  }

  /** `likeComment`: INSERT OR IGNORE on the comment column. */
  function LikeComment(db: Db, userId: int, commentId: int): (r: Db)
    requires Valid(db)
    ensures Valid(r)
    ensures IsCommentLiked(r, userId, commentId)
    ensures forall q :: q != (userId, commentId) ==> (q in r.commentLikes <==> q in db.commentLikes)
    ensures r == db.(commentLikes := r.commentLikes)
    ensures IsCommentLiked(db, userId, commentId) ==> r == db
  {
    db.(commentLikes := db.commentLikes + {(userId, commentId)})
  }

  /** `unlikeComment`: deletes the comment like if there is one. */
  function UnlikeComment(db: Db, userId: int, commentId: int): (r: Db)
    requires Valid(db)
    ensures Valid(r)
    ensures !IsCommentLiked(r, userId, commentId)
    ensures forall q :: q != (userId, commentId) ==> (q in r.commentLikes <==> q in db.commentLikes)
    ensures r == db.(commentLikes := r.commentLikes)
    ensures !IsCommentLiked(db, userId, commentId) ==> r == db
  {
    db.(commentLikes := db.commentLikes - {(userId, commentId)})
  }

  /** A like added to a post the user had not liked is exactly undone by the unlike. */
  lemma LikeThenUnlike(db: Db, userId: int, postId: int)
    requires Valid(db) && !IsPostLiked(db, userId, postId)
    ensures UnlikePost(LikePost(db, userId, postId), userId, postId) == db
  {
  }

  /** The same for comment likes. */
  lemma LikeCommentThenUnlike(db: Db, userId: int, commentId: int)
    requires Valid(db) && !IsCommentLiked(db, userId, commentId)
    ensures UnlikeComment(LikeComment(db, userId, commentId), userId, commentId) == db
  {
  }

  // ---------------------------------------------------------------------------
  // Follows
  // ---------------------------------------------------------------------------

  /** `isFollowing`: a follow row for that ordered pair exists. */
  predicate IsFollowing(db: Db, followerId: int, followingId: int) {
    (followerId, followingId) in db.follows
  }

  /**
   * `followUser`: INSERT OR IGNORE. A pair already present keeps its original
   * `created_at`; a self-follow violates the CHECK constraint, which OR IGNORE
   * also turns into a silently skipped row.
   */
  function FollowUser(db: Db, followerId: int, followingId: int, now: int): (r: Db)
    requires Valid(db)
    ensures Valid(r)
    ensures IsFollowing(r, followerId, followingId) <==> followerId != followingId
    ensures forall f :: f != (followerId, followingId) ==> (f in r.follows <==> f in db.follows)
    ensures forall f :: f in db.follows ==> f in r.follows && r.follows[f] == db.follows[f]
    ensures r == db.(follows := r.follows)
    ensures followerId == followingId || IsFollowing(db, followerId, followingId) ==> r == db
  {
    if followerId == followingId || (followerId, followingId) in db.follows then db
    else db.(follows := db.follows[(followerId, followingId) := now])
  }

  /** `unfollowUser`: deletes the follow row if there is one. */
  function UnfollowUser(db: Db, followerId: int, followingId: int): (r: Db)
    requires Valid(db)
    ensures Valid(r)
    ensures !IsFollowing(r, followerId, followingId)
    ensures forall f :: f != (followerId, followingId) ==> (f in r.follows <==> f in db.follows)
    ensures forall f :: f in r.follows ==> r.follows[f] == db.follows[f]
    ensures r == db.(follows := r.follows)
    ensures !IsFollowing(db, followerId, followingId) ==> r == db
  {
    db.(follows := map f | f in db.follows && f != (followerId, followingId) :: db.follows[f])
  }

  /** A new follow between two different users is exactly undone by the unfollow. */
  lemma FollowThenUnfollow(db: Db, followerId: int, followingId: int, now: int)
    requires Valid(db) && followerId != followingId && !IsFollowing(db, followerId, followingId)
    ensures UnfollowUser(FollowUser(db, followerId, followingId, now), followerId, followingId) == db
  {
    var r := UnfollowUser(FollowUser(db, followerId, followingId, now), followerId, followingId);
    assert r.follows == db.follows;
  }

  // ---------------------------------------------------------------------------
  // Users and profiles
  // ---------------------------------------------------------------------------

  function FollowersCount(db: Db, userId: int): nat {
    |set f | f in db.follows && f.1 == userId|
  }

  function FollowingCount(db: Db, userId: int): nat {
    |set f | f in db.follows && f.0 == userId|
  }

  function PostsCount(db: Db, userId: int): nat {
    |set k | k in db.posts && db.posts[k].userId == userId|
  }

  /**
   * The user columns the profile queries select: `id`, `username`,
   * `display_name`, `bio`, `avatar_url` and `created_at`, never the e-mail.
   */
  datatype PublicUser = PublicUser(
    id: int,
    username: string,
    displayName: Option<string>,
    bio: Option<string>,
    avatarUrl: Option<string>,
    createdAt: int)

  /** A user row as a profile shows it. */
  function PublicOf(u: User): (p: PublicUser)
    ensures p.id == u.id && p.username == u.username && p.createdAt == u.createdAt
    ensures p.displayName == u.displayName && p.bio == u.bio && p.avatarUrl == u.avatarUrl
  {
    PublicUser(u.id, u.username, u.displayName, u.bio, u.avatarUrl, u.createdAt)
  }

  datatype Profile = Profile(
    user: PublicUser,
    followersCount: nat,
    followingCount: nat,
    postsCount: nat,
    isOwnProfile: bool,
    isFollowing: bool)

  /** `getUserById`. */
  function GetUserById(db: Db, id: int): (r: Option<User>)
    requires Valid(db)
    ensures r.Some? <==> id in db.users
    ensures r.Some? ==> r.value == db.users[id] && r.value.id == id
  {
    if id in db.users then Some(db.users[id]) else None
  }

  /**
   * `getUserProfile`: the user with the three counts, `is_own_profile` when the
   * viewer is the user, and `is_following` looked up only for a truthy viewer
   * other than the user.
   */
  function GetUserProfile(db: Db, userId: int, viewer: Option<int>): (r: Option<Profile>)
    requires Valid(db)
    ensures r.Some? <==> userId in db.users
    ensures r.Some? ==> r.value.user == PublicOf(db.users[userId])
    ensures r.Some? ==> (r.value.isOwnProfile <==> viewer == Some(userId))
    ensures r.Some? ==> (r.value.isFollowing <==> Truthy(viewer) && viewer.value != userId && IsFollowing(db, viewer.value, userId))
    ensures r.Some? ==> r.value.followersCount == FollowersCount(db, userId)
                        && r.value.followingCount == FollowingCount(db, userId)
                        && r.value.postsCount == PostsCount(db, userId)
  {
    if userId !in db.users then None
    else
      var following := Truthy(viewer) && viewer.value != userId && IsFollowing(db, viewer.value, userId);
      Some(Profile(PublicOf(db.users[userId]), FollowersCount(db, userId), FollowingCount(db, userId), PostsCount(db, userId),
                   viewer == Some(userId), following))
  }

  /** A profile does not depend on the user's e-mail: changing it changes no answer. */
  lemma ProfileHidesEmail(db: Db, userId: int, viewer: Option<int>, email: string)
    requires Valid(db) && userId in db.users
    ensures var db' := db.(users := db.users[userId := db.users[userId].(email := email)]);
            Valid(db') && GetUserProfile(db', userId, viewer) == GetUserProfile(db, userId, viewer)
  {
    var db' := db.(users := db.users[userId := db.users[userId].(email := email)]);
    assert PublicOf(db'.users[userId]) == PublicOf(db.users[userId]);
  }

  /**
   * `updateUserProfile`: one `SET` entry per field that is not undefined, in
   * the order bio, avatar_url, display_name. With none the SET list is empty
   * and the statement is a syntax error. Otherwise the user row (if any) is
   * rewritten and re-read; a missing user yields no row and nothing changes.
   */
  function UpdateUserProfile(db: Db, userId: int, bio: Option<string>, avatarUrl: Option<string>, displayName: Option<string>): (r: Outcome<Option<User>>)
    requires Valid(db)
    ensures Valid(r.db)
    ensures r.result.Err? <==> bio.None? && avatarUrl.None? && displayName.None?
    ensures r.result.Err? ==> r.result.error == EmptySetList && r.db == db
    ensures r.db == db.(users := r.db.users)
    ensures r.db.users.Keys == db.users.Keys
    ensures forall k :: k in db.users && k != userId ==> r.db.users[k] == db.users[k]
    ensures r.result.Ok? ==> (r.result.value.Some? <==> userId in db.users)
    ensures r.result.Ok? && userId in db.users ==>
      var u := r.db.users[userId];
      && r.result.value == Some(u)
      && u.bio == (if bio.Some? then bio else db.users[userId].bio)
      && u.avatarUrl == (if avatarUrl.Some? then avatarUrl else db.users[userId].avatarUrl)
      && u.displayName == (if displayName.Some? then displayName else db.users[userId].displayName)
      && u.(bio := db.users[userId].bio, avatarUrl := db.users[userId].avatarUrl, displayName := db.users[userId].displayName) == db.users[userId]
  {
    if bio.None? && avatarUrl.None? && displayName.None? then Outcome(db, Err(EmptySetList))
    else if userId !in db.users then Outcome(db, Ok(None))
    else
      var prev := db.users[userId];
      var u := prev.(bio := if bio.Some? then bio else prev.bio,
                     avatarUrl := if avatarUrl.Some? then avatarUrl else prev.avatarUrl,
                     displayName := if displayName.Some? then displayName else prev.displayName);
      var db' := db.(users := db.users[userId := u]);
      Outcome(db', Ok(Some(u)))
  }

  // ---------------------------------------------------------------------------
  // Posts
  // ---------------------------------------------------------------------------

  /** The author summary joined onto a post or comment. */
  datatype PostView = PostView(post: Post, author: User, likesCount: nat, commentsCount: nat, isLiked: Option<bool>)

  function PostLikesCount(db: Db, postId: int): nat {
    |set q | q in db.postLikes && q.1 == postId|
  }

  function PostCommentsCount(db: Db, postId: int): nat {
    |set k | k in db.comments && db.comments[k].postId == postId|
  }

  /** Whether a post survives `JOIN users u ON p.user_id = u.id`. */
  predicate HasAuthor(db: Db, p: Post) {
    p.userId in db.users
  }

  /** Whose like is looked up for `is_liked`: the viewer, when the viewer id is truthy. */
  function LikedBy(viewer: Option<int>): (r: Option<int>)
    ensures r.Some? <==> Truthy(viewer)
    ensures r.Some? ==> r == viewer
  {
    if Truthy(viewer) then viewer else None
  }

  /** One post as the read queries return it; `is_liked` is present exactly when a liker is given. */
  function ViewPost(db: Db, p: Post, likedBy: Option<int>): (r: PostView)
    requires HasAuthor(db, p)
    ensures r.post == p && r.author == db.users[p.userId]
    ensures r.likesCount == PostLikesCount(db, p.id) && r.commentsCount == PostCommentsCount(db, p.id)
    ensures r.isLiked.Some? <==> likedBy.Some?
    ensures r.isLiked.Some? ==> (r.isLiked.value <==> IsPostLiked(db, likedBy.value, p.id))
  {
    PostView(p, db.users[p.userId], PostLikesCount(db, p.id), PostCommentsCount(db, p.id),
             if likedBy.Some? then Some(IsPostLiked(db, likedBy.value, p.id)) else None)
  }

  /** `getPost`: the post with its author, or nothing when the post or its author row is missing. */
  function GetPost(db: Db, postId: int, viewer: Option<int>): (r: Option<PostView>)
    requires Valid(db)
    ensures r.Some? <==> postId in db.posts && HasAuthor(db, db.posts[postId])
    ensures r.Some? ==> r.value.post == db.posts[postId] && r.value.post.id == postId
    ensures r.Some? ==> r.value.author == db.users[r.value.post.userId]
    ensures r.Some? ==> (r.value.isLiked.Some? <==> Truthy(viewer))
    ensures r.Some? && Truthy(viewer) ==> (r.value.isLiked.value <==> IsPostLiked(db, viewer.value, postId))
  {
    if postId in db.posts && HasAuthor(db, db.posts[postId]) then Some(ViewPost(db, db.posts[postId], LikedBy(viewer)))
    else None
  }

  /**
   * `createPost`: inserts under the next AUTOINCREMENT id with both timestamps
   * at `now` (an empty image URL is stored as NULL), then re-reads it with the
   * author as viewer; the re-read finds nothing when the author row is missing.
   */
  function CreatePost(db: Db, userId: int, content: string, imageUrl: Option<string>, now: int): (r: Outcome<Option<PostView>>)
    requires Valid(db)
    ensures Valid(r.db) && r.result.Ok?
    ensures var id := db.lastPostId + 1;
      && id !in db.posts
      && r.db.posts == db.posts[id := Post(id, userId, content, NullIfEmpty(imageUrl), now, now)]
      && r.db == db.(posts := r.db.posts, lastPostId := id)
      && (r.result.value.Some? <==> userId in db.users)
      && (r.result.value.Some? ==> r.result.value.value.post == r.db.posts[id])
  {
    var id := db.lastPostId + 1;
    var db' := db.(posts := db.posts[id := Post(id, userId, content, NullIfEmpty(imageUrl), now, now)], lastPostId := id);
    Outcome(db', Ok(GetPost(db', id, Some(userId))))
  }

  /** Whether the row with this id belongs to this user (`WHERE id = ? AND user_id = ?`). */
  predicate OwnsPost(db: Db, postId: int, userId: int) {
    postId in db.posts && db.posts[postId].userId == userId
  }

  /**
   * `updatePost`: `updated_at` is always rewritten; `content` when given and
   * `image_url` when not undefined (`Some(None)` is an explicit null, which
   * clears it). No owned row: nothing changes and the result is null.
   */
  function UpdatePost(db: Db, postId: int, userId: int, content: Option<string>, imageUrl: Option<Option<string>>, now: int): (r: Outcome<Option<PostView>>)
    requires Valid(db)
    ensures Valid(r.db) && r.result.Ok?
    ensures !OwnsPost(db, postId, userId) ==> r.db == db && r.result.value.None?
    ensures OwnsPost(db, postId, userId) ==> postId in r.db.posts
    ensures OwnsPost(db, postId, userId) ==>
      var prev := db.posts[postId];
      var p := r.db.posts[postId];
      && r.db == db.(posts := db.posts[postId := p])
      && p.updatedAt == now
      && p.content == (if content.Some? then content.value else prev.content)
      && p.imageUrl == (if imageUrl.Some? then imageUrl.value else prev.imageUrl)
      && p.(content := prev.content, imageUrl := prev.imageUrl, updatedAt := prev.updatedAt) == prev
      && (r.result.value.Some? <==> userId in db.users)
  {
    if !OwnsPost(db, postId, userId) then Outcome(db, Ok(None))
    else
      var prev := db.posts[postId];
      var p := prev.(content := if content.Some? then content.value else prev.content,
                     imageUrl := if imageUrl.Some? then imageUrl.value else prev.imageUrl,
                     updatedAt := now);
      var db' := db.(posts := db.posts[postId := p]);
      Outcome(db', Ok(GetPost(db', postId, Some(userId))))
  }

  /** `deletePost`: true exactly when an owned row was deleted; comments and likes stay behind. */
  function DeletePost(db: Db, postId: int, userId: int): (r: Outcome<bool>)
    requires Valid(db)
    ensures Valid(r.db) && r.result.Ok?
    ensures r.result.value <==> OwnsPost(db, postId, userId)
    ensures !r.result.value ==> r.db == db
    ensures postId !in r.db.posts || !r.result.value
    ensures r.db == db.(posts := r.db.posts)
    ensures forall k :: k != postId ==> (k in r.db.posts <==> k in db.posts)
    ensures forall k :: k in r.db.posts ==> r.db.posts[k] == db.posts[k]
  {
    if !OwnsPost(db, postId, userId) then Outcome(db, Ok(false))
    else Outcome(db.(posts := map k | k in db.posts && k != postId :: db.posts[k]), Ok(true))
  }

  /** An owner's edit is what `getPost` reads back: the given fields, the rest as before. */
  lemma UpdatedPostReadBack(db: Db, postId: int, userId: int, content: Option<string>, imageUrl: Option<Option<string>>, now: int, viewer: Option<int>)
    requires Valid(db) && OwnsPost(db, postId, userId) && userId in db.users
    ensures var r := UpdatePost(db, postId, userId, content, imageUrl, now);
            var prev := db.posts[postId];
            var seen := GetPost(r.db, postId, viewer);
            && seen.Some?
            && seen.value.post.content == (if content.Some? then content.value else prev.content)
            && seen.value.post.imageUrl == (if imageUrl.Some? then imageUrl.value else prev.imageUrl)
            && seen.value.post.userId == userId && seen.value.post.createdAt == prev.createdAt
  {
  }

  /** Once its owner deleted it, `getPost` no longer finds the post, whoever asks. */
  lemma DeletedPostGone(db: Db, postId: int, userId: int, viewer: Option<int>)
    requires Valid(db)
    ensures var r := DeletePost(db, postId, userId);
            r.result.value ==> GetPost(r.db, postId, viewer).None?
  {
  }

  // ---------------------------------------------------------------------------
  // Comments
  // ---------------------------------------------------------------------------

  datatype CommentView = CommentView(comment: Comment, author: User, likesCount: nat, isLiked: Option<bool>)

  function CommentLikesCount(db: Db, commentId: int): nat {
    |set q | q in db.commentLikes && q.1 == commentId|
  }

  predicate CommentHasAuthor(db: Db, c: Comment) {
    c.userId in db.users
  }

  function ViewComment(db: Db, c: Comment, likedBy: Option<int>): (r: CommentView)
    requires CommentHasAuthor(db, c)
    ensures r.comment == c && r.author == db.users[c.userId]
    ensures r.likesCount == CommentLikesCount(db, c.id)
    ensures r.isLiked.Some? <==> likedBy.Some?
    ensures r.isLiked.Some? ==> (r.isLiked.value <==> IsCommentLiked(db, likedBy.value, c.id))
  {
    CommentView(c, db.users[c.userId], CommentLikesCount(db, c.id),
                if likedBy.Some? then Some(IsCommentLiked(db, likedBy.value, c.id)) else None)
  }

  /**
   * `createComment` in the store: inserts without checking that the post
   * exists, then re-reads the row joined with its author. When the author row
   * is missing the re-read is undefined and reading its `id` throws, after the
   * row was already inserted.
   */
  function CreateComment(db: Db, userId: int, postId: int, content: string, now: int): (r: Outcome<CommentView>)
    requires Valid(db)
    ensures Valid(r.db)
    ensures var id := db.lastCommentId + 1;
      && id !in db.comments
      && r.db.comments == db.comments[id := Comment(id, postId, userId, content, now, now)]
      && r.db == db.(comments := r.db.comments, lastCommentId := id)
      && (r.result.Ok? <==> userId in db.users)
      && (r.result.Ok? ==> r.result.value.comment == r.db.comments[id] && r.result.value.isLiked.None?)
      && (r.result.Err? ==> r.result.error == MissingJoinedUser)
  {
    var id := db.lastCommentId + 1;
    var c := Comment(id, postId, userId, content, now, now);
    var db' := db.(comments := db.comments[id := c], lastCommentId := id);
    if userId in db.users then Outcome(db', Ok(ViewComment(db', c, None)))
    else Outcome(db', Err(MissingJoinedUser))
  }

  predicate OwnsComment(db: Db, commentId: int, userId: int) {
    commentId in db.comments && db.comments[commentId].userId == userId
  }

  /**
   * `updateComment`: rewrites `content` and `updated_at` of an owned row, then
   * re-reads it joined with its author (throwing when the author row is
   * missing). No owned row: nothing changes and the result is null.
   */
  function UpdateComment(db: Db, commentId: int, userId: int, content: string, now: int): (r: Outcome<Option<CommentView>>)
    requires Valid(db)
    ensures Valid(r.db)
    ensures !OwnsComment(db, commentId, userId) ==> r.db == db && r.result == Ok(None)
    ensures OwnsComment(db, commentId, userId) ==>
      && r.db == db.(comments := db.comments[commentId := db.comments[commentId].(content := content, updatedAt := now)])
      && (r.result.Ok? <==> userId in db.users)
      && (r.result.Ok? ==> r.result.value.Some? && r.result.value.value.comment == r.db.comments[commentId])
  {
    if !OwnsComment(db, commentId, userId) then Outcome(db, Ok(None))
    else
      var c := db.comments[commentId].(content := content, updatedAt := now);
      var db' := db.(comments := db.comments[commentId := c]);
      if userId in db.users then Outcome(db', Ok(Some(ViewComment(db', c, None))))
      else Outcome(db', Err(MissingJoinedUser))
  }

  /** `deleteComment`: true exactly when an owned row was deleted. */
  function DeleteComment(db: Db, commentId: int, userId: int): (r: Outcome<bool>)
    requires Valid(db)
    ensures Valid(r.db) && r.result.Ok?
    ensures r.result.value <==> OwnsComment(db, commentId, userId)
    ensures !r.result.value ==> r.db == db
    ensures commentId !in r.db.comments || !r.result.value
    ensures r.db == db.(comments := r.db.comments)
    ensures forall k :: k != commentId ==> (k in r.db.comments <==> k in db.comments)
    ensures forall k :: k in r.db.comments ==> r.db.comments[k] == db.comments[k]
  {
    if !OwnsComment(db, commentId, userId) then Outcome(db, Ok(false))
    else Outcome(db.(comments := map k | k in db.comments && k != commentId :: db.comments[k]), Ok(true))
  }
}
