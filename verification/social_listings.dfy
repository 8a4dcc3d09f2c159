/**
 * The paged read queries of mini_social_media/db.ts: the post feeds, a post's
 * comments, and a user's followers and followees. Each is a table scan,
 * filtered by its `WHERE`/`JOIN` conditions, ordered by a timestamp, and cut
 * by `LIMIT ? OFFSET ?` with SQLite's rules (a negative limit is no limit).
 * Ties in the timestamp may come out in any order; the model fixes one.
 */
module SocialListings {
  import opened Wrappers
  import Ordering
  import opened SocialStore

  // ---------------------------------------------------------------------------
  // Posts
  // ---------------------------------------------------------------------------

  /** `ORDER BY p.created_at DESC` as an ascending key. */
  function NewestPostFirst(p: Post): int {
    -p.createdAt
  }

  function ViewPosts(db: Db, ps: seq<Post>, likedBy: Option<int>): (r: seq<PostView>)
    requires forall p :: p in ps ==> HasAuthor(db, p)
    ensures |r| == |ps|
    ensures forall i :: 0 <= i < |ps| ==> r[i] == ViewPost(db, ps[i], likedBy)
    ensures PostsOf(r) == ps
  {
    if |ps| == 0 then [] else [ViewPost(db, ps[0], likedBy)] + ViewPosts(db, ps[1..], likedBy)
  }

  /** The posts of a list of views, in order. */
  function PostsOf(vs: seq<PostView>): (r: seq<Post>)
    ensures |r| == |vs|
    ensures forall i :: 0 <= i < |vs| ==> r[i] == vs[i].post
  {
    if |vs| == 0 then [] else [vs[0].post] + PostsOf(vs[1..])
  }

  /** The rows a post listing keeps: a post whose author row exists and that passes `keep`. */
  function Listed(db: Db, keep: Post -> bool): Post -> bool {
    (p: Post) => HasAuthor(db, p) && keep(p)
  }

  /** Rows of a table that carry their own key are never equal under two keys. */
  lemma ValidInjective(db: Db)
    requires Valid(db)
    ensures Ordering.Injective(db.posts) && Ordering.Injective(db.comments) && Ordering.Injective(db.users)
  {
  }

  /** The ids of the stored posts with an author row that pass `keep`. */
  function MatchingPosts(db: Db, keep: Post -> bool): set<int> {
    set k | k in db.posts && HasAuthor(db, db.posts[k]) && keep(db.posts[k])
  }

  /** Every matching post newer than a post of `ps` is in `ps`: `ps` holds the newest. */
  predicate HoldsNewest(db: Db, keep: Post -> bool, ps: seq<Post>) {
    forall k, i :: k in MatchingPosts(db, keep) && 0 <= i < |ps| && db.posts[k].createdAt > ps[i].createdAt ==>
      db.posts[k] in ps
  }

  /**
   * `ps` is the page `LIMIT limit OFFSET offset` cuts from the posts that
   * have an author row and pass `keep`, newest first: only such posts, none
   * twice, as many as `PageSize` leaves of them, and on a first page the
   * newest of them. (Later pages continue it: `ListPostsPagesJoin`.)
   */
  predicate PostPage(db: Db, keep: Post -> bool, limit: int, offset: int, ps: seq<Post>) {
    && (forall p :: p in ps ==> p in db.posts.Values && HasAuthor(db, p) && keep(p))
    && Ordering.SortedBy(ps, NewestPostFirst)
    && Ordering.Distinct(ps)
    && |ps| == Ordering.PageSize(|MatchingPosts(db, keep)|, limit, offset)
    && (offset <= 0 ==> HoldsNewest(db, keep, ps))
  }

  /**
   * Shared shape of the three post listings: the page of the matching posts,
   * each with its author, counts and `is_liked`; with no limit and no offset,
   * every matching post.
   */
  function ListPosts(db: Db, keep: Post -> bool, limit: int, offset: int, likedBy: Option<int>): (r: seq<PostView>)
    requires Valid(db)
    ensures PostPage(db, keep, limit, offset, PostsOf(r))
    ensures forall i :: 0 <= i < |r| ==> r[i] == ViewPost(db, PostsOf(r)[i], likedBy)
    ensures limit < 0 && offset <= 0 ==> forall k :: k in MatchingPosts(db, keep) ==> db.posts[k] in PostsOf(r)
  {
    var page := Ordering.Select(Ordering.Scan(db.posts), Listed(db, keep), NewestPostFirst, limit, offset);
    PostPageOfSelect(db, keep, limit, offset);
    ViewPosts(db, page, likedBy)
  }

  /** The page `Ordering.Select` cuts from the posts table is a `PostPage`, complete without limit or offset. */
  lemma PostPageOfSelect(db: Db, keep: Post -> bool, limit: int, offset: int)
    requires Valid(db)
    ensures var page := Ordering.Select(Ordering.Scan(db.posts), Listed(db, keep), NewestPostFirst, limit, offset);
      && PostPage(db, keep, limit, offset, page)
      && (limit < 0 && offset <= 0 ==> forall k :: k in MatchingPosts(db, keep) ==> db.posts[k] in page)
  {
    var rows := Ordering.Scan(db.posts);
    var page := Ordering.Select(rows, Listed(db, keep), NewestPostFirst, limit, offset);
    PostPageDistinct(db, keep, limit, offset);
    PostPageCount(db, keep, limit, offset);
    PostPageNewest(db, keep, limit, offset);
    forall k | limit < 0 && offset <= 0 && k in MatchingPosts(db, keep) ensures db.posts[k] in page {
      assert db.posts[k] in rows && Listed(db, keep)(db.posts[k]);
    }
  }

  /** A post page lists no post twice. */
  lemma PostPageDistinct(db: Db, keep: Post -> bool, limit: int, offset: int)
    requires Valid(db)
    ensures Ordering.Distinct(Ordering.Select(Ordering.Scan(db.posts), Listed(db, keep), NewestPostFirst, limit, offset))
  {
    ValidInjective(db);
    Ordering.ScanDistinct(db.posts);
  }

  /** A post page holds `PageSize` of the matching posts. */
  lemma PostPageCount(db: Db, keep: Post -> bool, limit: int, offset: int)
    ensures |Ordering.Select(Ordering.Scan(db.posts), Listed(db, keep), NewestPostFirst, limit, offset)|
         == Ordering.PageSize(|MatchingPosts(db, keep)|, limit, offset)
  {
    var pred := Listed(db, keep);
    Ordering.ScanFilterCount(db.posts, pred);
    assert Ordering.KeysWhere(db.posts, pred) == MatchingPosts(db, keep);
  }

  /** A first post page holds the newest matching posts. */
  lemma PostPageNewest(db: Db, keep: Post -> bool, limit: int, offset: int)
    ensures offset <= 0 ==> HoldsNewest(db, keep, Ordering.Select(Ordering.Scan(db.posts), Listed(db, keep), NewestPostFirst, limit, offset))
  {
    var rows := Ordering.Scan(db.posts);
    var pred := Listed(db, keep);
    var page := Ordering.Select(rows, pred, NewestPostFirst, limit, offset);
    forall k, i | offset <= 0 && k in MatchingPosts(db, keep) && 0 <= i < |page| && db.posts[k].createdAt > page[i].createdAt
      ensures db.posts[k] in page
    {
      assert page[i] in page && db.posts[k] in rows && pred(db.posts[k]);
      assert NewestPostFirst(db.posts[k]) < NewestPostFirst(page[i]);
    }
  }

  /** Views of two lists of posts, one after the other, are the views of the joined list. */
  lemma {:induction false} ViewPostsAppend(db: Db, ps: seq<Post>, qs: seq<Post>, likedBy: Option<int>)
    requires forall p :: p in ps + qs ==> HasAuthor(db, p)
    ensures ViewPosts(db, ps, likedBy) + ViewPosts(db, qs, likedBy) == ViewPosts(db, ps + qs, likedBy)
  {
    if |ps| == 0 {
      assert ps + qs == qs;
    } else {
      assert (ps + qs)[1..] == ps[1..] + qs;
      ViewPostsAppend(db, ps[1..], qs, likedBy);
    }
  }

  /**
   * Paging walks one order: the page of `a` posts followed by the page of
   * `b` that starts where it ends is the page of `a + b`.
   */
  lemma ListPostsPagesJoin(db: Db, keep: Post -> bool, a: int, b: int, offset: int, likedBy: Option<int>)
    requires Valid(db) && 0 <= a && 0 <= b && 0 <= offset
    ensures ListPosts(db, keep, a, offset, likedBy) + ListPosts(db, keep, b, offset + a, likedBy)
         == ListPosts(db, keep, a + b, offset, likedBy)
  {
    var rows := Ordering.Scan(db.posts);
    var first := Ordering.Select(rows, Listed(db, keep), NewestPostFirst, a, offset);
    var second := Ordering.Select(rows, Listed(db, keep), NewestPostFirst, b, offset + a);
    Ordering.SelectPagesJoin(rows, Listed(db, keep), NewestPostFirst, a, b, offset);
    ViewPostsAppend(db, first, second, likedBy);
  }

  /** The filter of `getPosts`: none beyond the author join. */
  function AnyPost(p: Post): bool {
    true
  }

  /** The filter of `getUserPosts`: `WHERE p.user_id = ?`. */
  function ByUser(userId: int): Post -> bool {
    (p: Post) => p.userId == userId
  }

  /** The filter of `getFollowingPosts`: the author is followed by `userId`. */
  function FollowedBy(db: Db, userId: int): Post -> bool {
    (p: Post) => IsFollowing(db, userId, p.userId)
  }

  /** `getPosts`: every post whose author row exists. */
  function GetPosts(db: Db, limit: int, offset: int, viewer: Option<int>): (r: seq<PostView>)
    requires Valid(db)
    ensures PostPage(db, AnyPost, limit, offset, PostsOf(r))
    ensures forall i :: 0 <= i < |r| ==> r[i] == ViewPost(db, PostsOf(r)[i], LikedBy(viewer))
    ensures limit < 0 && offset <= 0 ==>
      forall k :: k in db.posts && HasAuthor(db, db.posts[k]) ==> db.posts[k] in PostsOf(r)
  {
    var r := ListPosts(db, AnyPost, limit, offset, LikedBy(viewer));
    assert forall k :: k in db.posts && HasAuthor(db, db.posts[k]) ==> k in MatchingPosts(db, AnyPost);
    r
  }

  /** `getUserPosts`: only that user's posts. */
  function GetUserPosts(db: Db, userId: int, limit: int, offset: int, viewer: Option<int>): (r: seq<PostView>)
    requires Valid(db)
    ensures PostPage(db, ByUser(userId), limit, offset, PostsOf(r))
    ensures forall p :: p in PostsOf(r) ==> p.userId == userId
    ensures forall i :: 0 <= i < |r| ==> r[i] == ViewPost(db, PostsOf(r)[i], LikedBy(viewer))
    ensures limit < 0 && offset <= 0 && userId in db.users ==>
      forall k :: k in db.posts && db.posts[k].userId == userId ==> db.posts[k] in PostsOf(r)
  {
    var r := ListPosts(db, ByUser(userId), limit, offset, LikedBy(viewer));
    forall k | userId in db.users && k in db.posts && db.posts[k].userId == userId
      ensures k in MatchingPosts(db, ByUser(userId))
    {
      assert HasAuthor(db, db.posts[k]);
    }
    forall p | p in PostsOf(r) ensures p.userId == userId {
      assert ByUser(userId)(p);
    }
    r
  }

  /**
   * `getFollowingPosts` (the feed): posts by users `userId` follows, with
   * `is_liked` always filled in for `userId`, whatever its truthiness.
   */
  function GetFollowingPosts(db: Db, userId: int, limit: int, offset: int): (r: seq<PostView>)
    requires Valid(db)
    ensures PostPage(db, FollowedBy(db, userId), limit, offset, PostsOf(r))
    ensures forall p :: p in PostsOf(r) ==> IsFollowing(db, userId, p.userId)
    ensures forall i :: 0 <= i < |r| ==> r[i] == ViewPost(db, PostsOf(r)[i], Some(userId))
    ensures limit < 0 && offset <= 0 ==>
      forall k :: k in db.posts && HasAuthor(db, db.posts[k]) && IsFollowing(db, userId, db.posts[k].userId) ==> db.posts[k] in PostsOf(r)
  {
    var r := ListPosts(db, FollowedBy(db, userId), limit, offset, Some(userId));
    assert forall k :: k in db.posts && HasAuthor(db, db.posts[k]) && IsFollowing(db, userId, db.posts[k].userId) ==>
      k in MatchingPosts(db, FollowedBy(db, userId));
    r
  }

  // ---------------------------------------------------------------------------
  // Comments
  // ---------------------------------------------------------------------------

  /** `ORDER BY c.created_at ASC`. */
  function OldestCommentFirst(c: Comment): int {
    c.createdAt
  }

  function ViewComments(db: Db, cs: seq<Comment>, likedBy: Option<int>): (r: seq<CommentView>)
    requires forall c :: c in cs ==> CommentHasAuthor(db, c)
    ensures |r| == |cs|
    ensures forall i :: 0 <= i < |cs| ==> r[i] == ViewComment(db, cs[i], likedBy)
    ensures CommentsOf(r) == cs
  {
    if |cs| == 0 then [] else [ViewComment(db, cs[0], likedBy)] + ViewComments(db, cs[1..], likedBy)
  }

  function CommentsOf(vs: seq<CommentView>): (r: seq<Comment>)
    ensures |r| == |vs|
    ensures forall i :: 0 <= i < |vs| ==> r[i] == vs[i].comment
  {
    if |vs| == 0 then [] else [vs[0].comment] + CommentsOf(vs[1..])
  }

  /** The filter of `getPostComments`: `WHERE c.post_id = ?`, through the author join. */
  function OnPost(db: Db, postId: int): Comment -> bool {
    (c: Comment) => c.postId == postId && CommentHasAuthor(db, c)
  }

  /** The ids of the comments on `postId` whose author row exists. */
  function MatchingComments(db: Db, postId: int): set<int> {
    set k | k in db.comments && db.comments[k].postId == postId && CommentHasAuthor(db, db.comments[k])
  }

  /**
   * `cs` is the page `LIMIT limit OFFSET offset` cuts from the comments on
   * `postId` with an author row, oldest first: only such comments, none
   * twice, as many as `PageSize` leaves of them, and on a first page the
   * oldest of them.
   */
  predicate CommentPage(db: Db, postId: int, limit: int, offset: int, cs: seq<Comment>) {
    && (forall c :: c in cs ==> c in db.comments.Values && c.postId == postId && CommentHasAuthor(db, c))
    && Ordering.SortedBy(cs, OldestCommentFirst)
    && Ordering.Distinct(cs)
    && |cs| == Ordering.PageSize(|MatchingComments(db, postId)|, limit, offset)
    && (offset <= 0 ==> HoldsOldest(db, postId, cs))
  }

  /** No comment on `postId` older than one of `cs` is missing from `cs`. */
  predicate HoldsOldest(db: Db, postId: int, cs: seq<Comment>) {
    forall k, i :: k in MatchingComments(db, postId) && 0 <= i < |cs| && db.comments[k].createdAt < cs[i].createdAt
      ==> db.comments[k] in cs
  }

  /** The page `Ordering.Select` cuts from the comments table is a `CommentPage`. */
  lemma CommentPageOfSelect(db: Db, postId: int, limit: int, offset: int)
    requires Valid(db)
    ensures CommentPage(db, postId, limit, offset,
      Ordering.Select(Ordering.Scan(db.comments), OnPost(db, postId), OldestCommentFirst, limit, offset))
  {
    CommentPageDistinct(db, postId, limit, offset);
    CommentPageCount(db, postId, limit, offset);
    CommentPageOldest(db, postId, limit, offset);
  }

  /** A comment page lists no comment twice. */
  lemma CommentPageDistinct(db: Db, postId: int, limit: int, offset: int)
    requires Valid(db)
    ensures Ordering.Distinct(Ordering.Select(Ordering.Scan(db.comments), OnPost(db, postId), OldestCommentFirst, limit, offset))
  {
    ValidInjective(db);
    Ordering.ScanDistinct(db.comments);
  }

  /** A comment page holds `PageSize` of the comments on the post. */
  lemma CommentPageCount(db: Db, postId: int, limit: int, offset: int)
    ensures |Ordering.Select(Ordering.Scan(db.comments), OnPost(db, postId), OldestCommentFirst, limit, offset)|
         == Ordering.PageSize(|MatchingComments(db, postId)|, limit, offset)
  {
    var pred := OnPost(db, postId);
    Ordering.ScanFilterCount(db.comments, pred);
    assert Ordering.KeysWhere(db.comments, pred) == MatchingComments(db, postId);
  }

  /** A first comment page holds the oldest comments on the post. */
  lemma CommentPageOldest(db: Db, postId: int, limit: int, offset: int)
    ensures offset <= 0 ==> HoldsOldest(db, postId, Ordering.Select(Ordering.Scan(db.comments), OnPost(db, postId), OldestCommentFirst, limit, offset))
  {
    var rows := Ordering.Scan(db.comments);
    var pred := OnPost(db, postId);
    var page := Ordering.Select(rows, pred, OldestCommentFirst, limit, offset);
    forall k, i | offset <= 0 && k in MatchingComments(db, postId) && 0 <= i < |page| && db.comments[k].createdAt < page[i].createdAt
      ensures db.comments[k] in page
    {
      assert page[i] in page && db.comments[k] in rows && pred(db.comments[k]);
      assert OldestCommentFirst(db.comments[k]) < OldestCommentFirst(page[i]);
    }
  }

  /**
   * `getPostComments`: the page of the comments on one post whose author row
   * exists, oldest first, with `is_liked` for a truthy viewer; with no limit
   * and no offset, all of them.
   */
  function GetPostComments(db: Db, postId: int, limit: int, offset: int, viewer: Option<int>): (r: seq<CommentView>)
    requires Valid(db)
    ensures CommentPage(db, postId, limit, offset, CommentsOf(r))
    ensures forall i :: 0 <= i < |r| ==> r[i] == ViewComment(db, CommentsOf(r)[i], LikedBy(viewer))
    ensures limit < 0 && offset <= 0 ==> forall k :: k in MatchingComments(db, postId) ==> db.comments[k] in CommentsOf(r)
  {
    var rows := Ordering.Scan(db.comments);
    var page := Ordering.Select(rows, OnPost(db, postId), OldestCommentFirst, limit, offset);
    CommentPageOfSelect(db, postId, limit, offset);
    var r := ViewComments(db, page, LikedBy(viewer));
    assert CommentsOf(r) == page;
    forall k | limit < 0 && offset <= 0 && k in MatchingComments(db, postId) ensures db.comments[k] in page {
      assert db.comments[k] in rows && OnPost(db, postId)(db.comments[k]);
    }
    r
  }

  /** Views of two lists of comments, one after the other, are the views of the joined list. */
  lemma {:induction false} ViewCommentsAppend(db: Db, cs: seq<Comment>, ds: seq<Comment>, likedBy: Option<int>)
    requires forall c :: c in cs + ds ==> CommentHasAuthor(db, c)
    ensures ViewComments(db, cs, likedBy) + ViewComments(db, ds, likedBy) == ViewComments(db, cs + ds, likedBy)
  {
    if |cs| == 0 {
      assert cs + ds == ds;
    } else {
      assert (cs + ds)[1..] == cs[1..] + ds;
      ViewCommentsAppend(db, cs[1..], ds, likedBy);
    }
  }

  /** Paging through a post's comments walks one order: consecutive pages join up. */
  lemma CommentPagesJoin(db: Db, postId: int, a: int, b: int, offset: int, viewer: Option<int>)
    requires Valid(db) && 0 <= a && 0 <= b && 0 <= offset
    ensures GetPostComments(db, postId, a, offset, viewer) + GetPostComments(db, postId, b, offset + a, viewer)
         == GetPostComments(db, postId, a + b, offset, viewer)
  {
    var rows := Ordering.Scan(db.comments);
    var first := Ordering.Select(rows, OnPost(db, postId), OldestCommentFirst, a, offset);
    var second := Ordering.Select(rows, OnPost(db, postId), OldestCommentFirst, b, offset + a);
    Ordering.SelectPagesJoin(rows, OnPost(db, postId), OldestCommentFirst, a, b, offset);
    ViewCommentsAppend(db, first, second, LikedBy(viewer));
  }

  // ---------------------------------------------------------------------------
  // Followers and followees
  // ---------------------------------------------------------------------------

  /** A user's public columns with the three counts, as the follower listings return them. */
  function ProfileOf(db: Db, u: User, isFollowing: bool): (r: Profile)
    ensures r.user == PublicOf(u) && !r.isOwnProfile && r.isFollowing == isFollowing
    ensures r.followersCount == FollowersCount(db, u.id) && r.followingCount == FollowingCount(db, u.id)
    ensures r.postsCount == PostsCount(db, u.id)
  {
    Profile(PublicOf(u), FollowersCount(db, u.id), FollowingCount(db, u.id), PostsCount(db, u.id), false, isFollowing)
  }

  function Profiles(db: Db, us: seq<User>, isFollowing: bool): (r: seq<Profile>)
    ensures |r| == |us|
    ensures forall i :: 0 <= i < |us| ==> r[i] == ProfileOf(db, us[i], isFollowing)
  {
    if |us| == 0 then [] else [ProfileOf(db, us[0], isFollowing)] + Profiles(db, us[1..], isFollowing)
  }

  /** The `created_at` of a follow row (0 for a pair that is not stored). */
  function FollowedAt(db: Db, followerId: int, followingId: int): int {
    if (followerId, followingId) in db.follows then db.follows[(followerId, followingId)] else 0
  }

  /** The filter of `getFollowers`: the user follows `userId`. */
  function FollowerOf(db: Db, userId: int): User -> bool {
    (u: User) => IsFollowing(db, u.id, userId)
  }

  /** The filter of `getFollowing`: `userId` follows the user. */
  function FolloweeOf(db: Db, userId: int): User -> bool {
    (u: User) => IsFollowing(db, userId, u.id)
  }

  /** When a user started to follow `userId`. */
  function FollowerSince(db: Db, userId: int): User -> int {
    (u: User) => FollowedAt(db, u.id, userId)
  }

  /** When `userId` started to follow a user. */
  function FolloweeSince(db: Db, userId: int): User -> int {
    (u: User) => FollowedAt(db, userId, u.id)
  }

  /** `ORDER BY f.created_at DESC` as an ascending key. */
  function MostRecent(at: User -> int): User -> int {
    (u: User) => -at(u)
  }

  /**
   * `us` is the page `LIMIT limit OFFSET offset` cuts from the stored users
   * that pass `keep`, most recent `at` first: only such users, none twice,
   * as many as `PageSize` leaves of them, and on a first page the most
   * recent of them.
   */
  predicate UserPage(db: Db, keep: User -> bool, at: User -> int, limit: int, offset: int, us: seq<User>) {
    && (forall u :: u in us ==> u in db.users.Values && keep(u))
    && (forall i, j :: 0 <= i < j < |us| ==> at(us[i]) >= at(us[j]))
    && Ordering.Distinct(us)
    && |us| == Ordering.PageSize(|Ordering.KeysWhere(db.users, keep)|, limit, offset)
    && (offset <= 0 ==> HoldsMostRecent(db, keep, at, us))
  }

  /** No stored user passing `keep` with a later `at` than one of `us` is missing from `us`. */
  predicate HoldsMostRecent(db: Db, keep: User -> bool, at: User -> int, us: seq<User>) {
    forall k, i :: k in db.users && keep(db.users[k]) && 0 <= i < |us| && at(db.users[k]) > at(us[i])
      ==> db.users[k] in us
  }

  /** The page `Ordering.Select` cuts from the users table is a `UserPage`, complete without limit or offset. */
  lemma UserPageOfSelect(db: Db, keep: User -> bool, at: User -> int, limit: int, offset: int)
    requires Valid(db)
    ensures var page := Ordering.Select(Ordering.Scan(db.users), keep, MostRecent(at), limit, offset);
      && UserPage(db, keep, at, limit, offset, page)
      && (limit < 0 && offset <= 0 ==> forall k :: k in db.users && keep(db.users[k]) ==> db.users[k] in page)
  {
    var rows := Ordering.Scan(db.users);
    var page := Ordering.Select(rows, keep, MostRecent(at), limit, offset);
    UserPageDistinct(db, keep, at, limit, offset);
    UserPageCount(db, keep, at, limit, offset);
    UserPageOrder(db, keep, at, limit, offset);
    forall k | limit < 0 && offset <= 0 && k in db.users && keep(db.users[k]) ensures db.users[k] in page {
      assert db.users[k] in rows;
    }
  }

  /** A user page lists no user twice. */
  lemma UserPageDistinct(db: Db, keep: User -> bool, at: User -> int, limit: int, offset: int)
    requires Valid(db)
    ensures Ordering.Distinct(Ordering.Select(Ordering.Scan(db.users), keep, MostRecent(at), limit, offset))
  {
    ValidInjective(db);
    Ordering.ScanDistinct(db.users);
  }

  /** A user page holds `PageSize` of the users passing `keep`. */
  lemma UserPageCount(db: Db, keep: User -> bool, at: User -> int, limit: int, offset: int)
    ensures |Ordering.Select(Ordering.Scan(db.users), keep, MostRecent(at), limit, offset)|
         == Ordering.PageSize(|Ordering.KeysWhere(db.users, keep)|, limit, offset)
  {
    Ordering.ScanFilterCount(db.users, keep);
  }

  /** A user page runs most recent first, and a first page holds the most recent users. */
  lemma UserPageOrder(db: Db, keep: User -> bool, at: User -> int, limit: int, offset: int)
    ensures var page := Ordering.Select(Ordering.Scan(db.users), keep, MostRecent(at), limit, offset);
      && (forall i, j :: 0 <= i < j < |page| ==> at(page[i]) >= at(page[j]))
      && (offset <= 0 ==> HoldsMostRecent(db, keep, at, page))
  {
    var rows := Ordering.Scan(db.users);
    var page := Ordering.Select(rows, keep, MostRecent(at), limit, offset);
    forall i, j | 0 <= i < j < |page| ensures at(page[i]) >= at(page[j]) {
      assert MostRecent(at)(page[i]) <= MostRecent(at)(page[j]);
    }
    forall k, i | offset <= 0 && k in db.users && keep(db.users[k]) && 0 <= i < |page| && at(db.users[k]) > at(page[i])
      ensures db.users[k] in page
    {
      assert page[i] in page && db.users[k] in rows;
      assert MostRecent(at)(db.users[k]) < MostRecent(at)(page[i]);
    }
  }

  /** Profiles of two lists of users, one after the other, are the profiles of the joined list. */
  lemma {:induction false} ProfilesAppend(db: Db, us: seq<User>, vs: seq<User>, isFollowing: bool)
    ensures Profiles(db, us, isFollowing) + Profiles(db, vs, isFollowing) == Profiles(db, us + vs, isFollowing)
  {
    if |us| == 0 {
      assert us + vs == vs;
    } else {
      assert (us + vs)[1..] == us[1..] + vs;
      ProfilesAppend(db, us[1..], vs, isFollowing);
    }
  }

  /**
   * `getFollowers`: the page of the users who follow `userId`, most recent
   * follow first, as profiles whose `is_own_profile` and `is_following` are
   * always false; with no limit and no offset, every follower.
   */
  function GetFollowers(db: Db, userId: int, limit: int, offset: int): (r: seq<Profile>)
    requires Valid(db)
    ensures var us := FollowerRows(db, userId, limit, offset);
            && UserPage(db, FollowerOf(db, userId), FollowerSince(db, userId), limit, offset, us)
            && (forall u :: u in us ==> IsFollowing(db, u.id, userId))
            && |r| == |us|
            && (forall i :: 0 <= i < |r| ==> r[i] == ProfileOf(db, us[i], false))
    ensures limit < 0 && offset <= 0 ==>
      forall k :: k in db.users && IsFollowing(db, k, userId) ==> db.users[k] in FollowerRows(db, userId, limit, offset)
  {
    FollowerPageFacts(db, userId, limit, offset);
    Profiles(db, FollowerRows(db, userId, limit, offset), false)
  }

  /** The user rows `getFollowers` selects, before their e-mail is dropped. */
  function FollowerRows(db: Db, userId: int, limit: int, offset: int): seq<User> {
    Ordering.Select(Ordering.Scan(db.users), FollowerOf(db, userId), MostRecent(FollowerSince(db, userId)), limit, offset)
  }

  /** The page facts of `getFollowers`, said of the rows its query selects. */
  lemma FollowerPageFacts(db: Db, userId: int, limit: int, offset: int)
    requires Valid(db)
    ensures var page := Ordering.Select(Ordering.Scan(db.users), FollowerOf(db, userId), MostRecent(FollowerSince(db, userId)), limit, offset);
      && UserPage(db, FollowerOf(db, userId), FollowerSince(db, userId), limit, offset, page)
      && (forall u :: u in page ==> IsFollowing(db, u.id, userId))
      && (limit < 0 && offset <= 0 ==> forall k :: k in db.users && IsFollowing(db, k, userId) ==> db.users[k] in page)
  {
    var page := Ordering.Select(Ordering.Scan(db.users), FollowerOf(db, userId), MostRecent(FollowerSince(db, userId)), limit, offset);
    UserPageOfSelect(db, FollowerOf(db, userId), FollowerSince(db, userId), limit, offset);
    forall u | u in page ensures IsFollowing(db, u.id, userId) {
      assert FollowerOf(db, userId)(u);
    }
    forall k | limit < 0 && offset <= 0 && k in db.users && IsFollowing(db, k, userId) ensures db.users[k] in page {
      assert FollowerOf(db, userId)(db.users[k]);
    }
  }

  /**
   * `getFollowing`: the page of the users `userId` follows, most recent
   * follow first, as profiles whose `is_own_profile` is false and
   * `is_following` always true; with no limit and no offset, every followee.
   */
  function GetFollowing(db: Db, userId: int, limit: int, offset: int): (r: seq<Profile>)
    requires Valid(db)
    ensures var us := FolloweeRows(db, userId, limit, offset);
            && UserPage(db, FolloweeOf(db, userId), FolloweeSince(db, userId), limit, offset, us)
            && (forall u :: u in us ==> IsFollowing(db, userId, u.id))
            && |r| == |us|
            && (forall i :: 0 <= i < |r| ==> r[i] == ProfileOf(db, us[i], true))
    ensures limit < 0 && offset <= 0 ==>
      forall k :: k in db.users && IsFollowing(db, userId, k) ==> db.users[k] in FolloweeRows(db, userId, limit, offset)
  {
    FolloweePageFacts(db, userId, limit, offset);
    Profiles(db, FolloweeRows(db, userId, limit, offset), true)
  }

  /** The user rows `getFollowing` selects, before their e-mail is dropped. */
  function FolloweeRows(db: Db, userId: int, limit: int, offset: int): seq<User> {
    Ordering.Select(Ordering.Scan(db.users), FolloweeOf(db, userId), MostRecent(FolloweeSince(db, userId)), limit, offset)
  }

  /** The page facts of `getFollowing`, said of the rows its query selects. */
  lemma FolloweePageFacts(db: Db, userId: int, limit: int, offset: int)
    requires Valid(db)
    ensures var page := Ordering.Select(Ordering.Scan(db.users), FolloweeOf(db, userId), MostRecent(FolloweeSince(db, userId)), limit, offset);
      && UserPage(db, FolloweeOf(db, userId), FolloweeSince(db, userId), limit, offset, page)
      && (forall u :: u in page ==> IsFollowing(db, userId, u.id))
      && (limit < 0 && offset <= 0 ==> forall k :: k in db.users && IsFollowing(db, userId, k) ==> db.users[k] in page)
  {
    var page := Ordering.Select(Ordering.Scan(db.users), FolloweeOf(db, userId), MostRecent(FolloweeSince(db, userId)), limit, offset);
    UserPageOfSelect(db, FolloweeOf(db, userId), FolloweeSince(db, userId), limit, offset);
    forall u | u in page ensures IsFollowing(db, userId, u.id) {
      assert FolloweeOf(db, userId)(u);
    }
    forall k | limit < 0 && offset <= 0 && k in db.users && IsFollowing(db, userId, k) ensures db.users[k] in page {
      assert FolloweeOf(db, userId)(db.users[k]);
    }
  }

  /** Paging through a user's followers walks one order: consecutive pages join up. */
  lemma FollowerPagesJoin(db: Db, userId: int, a: int, b: int, offset: int)
    requires Valid(db) && 0 <= a && 0 <= b && 0 <= offset
    ensures GetFollowers(db, userId, a, offset) + GetFollowers(db, userId, b, offset + a) == GetFollowers(db, userId, a + b, offset)
  {
    var rows, keep, key := Ordering.Scan(db.users), FollowerOf(db, userId), MostRecent(FollowerSince(db, userId));
    Ordering.SelectPagesJoin(rows, keep, key, a, b, offset);
    ProfilesAppend(db, Ordering.Select(rows, keep, key, a, offset), Ordering.Select(rows, keep, key, b, offset + a), false);
  }

  /** Paging through the users someone follows walks one order: consecutive pages join up. */
  lemma FollowingPagesJoin(db: Db, userId: int, a: int, b: int, offset: int)
    requires Valid(db) && 0 <= a && 0 <= b && 0 <= offset
    ensures GetFollowing(db, userId, a, offset) + GetFollowing(db, userId, b, offset + a) == GetFollowing(db, userId, a + b, offset)
  {
    var rows, keep, key := Ordering.Scan(db.users), FolloweeOf(db, userId), MostRecent(FolloweeSince(db, userId));
    Ordering.SelectPagesJoin(rows, keep, key, a, b, offset);
    ProfilesAppend(db, Ordering.Select(rows, keep, key, a, offset), Ordering.Select(rows, keep, key, b, offset + a), true);
  }
}
