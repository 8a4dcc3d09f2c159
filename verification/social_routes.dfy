/**
 * The request-side rules of the social API routes (mini_social_media/main.ts):
 * how `limit` and `offset` query strings become numbers, how path ids are
 * parsed and refused, the search-query guard, and how a null or false store
 * result becomes 404. Query strings are `Option<string>` (`None` is an absent
 * parameter, which `parseInt` sees as the text "undefined").
 *
 * The post-listing limit as written, `Math.min(parseInt(q) || 20, 50)`, only
 * caps from above: `?limit=-1` passes through, and SQLite reads a negative
 * LIMIT as no limit at all. `PostLimitAsWritten` keeps that expression and
 * `NegativeLimitListsEverything` exhibits the effect; the handlers below use
 * `ClampLimit`, which also refuses non-positive values.
 */
module SocialRoutes {
  import opened Wrappers
  import opened JsText
  import opened SocialStore
  import SocialListings
  import SocialService

  const PostPageDefault := 20
  const PostPageCap := 50
  const CommentPageDefault := 50
  const CommentPageCap := 100

  // ---------------------------------------------------------------------------
  // limit / offset
  // ---------------------------------------------------------------------------

  /** `parseInt(q) || d`: NaN and zero (also "-0") are falsy and give the default. */
  function OrDefault(n: Option<int>, d: int): (r: int)
    ensures n.None? || n.value == 0 ==> r == d
    ensures n.Some? && n.value != 0 ==> r == n.value
  {
    if n.None? || n.value == 0 then d else n.value
  }

  /** `Math.min(parseInt(q) || d, cap)`, as the routes write it. */
  function LimitAsWritten(q: Option<string>, d: int, cap: int): (r: int)
    requires 0 < d <= cap
    ensures r <= cap
    ensures ParseIntOpt(q).None? || ParseIntOpt(q) == Some(0) ==> r == d
    ensures ParseIntOpt(q).Some? && ParseIntOpt(q).value != 0 && ParseIntOpt(q).value <= cap ==> r == ParseIntOpt(q).value
  {
    var v := OrDefault(ParseIntOpt(q), d);
    if v < cap then v else cap
  }

  /** The post-listing limit as written (`/posts`, `/posts/feed`, `/users/:userId/posts`, `/search/posts`). */
  function PostLimitAsWritten(q: Option<string>): (r: int)
    ensures r <= PostPageCap
    ensures ParseIntOpt(q).None? ==> r == PostPageDefault
    ensures forall n :: ParseIntOpt(q) == Some(n) && n < 0 ==> r == n
  {
    LimitAsWritten(q, PostPageDefault, PostPageCap)
  }

  /** `?limit=-1` gets through every cap unchanged, the post cap and the comment cap among them. */
  lemma MinusOneLimitPassesCap()
    ensures PostLimitAsWritten(Some("-1")) == -1
    ensures LimitAsWritten(Some("-1"), CommentPageDefault, CommentPageCap) == -1
  {
    assert TrimStart("-1") == "-1";
    assert ParseIntOpt(Some("-1")) == Some(-1) by {
      ParseIntOfIntToString(-1);
      assert IntToString(-1) == "-1";
    }
  }

  /**
   * With the limit as written, `GET /posts?limit=-1` returns every post that
   * has an author, however many there are, instead of at most 50.
   */
  lemma NegativeLimitListsEverything(db: Db, viewer: Option<int>)
    requires Valid(db)
    ensures var page := SocialListings.GetPosts(db, PostLimitAsWritten(Some("-1")), OffsetOf(None), viewer);
            forall k :: k in db.posts && HasAuthor(db, db.posts[k]) ==> db.posts[k] in SocialListings.PostsOf(page)
  {
    MinusOneLimitPassesCap();
  }

  /**
   * The same holds for comments: with the limit as written,
   * `GET /posts/:postId/comments?limit=-1` returns every comment on the post
   * that has an author, instead of at most 100.
   */
  lemma NegativeCommentLimitListsEverything(db: Db, postId: int, viewer: Option<int>)
    requires Valid(db)
    ensures var page := SocialListings.GetPostComments(db, postId, LimitAsWritten(Some("-1"), CommentPageDefault, CommentPageCap), OffsetOf(None), viewer);
            forall k :: k in SocialListings.MatchingComments(db, postId) ==> db.comments[k] in SocialListings.CommentsOf(page)
  {
    MinusOneLimitPassesCap();
  }

  /** The limit the caps evidently mean: missing, NaN and non-positive values give the default. */
  function ClampLimit(q: Option<string>, d: int, cap: int): (r: int)
    requires 0 < d <= cap
    ensures 1 <= r <= cap
    ensures ParseIntOpt(q).None? || ParseIntOpt(q).value <= 0 ==> r == d
    ensures ParseIntOpt(q).Some? && 0 < ParseIntOpt(q).value ==> r == if ParseIntOpt(q).value < cap then ParseIntOpt(q).value else cap
  {
    var n := ParseIntOpt(q);
    if n.None? || n.value <= 0 then d
    else if n.value < cap then n.value else cap
  }

  /** The two agree on every limit the written clamp already handles well. */
  lemma ClampAgreesWhenPositive(q: Option<string>, d: int, cap: int)
    requires 0 < d <= cap
    requires ParseIntOpt(q).None? || ParseIntOpt(q).value >= 0
    ensures ClampLimit(q, d, cap) == LimitAsWritten(q, d, cap)
  {
  }

  /** `parseInt(q) || 0`. */
  function OffsetOf(q: Option<string>): (r: int)
    ensures ParseIntOpt(q).None? ==> r == 0
    ensures ParseIntOpt(q).Some? ==> r == ParseIntOpt(q).value
  {
    OrDefault(ParseIntOpt(q), 0)
  }

  // ---------------------------------------------------------------------------
  // Responses
  // ---------------------------------------------------------------------------

  /** The HTTP status and payload (or error text) a handler sends, with the store after it. */
  datatype Handled<T> = Handled(db: Db, status: int, body: Result<T, string>)

  /**
   * `GET /users/:userId`: 400 when `parseInt` of the id is NaN (so "12abc"
   * still reads as 12), 404 on an unknown user.
   */
  function UserProfileRoute(db: Db, rawId: string, viewer: Option<int>): (r: Handled<Profile>)
    requires Valid(db)
    ensures r.db == db
    ensures ParseInt(rawId).None? ==> r.status == 400 && r.body == Err("Invalid user ID")
    ensures ParseInt(rawId).Some? && ParseInt(rawId).value !in db.users ==> r.status == 404 && r.body == Err("User not found")
    ensures r.status == 200 <==> ParseInt(rawId).Some? && ParseInt(rawId).value in db.users
    ensures r.status == 200 ==> r.body.Ok? && r.body.value.user == PublicOf(db.users[ParseInt(rawId).value])
  {
    match ParseInt(rawId)
    case None => Handled(db, 400, Err("Invalid user ID"))
    case Some(id) =>
      match GetUserProfile(db, id, viewer)
      case None => Handled(db, 404, Err("User not found"))
      case Some(p) => Handled(db, 200, Ok(p))
  }

  /** `GET /posts`: the clamped page of the newest posts. */
  function PostsRoute(db: Db, limit: Option<string>, offset: Option<string>, viewer: Option<int>): (r: Handled<seq<PostView>>)
    requires Valid(db)
    ensures r.db == db && r.status == 200 && r.body.Ok?
    ensures |r.body.value| <= PostPageCap
    ensures forall p :: p in SocialListings.PostsOf(r.body.value) ==> p in db.posts.Values
  {
    Handled(db, 200, Ok(SocialListings.GetPosts(db, ClampLimit(limit, PostPageDefault, PostPageCap), OffsetOf(offset), viewer)))
  }

  /**
   * `GET /posts/:postId/comments`: comment pages default to 50 and stop at
   * 100, with the limit `ClampLimit` gives.
   */
  function CommentsRoute(db: Db, rawPostId: string, limit: Option<string>, offset: Option<string>, viewer: Option<int>): (r: Handled<seq<CommentView>>)
    requires Valid(db)
    ensures r.db == db
    ensures ParseInt(rawPostId).None? <==> r.status == 400
    ensures r.status == 200 ==> r.body.Ok? && |r.body.value| <= CommentPageCap
  {
    match ParseInt(rawPostId)
    case None => Handled(db, 400, Err("Invalid post ID"))
    case Some(id) =>
      Handled(db, 200, Ok(SocialListings.GetPostComments(db, id, ClampLimit(limit, CommentPageDefault, CommentPageCap), OffsetOf(offset), viewer)))
  }

  /** `PUT /posts/:postId` after the body passed its schema: 404 when the store returns null. */
  function UpdatePostRoute(db: Db, rawPostId: string, userId: int, content: Option<string>, imageUrl: Option<Option<string>>, now: int): (r: Handled<PostView>)
    requires Valid(db)
    ensures Valid(r.db)
    ensures ParseInt(rawPostId).None? ==> r.status == 400 && r.db == db
    ensures ParseInt(rawPostId).Some? && !OwnsPost(db, ParseInt(rawPostId).value, userId) ==> r.status == 404 && r.db == db
    ensures r.status == 200 ==> ParseInt(rawPostId).Some? && OwnsPost(db, ParseInt(rawPostId).value, userId) && r.body.Ok?
  {
    match ParseInt(rawPostId)
    case None => Handled(db, 400, Err("Invalid post ID"))
    case Some(id) =>
      var out := UpdatePost(db, id, userId, content, imageUrl, now);
      match out.result.value
      case None => Handled(out.db, 404, Err("Post not found or not authorized"))
      case Some(v) => Handled(out.db, 200, Ok(v))
  }

  /** `DELETE /posts/:postId`: 404 unless an owned row was deleted. */
  function DeletePostRoute(db: Db, rawPostId: string, userId: int): (r: Handled<()>)
    requires Valid(db)
    ensures Valid(r.db)
    ensures ParseInt(rawPostId).None? ==> r.status == 400 && r.db == db
    ensures r.status == 404 <==> ParseInt(rawPostId).Some? && !OwnsPost(db, ParseInt(rawPostId).value, userId)
    ensures r.status == 404 ==> r.db == db
    ensures r.status == 200 ==> ParseInt(rawPostId).value !in r.db.posts
  {
    match ParseInt(rawPostId)
    case None => Handled(db, 400, Err("Invalid post ID"))
    case Some(id) =>
      var out := DeletePost(db, id, userId);
      if out.result.value then Handled(out.db, 200, Ok(()))
      else Handled(out.db, 404, Err("Post not found or not authorized"))
  }

  /** `POST /posts/:postId/like`: a bad id or a thrown service error is a 400 and changes nothing. */
  function TogglePostLikeRoute(db: Db, userId: int, rawPostId: string): (r: Handled<bool>)
    requires Valid(db)
    ensures Valid(r.db)
    ensures r.status == 400 ==> r.db == db
    ensures r.status == 400 <==> ParseInt(rawPostId).None? || !SocialService.PostVisible(db, ParseInt(rawPostId).value)
    ensures r.status == 200 ==> r.body.Ok? && (r.body.value <==> IsPostLiked(r.db, userId, ParseInt(rawPostId).value))
  {
    match ParseInt(rawPostId)
    case None => Handled(db, 400, Err("Invalid post ID"))
    case Some(id) =>
      var out := SocialService.TogglePostLike(db, userId, id);
      match out.result
      case Err(_) => Handled(out.db, 400, Err("Post not found"))
      case Ok(liked) => Handled(out.db, 200, Ok(liked))
  }

  /** `POST /users/:userId/follow`: self-follow and unknown users are 400s that change nothing. */
  function ToggleFollowRoute(db: Db, userId: int, rawTargetId: string, now: int): (r: Handled<bool>)
    requires Valid(db)
    ensures Valid(r.db)
    ensures r.status == 400 ==> r.db == db
    ensures r.status == 400 <==> ParseInt(rawTargetId).None? || ParseInt(rawTargetId) == Some(userId) || ParseInt(rawTargetId).value !in db.users
    ensures r.status == 200 ==> r.body.Ok? && (r.body.value <==> IsFollowing(r.db, userId, ParseInt(rawTargetId).value))
  {
    match ParseInt(rawTargetId)
    case None => Handled(db, 400, Err("Invalid user ID"))
    case Some(id) =>
      var out := SocialService.ToggleFollow(db, userId, id, now);
      match out.result
      case Err(e) => Handled(out.db, 400, Err(if e == SocialService.CannotFollowYourself then "Cannot follow yourself" else "User not found"))
      case Ok(following) => Handled(out.db, 200, Ok(following))
  }

  /** `!query` on the search routes: an absent or empty `q` is refused before any search runs. */
  function SearchQuery(q: Option<string>): (r: Result<string, string>)
    ensures r.Err? <==> q.None? || q.value == ""
    ensures r.Err? ==> r.error == "Search query is required"
    ensures r.Ok? ==> q == Some(r.value) && |r.value| > 0
  {
    if q.None? || q.value == "" then Err("Search query is required") else Ok(q.value)
  }
}
