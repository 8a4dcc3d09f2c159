# A verified model of the chat-aggregator and mini-social-media backends

The repository holds three near-copies of an Express + SQLite backend: a mini
social network (`mini_social_media`), the shared `template`, and a chat
aggregator (`chat_aggregator`) that scrapes AI chat platforms with saved
browser cookies. This project models, in Dafny, the store contracts those
backends rest on and the small pure rules around them, and proves what they
promise.

Every SQL table is an immutable map keyed by its primary key inside a store
datatype. The clock is an integer parameter `now`, so each `WHERE` clause
becomes a pre- or postcondition. A failing statement is a `Result` error that
leaves the store unchanged.

The modules, in the order the backends use them:

- `Wrappers`, `Json`, `JsText`: `Option`/`Result`, JSON values with
  JavaScript truthiness, and the JavaScript string built-ins the code relies on.
  These are `trim`, `split`/`join`, `indexOf`, UTF-16 `length`, ASCII
  `toLowerCase` and `parseInt` (leading whitespace, sign, `0x` prefix, longest
  digit prefix, NaN as `None`).
- `Ordering`: table scans in key order, stable sorting by a key, `LIMIT`/`OFFSET`
  pages (a negative limit is no limit, as in SQLite) and filters.
- `InsertionOrder`: a JavaScript `Map` or plain object with insertion-ordered keys.
- `Transaction`: the four-operation `Transaction` wrapper of both `db.ts` copies,
  as a state machine over its `isActive` flag.
- `CredentialStore`: sessions and revoked JWT ids, with both copies of
  `isTokenRevoked`.
- `Timestamps`: how the expiry columns compare as text (ISO text against SQLite's
  `datetime('now')`).
- `SocialStore`, `SocialListings`, `SocialService`, `SocialRoutes`: the social
  network. This covers likes, follows, posts, comments and profiles in
  mini_social_media/db.ts, its listings, the toggle services of social.ts, and
  the route guards and pagination clamps of main.ts.
- `ChatStore`: chats and messages of template/backend/db.ts. This covers the
  `message_count` trigger, the `(platform, platform_chat_id)` upsert of
  `createChatWithMessages` and the field filter of `updateChat`.
- `ChatService`: the source registry, `loadUserSources`, `syncAllSources` over
  sources given as data, chat creation and `getStats` of
  chat_aggregator/backend/chat.ts.
- `ChatRoutes`: the `/chats` query normalisation of template/backend/main.ts.
- `PlatformAccounts`, `AccountRoutes`: the `platform_accounts` table and the
  create, update and delete handlers with their validation and ownership checks.
- `CookieForm`: the `parseCookies` parser and the checks of `handleSubmit` in
  PlatformAccountForm.tsx.
- `Schemas`: the zod request schemas of the three backends, as parsers.

`JSON.parse`, the zod URL and e-mail checks, and the behaviour of each scraper
are parameters.

The two copies of `isTokenRevoked` disagree: template/backend/db.ts:339-345
reports the opposite of mini_social_media/db.ts:474-480. The model follows each
copy as written (`CredentialStore.TemplateIsTokenRevoked` and
`CredentialStore.IsTokenRevoked`), and the template's inversion is logged under
Findings.

## Model

| member | source | states |
|---|---|---|
| Transaction.Step | mini_social_media/db.ts:28-66 | `begin` on an active wrapper fails with "Transaction already started"; `run`/`get`/`all` and `commit` on an inactive one fail with their messages; a failed statement raises and leaves the flag; a successful `commit`/`rollback` deactivates; `rollback` while inactive does nothing and sends nothing |
| Transaction.Open | mini_social_media/db.ts:340-344 | `transaction()` yields a wrapper exactly when BEGIN IMMEDIATE succeeds, and that wrapper is active |
| Transaction.RunScriptActive | template/backend/db.ts:27-65 | after any script of calls the flag is decided by the last boundary call that took effect: successful begin opens, successful commit/rollback of an open wrapper closes, queries never matter |
| Transaction.QueriesKeepFlag | mini_social_media/db.ts:34-53 | `run`, `get` and `all` never change the wrapper, whether they succeed or throw |
| Transaction.CloseDeactivates | mini_social_media/db.ts:55-66 | after a `commit` or `rollback` whose statement succeeded the wrapper is inactive |
| Transaction.RollbackIdempotent | mini_social_media/db.ts:62-66 | a second `rollback` after a successful one changes nothing |
| Transaction.BeginQueriesCommit | template/backend/db.ts:27-59 | begin, any successful queries, commit: nothing raises, BEGIN IMMEDIATE then COMMIT are issued and the wrapper ends inactive |
| CredentialStore.CreateSession | mini_social_media/db.ts:444-453 | a plain INSERT: fails exactly when the id is taken, otherwise adds exactly that row and touches no other table |
| CredentialStore.GetSession | mini_social_media/db.ts:455-461 | returns the row for the id exactly when it exists and its expiry is after `now` |
| CredentialStore.DeleteSession | mini_social_media/db.ts:463-465 | removes only the row with that id, keeps every other row, and is a no-op for an unknown id |
| CredentialStore.DeleteExpiredSessions | mini_social_media/db.ts:467-472 | keeps exactly the rows with expiry after `now`, unchanged |
| CredentialStore.SweepAgreesWithLookup | template/backend/db.ts:320-337 | the sweep's `<=` is the exact complement of the lookup's `>`: sweeping never changes what `getSession` answers, and what remains is what it would return |
| CredentialStore.EarlierSweepInvisible | mini_social_media/db.ts:455-472 | a sweep run at any earlier instant changes no later lookup |
| CredentialStore.CreateThenGet | mini_social_media/db.ts:444-461 | a session created with a future expiry is read back as created |
| CredentialStore.DeleteSessionIdempotent | mini_social_media/db.ts:463-465 | deleting twice equals deleting once, and the session is then not found |
| CredentialStore.RevokeToken | mini_social_media/db.ts:482-487 | INSERT OR REPLACE keyed by `jti`: afterwards exactly one record for `jti` with the new expiry, every other record unchanged, sessions untouched |
| CredentialStore.IsTokenRevoked | mini_social_media/db.ts:474-480 | true exactly when a record for `jti` exists whose expiry is after `now` |
| CredentialStore.TemplateIsTokenRevoked | template/backend/db.ts:339-345 | the template copy as written: true exactly when a record for `jti` exists whose expiry is before `now` |
| CredentialStore.CleanupExpiredTokens | mini_social_media/db.ts:489-494 | deletes exactly the records with expiry strictly before `now`, keeps the rest unchanged |
| CredentialStore.RevokeTwice | template/backend/db.ts:347-352 | revoking twice leaves what the second revocation alone would |
| CredentialStore.RevokedUntilExpiry | mini_social_media/db.ts:474-487 | a token just revoked is reported revoked exactly while `now` is before its expiry |
| CredentialStore.CleanupInvisible | mini_social_media/db.ts:474-494 | a cleanup at `now` never changes `isTokenRevoked` for any token at `now` or later |
| CredentialStore.TemplateRevocationInverted | template/backend/db.ts:339-345 | in the template copy a token revoked with a future expiry is reported not revoked (the social copy says revoked), and a lapsed one is reported revoked |
| CredentialStore.TemplateCleanupErasesRevocations | template/backend/db.ts:339-359 | in the template copy, after a cleanup no token is reported revoked at that instant |
| SocialStore.NullIfEmpty | mini_social_media/db.ts:497-505 | `image_url \|\| null`: an empty URL is stored as NULL, any other value as given |
| SocialStore.LikePost | mini_social_media/db.ts:882-887 | INSERT OR IGNORE: afterwards the pair is liked, no other like changes, no other table changes, and liking an already liked post changes nothing |
| SocialStore.UnlikePost | mini_social_media/db.ts:889-894 | afterwards the pair is not liked, no other like changes, and unliking a post not liked changes nothing |
| SocialStore.LikeComment | mini_social_media/db.ts:896-901 | the same idempotent insert for comment likes |
| SocialStore.UnlikeComment | mini_social_media/db.ts:903-908 | the same delete for comment likes |
| SocialStore.LikeThenUnlike | mini_social_media/db.ts:882-894 | a like on a post not yet liked followed by the unlike gives back the store |
| SocialStore.LikeCommentThenUnlike | mini_social_media/db.ts:896-908 | the same for comment likes |
| SocialStore.FollowUser | mini_social_media/db.ts:927-932 | INSERT OR IGNORE with the CHECK against self-follows: afterwards the pair follows exactly when the ids differ, an existing follow keeps its `created_at`, nothing else changes, and a repeat or a self-follow is a no-op |
| SocialStore.UnfollowUser | mini_social_media/db.ts:934-939 | afterwards the pair does not follow, every other follow is kept with its `created_at`, and unfollowing a non-follow changes nothing |
| SocialStore.FollowThenUnfollow | mini_social_media/db.ts:927-939 | a new follow between two different users followed by the unfollow gives back the store |
| SocialStore.GetUserById | mini_social_media/db.ts:369-372 | the user row with that id, or null exactly when there is none |
| SocialStore.GetUserProfile | mini_social_media/db.ts:406-441 | null exactly for an unknown user; otherwise the user's public columns (no e-mail, as the query selects) with the three counts, `is_own_profile` exactly when the viewer is the user, and `is_following` true only for a truthy viewer other than the user who follows them |
| SocialStore.ProfileHidesEmail | mini_social_media/db.ts:406-441 | the profile does not carry the e-mail: changing a user's e-mail changes no profile answer |
| SocialStore.UpdateUserProfile | mini_social_media/db.ts:374-404 | with no field given the SET list is empty and the statement fails, changing nothing; otherwise exactly the given fields of that user change, every other user is kept, and the re-read user is returned (none when the id is unknown) |
| SocialStore.LikedBy | mini_social_media/db.ts:510-552 | `is_liked` is computed for the viewer exactly when the viewer id is truthy |
| SocialStore.ViewPost | mini_social_media/db.ts:510-552 | a post as read: its author row, like and comment counts, and `is_liked` exactly when a liker is given, true exactly when that user liked it |
| SocialStore.GetPost | mini_social_media/db.ts:510-552 | found exactly when the post and its author row exist (the query joins users); `is_liked` present exactly for a truthy viewer |
| SocialStore.CreatePost | mini_social_media/db.ts:497-508 | inserts exactly one post under the next id with both timestamps at `now`, changes nothing else, and the re-read finds it exactly when the author exists |
| SocialStore.UpdatePost | mini_social_media/db.ts:554-581 | without a row matching both id and owner nothing changes and the result is null; otherwise only that post changes: `updated_at`, plus `content` when given and `image_url` when not undefined (null clears it) |
| SocialStore.UpdatedPostReadBack | mini_social_media/db.ts:554-581 | after an owner's edit `getPost` returns the given fields and keeps the rest, author and creation time included |
| SocialStore.DeletePost | mini_social_media/db.ts:583-589 | true exactly when a row owned by the user existed; then only that post is removed, otherwise nothing changes; comments and likes stay behind |
| SocialStore.DeletedPostGone | mini_social_media/db.ts:583-589 | after a successful delete `getPost` finds nothing, for any viewer |
| SocialStore.ViewComment | mini_social_media/db.ts:781-827 | a comment as read: its author, its like count, and `is_liked` exactly when a liker is given |
| SocialStore.CreateComment | mini_social_media/db.ts:739-779 | inserts exactly one comment under the next id without checking the post; the joined re-read fails exactly when the author row is missing, after the insert |
| SocialStore.UpdateComment | mini_social_media/db.ts:829-871 | without an owned row nothing changes and the result is null; otherwise only that comment's content and `updated_at` change |
| SocialStore.DeleteComment | mini_social_media/db.ts:873-880 | true exactly when an owned row existed; then only that comment is removed, otherwise nothing changes |
| SocialService.TogglePostLike | mini_social_media/social.ts:157-176 | a post `getPost` cannot find fails with "Post not found" and changes nothing; otherwise the like flips, `liked` is the new state, and no other like or table changes |
| SocialService.TogglePostLikeTwice | mini_social_media/social.ts:157-176 | toggling a visible post's like twice gives back the store and opposite answers |
| SocialService.ToggleCommentLike | mini_social_media/social.ts:178-191 | the comment like flips with no existence check, `liked` is the new state, nothing else changes |
| SocialService.ToggleCommentLikeTwice | mini_social_media/social.ts:178-191 | toggling a comment like twice gives back the store |
| SocialService.ToggleFollow | mini_social_media/social.ts:194-217 | a self-follow fails with "Cannot follow yourself" and an unknown target with "User not found", both changing nothing; otherwise the follow flips and `following` is the new state |
| SocialService.ToggleFollowTwice | mini_social_media/social.ts:194-217 | two toggles restore who follows whom, and the store itself when the pair did not follow before |
| SocialService.CreateComment | mini_social_media/social.ts:114-127 | a post `getPost` cannot find fails with "Post not found" and inserts nothing; otherwise exactly one comment on that post is stored |
| SocialService.UpdateProfile | mini_social_media/social.ts:20-41 | fails with the store's error when no field is given and with "Failed to update profile" for an unknown user, changing nothing; otherwise returns the user's own profile (public columns only) with the given fields; "Failed to retrieve updated profile" never happens |
| Ordering.Scan | template/backend/db.ts:405-439 | a table scan returns every row of the table once, and nothing else |
| Ordering.ScanDistinct | template/backend/db.ts:405-439 | a scan of a table whose rows differ from one another lists no row twice |
| Ordering.SortBy | mini_social_media/db.ts:591-612 | `ORDER BY`: a permutation of the rows in non-decreasing key order |
| Ordering.SortByMembers | mini_social_media/db.ts:591-612 | sorting keeps exactly the rows it was given |
| Ordering.SortByDistinct | mini_social_media/db.ts:591-612 | `ORDER BY` of a listing without repeats has no repeats |
| Ordering.Page | mini_social_media/db.ts:591-612 | `LIMIT ? OFFSET ?` as SQLite applies them: the page is the run of the listing that starts at the offset (a negative offset counts as 0) and is exactly `Ordering.PageSize` rows long; a negative limit with no offset keeps the whole listing |
| Ordering.PageSize | mini_social_media/db.ts:591-612 | how many rows `LIMIT ? OFFSET ?` leaves of `n`: never more than `n`, never more than a non-negative limit, and all `n` for a negative limit with no offset |
| Ordering.PagesJoin | mini_social_media/db.ts:591-612 | paging walks one order: the page of `a` rows followed by the page of `b` rows that starts where it ends is the page of `a + b` rows |
| Ordering.PageLowestFirst | mini_social_media/db.ts:591-612 | a first page of an ordered listing holds its lowest keys: no row with a smaller key than a row on the page is left off it |
| Ordering.PageDistinct | mini_social_media/db.ts:591-612 | a page of a listing without repeats has no repeats |
| Ordering.PageSorted | mini_social_media/db.ts:591-612 | a page cut from an ordered listing is still ordered |
| Ordering.PageMembers | mini_social_media/db.ts:591-612 | every row of a page comes from the listing it was cut from |
| Ordering.Filter | template/backend/db.ts:405-439 | a `WHERE` over a scan keeps exactly the rows that satisfy it |
| Ordering.FilterKeepsAll | template/backend/db.ts:405-439 | a `WHERE` every row satisfies keeps the whole listing in order |
| Ordering.FilterDistinct | template/backend/db.ts:405-439 | a `WHERE` over a listing without repeats has no repeats |
| Ordering.ScanFilterCount | template/backend/db.ts:405-439 | a `WHERE` over a scan keeps exactly as many rows as there are keys whose rows satisfy it |
| Ordering.Select | mini_social_media/db.ts:591-612 | filter, order and page: only rows that pass the filter, in key order, exactly `Ordering.PageSize` of the matching rows, none twice when the table has no repeats; on a first page no matching row with a smaller key is left off; with no limit and no offset every matching row is on it |
| Ordering.SelectPagesJoin | mini_social_media/db.ts:591-612 | consecutive pages of one query join up into the larger page: with rows of equal key taken in the model's one fixed order, paging neither skips nor repeats a row |
| Ordering.SelectAll | mini_social_media/db.ts:591-612 | with no limit, no offset and a filter every row passes, the listing has as many rows as the table |
| SocialListings.GetPosts | mini_social_media/db.ts:591-638 | a `SocialListings.PostPage` of all posts with an author row: stored posts with their author, newest first, no post twice, exactly as many as `LIMIT`/`OFFSET` leave of them, and on a first page no newer post left off; `is_liked` filled for a truthy viewer; with no limit and offset every such post |
| SocialListings.GetUserPosts | mini_social_media/db.ts:640-688 | the same page over that user's posts only, all of which are listed with no limit when the user exists |
| SocialListings.GetFollowingPosts | mini_social_media/db.ts:690-736 | the same page over the posts by users the given user follows, with `is_liked` always computed for that user |
| SocialListings.GetPostComments | mini_social_media/db.ts:781-827 | a `SocialListings.CommentPage`: the comments on that post whose author row exists, oldest first, none twice, exactly as many as `LIMIT`/`OFFSET` leave of them, and on a first page no older comment left off; all of them with no limit and offset |
| SocialListings.CommentPageOfSelect | mini_social_media/db.ts:781-827 | the rows the comment query selects form a `SocialListings.CommentPage` |
| SocialListings.CommentPageOldest | mini_social_media/db.ts:781-827 | a first comment page holds the oldest comments on the post |
| SocialListings.CommentPagesJoin | mini_social_media/db.ts:781-827 | with comments of equal `created_at` taken in the model's one fixed order, paging through a post's comments neither skips nor repeats a comment |
| SocialListings.ProfileOf | mini_social_media/db.ts:949-980 | a follower-listing row: the user's public columns (no e-mail) with the three counts and `is_own_profile` false |
| SocialListings.GetFollowers | mini_social_media/db.ts:949-980 | a `SocialListings.UserPage` of the users following the given user: most recent follow first, none twice, exactly as many as `LIMIT`/`OFFSET` leave of them, on a first page no more recent follower left off, all of them with no limit; each shown by its public columns, without the e-mail, and `is_following` false |
| SocialListings.GetFollowing | mini_social_media/db.ts:982-1013 | a `SocialListings.UserPage` of the users the given user follows: most recent follow first, none twice, exact count, first page holds the most recent, all of them with no limit; each shown by its public columns, without the e-mail, and `is_following` true |
| SocialListings.UserPageOfSelect | mini_social_media/db.ts:949-980 | the rows a follow query selects form a `SocialListings.UserPage`, complete with no limit and offset |
| SocialListings.UserPageOrder | mini_social_media/db.ts:949-980 | a user page runs most recent follow first, and a first page holds the most recent follows |
| SocialListings.FollowerPagesJoin | mini_social_media/db.ts:949-980 | with follows of equal `created_at` taken in the model's one fixed order, paging through a user's followers neither skips nor repeats one |
| SocialListings.FollowingPagesJoin | mini_social_media/db.ts:982-1013 | with follows of equal `created_at` taken in the model's one fixed order, paging through the users someone follows neither skips nor repeats one |
| SocialListings.ListPosts | mini_social_media/db.ts:591-638 | the page all post listings share: a `SocialListings.PostPage` of the stored posts with an author row that pass the listing's filter (exact count, newest first, no repeats, first page holds the newest), each shown with its counts; complete with no limit and offset |
| SocialListings.PostPageOfSelect | mini_social_media/db.ts:591-638 | the rows the post query selects form a `SocialListings.PostPage`, complete with no limit and offset |
| SocialListings.PostPageCount | mini_social_media/db.ts:591-638 | a post page holds exactly as many posts as `LIMIT`/`OFFSET` leave of the matching ones |
| SocialListings.PostPageNewest | mini_social_media/db.ts:591-638 | a first post page holds the newest matching posts: none newer than a listed post is left off |
| SocialListings.ListPostsPagesJoin | mini_social_media/db.ts:591-638 | with posts of equal `created_at` taken in the model's one fixed order, paging through a post listing neither skips nor repeats a post: the page of `a` followed by the page of `b` after it is the page of `a + b` |
| SocialRoutes.OrDefault | mini_social_media/main.ts:204-205 | `parseInt(q) \|\| d`: NaN and 0 give the default, any other number is kept |
| SocialRoutes.LimitAsWritten | mini_social_media/main.ts:386 | `Math.min(parseInt(q) \|\| d, cap)` as written: never above the cap, the default for a missing, NaN or zero limit, and the number itself when it is non-zero and within the cap |
| SocialRoutes.PostLimitAsWritten | mini_social_media/main.ts:204 | the post-listing limit as written is at most 50 and 20 when missing, but every negative limit passes through unchanged |
| SocialRoutes.MinusOneLimitPassesCap | mini_social_media/main.ts:204 | `?limit=-1` comes out of the written clamp as -1, for the post cap and the comment cap alike |
| SocialRoutes.NegativeCommentLimitListsEverything | mini_social_media/main.ts:386 | as written, `?limit=-1` on the comment route lists every comment on the post, past the cap of 100 |
| SocialRoutes.NegativeLimitListsEverything | mini_social_media/main.ts:204-208 | with the written clamp, `GET /posts?limit=-1` lists every post that has an author, however many |
| SocialRoutes.ClampLimit | mini_social_media/main.ts:204 | the corrected clamp: always between 1 and the cap, the default for missing, NaN and non-positive limits, otherwise the number capped |
| SocialRoutes.ClampAgreesWhenPositive | mini_social_media/main.ts:204 | the corrected clamp agrees with the written one on every limit that is missing, NaN or non-negative |
| SocialRoutes.OffsetOf | mini_social_media/main.ts:205 | `parseInt(q) \|\| 0`: 0 for a missing or NaN offset, the parsed number otherwise |
| SocialRoutes.UserProfileRoute | mini_social_media/main.ts:162-182 | 400 "Invalid user ID" exactly when `parseInt` of the path id is NaN, 404 "User not found" for an unknown user, 200 with that user's profile (public columns, no e-mail) otherwise; nothing changes |
| SocialRoutes.PostsRoute | mini_social_media/main.ts:202-213 | a page of at most 50 stored posts, nothing changes |
| SocialRoutes.CommentsRoute | mini_social_media/main.ts:373-397 | 400 exactly for a NaN post id; otherwise at most 100 comments (with the corrected clamp, see Left out) |
| SocialRoutes.UpdatePostRoute | mini_social_media/main.ts:257-286 | 400 for a NaN id and 404 when no owned post matches, both changing nothing; 200 only for an owned post |
| SocialRoutes.DeletePostRoute | mini_social_media/main.ts:288-314 | 400 for a NaN id; 404 exactly when the id parses but no owned post matches, changing nothing; after a 200 the post is gone |
| SocialRoutes.TogglePostLikeRoute | mini_social_media/main.ts:474-496 | 400 exactly for a NaN id or a post the service cannot find, changing nothing; a 200 reports the new like state |
| SocialRoutes.ToggleFollowRoute | mini_social_media/main.ts:525-546 | 400 exactly for a NaN id, a self-follow or an unknown user, changing nothing; a 200 reports the new follow state |
| SocialRoutes.SearchQuery | mini_social_media/main.ts:600-608 | an absent or empty `q` is refused with "Search query is required" before any search; any other query is passed on unchanged |
| ChatStore.SerializeChat | template/backend/db.ts:555-562 | a NULL tags column reads back as the empty list, stored tags as stored, and every other column is copied |
| ChatStore.GetChatById | template/backend/db.ts:381-384 | the serialized chat stored under that id, and nothing for an unknown id |
| ChatStore.GetChatByPlatformId | template/backend/db.ts:386-395 | finds a chat iff some chat holds the `(platform, platform_chat_id)` key, and then it is that chat (the key is unique) |
| ChatStore.PageBounds | template/backend/db.ts:429-436 | no LIMIT clause for an absent or zero limit; the limit as given otherwise; a non-zero offset only together with a non-zero limit |
| ChatStore.GetChatRows | template/backend/db.ts:397-439 | a `ChatStore.IsChatPage`: stored chats that satisfy every given filter (every requested tag stored, up to ASCII case as `LIKE` compares), newest first, exactly `Ordering.PageSize` of the matching chats under the `LIMIT`/`OFFSET` `getChats` appends, none twice in a valid store, and without an offset no newer matching chat left off; with no limit every matching chat |
| ChatStore.ChatPageCount | template/backend/db.ts:397-439 | the `getChats` page holds exactly as many chats as its `LIMIT`/`OFFSET` leave of the matching ones |
| ChatStore.ChatPageNewest | template/backend/db.ts:397-439 | without an offset the `getChats` page holds the newest matching chats |
| ChatStore.GetChats | template/backend/db.ts:438-439 | the rows of the listing, each serialized, in the same order |
| ChatStore.GetChatsListsAll | template/backend/db.ts:397-439 | with no filters the listing holds every stored chat exactly once |
| ChatStore.CreateChat | template/backend/db.ts:362-379 | fails iff the platform breaks the CHECK list or the key is taken, and then changes nothing; otherwise the store gains exactly the new row under the next id, keeps its invariants, and returns it |
| ChatStore.NewChatRow | template/backend/db.ts:362-379 | an empty URL is stored as NULL, both flags default to false, the message count starts at 0 and both timestamps are the insert time |
| ChatStore.Patched | template/backend/db.ts:442-465 | every column the update names takes the given value, the others keep theirs, `id` and `created_at` never change, and `updated_at` is the update time |
| ChatStore.UpdateChat | template/backend/db.ts:442-465 | an empty update or unknown id changes nothing; otherwise only that chat changes, to the patched row, and the statement fails exactly on a refused platform or a key another chat holds |
| ChatStore.MessagesOfInsert | template/backend/db.ts:244-254 | a message inserted under a fresh id joins exactly its own chat's messages |
| ChatStore.CreateMessage | template/backend/db.ts:471-488 | fails iff the role breaks the CHECK list; otherwise the row is stored under the next id and the trigger sets that chat's count to its number of messages, touching no other chat |
| ChatStore.CreateMessageCounts | template/backend/db.ts:244-254 | each successful insert raises the chat's number of messages by exactly one |
| ChatStore.DeleteMessagesByChat | template/backend/db.ts:506-508 | removes exactly the messages of that chat, keeps every other message and changes no chat |
| ChatStore.GetMessagesByChat | template/backend/db.ts:490-496 | exactly the chat's stored messages, oldest first, as many rows as the chat has messages and none twice in a valid store |
| ChatStore.MessageListCount | template/backend/db.ts:490-496 | the message list of a chat is as long as the chat's set of messages |
| ChatStore.GetChatWithMessages | template/backend/db.ts:498-504 | nothing iff the chat is unknown; otherwise the chat with all of its messages and no others, oldest first, one row per message |
| ChatStore.PatchOf | template/backend/db.ts:515-523 | the update an import makes always names the key columns, and names the optional ones exactly when present |
| ChatStore.NewRows | template/backend/db.ts:532-542 | one row per input, in order, under consecutive ids, naming the chat |
| ChatStore.InsertMessagesFrame | template/backend/db.ts:532-540 | the message loop only adds messages and changes no chat but the trigger's columns of its own |
| ChatStore.InsertMessagesRows | template/backend/db.ts:532-540 | the loop succeeds iff every role passes the CHECK, and then returns the inputs as rows, in order |
| ChatStore.InsertMessagesStored | template/backend/db.ts:532-540 | every row the loop returns is stored under its id |
| ChatStore.InsertMessagesCount | template/backend/db.ts:532-540 | a successful loop adds exactly one message per input, and once one was inserted the chat's count is its number of messages |
| ChatStore.Import | template/backend/db.ts:510-543 | an import, whichever branch it takes, keeps the store's invariants, including one chat per key |
| ChatStore.ImportNewResult | template/backend/db.ts:527-542 | a new key fails iff the platform or a role is refused, and otherwise returns the new chat and the inputs as rows |
| ChatStore.ImportNewChat | template/backend/db.ts:527-530 | a new key adds exactly one chat, under the next id and holding that key |
| ChatStore.ImportNewStored | template/backend/db.ts:532-542 | a new key's returned rows are all stored |
| ChatStore.ImportNewCount | template/backend/db.ts:527-542 | a new chat's count matches its number of messages once one was inserted |
| ChatStore.Cleared | template/backend/db.ts:519-523 | updating a stored key with the import data cannot fail, keeps the chat's id and leaves it with no messages |
| ChatStore.ReimportFrame | template/backend/db.ts:517-542 | a re-import touches only the chat it names and that chat's messages |
| ChatStore.ReimportResult | template/backend/db.ts:517-542 | a re-import fails iff a role is refused, and otherwise returns the chat under its own id and the inputs as rows |
| ChatStore.ReimportStored | template/backend/db.ts:517-542 | after a re-import the chat's messages are exactly the imported ones, all stored |
| ChatStore.ReimportCount | template/backend/db.ts:517-542 | the count after a re-import is the number of imported messages, except that with none inserted and no reset the old count stays |
| ChatStore.ImportFailsOnlyOnChecks | template/backend/db.ts:510-543 | an import fails exactly when the platform or some message role breaks a CHECK constraint |
| ChatStore.ImportKeepsKey | template/backend/db.ts:510-543 | after a successful import the reported chat is stored under its id and holds the imported key |
| ChatStore.ImportReturnsInputs | template/backend/db.ts:532-542 | the returned messages are the inputs, in order, each naming the reported chat |
| ChatStore.ImportStoresRows | template/backend/db.ts:532-542 | every returned message is stored under its id |
| ChatStore.ImportCountsMessages | template/backend/db.ts:532-542 | after a non-empty import the chat's `message_count` is its number of messages |
| ChatStore.ImportUpsertsStoredKey | template/backend/db.ts:513-525 | importing a stored key adds no chat, keeps the chat's id, and leaves it with exactly the imported messages |
| ChatStore.ImportAddsNewKey | template/backend/db.ts:526-530 | importing a new key adds exactly one chat, under the next id, and its returned snapshot still reports 0 messages |
| ChatStore.EmptyReimportKeepsStaleCount | template/backend/db.ts:506-523 | as written, re-importing with no messages leaves a positive count on a chat that has no messages |
| ChatStore.ImportChatCountIsExact | template/backend/db.ts:517-542 | when the caller's row carries `message_count: 0`, as the scrapers' rows do, a re-imported chat's count is exactly its number of messages, which is the number imported |
| ChatStore.RowByKey | template/backend/db.ts:386-393 | the row found holds the key asked for, and nothing is found only when no chat holds it |
| ChatStore.FoundIsStored | template/backend/db.ts:386-393 | the row found for a key is the chat stored under its own id |
| ChatStore.KeyHolder | template/backend/db.ts:213 | the stored chat holding a key is the one found for it, since the key is unique |
| ChatStore.InsertMessages | template/backend/db.ts:532-540 | the message loop keeps the store's invariants and adds no chat |
| ChatStore.ImportNew | template/backend/db.ts:526-542 | the branch for a new key keeps the store's invariants |
| ChatStore.Reimport | template/backend/db.ts:515-542 | the branch for a stored key keeps the store's invariants |
| ChatStore.CreateChatWithMessages | template/backend/db.ts:510-543 | the import given an object of its declared type (no `message_count`) keeps the store's invariants, one chat per key included |
| ChatStore.ImportChat | template/backend/db.ts:506-543 | the import given a full row with `message_count: 0`, which `updateChat` writes before the old messages are deleted, keeps the store's invariants |
| ChatStore.ReimportCountsMessages | template/backend/db.ts:517-542 | after a non-empty re-import the chat keeps its id and its count is its number of messages |
| ChatStore.ImportNewCountsMessages | template/backend/db.ts:527-542 | after a non-empty import of a new key the new chat's count is its number of messages |
| ChatService.RegisterAll | chat_aggregator/backend/chat.ts:25-45 | registering accounts one by one keeps the registry well formed |
| ChatService.RegisterAllThrowsIffUnsupported | chat_aggregator/backend/chat.ts:28-43 | the loop throws exactly when some account is on a platform without a scraper |
| ChatService.RegisterAllKeeps | chat_aggregator/backend/chat.ts:25-45 | a key registered before the loop is still registered after it, whether or not it throws |
| ChatService.RegisterAllLastWins | chat_aggregator/backend/chat.ts:26-44 | after a load that does not throw, each key holds the entry of the last account with that `platform-account_name`, and keys no account names keep their entries |
| ChatService.FirstUnsupported | chat_aggregator/backend/chat.ts:28-43 | the position of the first account on an unsupported platform: every account before it is supported |
| ChatService.RegisterAllThrowsAfterPrefix | chat_aggregator/backend/chat.ts:25-45 | a load that throws has registered exactly the accounts before the first unsupported one, and its message names that platform |
| ChatService.LoadUserSources | chat_aggregator/backend/chat.ts:23-46 | loading a user's accounts keeps the registry well formed |
| ChatService.LoadThrowsIffUnsupported | chat_aggregator/backend/chat.ts:23-46 | loading throws exactly when one of that user's accounts is on an unsupported platform |
| ChatService.LoadKeepsSources | chat_aggregator/backend/chat.ts:23-46 | loading never drops a source that was already registered |
| ChatService.RegisterSource | chat_aggregator/backend/chat.ts:49-52 | the source is filed under `platform-accountId` and no other key changes |
| ChatService.SyncChat | chat_aggregator/backend/chat.ts:71-83 | each listed chat ends as exactly one success or one error, and it is a success exactly when its messages were fetched and the platform and every role pass the store's CHECK constraints |
| ChatService.SyncChats | chat_aggregator/backend/chat.ts:71-83 | the inner loop keeps the store valid, only appends errors, and closes nothing |
| ChatService.SyncChatsAccounts | chat_aggregator/backend/chat.ts:71-83 | the inner loop adds one success or one error per listed chat |
| ChatService.SyncSource | chat_aggregator/backend/chat.ts:62-89 | each source is closed exactly once, whatever happened, and its errors are appended after the earlier ones |
| ChatService.UnavailableAddsOneError | chat_aggregator/backend/chat.ts:64-67 | an unavailable source adds exactly the one "Source not available" error, no success and no write |
| ChatService.ListingAccountsForEveryChat | chat_aggregator/backend/chat.ts:69-83 | a source that lists chats accounts for each one once, as a success or an error |
| ChatService.SyncAll | chat_aggregator/backend/chat.ts:62-89 | the outer loop closes every source in registry order and never removes an error |
| ChatService.SyncAllSources | chat_aggregator/backend/chat.ts:59-92 | the loop over the registry computes the fold over its keys in insertion order, and closes every registered source in that order |
| ChatService.CreateChat | chat_aggregator/backend/chat.ts:95-101 | fails exactly when the store's insert fails; a created chat is stored and returned with both flags false and the given title and key |
| ChatService.BreakdownOf | chat_aggregator/backend/chat.ts:159-161 | the per-platform counts form a well-formed ordered map |
| ChatService.BreakdownCounts | chat_aggregator/backend/chat.ts:159-161 | each platform's entry is the number of chats on that platform, and platforms with no chat have no entry |
| ChatService.BreakdownSum | chat_aggregator/backend/chat.ts:159-167 | the counts of the breakdown add up to the number of chats |
| ChatService.OnPlatformPositive | chat_aggregator/backend/chat.ts:159-161 | a platform's count is positive iff some chat is on it |
| ChatService.BreakdownPlatforms | chat_aggregator/backend/chat.ts:159-161 | the breakdown has an entry for a platform iff some chat is on it |
| ChatService.FavoritesAtMostAll | chat_aggregator/backend/chat.ts:162 | the favourite count never exceeds the number of chats |
| ChatService.StatsOf | chat_aggregator/backend/chat.ts:155-171 | the totals are the number of chats and the sum of their message counts; the breakdown counts each platform and sums to the total; the favourite count is the number of favourites and at most the total |
| ChatService.GetStats | chat_aggregator/backend/chat.ts:147-172 | the statistics of every stored chat: the total is the number of stored chats, and the breakdown, favourites and message total are those of the full listing |
| PlatformAccounts.CreatePlatformAccount | template/backend/db.ts:572-585 | fails, changing nothing, iff another row already has that user, platform and account name; otherwise exactly the new row is added under the next id and returned as read back |
| PlatformAccounts.GetPlatformAccountsByUserId | template/backend/db.ts:588-599 | every listed account belongs to that user and is stored, and every stored account of that user is listed |
| PlatformAccounts.AccountsOfUser | template/backend/db.ts:588-599 | the listing holds every account of that user and none of anyone else's |
| PlatformAccounts.OfUserKeeps | template/backend/db.ts:591-594 | `WHERE user_id = ?` keeps exactly the rows of that user |
| PlatformAccounts.GetPlatformAccountById | template/backend/db.ts:602-608 | the row stored under that id, and nothing for an unknown id |
| PlatformAccounts.DeletePlatformAccount | template/backend/db.ts:641-643 | removes exactly the row with that id and keeps every other row; an absent id is not an error |
| PlatformAccounts.Assignments | template/backend/db.ts:619-629 | the SET list is empty iff no field is given, names only `account_name` and `cookies` (never `id`, `user_id` or `created_at`), and binds NULL for falsy cookies |
| PlatformAccounts.UnknownColumn | template/backend/db.ts:634-637 | reports a column the table lacks iff the SET list names one, and the one reported is named in it |
| PlatformAccounts.Assign | template/backend/db.ts:634-637 | assignments never change `id`, `user_id`, `platform` or `created_at` |
| PlatformAccounts.RunUpdate | template/backend/db.ts:634-637 | a SET list naming a missing column fails before anything runs; an unknown id changes nothing; a success keeps every other row and the table's invariants |
| PlatformAccounts.UpdatePlatformAccountAsWritten | template/backend/db.ts:611-638 | an update naming no field issues no statement and changes nothing |
| PlatformAccounts.AsWrittenUpdateAlwaysFails | template/backend/db.ts:629-637 | as written, every update that names a field fails with "no such column: updated_at", whatever the row and values |
| PlatformAccounts.UnknownColumnAfter | template/backend/db.ts:631 | after only known columns, an appended unknown column is the one reported |
| PlatformAccounts.UpdatePlatformAccount | template/backend/db.ts:611-637 | with the missing column left out: an empty update or unknown id changes nothing; a success writes exactly the given name and cookies to that row and changes nothing else; it fails iff the cookies are falsy or another row holds the new label |
| PlatformAccounts.AssignUpdates | template/backend/db.ts:619-627 | without a NULL cookie text, the SET list writes exactly the given fields |
| AccountRoutes.ListAccountsRoute | template/backend/main.ts:315-330 | answers 200 with one summary per account of the caller and none of anyone else's; no summary carries cookies |
| AccountRoutes.Summaries | template/backend/main.ts:320-325 | one summary per account, and only summaries of those accounts |
| AccountRoutes.CheckCookies | template/backend/main.ts:363-370 | passes iff every cookie has a truthy name and value; a throw happens only when some cookie is `null`, and carries the message "Cannot read properties of null (reading 'name')"; which fault wins is stated by `AccountRoutes.CheckCookiesStopsAtFirst` |
| AccountRoutes.CheckCookiesStopsAtFirst | template/backend/main.ts:363-370 | the loop stops at the first cookie that is not complete, and that cookie alone decides: the thrown TypeError exactly when it is `null`, a missing field (400) otherwise, whatever follows it |
| AccountRoutes.MissingFieldBeforeNull | template/backend/main.ts:363-370 | `[{"name": ""}, null]` stops at the first cookie with a missing field; the `null` behind it is never read |
| AccountRoutes.Reload | template/backend/main.ts:375 | the sources are reloaded after a write; the answer is the success status unless loading throws, and then 500 |
| AccountRoutes.CreateAccountRoute | template/backend/main.ts:333-396 | the create handler keeps the table and the registry well formed |
| AccountRoutes.CreateRefusesBadBody | template/backend/main.ts:339-395 | a missing field, an unknown platform, cookies that are not an array, or an incomplete cookie is refused with 400 (500 for a `null` cookie, whose body is the TypeError's message, sent as is) and writes nothing |
| AccountRoutes.CreateRefusesTakenName | template/backend/main.ts:372-391 | an accepted body whose label is taken is answered 400 "already exists" and writes nothing |
| AccountRoutes.CreateStoresAccount | template/backend/main.ts:333-396 | a 400 writes nothing; a 201 means the body was accepted, the new row was added under the next id, and the answer is its summary; a 500 after an accepted body still leaves the row stored |
| AccountRoutes.InsertAccount | template/backend/main.ts:372-395 | the write half answers 201, 400 or 500, and 400 exactly when the label is taken, with nothing written |
| AccountRoutes.InsertAccountStores | template/backend/main.ts:372-375 | unless the label is taken, the store's insert went through, whatever the reload does |
| AccountRoutes.InsertAccountAnswers | template/backend/main.ts:377-385 | a 201 answers with the summary of the new row |
| AccountRoutes.CreateRejection | template/backend/main.ts:339-395 | the body passes iff it has all fields, a supported platform and an array of complete cookies; each refusal is a 400, or a 500 only for a `null` cookie, answering "Cannot read properties of null (reading 'name')" |
| AccountRoutes.UpdatesOf | template/backend/main.ts:414-434 | the update names the account name exactly when it is truthy, and the cookies exactly when they are truthy |
| AccountRoutes.UpdateAccountRoute | template/backend/main.ts:399-445 | an id that is missing or someone else's is a 404 that changes nothing; a 400 changes nothing; a 200 means the caller owns the account and the store applied exactly the truthy fields |
| AccountRoutes.UpdateRouteFailsOnlyOnLabel | template/backend/main.ts:414-436 | the store refuses a route's update iff another account of the caller's on that platform already has the new name |
| AccountRoutes.DeleteAccountRoute | template/backend/main.ts:448-471 | an id that is missing or someone else's is a 404 that changes nothing; otherwise exactly that row is deleted |
| AccountRoutes.CreateSucceedsOnFreshLabel | template/backend/main.ts:333-385 | while every stored account is on a supported platform, an accepted body with a fresh label is answered 201 and that stays true |
| AccountRoutes.UpdateDeleteKeepSupported | template/backend/main.ts:399-471 | updates never change a platform and deletes only remove rows, so every stored account stays on a supported platform |
| ChatRoutes.FlagOf | template/backend/main.ts:166-175 | "true" and "false" give the flag; anything else leaves the filter out |
| ChatRoutes.FlagRoundTrip | template/backend/main.ts:166-175 | a flag written into the query reads back as itself |
| ChatRoutes.TagsOf | template/backend/main.ts:176 | an empty or absent `tags` asks for nothing; otherwise comma-free pieces that join back to the text |
| ChatRoutes.PageNumber | template/backend/main.ts:160-178 | an absent value gives the default; a present one is what `parseInt` makes of it |
| ChatRoutes.PageDefaultsAreParsed | template/backend/main.ts:160-178 | the numeric defaults are what `parseInt` makes of the default texts "50" and "0" |
| ChatRoutes.FiltersOf | template/backend/main.ts:164-179 | the filters carry the platform as given and the flags and tags as read above |
| ChatRoutes.DefaultPage | template/backend/main.ts:160-178 | without `limit` and `offset` the listing has 50 chats, or every matching chat when there are fewer, and no matching chat newer than a listed one is left off: the 50 newest |
| ChatRoutes.NumericPage | template/backend/main.ts:177-178 | a number written into `limit` or `offset` arrives as that number |
| ChatRoutes.NonNumericLimitUnbounded | template/backend/main.ts:177 | a `limit` with no digit is NaN, and a NaN limit lists every matching chat |
| ChatRoutes.ListChatsRoute | template/backend/main.ts:181-182 | the serialized `getChats` page: exactly `Ordering.PageSize` of the matching chats under the parsed limit and offset, in the page's order; at most 50 when no limit is given |
| ChatStore.TagLikeFoldsCase | template/backend/db.ts:420-425 | a tag asked for as stored matches, and so does one in other ASCII case: `AI` finds a chat tagged `ai` |
| ChatRoutes.ListedChatsMatch | template/backend/main.ts:164-182 | every listed chat agrees with the flags and the platform asked for and carries each tag asked for, up to ASCII case |
| CookieForm.CookieJson | chat_aggregator/ui/components/sources/PlatformAccountForm.tsx:61-66 | the pushed object has exactly the fields name, value, domain and path, holding the cookie's texts |
| CookieForm.PlatformLabel | chat_aggregator/ui/components/sources/PlatformAccountForm.tsx:28-33 | a label is found exactly for the four listed platforms |
| CookieForm.DomainIsPlatform | chat_aggregator/ui/components/sources/PlatformAccountForm.tsx:64 | for each of the four platforms the cookie domain is `.` + the platform's name + `.com` |
| CookieForm.LineCookie | chat_aggregator/ui/components/sources/PlatformAccountForm.tsx:56-67 | a cookie read from a line has the platform's domain and the path `/` |
| CookieForm.LineCookieShape | chat_aggregator/ui/components/sources/PlatformAccountForm.tsx:56-63 | a line gives a cookie exactly when its trimmed text has an `=` that is neither first nor last; the name is the trimmed text before the first `=` and the value the trimmed rest, `=` included |
| CookieForm.LineCookieFilled | chat_aggregator/ui/components/sources/PlatformAccountForm.tsx:58-63 | a cookie read from a line has a non-empty name and value, neither padded with whitespace |
| CookieForm.HalvesFilled | chat_aggregator/ui/components/sources/PlatformAccountForm.tsx:58-60 | cutting trimmed text at an inner `=` leaves two halves that are non-blank |
| CookieForm.NonBlankLines | chat_aggregator/ui/components/sources/PlatformAccountForm.tsx:52 | the filter keeps exactly the lines whose trim is not empty |
| CookieForm.Reader | chat_aggregator/ui/components/sources/PlatformAccountForm.tsx:55-68 | the loop body reads each line as the line format says |
| CookieForm.LineCookiesFilled | chat_aggregator/ui/components/sources/PlatformAccountForm.tsx:55-69 | every cookie of the loop has a non-empty name and value, the platform's domain and the path `/` |
| CookieForm.Fallback | chat_aggregator/ui/components/sources/PlatformAccountForm.tsx:50-76 | the fallback either yields at least one cookie or fails with "No valid cookies found" |
| CookieForm.CookiesJson | chat_aggregator/ui/components/sources/PlatformAccountForm.tsx:61-66 | one object per cookie, in order |
| CookieForm.ParseCookies | chat_aggregator/ui/components/sources/PlatformAccountForm.tsx:42-77 | text that parses to a JSON array gives its items unchecked; any other text succeeds exactly when the line fallback finds a cookie, giving those cookies as JSON, and otherwise fails with "No valid cookies found" |
| CookieForm.ParseCookiesBranches | chat_aggregator/ui/components/sources/PlatformAccountForm.tsx:42-77 | text that parses to an array is returned unchanged; text that parses to anything else, or not at all, gives exactly what the line fallback gives |
| CookieForm.FallbackPassesCheck | chat_aggregator/ui/components/sources/PlatformAccountForm.tsx:98-102 | every cookie the line format makes passes the form's name-and-value check and the server's |
| CookieForm.RenderLines | chat_aggregator/ui/components/sources/PlatformAccountForm.tsx:52-59 | the inverse of the line format read there: one `name=value` line per cookie, in order, the renderer `CookieForm.FallbackRoundTrip` reads back |
| CookieForm.RenderLineParts | chat_aggregator/ui/components/sources/PlatformAccountForm.tsx:52-59 | the line of a writable cookie needs no trimming and its first `=` ends the name |
| CookieForm.TrimUntouched | chat_aggregator/ui/components/sources/PlatformAccountForm.tsx:56 | text with no whitespace at either end is its own trim |
| CookieForm.FirstSeparator | chat_aggregator/ui/components/sources/PlatformAccountForm.tsx:58 | in `name=value` with no `=` in the name, the first `=` is the one after the name |
| CookieForm.LineRoundTrip | chat_aggregator/ui/components/sources/PlatformAccountForm.tsx:56-66 | the line written for a writable cookie reads back as that cookie, and is not blank |
| CookieForm.SplitJoin | chat_aggregator/ui/components/sources/PlatformAccountForm.tsx:52 | splitting newline-joined lines that hold no newline gives the lines back |
| CookieForm.NonBlankKeepsAll | chat_aggregator/ui/components/sources/PlatformAccountForm.tsx:52 | lines that are all non-blank pass the filter whole |
| CookieForm.CollectEach | chat_aggregator/ui/components/sources/PlatformAccountForm.tsx:55-69 | when each line reads as the cookie at its position, the loop returns exactly those cookies |
| CookieForm.FallbackRoundTrip | chat_aggregator/ui/components/sources/PlatformAccountForm.tsx:50-76 | pasting the lines of writable cookies with the platform's domain and path `/` gives back exactly those cookies, in order |
| CookieForm.HandleSubmit | chat_aggregator/ui/components/sources/PlatformAccountForm.tsx:79-117 | a blank account name, then blank cookie text, is refused before parsing; a request is built only for non-blank inputs and only when every parsed cookie has a name and a value |
| CookieForm.RequestFor | chat_aggregator/ui/components/sources/PlatformAccountForm.tsx:104-117 | editing sends a PUT with no platform; creating sends a POST to the collection with the platform; either way the trimmed name and the cookies |
| CookieForm.EditTargetsAccount | chat_aggregator/ui/components/sources/PlatformAccountForm.tsx:104-106 | the PUT url's last segment reads back as the id of the account being edited |
| CookieForm.SubmittedCreateIsAccepted | chat_aggregator/ui/components/sources/PlatformAccountForm.tsx:79-117 | a new account the form lets through on one of the four platforms passes every check of the server's create handler |
| CookieForm.RequestAccepted | chat_aggregator/ui/components/sources/PlatformAccountForm.tsx:110-117 | a POST body with a supported platform, a non-blank name and complete cookies is one the server accepts |
| Schemas.Str | chat_aggregator/backend/schema.ts:8-9 | `z.string().min().max()` accepts exactly a string value whose UTF-16 length is within the bounds, and returns it unchanged |
| Schemas.OptStr | mini_social_media/schema.ts:36-38 | `.optional()` accepts a missing key as absent; a present value must pass the string check |
| Schemas.OptUrl | mini_social_media/schema.ts:37 | an optional URL is absent or a string the URL check accepts |
| Schemas.OneOf | chat_aggregator/backend/schema.ts:45 | `z.enum` accepts exactly a string among the options |
| Schemas.OptBool | chat_aggregator/backend/schema.ts:62-63 | an optional flag is absent or a JSON boolean |
| Schemas.Texts | chat_aggregator/backend/schema.ts:48 | reading an array of strings gives each item's text, in order |
| Schemas.Strs | chat_aggregator/backend/schema.ts:48 | writing texts as JSON gives one string item per text, in order |
| Schemas.OptTags | chat_aggregator/backend/schema.ts:48 | optional tags are absent or an array of at most ten strings, read back in order |
| Schemas.ParseLogin | chat_aggregator/backend/schema.ts:7-10 | a login is accepted iff the body is an object with a username of 3 to 50 and a password of 6 to 100 UTF-16 units |
| Schemas.LoginRoundTrip | mini_social_media/schema.ts:7-10 | a login within bounds, sent as JSON, parses back to itself |
| Schemas.ParseRegister | template/backend/schema.ts:12-16 | an accepted registration has the login bounds and the e-mail address the body holds |
| Schemas.RegisterRoundTrip | template/backend/schema.ts:12-16 | a registration within bounds, sent as JSON, parses back to itself |
| Schemas.RegisterBodyLogsIn | chat_aggregator/backend/schema.ts:7-16 | every body registration accepts is also a valid login, with the same credentials |
| Schemas.LoginIgnoresOtherKeys | chat_aggregator/backend/schema.ts:7-10 | a key the login schema does not name never changes its answer |
| Schemas.UsernameCountsUnits | chat_aggregator/backend/schema.ts:8 | the bounds count UTF-16 units: a username of characters outside the Basic Multilingual Plane may have at most 25 of them |
| Schemas.AstralLength | chat_aggregator/backend/schema.ts:8 | each character outside the Basic Multilingual Plane counts as two units |
| Schemas.ParseCreateChat | chat_aggregator/backend/schema.ts:43-49 | an accepted chat has a title of 1 to 200 units, one of the five platforms, a chat id of 1 to 100 units, a URL when one is given and at most ten tags |
| Schemas.CreateChatRoundTrip | chat_aggregator/backend/schema.ts:43-49 | a chat that fits the schema, sent as JSON, parses back to itself |
| Schemas.ParseCreateMessage | chat_aggregator/backend/schema.ts:51-57 | an accepted message has a positive chat id, one of the three roles and non-empty content, and its body carries no timestamp (no JSON value is a `Date`) |
| Schemas.CreateMessageRoundTrip | chat_aggregator/backend/schema.ts:51-57 | a message that fits the schema, sent as JSON, parses back to itself |
| Schemas.ParseMessageRoute | template/backend/main.ts:264-268 | the chat id of a message the route accepts is the positive id from the path, whatever the body says |
| Schemas.ParseUpdateChat | chat_aggregator/backend/schema.ts:59-64 | every field is optional, so an empty object is an empty update; a given title is 1 to 200 units and given tags number at most ten |
| Schemas.CreateBodyIsUpdate | chat_aggregator/backend/schema.ts:43-64 | a valid create body with no flags in it is also a valid update, of its title and tags |
| Schemas.ParseCreatePost | mini_social_media/schema.ts:21-24 | an accepted post has content of 1 to 1000 units and, when given, an image URL the URL check accepts |
| Schemas.CreatePostRoundTrip | template/backend/schema.ts:18-21 | a post that fits the schema, sent as JSON, parses back to itself |
| Schemas.ParseUpdatePost | mini_social_media/schema.ts:26-29 | given content has the create bounds; the image is cleared exactly when `image_url` is `null`, and a new image is a URL |
| Schemas.CreatePostBodyIsUpdate | mini_social_media/schema.ts:21-29 | a valid create body is also a valid update, setting the fields it names |
| Schemas.NullImageOnlyOnUpdate | template/backend/schema.ts:18-26 | `null` for the image is refused on create, and on update it means "remove the image" |
| Schemas.ParseCreateComment | mini_social_media/schema.ts:31-33 | a comment is accepted iff the body is an object whose content is 1 to 500 units |
| Schemas.CommentRoundTrip | template/backend/schema.ts:28-30 | a comment within bounds, sent as JSON, parses back to itself |
| Schemas.CommentFitsPost | mini_social_media/schema.ts:21-33 | a body the comment schema accepts, with no `image_url` key, is also accepted by the post schema, as a post without an image |
| Schemas.ParseUpdateProfile | mini_social_media/schema.ts:35-39 | every field is optional, so an empty object is an empty update; a given bio is at most 500 units, an avatar is a URL, and a display name is 1 to 100 units |
| Schemas.UpdateProfileRoundTrip | template/backend/schema.ts:32-36 | a profile update that fits the schema, sent as JSON, parses back to itself |
| Schemas.EmptyBioButNotEmptyName | mini_social_media/schema.ts:36-38 | an empty bio is accepted, and an empty display name is refused |
| JsText.TrimStart | chat_aggregator/ui/components/sources/PlatformAccountForm.tsx:56 | removes exactly the longest whitespace prefix: what is left is a suffix that does not start with whitespace |
| JsText.TrimEnd | chat_aggregator/ui/components/sources/PlatformAccountForm.tsx:56 | removes exactly the longest whitespace suffix: what is left is a prefix that does not end with whitespace |
| JsText.Trim | chat_aggregator/ui/components/sources/PlatformAccountForm.tsx:52-56 | an infix of the text that neither starts nor ends with whitespace, and is empty exactly for blank text |
| JsText.TrimBlank | chat_aggregator/ui/components/sources/PlatformAccountForm.tsx:86-90 | the trim is empty iff the text is all whitespace, which is when `line.trim()` is falsy |
| JsText.TrimNonEmpty | chat_aggregator/ui/components/sources/PlatformAccountForm.tsx:60-62 | text with any non-whitespace character does not trim to nothing |
| JsText.IndexOf | chat_aggregator/ui/components/sources/PlatformAccountForm.tsx:57-58 | the position of the first occurrence, with no occurrence before it |
| JsText.Split | template/backend/main.ts:176 | `split` on one character gives at least one piece, and no piece contains the separator |
| JsText.JoinSplit | template/backend/main.ts:176 | joining the pieces of a split with the same separator gives back the text |
| JsText.SplitAtFirst | chat_aggregator/ui/components/sources/PlatformAccountForm.tsx:58-59 | `const [name, ...rest] = t.split('=')` then `rest.join('=')`: the name is the text before the first `=`, and the value everything after it |
| JsText.Utf16Length | chat_aggregator/backend/schema.ts:8-9 | JavaScript's length is between one and two units per character |
| JsText.Utf16LengthBmp | chat_aggregator/backend/schema.ts:8-9 | for Basic Multilingual Plane text the length is the number of characters |
| JsText.ToLowerAscii | chat_aggregator/ui/components/sources/PlatformAccountForm.tsx:64 | `toLowerCase` on ASCII: capitals become small letters and every other character stays |
| JsText.DigitRun | template/backend/main.ts:177-178 | the longest prefix of digits of the radix |
| JsText.NatToString | template/backend/main.ts:177-178 | decimal text without leading zeros |
| JsText.NatToStringValue | template/backend/main.ts:177-178 | the decimal text of a number has that number as its value |
| JsText.ParseUnsignedOfNatToString | template/backend/main.ts:177-178 | the decimal text of a natural number reads back as that number |
| JsText.ParseIntOfIntToString | template/backend/main.ts:177-178 | `parseInt` of the decimal text of any integer is that integer |
| JsText.ParseFifty | template/backend/main.ts:160 | `parseInt("50")` is 50 |
| JsText.ParseZero | template/backend/main.ts:161 | `parseInt("0")` is 0 |
| JsText.ParseIntNoDigits | template/backend/main.ts:177 | text without a decimal digit is NaN to `parseInt` |
| Json.Member | template/backend/main.ts:363-364 | reading a property throws exactly on `null`, with the message "Cannot read properties of null (reading '<key>')", and on an object gives the field or `undefined` |
| InsertionOrder.EmptyMap | chat_aggregator/backend/chat.ts:18-19 | a new `Map` holds no key |
| InsertionOrder.Get | chat_aggregator/backend/chat.ts:18-19 | a lookup finds a value exactly for a stored key |
| InsertionOrder.Set | chat_aggregator/backend/chat.ts:44 | `Map.set` gives the key its value and changes no other key; a new key goes last in iteration order, and an old one keeps its place |
| InsertionOrder.SumOverUpdate | chat_aggregator/backend/chat.ts:160-161 | raising one listed key's value raises the sum by as much |
| InsertionOrder.SumOverAppend | chat_aggregator/backend/chat.ts:160-161 | appending a key adds its value to the sum |
| InsertionOrder.SumOverIgnores | chat_aggregator/backend/chat.ts:160-161 | a key that is not listed does not count in the sum |
| InsertionOrder.Bump | chat_aggregator/backend/chat.ts:160-161 | `(m[k] \|\| 0) + 1` counts one more `k` and changes no other key |
| InsertionOrder.BumpSum | chat_aggregator/backend/chat.ts:160-161 | each bump adds exactly one to the total |
| Timestamps.PadOrder | mini_social_media/db.ts:482-492 | zero-padded numbers of one width compare as text exactly as the numbers do |
| Timestamps.TextLessConcat | mini_social_media/db.ts:457 | comparing texts whose heads are equally long compares the heads first |
| Timestamps.FieldFirst | mini_social_media/db.ts:491-492 | a padded field followed by more text decides the comparison unless the fields are equal |
| Timestamps.SeparatorSkipped | mini_social_media/db.ts:491-492 | a shared separator character does not change the comparison |
| Timestamps.IsoTimeOrder | mini_social_media/db.ts:491-492 | on one date, ISO time texts compare as the times do |
| Timestamps.IsoOrder | mini_social_media/db.ts:489-494 | ISO texts compare exactly as the instants they print, so the token cleanup's bound is sound |
| Timestamps.CorrectedSessionLive | mini_social_media/db.ts:444-461 | a session is live iff now is before its expiry, with both sides in ISO text |
| Timestamps.DateText | mini_social_media/db.ts:451-457 | the date part both formats start with is ten characters long |
| Timestamps.SqlNowSplit | mini_social_media/db.ts:457 | `datetime('now')` is the date, a space, then the time |
| Timestamps.IsoSplit | mini_social_media/db.ts:451 | `toISOString()` is the date, a `T`, then the time |
| Timestamps.AsWrittenSameDayAlwaysLive | mini_social_media/db.ts:451-469 | as written, an expiry on the current UTC date reads as still ahead, whatever its time, so `getSession` returns it and the sweep keeps it |
| Timestamps.ExpiredSessionStillLive | mini_social_media/db.ts:451-457 | a session that expired two hours ago is still returned as written |

## Left out

- Authentication: the JWT, session and auth services and the request middleware (auth.ts, jwt.ts, session.ts) are not part of this model. Their source is not among the files modelled; only the credential-store calls they make are modelled.
- Password hashing, cookie attributes and the environment configuration, for the same reason.
- `JSON.stringify`/`JSON.parse` of the `tags`, `cookies` and `metadata` columns: the model keeps the parsed value. In the cookie form, `JSON.parse` is a parameter.
- The URL and e-mail format checks of zod (`z.url()`, `z.email()`): parameters `isUrl` and `isEmail`, not a model of their grammars.
- Non-integer JSON numbers: `Json` numbers are integers, so `z.number().int()` always holds for them.
- A repeated query parameter, which Express turns into an array: every query parameter is text or absent.
- AccountRoutes.CreateAccountRoute, AccountRoutes.UpdateAccountRoute: the account name is taken as text (`AccountRoutes.UpdatesOf` reads it so for the update, template/backend/main.ts:414-434). A non-string `account_name` in the JSON body is not modelled.
- ChatStore.CreateChatWithMessages: the third argument the chat service passes (the account id) is ignored by the store, and so by the model.
- ChatService: the pass-through methods `getChats`, `getChatById`, `getChatWithMessages`, `updateChat`, `deleteChat`, `searchChats` and `createMessage` only forward to the store. They are modelled there, except `deleteChat` and `searchChats`.
- ChatService: the `timestamp || new Date()` default of `createMessage`, which reads the clock.
- ChatService: `getRegisteredSources`, which only lists the registry's values.
- The scrapers (`ChatGPTSource` and the others): a source is modelled by what it answers (`ChatService.Behaviour`), not by the browser automation behind it. That includes `close()`: the model's `close` always succeeds. As written, a `close()` that throws in the `finally` of chat_aggregator/backend/chat.ts:86-88 rejects `syncAllSources` as a whole.
- ChatService.SyncChat: a rejected INSERT is recorded with an abbreviated SQLite message (`ChatService.SqlErrorText`), not the driver's full text.
- AccountRoutes.UpdateAccountRoute: writes through the corrected `PlatformAccounts.UpdatePlatformAccount` (see Findings). With the as-written update every such request is a 500.
- SocialRoutes.PostsRoute: uses the corrected `SocialRoutes.ClampLimit` (see Findings). The as-written clamp is `SocialRoutes.PostLimitAsWritten`.
- SocialRoutes.CommentsRoute: uses the corrected `SocialRoutes.ClampLimit` with the comment default 50 and cap 100 (see Findings). As written, `?limit=-1` lists every comment (`SocialRoutes.NegativeCommentLimitListsEverything`), so "at most 100" holds only for the corrected clamp.
- PlatformAccounts.GetPlatformAccountsByUserId: the query has no `ORDER BY`, so the row order is whatever SQLite's plan gives (likely the order of the `UNIQUE (user_id, platform, account_name)` index). The model uses id order. The order-dependent facts of `ChatService.LoadUserSources` (which key a later account overwrites, where a throwing registration stops) hold relative to that order.
- CredentialStore.CleanupInvisible: holds under the integer clock only. As written, mini_social_media/db.ts:476 compares ISO text with `datetime('now')` while the sweep compares ISO with ISO. A token that expired earlier the same UTC day is reported revoked until the sweep deletes it, so the sweep changes the answer.
- CredentialStore: expiry comparisons use the integer clock, that is, the corrected ordering (see Findings). The text comparison as written is in `Timestamps`.
- The chat schemas: template/backend/main.ts uses chat schemas that template/backend/schema.ts does not define. They are modelled from chat_aggregator/backend/schema.ts.
- `searchChats` and `deleteChat` of template/backend/db.ts: the `LIKE` search (SQL pattern matching) and the cascade delete are not modelled.
- ChatStore.GetChatRows, ChatRoutes.ListChatsRoute, ChatRoutes.ListedChatsMatch: the `%"tag"%` `LIKE` test of `getChats` is modelled as "some stored tag equals the asked one up to ASCII case" (`ChatStore.TagLike`), which is how `LIKE` compares without `PRAGMA case_sensitive_like`. A tag containing `"`, `\`, `%` or `_` is treated as a plain tag, although in the program the JSON escaping and the wildcards change what it matches.
- Ordering.SortBy, Ordering.PagesJoin, Ordering.SelectPagesJoin, SocialListings.ListPostsPagesJoin, SocialListings.CommentPagesJoin, SocialListings.FollowerPagesJoin, SocialListings.FollowingPagesJoin: rows with equal keys are taken in one fixed order, ascending by primary key. The listings order on a timestamp alone (mini_social_media/db.ts:608, 658, 709, 798, 969, 1002). It is a second-resolution `CURRENT_TIMESTAMP`, so ties are common, and SQLite leaves the order of tied rows unspecified, possibly different between two queries. The join lemmas hold for the model's order only; in the program a row tied across a page boundary can be skipped or shown twice.
- SocialListings: the `COUNT(*)` subqueries of the listings are modelled as set sizes.
- SocialStore.ViewPost, SocialStore.GetPost, SocialStore.ViewComment and the listings built on them: a view carries the author's whole `User` row. The SQL selects only `username`, `display_name` and `avatar_url` of the author (mini_social_media/db.ts:512-520), so the model's views hold more than the response does (the e-mail included).
- The React state, `fetch` and the response handling of `handleSubmit`, and the Express request and response plumbing.
- `getUserByUsername`, `createUser` and the other user-account methods used only by the authentication services.

## Findings

| source | as written | input that shows it | evidently intended | confidence | as-written member | corrected member |
|---|---|---|---|---|---|---|
| template/backend/db.ts:339-345 | `isTokenRevoked` selects revocations with `expires_at < datetime('now')` | a token revoked with an expiry one hour ahead is reported not revoked; on the integer clock it is reported revoked once that hour has passed, and with the ISO text compared as written only once the UTC date is past the expiry's date | `expires_at > now`, as in mini_social_media/db.ts:474-480: revoked until its expiry | high, not executed | CredentialStore.TemplateRevocationInverted | CredentialStore.RevokedUntilExpiry |
| template/backend/db.ts:629-637 | every non-empty update appends `updated_at = CURRENT_TIMESTAMP`, but `platform_accounts` (template/backend/db.ts:231-242) has no such column | `updatePlatformAccount(1, { account_name: "x" })` fails with "no such column: updated_at" | write only the given fields | high, not executed | PlatformAccounts.AsWrittenUpdateAlwaysFails | PlatformAccounts.UpdatePlatformAccount |
| mini_social_media/db.ts:451-469 | expiries are stored as `toISOString()` text but compared as text with `datetime('now')`, and `' '` sorts below `'T'`; `isTokenRevoked` at mini_social_media/db.ts:476 compares the same way | a session expiring at 2024-01-01T10:00:00.000Z is still returned by `getSession` at 2024-01-01 12:00:00, and the sweep keeps it | a session is live exactly until its expiry instant | medium, not executed | Timestamps.ExpiredSessionStillLive | Timestamps.CorrectedSessionLive |
| mini_social_media/main.ts:204 | `Math.min(parseInt(limit) \|\| 20, 50)` lets a negative limit through, and SQLite reads a negative `LIMIT` as no limit; the same clamp is at main.ts:220, 327, 629, 746 and 759 | `GET /posts?limit=-1` lists every post, past the cap of 50 | a page of between 1 and 50 posts | high, not executed | SocialRoutes.NegativeLimitListsEverything | SocialRoutes.ClampAgreesWhenPositive |
| mini_social_media/main.ts:386 | `Math.min(parseInt(limit) \|\| 50, 100)` lets a negative limit through in the same way; the same clamp is at main.ts:559 and 583 | `GET /posts/1/comments?limit=-1` lists every comment on post 1, past the cap of 100 | a page of between 1 and 100 comments | high, not executed | SocialRoutes.NegativeCommentLimitListsEverything | SocialRoutes.ClampLimit |
| template/backend/db.ts:506-523 | re-importing a chat deletes its messages, but the `message_count` trigger fires only on INSERT, so the count is reset only when the caller's object happens to carry `message_count`; the declared argument type omits it. This is a latent defect: the one caller, `syncAllSources`, passes scraper rows with `message_count: 0` (chat_aggregator/backend/chat.ts:263), which mask it | a caller passing exactly the declared fields re-imports a chat that had 3 messages with an empty message list: `message_count` stays 3 on a chat with no messages | the count equals the number of messages | medium, not executed | ChatStore.EmptyReimportKeepsStaleCount | ChatStore.ImportChatCountIsExact |
