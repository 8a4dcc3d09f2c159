/**
 * The chat and message tables of template/backend/db.ts and the operations on
 * them: creating, listing, updating and importing chats, and inserting and
 * listing messages. The `update_message_count` trigger is part of message
 * insertion. Time is an integer clock `now` standing for `CURRENT_TIMESTAMP`.
 *
 * The `tags` column holds a JSON array; the model stores the list itself and
 * takes `JSON.stringify`/`JSON.parse` to round-trip. Tag filters use
 * `tags LIKE '%"tag"%'`, modelled as a stored tag equal to the asked one up to
 * ASCII case, since SQLite's `LIKE` folds ASCII letters. No foreign key is
 * enforced, so a message may name a chat that does not exist.
 */
module ChatStore {
  import opened Wrappers
  import opened Json
  import JsText
  import Ordering

  /** The values the `chats.platform` CHECK constraint admits. */
  predicate ChatPlatform(p: string) {
    p == "chatgpt" || p == "claude" || p == "grok" || p == "gemini" || p == "other"
  }

  /** The values the `messages.role` CHECK constraint admits. */
  predicate MessageRole(r: string) {
    r == "user" || r == "assistant" || r == "system"
  }

  datatype ChatRow = ChatRow(
    id: int,
    title: string,
    platform: string,
    platformChatId: string,
    url: Option<string>,
    tags: Option<seq<string>>,
    isFavorite: bool,
    isArchived: bool,
    messageCount: int,
    createdAt: int,
    updatedAt: int)

  datatype MessageRow = MessageRow(
    id: int,
    chatId: int,
    role: string,
    content: string,
    timestamp: int,
    metadata: Option<Json>,
    createdAt: int)

  datatype Db = Db(chats: map<int, ChatRow>, messages: map<int, MessageRow>, lastChatId: int, lastMessageId: int)

  /** The `UNIQUE(platform, platform_chat_id)` key. */
  function KeyOf(c: ChatRow): (string, string) {
    (c.platform, c.platformChatId)
  }

  /** At most one chat per platform key. */
  predicate KeysUnique(chats: map<int, ChatRow>) {
    forall a, b :: a in chats && b in chats && KeyOf(chats[a]) == KeyOf(chats[b]) ==> a == b
  }

  /** Chats filed under their own AUTOINCREMENT id, within the CHECK list, with unique keys. */
  predicate ChatsValid(chats: map<int, ChatRow>, lastId: int) {
    && (forall k :: k in chats ==> chats[k].id == k && k <= lastId && ChatPlatform(chats[k].platform))
    && KeysUnique(chats)
  }

  /** Messages filed under their own AUTOINCREMENT id, with a role in the CHECK list. */
  predicate MessagesValid(ms: map<int, MessageRow>, lastId: int) {
    forall k :: k in ms ==> ms[k].id == k && k <= lastId && MessageRole(ms[k].role)
  }

  /** The table invariants of both tables. */
  predicate Valid(db: Db) {
    ChatsValid(db.chats, db.lastChatId) && MessagesValid(db.messages, db.lastMessageId)
  }

  /** The same chats, differing at most in the two columns the count trigger writes. */
  predicate SameButCounts(chats: map<int, ChatRow>, chats': map<int, ChatRow>) {
    && chats'.Keys == chats.Keys
    && forall k :: k in chats ==> chats'[k] == chats[k].(messageCount := chats'[k].messageCount, updatedAt := chats'[k].updatedAt)
  }

  /** The count trigger cannot break a chat invariant. */
  lemma SameButCountsValid(chats: map<int, ChatRow>, chats': map<int, ChatRow>, lastId: int)
    requires SameButCounts(chats, chats')
    ensures ChatsValid(chats, lastId) ==> ChatsValid(chats', lastId)
  {
    if ChatsValid(chats, lastId) {
      forall a, b | a in chats' && b in chats' && KeyOf(chats'[a]) == KeyOf(chats'[b]) ensures a == b {
        assert KeyOf(chats[a]) == KeyOf(chats'[a]) && KeyOf(chats[b]) == KeyOf(chats'[b]);
      }
    }
  }

  datatype SqlError = CheckViolation | UniqueViolation

  // ---------------------------------------------------------------------------
  // Reading chats
  // ---------------------------------------------------------------------------

  /** A chat as `serializeChat` returns it: NULL tags become the empty list. */
  datatype Chat = Chat(
    id: int,
    title: string,
    platform: string,
    platformChatId: string,
    url: Option<string>,
    tags: seq<string>,
    isFavorite: bool,
    isArchived: bool,
    messageCount: int,
    createdAt: int,
    updatedAt: int)

  function SerializeChat(row: ChatRow): (c: Chat)
    ensures c.tags == (if row.tags.Some? then row.tags.value else [])
    ensures c.id == row.id && c.title == row.title && KeyOf(row) == (c.platform, c.platformChatId)
    ensures c.url == row.url && c.isFavorite == row.isFavorite && c.isArchived == row.isArchived
    ensures c.messageCount == row.messageCount && c.createdAt == row.createdAt && c.updatedAt == row.updatedAt
  {
    Chat(row.id, row.title, row.platform, row.platformChatId, row.url, row.tags.GetOr([]),
         row.isFavorite, row.isArchived, row.messageCount, row.createdAt, row.updatedAt)
  }

  /** `getChatById`. */
  function GetChatById(db: Db, id: int): (r: Option<Chat>)
    ensures r.Some? <==> id in db.chats
    ensures r.Some? ==> r.value == SerializeChat(db.chats[id])
  {
    if id in db.chats then Some(SerializeChat(db.chats[id])) else None
  }

  /** The row `SELECT * FROM chats WHERE platform = ? AND platform_chat_id = ?` finds first. */
  function RowByKey(db: Db, platform: string, platformChatId: string): (r: Option<ChatRow>)
    ensures r.Some? ==> r.value in db.chats.Values && KeyOf(r.value) == (platform, platformChatId)
    ensures r.None? ==> forall k :: k in db.chats ==> KeyOf(db.chats[k]) != (platform, platformChatId)
  {
    FirstWithKey(Ordering.Scan(db.chats), (platform, platformChatId))
  }

  /** The first row of a scan holding `key`. */
  function FirstWithKey(rows: seq<ChatRow>, key: (string, string)): (r: Option<ChatRow>)
    ensures r.Some? ==> r.value in rows && KeyOf(r.value) == key
    ensures r.None? ==> forall c :: c in rows ==> KeyOf(c) != key
  {
    if |rows| == 0 then None
    else if KeyOf(rows[0]) == key then Some(rows[0])
    else FirstWithKey(rows[1..], key)
  }

  /** `getChatByPlatformId`: the one chat with that key, if any. */
  function GetChatByPlatformId(db: Db, platform: string, platformChatId: string): (r: Option<Chat>)
    requires Valid(db)
    ensures r.Some? <==> exists k :: k in db.chats && KeyOf(db.chats[k]) == (platform, platformChatId)
    ensures forall k :: k in db.chats && KeyOf(db.chats[k]) == (platform, platformChatId) ==> r == Some(SerializeChat(db.chats[k]))
  {
    match RowByKey(db, platform, platformChatId)
    case None => None
    case Some(row) => Some(SerializeChat(row))
  }

  /** The filters `getChats` accepts; `None` is an absent (or NaN) property. */
  datatype ChatFilters = ChatFilters(
    platform: Option<string>,
    isFavorite: Option<bool>,
    isArchived: Option<bool>,
    tags: Option<seq<string>>,
    limit: Option<int>,
    offset: Option<int>)

  const NoFilters := ChatFilters(None, None, None, None, None, None)

  /**
   * The `WHERE` clause `getChats` builds: the platform only when truthy, the
   * two flags when not undefined, and every listed tag when the list is
   * non-empty.
   */
  predicate Matches(f: ChatFilters, c: ChatRow) {
    && (f.platform.Some? && f.platform.value != "" ==> c.platform == f.platform.value)
    && (f.isFavorite.Some? ==> c.isFavorite == f.isFavorite.value)
    && (f.isArchived.Some? ==> c.isArchived == f.isArchived.value)
    && (f.tags.Some? ==> forall t :: t in f.tags.value ==> c.tags.Some? && TagLike(c.tags.value, t))
  }

  /**
   * `tags LIKE '%"t"%'` on the stored JSON array: some stored tag is `t` up to
   * the case of ASCII letters, which SQLite's `LIKE` ignores.
   */
  predicate TagLike(stored: seq<string>, t: string) {
    exists s :: s in stored && JsText.ToLowerAscii(s) == JsText.ToLowerAscii(t)
  }

  /** A stored tag asked for as stored matches, and so does one asked for in other case: `["ai"]` matches `AI`. */
  lemma TagLikeFoldsCase(stored: seq<string>, t: string)
    ensures t in stored ==> TagLike(stored, t)
    ensures TagLike(["ai"], "AI") && "AI" !in ["ai"]
  {
    if t in stored {
      assert JsText.ToLowerAscii(t) == JsText.ToLowerAscii(t);
    }
    assert JsText.ToLowerAscii("AI") == "ai";
    assert JsText.ToLowerAscii("ai") == "ai";
  }

  /** `ORDER BY created_at DESC`. */
  function NewestChatFirst(c: ChatRow): int {
    -c.createdAt
  }

  /**
   * The `LIMIT`/`OFFSET` `getChats` appends: a limit only when truthy, and an
   * offset only when both the limit and the offset are truthy. `-1` stands
   * for "no LIMIT clause".
   */
  function PageBounds(f: ChatFilters): (r: (int, int))
    ensures f.limit.None? || f.limit == Some(0) ==> r == (-1, 0)
    ensures f.limit.Some? && f.limit.value != 0 ==> r.0 == f.limit.value
    ensures r.1 != 0 ==> f.limit.Some? && f.limit.value != 0 && f.offset == Some(r.1)
  {
    if f.limit.None? || f.limit.value == 0 then (-1, 0)
    else if f.offset.None? || f.offset.value == 0 then (f.limit.value, 0)
    else (f.limit.value, f.offset.value)
  }

  function SerializeAll(rows: seq<ChatRow>): (r: seq<Chat>)
    ensures |r| == |rows|
    ensures forall i :: 0 <= i < |rows| ==> r[i] == SerializeChat(rows[i])
  {
    if |rows| == 0 then [] else [SerializeChat(rows[0])] + SerializeAll(rows[1..])
  }

  /** The filters of `f` that make up the `WHERE` clause, without the paging. */
  function WhereOf(f: ChatFilters): ChatFilters {
    f.(limit := None, offset := None)
  }

  /** The `WHERE` clause of `getChats` as a row filter. */
  function Matching(f: ChatFilters): ChatRow -> bool {
    (c: ChatRow) => Matches(f, c)
  }

  /** The row filter is `Matches`: the paging fields play no part in it. */
  lemma MatchingIs(f: ChatFilters)
    ensures forall c :: Matching(WhereOf(f))(c) == Matches(f, c)
  {
    forall c ensures Matching(WhereOf(f))(c) == Matches(f, c) {
      assert WhereOf(f).tags == f.tags && WhereOf(f).platform == f.platform;
    }
  }

  /** The ids of the chats that match the filters of `f`. */
  function MatchingChats(db: Db, f: ChatFilters): set<int> {
    set k | k in db.chats && Matches(f, db.chats[k])
  }

  /** No matching chat newer than one of `r` is missing from `r`. */
  predicate HoldsNewestChats(db: Db, f: ChatFilters, r: seq<ChatRow>) {
    forall k, i :: k in db.chats && Matches(f, db.chats[k]) && 0 <= i < |r| && db.chats[k].createdAt > r[i].createdAt
      ==> db.chats[k] in r
  }

  /**
   * `r` is the page `getChats` cuts under `PageBounds(f)` from the chats
   * matching `f`, newest first: only such chats, as many as `PageSize`
   * leaves of them, none twice in a valid store, and without an offset the
   * newest of them.
   */
  predicate IsChatPage(db: Db, f: ChatFilters, r: seq<ChatRow>) {
    && (forall c :: c in r ==> c in db.chats.Values && Matches(f, c))
    && Ordering.SortedBy(r, NewestChatFirst)
    && |r| == Ordering.PageSize(|MatchingChats(db, f)|, PageBounds(f).0, PageBounds(f).1)
    && (Valid(db) ==> Ordering.Distinct(r))
    && (PageBounds(f).1 <= 0 ==> HoldsNewestChats(db, f, r))
  }

  /** The page `getChats` cuts from the chats table. */
  function ChatPage(db: Db, f: ChatFilters): seq<ChatRow> {
    Ordering.Select(Ordering.Scan(db.chats), Matching(WhereOf(f)), NewestChatFirst, PageBounds(f).0, PageBounds(f).1)
  }

  /**
   * `getChats`: the page of the rows that match every filter, newest first.
   * With no limit every matching chat is listed, whatever the offset.
   */
  function GetChatRows(db: Db, f: ChatFilters): (r: seq<ChatRow>)
    ensures IsChatPage(db, f, r)
    ensures f.limit.Some? && f.limit.value > 0 ==> |r| <= f.limit.value
    ensures f.limit.None? || f.limit == Some(0) ==> forall k :: k in db.chats && Matches(f, db.chats[k]) ==> db.chats[k] in r
  {
    ChatPageSound(db, f);
    ChatPageCount(db, f);
    ChatPageDistinct(db, f);
    ChatPageNewest(db, f);
    ChatPageComplete(db, f);
    ChatPage(db, f)
  }

  /** The page holds only matching chats, newest first. */
  lemma ChatPageSound(db: Db, f: ChatFilters)
    ensures forall c :: c in ChatPage(db, f) ==> c in db.chats.Values && Matches(f, c)
    ensures Ordering.SortedBy(ChatPage(db, f), NewestChatFirst)
  {
    MatchingIs(f);
  }

  /** The page holds `PageSize` of the matching chats. */
  lemma ChatPageCount(db: Db, f: ChatFilters)
    ensures |ChatPage(db, f)| == Ordering.PageSize(|MatchingChats(db, f)|, PageBounds(f).0, PageBounds(f).1)
  {
    Ordering.ScanFilterCount(db.chats, Matching(WhereOf(f)));
    MatchingIs(f);
    assert Ordering.KeysWhere(db.chats, Matching(WhereOf(f))) == MatchingChats(db, f);
  }

  /** A valid store's page lists no chat twice. */
  lemma ChatPageDistinct(db: Db, f: ChatFilters)
    ensures Valid(db) ==> Ordering.Distinct(ChatPage(db, f))
  {
    if Valid(db) {
      ChatsInjective(db);
      Ordering.ScanDistinct(db.chats);
    }
  }

  /** Without an offset the page holds the newest matching chats. */
  lemma ChatPageNewest(db: Db, f: ChatFilters)
    ensures PageBounds(f).1 <= 0 ==> HoldsNewestChats(db, f, ChatPage(db, f))
  {
    var rows := Ordering.Scan(db.chats);
    var page := ChatPage(db, f);
    MatchingIs(f);
    forall k, i | PageBounds(f).1 <= 0 && k in db.chats && Matches(f, db.chats[k]) && 0 <= i < |page| && db.chats[k].createdAt > page[i].createdAt
      ensures db.chats[k] in page
    {
      assert page[i] in page && db.chats[k] in rows && Matching(WhereOf(f))(db.chats[k]);
      assert NewestChatFirst(db.chats[k]) < NewestChatFirst(page[i]);
    }
  }

  /** Without a limit the page holds every matching chat. */
  lemma ChatPageComplete(db: Db, f: ChatFilters)
    ensures f.limit.None? || f.limit == Some(0) ==> forall k :: k in db.chats && Matches(f, db.chats[k]) ==> db.chats[k] in ChatPage(db, f)
  {
    var rows := Ordering.Scan(db.chats);
    MatchingIs(f);
    forall k | (f.limit.None? || f.limit == Some(0)) && k in db.chats && Matches(f, db.chats[k]) ensures db.chats[k] in ChatPage(db, f) {
      assert db.chats[k] in rows && Matching(WhereOf(f))(db.chats[k]);
    }
  }

  /** Chat rows filed under their own ids are all different; so are message rows. */
  lemma ChatsInjective(db: Db)
    ensures Valid(db) ==> Ordering.Injective(db.chats) && Ordering.Injective(db.messages)
  {
  }

  function GetChats(db: Db, f: ChatFilters): (r: seq<Chat>)
    ensures |r| == |GetChatRows(db, f)|
    ensures forall i :: 0 <= i < |r| ==> r[i] == SerializeChat(GetChatRows(db, f)[i])
  {
    SerializeAll(GetChatRows(db, f))
  }

  /** `getChats()` without filters lists every chat once. */
  lemma GetChatsListsAll(db: Db)
    ensures |GetChats(db, NoFilters)| == |db.chats|
  {
    Ordering.SelectAll(Ordering.Scan(db.chats), Matching(WhereOf(NoFilters)), NewestChatFirst);
  }

  // ---------------------------------------------------------------------------
  // Writing chats
  // ---------------------------------------------------------------------------

  /** The object handed to `createChat`. */
  datatype ChatInput = ChatInput(
    title: string,
    platform: string,
    platformChatId: string,
    url: Option<string>,
    tags: Option<seq<string>>,
    isFavorite: Option<bool>,
    isArchived: Option<bool>)

  /**
   * `createChat`: the new row goes in under the next AUTOINCREMENT id and is
   * read back. A platform outside the CHECK list or a key already taken makes
   * the INSERT fail and nothing changes.
   */
  function CreateChat(db: Db, data: ChatInput, now: int): (r: Result<(Db, Chat), SqlError>)
    requires Valid(db)
    ensures r.Err? <==> !ChatPlatform(data.platform) || KeyTaken(db.chats, (data.platform, data.platformChatId))
    ensures r.Err? ==> (r.error == CheckViolation <==> !ChatPlatform(data.platform))
    ensures r.Ok? ==> Valid(r.value.0) && db.lastChatId + 1 !in db.chats
    ensures r.Ok? ==> r.value.0 == db.(chats := db.chats[db.lastChatId + 1 := NewChatRow(db.lastChatId + 1, data, now)], lastChatId := db.lastChatId + 1)
    ensures r.Ok? ==> r.value.1 == SerializeChat(NewChatRow(db.lastChatId + 1, data, now))
  {
    if !ChatPlatform(data.platform) then Err(CheckViolation)
    else if KeyTaken(db.chats, (data.platform, data.platformChatId)) then Err(UniqueViolation)
    else
      var id := db.lastChatId + 1;
      var row := NewChatRow(id, data, now);
      var db' := db.(chats := db.chats[id := row], lastChatId := id);
      assert Valid(db') by { InsertKeepsValid(db, row); }
      Ok((db', SerializeChat(row)))
  }

  /**
   * The row `createChat` inserts: `url || null`, the tags list stored when
   * present (even empty), both flags false unless given, a message count of
   * 0 and both timestamps at `now`.
   */
  function NewChatRow(id: int, data: ChatInput, now: int): (row: ChatRow)
    ensures row.id == id && row.title == data.title && KeyOf(row) == (data.platform, data.platformChatId)
    ensures row.url.Some? <==> data.url.Some? && data.url.value != ""
    ensures row.url.Some? ==> row.url == data.url
    ensures row.tags == data.tags
    ensures row.isFavorite <==> data.isFavorite == Some(true)
    ensures row.isArchived <==> data.isArchived == Some(true)
    ensures row.messageCount == 0 && row.createdAt == now && row.updatedAt == now
  {
    ChatRow(id, data.title, data.platform, data.platformChatId,
            if data.url == Some("") then None else data.url,
            data.tags, data.isFavorite.GetOr(false), data.isArchived.GetOr(false), 0, now, now)
  }

  lemma KeysOfUpdate<K, V>(m: map<K, V>, k: K, v: V)
    ensures m[k := v].Keys == m.Keys + {k}
  {
  }

  /** Inserting a row under the next id with a fresh key and an allowed platform keeps the invariants. */
  lemma InsertKeepsValid(db: Db, row: ChatRow)
    requires Valid(db) && row.id == db.lastChatId + 1 && ChatPlatform(row.platform)
    requires forall k :: k in db.chats ==> KeyOf(db.chats[k]) != KeyOf(row)
    ensures Valid(db.(chats := db.chats[row.id := row], lastChatId := row.id))
  {
  }

  /**
   * The entries of the object given to `updateChat`, one per column it may
   * name (`None`: the key is absent). `id` and `created_at` are left out
   * because `updateChat` skips them; `Some(None)` is a null or undefined value.
   */
  datatype ChatPatch = ChatPatch(
    title: Option<string>,
    platform: Option<string>,
    platformChatId: Option<string>,
    url: Option<Option<string>>,
    tags: Option<Option<seq<string>>>,
    isFavorite: Option<bool>,
    isArchived: Option<bool>,
    messageCount: Option<int>,
    updatedAt: Option<int>)

  /** Whether the patch puts anything in the SET list. */
  predicate HasFields(p: ChatPatch) {
    p.title.Some? || p.platform.Some? || p.platformChatId.Some? || p.url.Some? || p.tags.Some?
    || p.isFavorite.Some? || p.isArchived.Some? || p.messageCount.Some? || p.updatedAt.Some?
  }

  /**
   * The row after `SET …, updated_at = CURRENT_TIMESTAMP`: every named column
   * takes its value, and an `updated_at` entry is overridden because SQLite
   * keeps the rightmost assignment of a column.
   */
  function Patched(row: ChatRow, p: ChatPatch, now: int): (r: ChatRow)
    ensures r.id == row.id && r.createdAt == row.createdAt && r.updatedAt == now
    ensures r.title == (if p.title.Some? then p.title.value else row.title)
    ensures r.platform == (if p.platform.Some? then p.platform.value else row.platform)
    ensures r.platformChatId == (if p.platformChatId.Some? then p.platformChatId.value else row.platformChatId)
    ensures r.url == (if p.url.Some? then p.url.value else row.url)
    ensures r.tags == (if p.tags.Some? then p.tags.value else row.tags)
    ensures r.isFavorite == (if p.isFavorite.Some? then p.isFavorite.value else row.isFavorite)
    ensures r.isArchived == (if p.isArchived.Some? then p.isArchived.value else row.isArchived)
    ensures r.messageCount == (if p.messageCount.Some? then p.messageCount.value else row.messageCount)
  {
    ChatRow(row.id, p.title.GetOr(row.title), p.platform.GetOr(row.platform), p.platformChatId.GetOr(row.platformChatId),
            p.url.GetOr(row.url), p.tags.GetOr(row.tags), p.isFavorite.GetOr(row.isFavorite),
            p.isArchived.GetOr(row.isArchived), p.messageCount.GetOr(row.messageCount), row.createdAt, now)
  }

  /**
   * `updateChat`: no field means no statement at all. Otherwise the chat with
   * that id (if any) gets the named columns and a new `updated_at`; the
   * statement fails, changing nothing, when the new platform breaks the CHECK
   * or the new key belongs to another chat.
   */
  function UpdateChat(db: Db, id: int, p: ChatPatch, now: int): (r: Result<Db, SqlError>)
    requires Valid(db)
    ensures r.Ok? ==> Valid(r.value)
    ensures !HasFields(p) || id !in db.chats ==> r == Ok(db)
    ensures r.Err? ==> HasFields(p) && id in db.chats
    ensures HasFields(p) && id in db.chats && r.Ok? ==> r.value == db.(chats := db.chats[id := Patched(db.chats[id], p, now)])
    ensures HasFields(p) && id in db.chats ==>
      (r.Err? <==> !ChatPlatform(Patched(db.chats[id], p, now).platform)
                   || exists k :: k in db.chats && k != id && KeyOf(db.chats[k]) == KeyOf(Patched(db.chats[id], p, now)))
  {
    if !HasFields(p) || id !in db.chats then Ok(db)
    else
      var row := Patched(db.chats[id], p, now);
      if !ChatPlatform(row.platform) then Err(CheckViolation)
      else if ClashesWithOther(db, id, KeyOf(row)) then Err(UniqueViolation)
      else Ok(db.(chats := db.chats[id := row]))
  }

  /** Some stored chat already holds `key`. */
  predicate KeyTaken(chats: map<int, ChatRow>, key: (string, string)) {
    exists k :: k in chats && KeyOf(chats[k]) == key
  }

  /** Some chat other than `id` already holds `key`. */
  predicate ClashesWithOther(db: Db, id: int, key: (string, string)) {
    exists k :: k in db.chats && k != id && KeyOf(db.chats[k]) == key
  }

  // ---------------------------------------------------------------------------
  // Messages
  // ---------------------------------------------------------------------------

  /** The ids of the messages that name `chatId`. */
  function MessagesOf(ms: map<int, MessageRow>, chatId: int): set<int> {
    set k | k in ms && ms[k].chatId == chatId
  }

  /** A row under a fresh id adds exactly that id to its chat's messages, and nothing to any other chat's. */
  lemma MessagesOfInsert(ms: map<int, MessageRow>, row: MessageRow, chatId: int)
    requires row.id !in ms
    ensures row.chatId == chatId ==> MessagesOf(ms[row.id := row], chatId) == MessagesOf(ms, chatId) + {row.id}
    ensures row.chatId == chatId ==> |MessagesOf(ms[row.id := row], chatId)| == |MessagesOf(ms, chatId)| + 1
    ensures row.chatId != chatId ==> MessagesOf(ms[row.id := row], chatId) == MessagesOf(ms, chatId)
  {
    if row.chatId == chatId {
      assert MessagesOf(ms[row.id := row], chatId) == MessagesOf(ms, chatId) + {row.id};
      assert row.id !in MessagesOf(ms, chatId);
    } else {
      assert MessagesOf(ms[row.id := row], chatId) == MessagesOf(ms, chatId);
    }
  }

  /** A message as a caller hands it over, before it is given its chat. */
  datatype MessageInput = MessageInput(role: string, content: string, timestamp: int, metadata: Option<Json>)

  /**
   * `createMessage` together with the `update_message_count` trigger: the row
   * is inserted under the next id, then the chat it names (if any) gets the
   * number of its messages as `message_count` and `now` as `updated_at`. A
   * role outside the CHECK list fails and changes nothing.
   */
  function CreateMessage(db: Db, chatId: int, m: MessageInput, now: int): (r: Result<(Db, MessageRow), SqlError>)
    requires MessagesValid(db.messages, db.lastMessageId)
    ensures r.Err? <==> !MessageRole(m.role)
    ensures r.Err? ==> r.error == CheckViolation
    ensures r.Ok? ==>
      var (db', row) := r.value;
      var id := db.lastMessageId + 1;
      && MessagesValid(db'.messages, db'.lastMessageId)
      && SameButCounts(db.chats, db'.chats)
      && id !in db.messages
      && row == MessageRow(id, chatId, m.role, m.content, m.timestamp, m.metadata, now)
      && db'.messages == db.messages[id := row] && db'.lastMessageId == id && db'.lastChatId == db.lastChatId
      && (forall k :: k in db.chats && k != chatId ==> db'.chats[k] == db.chats[k])
      && (chatId in db.chats ==>
            db'.chats[chatId] == db.chats[chatId].(messageCount := |MessagesOf(db'.messages, chatId)|, updatedAt := now))
  {
    if !MessageRole(m.role) then Err(CheckViolation)
    else
      var id := db.lastMessageId + 1;
      var row := MessageRow(id, chatId, m.role, m.content, m.timestamp, m.metadata, now);
      var withRow := db.(messages := db.messages[id := row], lastMessageId := id);
      var count := |MessagesOf(withRow.messages, chatId)|;
      var db' := if chatId in db.chats then withRow.(chats := db.chats[chatId := db.chats[chatId].(messageCount := count, updatedAt := now)])
                 else withRow;
      Ok((db', row))
  }

  /** An inserted message joins its chat's messages, so the trigger's count grows by one. */
  lemma CreateMessageCounts(db: Db, chatId: int, m: MessageInput, now: int)
    requires MessagesValid(db.messages, db.lastMessageId)
    ensures var r := CreateMessage(db, chatId, m, now);
            r.Ok? ==>
              && MessagesOf(r.value.0.messages, chatId) == MessagesOf(db.messages, chatId) + {db.lastMessageId + 1}
              && |MessagesOf(r.value.0.messages, chatId)| == |MessagesOf(db.messages, chatId)| + 1
  {
    var r := CreateMessage(db, chatId, m, now);
    if r.Ok? {
      MessagesOfInsert(db.messages, r.value.1, chatId);
    }
  }

  /** `deleteMessagesByChat`: removes exactly that chat's messages; no trigger fires. */
  function DeleteMessagesByChat(db: Db, chatId: int): (r: Db)
    requires Valid(db)
    ensures Valid(r)
    ensures MessagesOf(r.messages, chatId) == {}
    ensures forall k :: k in r.messages <==> k in db.messages && db.messages[k].chatId != chatId
    ensures forall k :: k in r.messages ==> r.messages[k] == db.messages[k]
    ensures r == db.(messages := r.messages)
  {
    db.(messages := map k | k in db.messages && db.messages[k].chatId != chatId :: db.messages[k])
  }

  /** `ORDER BY timestamp ASC`. */
  function OldestMessageFirst(m: MessageRow): int {
    m.timestamp
  }

  /** The filter of `getMessagesByChat`: `WHERE chat_id = ?`. */
  function InChat(chatId: int): MessageRow -> bool {
    (m: MessageRow) => m.chatId == chatId
  }

  /**
   * `getMessagesByChat`: exactly the chat's messages, oldest first, as many
   * rows as the chat has messages, none twice in a valid store.
   */
  function GetMessagesByChat(db: Db, chatId: int): (r: seq<MessageRow>)
    ensures forall m :: m in r ==> m in db.messages.Values && m.chatId == chatId
    ensures forall k :: k in MessagesOf(db.messages, chatId) ==> db.messages[k] in r
    ensures Ordering.SortedBy(r, OldestMessageFirst)
    ensures |r| == |MessagesOf(db.messages, chatId)|
    ensures Valid(db) ==> Ordering.Distinct(r)
  {
    MessageListFacts(db, chatId);
    Ordering.Select(Ordering.Scan(db.messages), InChat(chatId), OldestMessageFirst, -1, 0)
  }

  /** The count and distinctness of a chat's message list. */
  lemma MessageListFacts(db: Db, chatId: int)
    ensures var rows := Ordering.Select(Ordering.Scan(db.messages), InChat(chatId), OldestMessageFirst, -1, 0);
      && |rows| == |MessagesOf(db.messages, chatId)|
      && (forall k :: k in MessagesOf(db.messages, chatId) ==> db.messages[k] in rows)
      && (Valid(db) ==> Ordering.Distinct(rows))
  {
    MessageListCount(db, chatId);
    MessageListComplete(db, chatId);
    if Valid(db) {
      ChatsInjective(db);
      Ordering.ScanDistinct(db.messages);
    }
  }

  lemma MessageListCount(db: Db, chatId: int)
    ensures |Ordering.Select(Ordering.Scan(db.messages), InChat(chatId), OldestMessageFirst, -1, 0)| == |MessagesOf(db.messages, chatId)|
  {
    Ordering.ScanFilterCount(db.messages, InChat(chatId));
    assert Ordering.KeysWhere(db.messages, InChat(chatId)) == MessagesOf(db.messages, chatId);
  }

  lemma MessageListComplete(db: Db, chatId: int)
    ensures forall k :: k in MessagesOf(db.messages, chatId) ==>
      db.messages[k] in Ordering.Select(Ordering.Scan(db.messages), InChat(chatId), OldestMessageFirst, -1, 0)
  {
    var rows := Ordering.Scan(db.messages);
    forall k | k in MessagesOf(db.messages, chatId)
      ensures db.messages[k] in Ordering.Select(rows, InChat(chatId), OldestMessageFirst, -1, 0)
    {
      assert db.messages[k] in rows && InChat(chatId)(db.messages[k]);
    }
  }

  /** `getChatWithMessages`: nothing for an unknown chat, else the chat and its messages. */
  function GetChatWithMessages(db: Db, chatId: int): (r: Option<(Chat, seq<MessageRow>)>)
    ensures r.Some? <==> chatId in db.chats
    ensures r.Some? ==> r.value.0 == SerializeChat(db.chats[chatId])
    ensures r.Some? ==> forall m :: m in r.value.1 ==> m in db.messages.Values && m.chatId == chatId
    ensures r.Some? ==> forall k :: k in MessagesOf(db.messages, chatId) ==> db.messages[k] in r.value.1
    ensures r.Some? ==> |r.value.1| == |MessagesOf(db.messages, chatId)| && Ordering.SortedBy(r.value.1, OldestMessageFirst)
  {
    if chatId !in db.chats then None else Some((SerializeChat(db.chats[chatId]), GetMessagesByChat(db, chatId)))
  }

  // ---------------------------------------------------------------------------
  // Import
  // ---------------------------------------------------------------------------

  /**
   * The entries `updateChat` receives from `createChatWithMessages`: the
   * three key columns always, and each optional property when present. An
   * array is truthy, so given tags are stored as given.
   */
  function PatchOf(data: ChatInput): (p: ChatPatch)
    ensures HasFields(p)
    ensures p.title == Some(data.title) && p.platform == Some(data.platform) && p.platformChatId == Some(data.platformChatId)
    ensures p.url.Some? <==> data.url.Some?
    ensures p.url.Some? ==> p.url.value == data.url
    ensures p.tags.Some? <==> data.tags.Some?
    ensures p.tags.Some? ==> p.tags.value == data.tags
    ensures p.isFavorite == data.isFavorite && p.isArchived == data.isArchived
    ensures p.messageCount.None? && p.updatedAt.None?
  {
    ChatPatch(Some(data.title), Some(data.platform), Some(data.platformChatId),
              if data.url.Some? then Some(data.url) else None,
              if data.tags.Some? then Some(data.tags) else None,
              data.isFavorite, data.isArchived, None, None)
  }

  /** The rows `n` successful `createMessage` calls read back, ids counting up from `base + 1`. */
  function NewRows(base: int, chatId: int, msgs: seq<MessageInput>, now: int): (rows: seq<MessageRow>)
    ensures |rows| == |msgs|
    ensures forall i :: 0 <= i < |msgs| ==>
      rows[i] == MessageRow(base + 1 + i, chatId, msgs[i].role, msgs[i].content, msgs[i].timestamp, msgs[i].metadata, now)
    decreases |msgs|
  {
    if |msgs| == 0 then []
    else [MessageRow(base + 1, chatId, msgs[0].role, msgs[0].content, msgs[0].timestamp, msgs[0].metadata, now)]
         + NewRows(base + 1, chatId, msgs[1..], now)
  }

  /**
   * What inserting messages for `chatId` leaves alone: every earlier message,
   * the set of chats, every other chat, and every column of `chatId` but the
   * two the trigger writes.
   */
  predicate OnlyMessagesAdded(db: Db, db': Db, chatId: int, now: int) {
    && (forall k :: k in db.messages ==> k in db'.messages && db'.messages[k] == db.messages[k])
    && db'.lastChatId == db.lastChatId && db'.lastMessageId >= db.lastMessageId
    && SameButCounts(db.chats, db'.chats)
    && (forall k :: k in db.chats && k != chatId ==> db'.chats[k] == db.chats[k])
    && (chatId in db.chats ==> db'.chats[chatId].updatedAt == db.chats[chatId].updatedAt || db'.chats[chatId].updatedAt == now)
  }

  lemma OnlyMessagesAddedTrans(db: Db, db1: Db, db2: Db, chatId: int, now: int)
    requires OnlyMessagesAdded(db, db1, chatId, now) && OnlyMessagesAdded(db1, db2, chatId, now)
    ensures OnlyMessagesAdded(db, db2, chatId, now)
  {
  }

  /**
   * The `for … of` loop of `createChatWithMessages`: one `createMessage` per
   * input, in order, stopping at the first one that fails (the rows before
   * it stay). Each insert fires the count trigger. What the loop achieves is
   * stated by the four lemmas after it.
   */
  function InsertMessages(db: Db, chatId: int, msgs: seq<MessageInput>, now: int): (r: (Db, Result<seq<MessageRow>, SqlError>))
    requires MessagesValid(db.messages, db.lastMessageId)
    ensures MessagesValid(r.0.messages, r.0.lastMessageId)
    ensures ChatsValid(db.chats, db.lastChatId) ==> ChatsValid(r.0.chats, r.0.lastChatId)
    ensures r.0.lastMessageId >= db.lastMessageId && r.0.lastChatId == db.lastChatId
    ensures r.0.chats.Keys == db.chats.Keys
    decreases |msgs|
  {
    if |msgs| == 0 then (db, Ok([]))
    else
      match CreateMessage(db, chatId, msgs[0], now)
      case Err(e) => (db, Err(e))
      case Ok((db1, row)) =>
        SameButCountsValid(db.chats, db1.chats, db.lastChatId);
        var rest := InsertMessages(db1, chatId, msgs[1..], now);
        (rest.0, if rest.1.Err? then Err(rest.1.error) else Ok([row] + rest.1.value))
  }

  /** The loop only adds messages and touches no chat but the count columns of `chatId`. */
  lemma {:induction false} InsertMessagesFrame(db: Db, chatId: int, msgs: seq<MessageInput>, now: int)
    requires MessagesValid(db.messages, db.lastMessageId)
    ensures OnlyMessagesAdded(db, InsertMessages(db, chatId, msgs, now).0, chatId, now)
    decreases |msgs|
  {
    if |msgs| > 0 {
      match CreateMessage(db, chatId, msgs[0], now)
      case Err(_) =>
      case Ok((db1, row)) =>
        InsertMessagesFrame(db1, chatId, msgs[1..], now);
        OnlyMessagesAddedTrans(db, db1, InsertMessages(db1, chatId, msgs[1..], now).0, chatId, now);
    }
  }

  /** The loop succeeds iff every role passes the CHECK, and then returns the inputs as rows, in order. */
  lemma {:induction false} InsertMessagesRows(db: Db, chatId: int, msgs: seq<MessageInput>, now: int)
    requires MessagesValid(db.messages, db.lastMessageId)
    ensures var r := InsertMessages(db, chatId, msgs, now);
            && (r.1.Ok? <==> !SomeBadRole(msgs))
            && (r.1.Ok? ==> r.1.value == NewRows(db.lastMessageId, chatId, msgs, now))
    decreases |msgs|
  {
    if |msgs| > 0 {
      match CreateMessage(db, chatId, msgs[0], now)
      case Err(_) =>
      case Ok((db1, row)) =>
        InsertMessagesRows(db1, chatId, msgs[1..], now);
        if SomeBadRole(msgs[1..]) {
          var j :| 0 <= j < |msgs[1..]| && !MessageRole(msgs[1..][j].role);
          assert msgs[j + 1] == msgs[1..][j];
        } else {
          forall i | 0 <= i < |msgs| ensures MessageRole(msgs[i].role) {
            if i > 0 { assert msgs[i] == msgs[1..][i - 1]; }
          }
        }
    }
  }

  /** After a successful loop every returned row is stored under its id. */
  lemma {:induction false} InsertMessagesStored(db: Db, chatId: int, msgs: seq<MessageInput>, now: int)
    requires MessagesValid(db.messages, db.lastMessageId)
    ensures var r := InsertMessages(db, chatId, msgs, now);
            r.1.Ok? ==> forall m :: m in r.1.value ==> m.id in r.0.messages && r.0.messages[m.id] == m
    decreases |msgs|
  {
    if |msgs| > 0 {
      match CreateMessage(db, chatId, msgs[0], now)
      case Err(_) =>
      case Ok((db1, row)) =>
        InsertMessagesStored(db1, chatId, msgs[1..], now);
        InsertMessagesFrame(db1, chatId, msgs[1..], now);
    }
  }

  /**
   * After a successful loop the chat has exactly `|msgs|` more messages, and
   * if any was inserted its `message_count` is their number.
   */
  lemma {:induction false} InsertMessagesCount(db: Db, chatId: int, msgs: seq<MessageInput>, now: int)
    requires MessagesValid(db.messages, db.lastMessageId)
    ensures var r := InsertMessages(db, chatId, msgs, now);
            && (r.1.Ok? ==> |MessagesOf(r.0.messages, chatId)| == |MessagesOf(db.messages, chatId)| + |msgs|)
            && (r.1.Ok? && |msgs| > 0 && chatId in db.chats ==> r.0.chats[chatId].messageCount == |MessagesOf(r.0.messages, chatId)|)
    decreases |msgs|
  {
    if |msgs| > 0 {
      match CreateMessage(db, chatId, msgs[0], now)
      case Err(_) =>
      case Ok((db1, row)) =>
        CreateMessageCounts(db, chatId, msgs[0], now);
        InsertMessagesCount(db1, chatId, msgs[1..], now);
    }
  }

  /** What `createChatWithMessages` leaves behind: the store, and the chat snapshot with its new messages. */
  datatype Imported = Imported(db: Db, result: Result<(Chat, seq<MessageRow>), SqlError>)

  /** Some input message has a role the CHECK constraint refuses. */
  predicate SomeBadRole(msgs: seq<MessageInput>) {
    exists i :: 0 <= i < |msgs| && !MessageRole(msgs[i].role)
  }

  /**
   * `createChatWithMessages` with the clearing step as a parameter. No
   * trigger fires on DELETE, so the count after `deleteMessagesByChat` is
   * whatever `updateChat` left: with `resetCount` true the caller's object
   * carried `message_count: 0` and `updateChat` wrote it; with `resetCount`
   * false it carried no count, as the declared argument type
   * (`Omit<Chat, ... | "message_count">`) says. What an import does is
   * stated by the lemmas after `Reimport`.
   */
  function Import(db: Db, data: ChatInput, msgs: seq<MessageInput>, now: int, resetCount: bool): (r: Imported)
    requires Valid(db)
    ensures Valid(r.db)
  {
    match RowByKey(db, data.platform, data.platformChatId)
    case Some(existing) =>
      assert existing.id in db.chats;
      Reimport(db, existing.id, data, msgs, now, resetCount)
    case None => ImportNew(db, data, msgs, now)
  }

  /** `createChatWithMessages` given an object of its declared type, which has no `message_count`. */
  function CreateChatWithMessages(db: Db, data: ChatInput, msgs: seq<MessageInput>, now: int): (r: Imported)
    requires Valid(db)
    ensures Valid(r.db)
  {
    Import(db, data, msgs, now, false)
  }

  /**
   * `createChatWithMessages` given a full chat row with `message_count: 0`,
   * as every scraper builds them: `updateChat` writes the zero before the old
   * messages go, so the count restarts with the new messages.
   */
  function ImportChat(db: Db, data: ChatInput, msgs: seq<MessageInput>, now: int): (r: Imported)
    requires Valid(db)
    ensures Valid(r.db)
  {
    Import(db, data, msgs, now, true)
  }

  /** The branch for a new key: `createChat`, then the messages under its id. */
  function ImportNew(db: Db, data: ChatInput, msgs: seq<MessageInput>, now: int): (r: Imported)
    requires Valid(db)
    requires forall k :: k in db.chats ==> KeyOf(db.chats[k]) != (data.platform, data.platformChatId)
    ensures Valid(r.db)
  {
    var created := CreateChat(db, data, now);
    if created.Err? then Imported(db, Err(created.error))
    else
      var id := db.lastChatId + 1;
      var db2 := created.value.0;
      var ins := InsertMessages(db2, id, msgs, now);
      Imported(ins.0, if ins.1.Ok? then Ok((created.value.1, ins.1.value)) else Err(ins.1.error))
  }

  /** A new key fails exactly on a refused platform or role; otherwise it returns the new chat and the inputs as rows. */
  lemma ImportNewResult(db: Db, data: ChatInput, msgs: seq<MessageInput>, now: int)
    requires Valid(db)
    requires forall k :: k in db.chats ==> KeyOf(db.chats[k]) != (data.platform, data.platformChatId)
    ensures ImportNew(db, data, msgs, now).result.Err? <==> !ChatPlatform(data.platform) || SomeBadRole(msgs)
    ensures ImportNew(db, data, msgs, now).result.Ok? ==>
      ImportNew(db, data, msgs, now).result.value.0 == SerializeChat(NewChatRow(db.lastChatId + 1, data, now))
    ensures ImportNew(db, data, msgs, now).result.Ok? ==>
      ImportNew(db, data, msgs, now).result.value.1 == NewRows(db.lastMessageId, db.lastChatId + 1, msgs, now)
  {
    var created := CreateChat(db, data, now);
    if created.Ok? {
      InsertMessagesRows(created.value.0, db.lastChatId + 1, msgs, now);
    }
  }

  /** A new key adds exactly one chat, under the next id and that key. */
  lemma ImportNewChat(db: Db, data: ChatInput, msgs: seq<MessageInput>, now: int)
    requires Valid(db)
    requires forall k :: k in db.chats ==> KeyOf(db.chats[k]) != (data.platform, data.platformChatId)
    ensures var r := ImportNew(db, data, msgs, now);
            var id := db.lastChatId + 1;
            && (r.result.Ok? ==> id in r.db.chats && KeyOf(r.db.chats[id]) == (data.platform, data.platformChatId))
            && (r.result.Ok? ==> r.db.chats.Keys == db.chats.Keys + {id})
  {
    var created := CreateChat(db, data, now);
    if created.Ok? {
      var id := db.lastChatId + 1;
      InsertMessagesFrame(created.value.0, id, msgs, now);
      KeysOfUpdate(db.chats, id, NewChatRow(id, data, now));
    }
  }

  /** A successful import of a new key stores every returned row. */
  lemma ImportNewStored(db: Db, data: ChatInput, msgs: seq<MessageInput>, now: int)
    requires Valid(db)
    requires forall k :: k in db.chats ==> KeyOf(db.chats[k]) != (data.platform, data.platformChatId)
    ensures var r := ImportNew(db, data, msgs, now);
            r.result.Ok? ==> forall m :: m in r.result.value.1 ==> m.id in r.db.messages && r.db.messages[m.id] == m
  {
    var created := CreateChat(db, data, now);
    if created.Ok? {
      InsertMessagesStored(created.value.0, db.lastChatId + 1, msgs, now);
    }
  }

  /**
   * A new chat counts its messages: those already naming its id (there is
   * no foreign key) plus the inserted ones, and its `message_count` is that
   * number once one message was inserted.
   */
  lemma ImportNewCount(db: Db, data: ChatInput, msgs: seq<MessageInput>, now: int)
    requires Valid(db)
    requires forall k :: k in db.chats ==> KeyOf(db.chats[k]) != (data.platform, data.platformChatId)
    ensures var r := ImportNew(db, data, msgs, now);
            var id := db.lastChatId + 1;
            && (r.result.Ok? ==> |MessagesOf(r.db.messages, id)| == |MessagesOf(db.messages, id)| + |msgs|)
            && (r.result.Ok? && |msgs| > 0 ==> id in r.db.chats && r.db.chats[id].messageCount == |MessagesOf(r.db.messages, id)|)
  {
    var created := CreateChat(db, data, now);
    if created.Ok? {
      InsertMessagesCount(created.value.0, db.lastChatId + 1, msgs, now);
    }
  }

  /**
   * The first two steps for a stored key: `updateChat` with the import data
   * (it cannot fail: the key is the chat's own), then the clearing of the
   * chat's messages.
   */
  function Cleared(db: Db, id: int, data: ChatInput, now: int, resetCount: bool): (db2: Db)
    requires Valid(db) && id in db.chats && KeyOf(db.chats[id]) == (data.platform, data.platformChatId)
    ensures Valid(db2)
    ensures MessagesOf(db2.messages, id) == {}
    ensures db2.lastMessageId == db.lastMessageId && db2.lastChatId == db.lastChatId
    ensures db2.chats.Keys == db.chats.Keys
    ensures forall k :: k in db.chats && k != id ==> db2.chats[k] == db.chats[k]
    ensures forall k :: k in db.messages && db.messages[k].chatId != id ==> k in db2.messages && db2.messages[k] == db.messages[k]
    ensures db2.chats[id] == Patched(db.chats[id], PatchOf(data), now).(messageCount := if resetCount then 0 else db.chats[id].messageCount)
  {
    var updated := UpdateChat(db, id, PatchOf(data), now);
    assert updated.Ok? by { assert Patched(db.chats[id], PatchOf(data), now).platform == db.chats[id].platform; }
    var cleared := DeleteMessagesByChat(updated.value, id);
    if resetCount then cleared.(chats := cleared.chats[id := cleared.chats[id].(messageCount := 0)]) else cleared
  }

  /**
   * The branch for a stored key: update and clear, take the snapshot, insert
   * the new messages. As written (`resetCount` false), an import of no
   * messages leaves the old `message_count` on a chat that now has none.
   */
  function Reimport(db: Db, id: int, data: ChatInput, msgs: seq<MessageInput>, now: int, resetCount: bool): (r: Imported)
    requires Valid(db) && id in db.chats && KeyOf(db.chats[id]) == (data.platform, data.platformChatId)
    ensures Valid(r.db)
  {
    var db2 := Cleared(db, id, data, now, resetCount);
    var ins := InsertMessages(db2, id, msgs, now);
    Imported(ins.0, if ins.1.Ok? then Ok((SerializeChat(db2.chats[id]), ins.1.value)) else Err(ins.1.error))
  }

  /** The count a cleared chat keeps until a message is inserted. */
  function ClearedCount(row: ChatRow, resetCount: bool): int {
    if resetCount then 0 else row.messageCount
  }

  /**
   * A re-import touches only the chat it names: the same chat ids, every
   * other chat and every other chat's messages kept, and the chat itself
   * patched with the import data.
   */
  lemma ReimportFrame(db: Db, id: int, data: ChatInput, msgs: seq<MessageInput>, now: int, resetCount: bool)
    requires Valid(db) && id in db.chats && KeyOf(db.chats[id]) == (data.platform, data.platformChatId)
    ensures var r := Reimport(db, id, data, msgs, now, resetCount);
            && r.db.chats.Keys == db.chats.Keys
            && (forall k :: k in db.chats && k != id ==> r.db.chats[k] == db.chats[k])
            && (forall k :: k in db.messages && db.messages[k].chatId != id ==> k in r.db.messages && r.db.messages[k] == db.messages[k])
            && r.db.chats[id] == Patched(db.chats[id], PatchOf(data), now).(messageCount := r.db.chats[id].messageCount)
  {
    var db2 := Cleared(db, id, data, now, resetCount);
    InsertMessagesFrame(db2, id, msgs, now);
  }

  /**
   * A re-import fails exactly on a refused role; otherwise it returns the
   * chat as it stood after the clear, under the same id, and the inputs as rows.
   */
  lemma ReimportResult(db: Db, id: int, data: ChatInput, msgs: seq<MessageInput>, now: int, resetCount: bool)
    requires Valid(db) && id in db.chats && KeyOf(db.chats[id]) == (data.platform, data.platformChatId)
    ensures var r := Reimport(db, id, data, msgs, now, resetCount);
            && (r.result.Err? <==> SomeBadRole(msgs))
            && (r.result.Ok? ==> r.result.value.0.id == id && r.result.value.1 == NewRows(db.lastMessageId, id, msgs, now))
            && (r.result.Ok? ==>
                  r.result.value.0 == SerializeChat(Patched(db.chats[id], PatchOf(data), now).(messageCount := ClearedCount(db.chats[id], resetCount))))
  {
    var db2 := Cleared(db, id, data, now, resetCount);
    InsertMessagesRows(db2, id, msgs, now);
  }

  /** A successful re-import stores every returned row, and the chat has exactly the imported messages. */
  lemma ReimportStored(db: Db, id: int, data: ChatInput, msgs: seq<MessageInput>, now: int, resetCount: bool)
    requires Valid(db) && id in db.chats && KeyOf(db.chats[id]) == (data.platform, data.platformChatId)
    ensures var r := Reimport(db, id, data, msgs, now, resetCount);
            && (r.result.Ok? ==> forall m :: m in r.result.value.1 ==> m.id in r.db.messages && r.db.messages[m.id] == m)
            && (r.result.Ok? ==> |MessagesOf(r.db.messages, id)| == |msgs|)
  {
    var db2 := Cleared(db, id, data, now, resetCount);
    InsertMessagesStored(db2, id, msgs, now);
    InsertMessagesCount(db2, id, msgs, now);
  }

  /**
   * The count after a re-import: the number of imported messages once one
   * was inserted or the count was reset; with nothing inserted and no reset,
   * the old count on a chat that has no messages left.
   */
  lemma ReimportCount(db: Db, id: int, data: ChatInput, msgs: seq<MessageInput>, now: int, resetCount: bool)
    requires Valid(db) && id in db.chats && KeyOf(db.chats[id]) == (data.platform, data.platformChatId)
    ensures var r := Reimport(db, id, data, msgs, now, resetCount);
            && (r.result.Ok? && (|msgs| > 0 || resetCount) ==> r.db.chats[id].messageCount == |msgs|)
            && (!resetCount && |msgs| == 0 ==> r.db.chats[id].messageCount == db.chats[id].messageCount && MessagesOf(r.db.messages, id) == {})
  {
    var db2 := Cleared(db, id, data, now, resetCount);
    InsertMessagesCount(db2, id, msgs, now);
  }

  // ---------------------------------------------------------------------------
  // What an import does
  // ---------------------------------------------------------------------------

  /** The row found for a key is the chat stored under its own id. */
  lemma FoundIsStored(db: Db, platform: string, platformChatId: string)
    requires Valid(db)
    ensures var r := RowByKey(db, platform, platformChatId);
            r.Some? ==> r.value.id in db.chats && db.chats[r.value.id] == r.value
  {
    var r := RowByKey(db, platform, platformChatId);
    if r.Some? {
      var k :| k in db.chats && db.chats[k] == r.value;
    }
  }

  /** The stored chat holding a key, when there is one. */
  lemma KeyHolder(db: Db, k: int, platform: string, platformChatId: string)
    requires Valid(db) && k in db.chats && KeyOf(db.chats[k]) == (platform, platformChatId)
    ensures RowByKey(db, platform, platformChatId) == Some(db.chats[k])
  {
    var row := RowByKey(db, platform, platformChatId).value;
    var k' :| k' in db.chats && db.chats[k'] == row;
  }

  /** An import fails exactly when the platform or some message role breaks a CHECK constraint. */
  lemma ImportFailsOnlyOnChecks(db: Db, data: ChatInput, msgs: seq<MessageInput>, now: int, resetCount: bool)
    requires Valid(db)
    ensures Import(db, data, msgs, now, resetCount).result.Err? <==> !ChatPlatform(data.platform) || SomeBadRole(msgs)
  {
    match RowByKey(db, data.platform, data.platformChatId)
    case Some(existing) =>
      FoundIsStored(db, data.platform, data.platformChatId);
      ReimportResult(db, existing.id, data, msgs, now, resetCount);
    case None =>
      ImportNewResult(db, data, msgs, now);
  }

  /** A successful import leaves a chat under the imported key, with the id it reports. */
  lemma ImportKeepsKey(db: Db, data: ChatInput, msgs: seq<MessageInput>, now: int, resetCount: bool)
    requires Valid(db)
    ensures var r := Import(db, data, msgs, now, resetCount);
            r.result.Ok? ==>
              var id := r.result.value.0.id;
              id in r.db.chats && KeyOf(r.db.chats[id]) == (data.platform, data.platformChatId)
  {
    match RowByKey(db, data.platform, data.platformChatId)
    case Some(existing) =>
      FoundIsStored(db, data.platform, data.platformChatId);
      ReimportResult(db, existing.id, data, msgs, now, resetCount);
      ReimportFrame(db, existing.id, data, msgs, now, resetCount);
    case None =>
      ImportNewResult(db, data, msgs, now);
      ImportNewChat(db, data, msgs, now);
  }

  /** A successful import returns the input messages, in order, as rows of the chat it reports. */
  lemma ImportReturnsInputs(db: Db, data: ChatInput, msgs: seq<MessageInput>, now: int, resetCount: bool)
    requires Valid(db)
    ensures var r := Import(db, data, msgs, now, resetCount);
            r.result.Ok? ==> r.result.value.1 == NewRows(db.lastMessageId, r.result.value.0.id, msgs, now)
  {
    match RowByKey(db, data.platform, data.platformChatId)
    case Some(existing) =>
      FoundIsStored(db, data.platform, data.platformChatId);
      ReimportResult(db, existing.id, data, msgs, now, resetCount);
    case None =>
      ImportNewResult(db, data, msgs, now);
  }

  /** Every message row a successful import returns is stored under its id. */
  lemma ImportStoresRows(db: Db, data: ChatInput, msgs: seq<MessageInput>, now: int, resetCount: bool)
    requires Valid(db)
    ensures var r := Import(db, data, msgs, now, resetCount);
            r.result.Ok? ==> forall m :: m in r.result.value.1 ==> m.id in r.db.messages && r.db.messages[m.id] == m
  {
    match RowByKey(db, data.platform, data.platformChatId)
    case Some(existing) =>
      FoundIsStored(db, data.platform, data.platformChatId);
      ReimportStored(db, existing.id, data, msgs, now, resetCount);
    case None =>
      ImportNewStored(db, data, msgs, now);
  }

  /** Once an import inserted a message, the chat's `message_count` is its number of messages. */
  lemma ImportCountsMessages(db: Db, data: ChatInput, msgs: seq<MessageInput>, now: int, resetCount: bool)
    requires Valid(db)
    ensures var r := Import(db, data, msgs, now, resetCount);
            r.result.Ok? && |msgs| > 0 ==>
              var id := r.result.value.0.id;
              id in r.db.chats && r.db.chats[id].messageCount == |MessagesOf(r.db.messages, id)|
  {
    match RowByKey(db, data.platform, data.platformChatId)
    case Some(existing) =>
      FoundIsStored(db, data.platform, data.platformChatId);
      ReimportCountsMessages(db, existing.id, data, msgs, now, resetCount);
    case None =>
      ImportNewCountsMessages(db, data, msgs, now);
  }

  /** `ImportCountsMessages` for a stored key. */
  lemma ReimportCountsMessages(db: Db, id: int, data: ChatInput, msgs: seq<MessageInput>, now: int, resetCount: bool)
    requires Valid(db) && id in db.chats && KeyOf(db.chats[id]) == (data.platform, data.platformChatId)
    ensures var r := Reimport(db, id, data, msgs, now, resetCount);
            r.result.Ok? && |msgs| > 0 ==>
              r.result.value.0.id == id && id in r.db.chats && r.db.chats[id].messageCount == |MessagesOf(r.db.messages, id)|
  {
    ReimportResult(db, id, data, msgs, now, resetCount);
    ReimportCount(db, id, data, msgs, now, resetCount);
    ReimportStored(db, id, data, msgs, now, resetCount);
  }

  /** `ImportCountsMessages` for a new key. */
  lemma ImportNewCountsMessages(db: Db, data: ChatInput, msgs: seq<MessageInput>, now: int)
    requires Valid(db)
    requires forall k :: k in db.chats ==> KeyOf(db.chats[k]) != (data.platform, data.platformChatId)
    ensures var r := ImportNew(db, data, msgs, now);
            var id := db.lastChatId + 1;
            r.result.Ok? && |msgs| > 0 ==>
              r.result.value.0.id == id && id in r.db.chats && r.db.chats[id].messageCount == |MessagesOf(r.db.messages, id)|
  {
    ImportNewResult(db, data, msgs, now);
    ImportNewCount(db, data, msgs, now);
  }

  /**
   * Importing a stored key is an update of that chat: no chat is added, the
   * chat keeps its id, and its messages are exactly the imported ones.
   */
  lemma ImportUpsertsStoredKey(db: Db, k: int, data: ChatInput, msgs: seq<MessageInput>, now: int, resetCount: bool)
    requires Valid(db) && k in db.chats && KeyOf(db.chats[k]) == (data.platform, data.platformChatId)
    ensures var r := Import(db, data, msgs, now, resetCount);
            && r.db.chats.Keys == db.chats.Keys
            && (r.result.Ok? ==> r.result.value.0.id == k && |MessagesOf(r.db.messages, k)| == |msgs|)
  {
    KeyHolder(db, k, data.platform, data.platformChatId);
    ReimportFrame(db, k, data, msgs, now, resetCount);
    ReimportResult(db, k, data, msgs, now, resetCount);
    ReimportStored(db, k, data, msgs, now, resetCount);
  }

  /**
   * Importing a new key adds one chat under the next id; the returned
   * snapshot still says 0 messages, whatever was inserted.
   */
  lemma ImportAddsNewKey(db: Db, data: ChatInput, msgs: seq<MessageInput>, now: int, resetCount: bool)
    requires Valid(db)
    requires forall k :: k in db.chats ==> KeyOf(db.chats[k]) != (data.platform, data.platformChatId)
    ensures var r := Import(db, data, msgs, now, resetCount);
            r.result.Ok? ==>
              && r.result.value.0.id == db.lastChatId + 1
              && r.db.chats.Keys == db.chats.Keys + {db.lastChatId + 1}
              && r.result.value.0.messageCount == 0
              && |MessagesOf(r.db.messages, db.lastChatId + 1)| == |MessagesOf(db.messages, db.lastChatId + 1)| + |msgs|
  {
    ImportNewResult(db, data, msgs, now);
    ImportNewChat(db, data, msgs, now);
    ImportNewCount(db, data, msgs, now);
  }

  /**
   * As written, re-importing a chat with no messages deletes its messages
   * but leaves the old `message_count`: a chat whose count was right and
   * positive ends with a positive count and no messages.
   */
  lemma EmptyReimportKeepsStaleCount(db: Db, k: int, data: ChatInput, now: int)
    requires Valid(db) && k in db.chats && KeyOf(db.chats[k]) == (data.platform, data.platformChatId)
    requires db.chats[k].messageCount == |MessagesOf(db.messages, k)| > 0
    ensures var r := CreateChatWithMessages(db, data, [], now);
            && r.result.Ok?
            && k in r.db.chats && MessagesOf(r.db.messages, k) == {}
            && r.db.chats[k].messageCount > 0
  {
    KeyHolder(db, k, data.platform, data.platformChatId);
    ReimportFrame(db, k, data, [], now, false);
    ReimportResult(db, k, data, [], now, false);
    ReimportCount(db, k, data, [], now, false);
  }

  /** With the count reset, a re-imported chat's `message_count` is exactly its number of messages. */
  lemma ImportChatCountIsExact(db: Db, k: int, data: ChatInput, msgs: seq<MessageInput>, now: int)
    requires Valid(db) && k in db.chats && KeyOf(db.chats[k]) == (data.platform, data.platformChatId)
    ensures var r := ImportChat(db, data, msgs, now);
            r.result.Ok? ==> k in r.db.chats && r.db.chats[k].messageCount == |MessagesOf(r.db.messages, k)| == |msgs|
  {
    KeyHolder(db, k, data.platform, data.platformChatId);
    ReimportFrame(db, k, data, msgs, now, true);
    ReimportStored(db, k, data, msgs, now, true);
    ReimportCount(db, k, data, msgs, now, true);
  }
}
