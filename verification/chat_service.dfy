/**
 * `ChatService` of chat_aggregator/backend/chat.ts over the chat store: the
 * registry of scrapers (`sources`, a JavaScript `Map` keyed by a composed
 * string), loading a user's saved accounts into it, syncing every source,
 * chat creation with both flags off, and the statistics aggregation.
 *
 * The scrapers themselves drive a browser; here a source is what it would
 * answer: unavailable, failing with an error text, or listing chats each with
 * its messages (or the error fetching them raised). The database the service
 * calls is the template store, whose `createChatWithMessages` ignores the
 * account id the service passes along.
 */
module ChatService {
  import opened Wrappers
  import opened Json
  import opened JsText
  import opened ChatStore
  import PlatformAccounts
  import InsertionOrder

  // ---------------------------------------------------------------------------
  // The source registry
  // ---------------------------------------------------------------------------

  /** A registered scraper: its platform, the cookies it was built with, and the account it syncs for. */
  datatype Entry = Entry(platform: string, cookies: Json, accountId: int)

  /** The `sources` map. */
  type Registry = InsertionOrder.OrderedMap<Entry>

  /** The platforms a scraper exists for. */
  predicate Supported(platform: string) {
    platform in {"chatgpt", "claude", "grok", "gemini"}
  }

  /** `${account.platform}-${account.account_name}`. */
  function SourceName(a: PlatformAccounts.Account): string {
    a.platform + "-" + a.accountName
  }

  function EntryOf(a: PlatformAccounts.Account): Entry {
    Entry(a.platform, a.cookies, a.id)
  }

  /** The registry after `loadUserSources`, and the message it threw, if it threw. */
  datatype Loaded = Loaded(reg: Registry, error: Option<string>)

  /** The loop of `loadUserSources`: registers accounts in order and throws at the first unsupported platform. */
  function RegisterAll(reg: Registry, accounts: seq<PlatformAccounts.Account>): (r: Loaded)
    requires InsertionOrder.Valid(reg)
    ensures InsertionOrder.Valid(r.reg)
    decreases |accounts|
  {
    if |accounts| == 0 then Loaded(reg, None)
    else if !Supported(accounts[0].platform) then Loaded(reg, Some("Unsupported platform: " + accounts[0].platform))
    else RegisterAll(InsertionOrder.Set(reg, SourceName(accounts[0]), EntryOf(accounts[0])), accounts[1..])
  }

  /** The loop throws exactly when some account is on a platform without a scraper. */
  lemma {:induction false} RegisterAllThrowsIffUnsupported(reg: Registry, accounts: seq<PlatformAccounts.Account>)
    requires InsertionOrder.Valid(reg)
    ensures RegisterAll(reg, accounts).error.None? <==> forall a :: a in accounts ==> Supported(a.platform)
    decreases |accounts|
  {
    if |accounts| > 0 {
      assert forall a :: a in accounts <==> a == accounts[0] || a in accounts[1..] by {
        assert accounts == [accounts[0]] + accounts[1..];
      }
      if Supported(accounts[0].platform) {
        var next := InsertionOrder.Set(reg, SourceName(accounts[0]), EntryOf(accounts[0]));
        assert RegisterAll(reg, accounts) == RegisterAll(next, accounts[1..]);
        RegisterAllThrowsIffUnsupported(next, accounts[1..]);
      }
    }
  }

  /** The loop only adds or overwrites entries; a key registered before is registered after. */
  lemma {:induction false} RegisterAllKeeps(reg: Registry, accounts: seq<PlatformAccounts.Account>, key: string)
    requires InsertionOrder.Valid(reg) && InsertionOrder.Get(reg, key).Some?
    ensures InsertionOrder.Get(RegisterAll(reg, accounts).reg, key).Some?
    decreases |accounts|
  {
    if |accounts| > 0 && Supported(accounts[0].platform) {
      RegisterAllKeeps(InsertionOrder.Set(reg, SourceName(accounts[0]), EntryOf(accounts[0])), accounts[1..], key);
    }
  }

  /** `loadUserSources(userId)`: the user's accounts in the order the store lists them, registered by `platform-name`. */
  function LoadUserSources(reg: Registry, st: PlatformAccounts.Accounts, userId: int): (r: Loaded)
    requires InsertionOrder.Valid(reg)
    ensures InsertionOrder.Valid(r.reg)
  {
    RegisterAll(reg, PlatformAccounts.GetPlatformAccountsByUserId(st, userId))
  }

  /** Loading throws exactly when one of the user's stored accounts is on an unsupported platform. */
  lemma LoadThrowsIffUnsupported(reg: Registry, st: PlatformAccounts.Accounts, userId: int)
    requires InsertionOrder.Valid(reg)
    ensures LoadUserSources(reg, st, userId).error.None? <==>
            forall k :: k in st.rows && st.rows[k].userId == userId ==> Supported(st.rows[k].platform)
  {
    var accounts := PlatformAccounts.GetPlatformAccountsByUserId(st, userId);
    PlatformAccounts.AccountsOfUser(st, userId);
    RegisterAllThrowsIffUnsupported(reg, accounts);
    assert forall k :: k in st.rows && st.rows[k].userId == userId ==> st.rows[k] in accounts;
  }

  /** Loading never drops a source that was already registered, whether or not it throws. */
  lemma LoadKeepsSources(reg: Registry, st: PlatformAccounts.Accounts, userId: int, key: string)
    requires InsertionOrder.Valid(reg) && InsertionOrder.Get(reg, key).Some?
    ensures InsertionOrder.Get(LoadUserSources(reg, st, userId).reg, key).Some?
  {
    RegisterAllKeeps(reg, PlatformAccounts.GetPlatformAccountsByUserId(st, userId), key);
  }

  /** The last account in `accounts` registered under `key`, if any. */
  function LastNamed(accounts: seq<PlatformAccounts.Account>, key: string): Option<PlatformAccounts.Account>
    decreases |accounts|
  {
    if |accounts| == 0 then None
    else
      var later := LastNamed(accounts[1..], key);
      if later.Some? then later
      else if SourceName(accounts[0]) == key then Some(accounts[0]) else None
  }

  /**
   * A load that does not throw leaves under every key the entry of the last
   * account with that name (a later account overwrites an earlier one), and
   * every other key as it was.
   */
  lemma {:induction false} RegisterAllLastWins(reg: Registry, accounts: seq<PlatformAccounts.Account>, key: string)
    requires InsertionOrder.Valid(reg) && RegisterAll(reg, accounts).error.None?
    ensures var r := RegisterAll(reg, accounts).reg;
            && (LastNamed(accounts, key).Some? ==> InsertionOrder.Get(r, key) == Some(EntryOf(LastNamed(accounts, key).value)))
            && (LastNamed(accounts, key).None? ==> InsertionOrder.Get(r, key) == InsertionOrder.Get(reg, key))
    decreases |accounts|
  {
    if |accounts| > 0 {
      RegisterAllLastWins(InsertionOrder.Set(reg, SourceName(accounts[0]), EntryOf(accounts[0])), accounts[1..], key);
    }
  }

  /** The index of the first account on an unsupported platform (`|accounts|` if there is none). */
  function FirstUnsupported(accounts: seq<PlatformAccounts.Account>): (i: nat)
    ensures i <= |accounts|
    ensures i < |accounts| ==> !Supported(accounts[i].platform)
    ensures forall j :: 0 <= j < i ==> Supported(accounts[j].platform)
    decreases |accounts|
  {
    if |accounts| == 0 || !Supported(accounts[0].platform) then 0
    else 1 + FirstUnsupported(accounts[1..])
  }

  /**
   * A load that throws has already registered every account before the
   * unsupported one, exactly as a load of that prefix alone would, and its
   * message names the platform.
   */
  lemma {:induction false} RegisterAllThrowsAfterPrefix(reg: Registry, accounts: seq<PlatformAccounts.Account>)
    requires InsertionOrder.Valid(reg) && RegisterAll(reg, accounts).error.Some?
    ensures var i := FirstUnsupported(accounts);
            && i < |accounts|
            && RegisterAll(reg, accounts).reg == RegisterAll(reg, accounts[..i]).reg
            && RegisterAll(reg, accounts).error == Some("Unsupported platform: " + accounts[i].platform)
    decreases |accounts|
  {
    if Supported(accounts[0].platform) {
      var next := InsertionOrder.Set(reg, SourceName(accounts[0]), EntryOf(accounts[0]));
      RegisterAllThrowsAfterPrefix(next, accounts[1..]);
      var i := FirstUnsupported(accounts);
      assert accounts[..i][1..] == accounts[1..][..i - 1];
    } else {
      assert accounts[..0] == [];
    }
  }

  /** `registerSource(source, accountId)`: files the source under `platform-accountId`, touching no other key. */
  function RegisterSource(reg: Registry, platform: string, cookies: Json, accountId: int): (r: Registry)
    requires InsertionOrder.Valid(reg)
    ensures InsertionOrder.Valid(r)
    ensures InsertionOrder.Get(r, platform + "-" + IntToString(accountId)) == Some(Entry(platform, cookies, accountId))
    ensures forall k :: k != platform + "-" + IntToString(accountId) ==> InsertionOrder.Get(r, k) == InsertionOrder.Get(reg, k)
  {
    InsertionOrder.Set(reg, platform + "-" + IntToString(accountId), Entry(platform, cookies, accountId))
  }

  // ---------------------------------------------------------------------------
  // Syncing
  // ---------------------------------------------------------------------------

  /** One chat a source lists, with its messages or the error `getMessages` threw. */
  datatype Fetched = Fetched(data: ChatInput, messages: Result<seq<MessageInput>, string>)

  /** What a source answers: `isAvailable()` false, a thrown error, or its chats. */
  datatype Behaviour = Unavailable | Broken(error: string) | Lists(chats: seq<Fetched>)

  /** The running result of `syncAllSources`: the store, the counters, and the sources closed so far. */
  datatype Tally = Tally(db: Db, success: nat, errors: seq<string>, closed: seq<string>)

  /** The text of a rejected INSERT, as the caught error prints it. */
  function SqlErrorText(e: SqlError): string {
    match e
    case CheckViolation => "Error: SQLITE_CONSTRAINT: CHECK constraint failed"
    case UniqueViolation => "Error: SQLITE_CONSTRAINT: UNIQUE constraint failed"
  }

  /**
   * The inner `try`: fetch the messages, import the chat, count a success or
   * record `key/id: error`. The chats a source lists are full rows with
   * `message_count: 0`, so the import is `ChatStore.ImportChat`.
   */
  function SyncChat(t: Tally, key: string, c: Fetched, now: int): (r: Tally)
    requires Valid(t.db)
    ensures Valid(r.db) && r.closed == t.closed
    ensures r.success + |r.errors| == t.success + |t.errors| + 1
    ensures r.success == t.success + 1 <==> c.messages.Ok? && ChatPlatform(c.data.platform) && !SomeBadRole(c.messages.value)
    ensures t.errors <= r.errors
  {
    match c.messages
    case Err(e) => t.(errors := t.errors + [key + "/" + c.data.platformChatId + ": " + e])
    case Ok(msgs) =>
      ImportFailsOnlyOnChecks(t.db, c.data, msgs, now, true);
      var imported := ImportChat(t.db, c.data, msgs, now);
      if imported.result.Ok? then t.(db := imported.db, success := t.success + 1)
      else t.(db := imported.db, errors := t.errors + [key + "/" + c.data.platformChatId + ": " + SqlErrorText(imported.result.error)])
  }

  /** The chats of one source, in order. */
  function SyncChats(t: Tally, key: string, chats: seq<Fetched>, now: int): (r: Tally)
    requires Valid(t.db)
    ensures Valid(r.db) && r.closed == t.closed
    ensures t.errors <= r.errors
    decreases |chats|
  {
    if |chats| == 0 then t else SyncChats(SyncChat(t, key, chats[0], now), key, chats[1..], now)
  }

  /** Every listed chat ends as exactly one success or exactly one error. */
  lemma {:induction false} SyncChatsAccounts(t: Tally, key: string, chats: seq<Fetched>, now: int)
    requires Valid(t.db)
    ensures var r := SyncChats(t, key, chats, now);
            r.success + |r.errors| == t.success + |t.errors| + |chats|
    decreases |chats|
  {
    if |chats| > 0 {
      SyncChatsAccounts(SyncChat(t, key, chats[0], now), key, chats[1..], now);
    }
  }

  /** One iteration of the outer loop, with the `finally` that closes the source. */
  function SyncSource(t: Tally, key: string, b: Behaviour, now: int): (r: Tally)
    requires Valid(t.db)
    ensures Valid(r.db) && r.closed == t.closed + [key]
    ensures t.errors <= r.errors
  {
    var done := match b
      case Unavailable => t.(errors := t.errors + [key + ": Source not available"])
      case Broken(e) => t.(errors := t.errors + [key + ": " + e])
      case Lists(chats) => SyncChats(t, key, chats, now);
    done.(closed := done.closed + [key])
  }

  /** An unavailable source adds exactly its one error, no success and no write. */
  lemma UnavailableAddsOneError(t: Tally, key: string, now: int)
    requires Valid(t.db)
    ensures var r := SyncSource(t, key, Unavailable, now);
            && r.errors == t.errors + [key + ": Source not available"]
            && r.success == t.success && r.db == t.db
  {
  }

  /** A source that lists chats accounts for each of them once, as a success or an error. */
  lemma ListingAccountsForEveryChat(t: Tally, key: string, chats: seq<Fetched>, now: int)
    requires Valid(t.db)
    ensures var r := SyncSource(t, key, Lists(chats), now);
            r.success + |r.errors| == t.success + |t.errors| + |chats|
  {
    SyncChatsAccounts(t, key, chats, now);
  }

  /** The outer loop over the registry's keys in insertion order, as a fold from the front. */
  function SyncAll(t: Tally, keys: seq<string>, behave: string -> Behaviour, now: int): (r: Tally)
    requires Valid(t.db)
    ensures Valid(r.db)
    ensures r.closed == t.closed + keys
    ensures t.errors <= r.errors
    decreases |keys|
  {
    if |keys| == 0 then t
    else
      var r := SyncAll(SyncSource(t, keys[0], behave(keys[0]), now), keys[1..], behave, now);
      assert keys == [keys[0]] + keys[1..];
      r
  }

  /**
   * `syncAllSources`: every registered source, in insertion order, is tried
   * once and closed once; the result is the fold `SyncAll`.
   */
  method SyncAllSources(db: Db, reg: Registry, behave: string -> Behaviour, now: int) returns (r: Tally)
    requires Valid(db)
    ensures r == SyncAll(Tally(db, 0, [], []), reg.keys, behave, now)
    ensures Valid(r.db)
    ensures r.closed == reg.keys
  {
    r := Tally(db, 0, [], []);
    var i := 0;
    while i < |reg.keys|
      invariant 0 <= i <= |reg.keys|
      invariant Valid(r.db)
      invariant SyncAll(r, reg.keys[i..], behave, now) == SyncAll(Tally(db, 0, [], []), reg.keys, behave, now)
    {
      var key := reg.keys[i];
      assert reg.keys[i..][1..] == reg.keys[i + 1..];
      r := SyncSource(r, key, behave(key), now);
      i := i + 1;
    }
  }

  // ---------------------------------------------------------------------------
  // Chat creation and statistics
  // ---------------------------------------------------------------------------

  /**
   * `ChatService.createChat`: the request with `is_favorite` and
   * `is_archived` forced to false; it fails exactly when the store would
   * refuse the request as given.
   */
  function CreateChat(db: Db, data: ChatInput, now: int): (r: Result<(Db, Chat), SqlError>)
    requires Valid(db)
    ensures r.Err? <==> ChatStore.CreateChat(db, data, now).Err?
    ensures r.Ok? ==> !r.value.1.isFavorite && !r.value.1.isArchived
    ensures r.Ok? ==> r.value.1.title == data.title && r.value.1.platform == data.platform && r.value.1.platformChatId == data.platformChatId
    ensures r.Ok? ==> var id := r.value.1.id; id in r.value.0.chats && !r.value.0.chats[id].isFavorite && !r.value.0.chats[id].isArchived
  {
    ChatStore.CreateChat(db, data.(isFavorite := Some(false), isArchived := Some(false)), now)
  }

  /** `platformBreakdown`: per platform, in the order platforms were first seen. */
  type Breakdown = InsertionOrder.OrderedMap<nat>

  /** The breakdown of a list of chats, built left to right as the `forEach` does. */
  function BreakdownOf(chats: seq<Chat>): (r: Breakdown)
    ensures InsertionOrder.Valid(r)
    decreases |chats|
  {
    if |chats| == 0 then InsertionOrder.EmptyMap() else InsertionOrder.Bump(BreakdownOf(chats[..|chats| - 1]), chats[|chats| - 1].platform)
  }

  /** The number of chats on platform `p`. */
  function OnPlatform(chats: seq<Chat>, p: string): nat
    decreases |chats|
  {
    if |chats| == 0 then 0
    else OnPlatform(chats[..|chats| - 1], p) + (if chats[|chats| - 1].platform == p then 1 else 0)
  }

  function Favorites(chats: seq<Chat>): nat
    decreases |chats|
  {
    if |chats| == 0 then 0
    else Favorites(chats[..|chats| - 1]) + (if chats[|chats| - 1].isFavorite then 1 else 0)
  }

  function MessagesTotal(chats: seq<Chat>): int
    decreases |chats|
  {
    if |chats| == 0 then 0 else MessagesTotal(chats[..|chats| - 1]) + chats[|chats| - 1].messageCount
  }

  /** The breakdown lists a platform exactly when some chat is on it, with the number of chats on it. */
  lemma {:induction false} BreakdownCounts(chats: seq<Chat>, p: string)
    ensures InsertionOrder.Get(BreakdownOf(chats), p) == if OnPlatform(chats, p) == 0 then None else Some(OnPlatform(chats, p))
    decreases |chats|
  {
    if |chats| > 0 {
      var init := chats[..|chats| - 1];
      var last := chats[|chats| - 1].platform;
      var before := BreakdownOf(init);
      BreakdownCounts(init, p);
      assert BreakdownOf(chats) == InsertionOrder.Bump(before, last);
      assert OnPlatform(chats, p) == OnPlatform(init, p) + (if last == p then 1 else 0);
      if last == p {
        assert InsertionOrder.Get(BreakdownOf(chats), p) == Some(if p in before.values then before.values[p] + 1 else 1);
      } else {
        assert InsertionOrder.Get(BreakdownOf(chats), p) == InsertionOrder.Get(before, p);
      }
    }
  }

  /** The breakdown's counts add up to the number of chats. */
  lemma {:induction false} BreakdownSum(chats: seq<Chat>)
    ensures InsertionOrder.Sum(BreakdownOf(chats)) == |chats|
    decreases |chats|
  {
    if |chats| > 0 {
      var init := chats[..|chats| - 1];
      BreakdownSum(init);
      InsertionOrder.BumpSum(BreakdownOf(init), chats[|chats| - 1].platform);
    }
  }

  /** Some chat is on `p` exactly when `p` has a positive count. */
  lemma {:induction false} OnPlatformPositive(chats: seq<Chat>, p: string)
    ensures OnPlatform(chats, p) > 0 <==> exists i :: 0 <= i < |chats| && chats[i].platform == p
    decreases |chats|
  {
    if |chats| > 0 {
      var init := chats[..|chats| - 1];
      OnPlatformPositive(init, p);
      if OnPlatform(init, p) > 0 {
        var i :| 0 <= i < |init| && init[i].platform == p;
        assert chats[i] == init[i];
      }
      if exists i :: 0 <= i < |chats| && chats[i].platform == p {
        var i :| 0 <= i < |chats| && chats[i].platform == p;
        if i < |init| {
          assert init[i] == chats[i];
        }
      }
    }
  }

  /** A platform is in the breakdown exactly when one of the chats is on it. */
  lemma BreakdownPlatforms(chats: seq<Chat>, p: string)
    ensures InsertionOrder.Get(BreakdownOf(chats), p).Some? <==> exists i :: 0 <= i < |chats| && chats[i].platform == p
  {
    BreakdownCounts(chats, p);
    OnPlatformPositive(chats, p);
  }

  /** At most every chat is a favourite. */
  lemma {:induction false} FavoritesAtMostAll(chats: seq<Chat>)
    ensures Favorites(chats) <= |chats|
    decreases |chats|
  {
    if |chats| > 0 {
      FavoritesAtMostAll(chats[..|chats| - 1]);
    }
  }

  /** What `getStats` returns. */
  datatype Stats = Stats(totalChats: nat, totalMessages: int, platformBreakdown: Breakdown, favoriteCount: nat)

  /**
   * The `forEach` of `getStats` over a list of chats: the breakdown counts
   * each platform's chats and sums to the total, the favourites are counted
   * and never exceed it, and the message total adds up the stored counts.
   */
  method StatsOf(chats: seq<Chat>) returns (s: Stats)
    ensures s.totalChats == |chats|
    ensures s.platformBreakdown == BreakdownOf(chats)
    ensures forall p :: InsertionOrder.Get(s.platformBreakdown, p) == if OnPlatform(chats, p) == 0 then None else Some(OnPlatform(chats, p))
    ensures InsertionOrder.Sum(s.platformBreakdown) == s.totalChats
    ensures s.favoriteCount == Favorites(chats) <= s.totalChats
    ensures s.totalMessages == MessagesTotal(chats)
  {
    var breakdown: Breakdown := InsertionOrder.EmptyMap();
    var favorites := 0;
    var messages := 0;
    var i := 0;
    while i < |chats|
      invariant 0 <= i <= |chats|
      invariant breakdown == BreakdownOf(chats[..i])
      invariant favorites == Favorites(chats[..i])
      invariant messages == MessagesTotal(chats[..i])
    {
      assert chats[..i + 1][..i] == chats[..i];
      breakdown := InsertionOrder.Bump(breakdown, chats[i].platform);
      if chats[i].isFavorite {
        favorites := favorites + 1;
      }
      messages := messages + chats[i].messageCount;
      i := i + 1;
    }
    assert chats[..i] == chats;
    forall p ensures InsertionOrder.Get(breakdown, p) == if OnPlatform(chats, p) == 0 then None else Some(OnPlatform(chats, p)) {
      BreakdownCounts(chats, p);
    }
    BreakdownSum(chats);
    FavoritesAtMostAll(chats);
    s := Stats(|chats|, messages, breakdown, favorites);
  }

  /** `getStats`: the statistics of every stored chat; the total is the number of rows. */
  method GetStats(db: Db) returns (s: Stats)
    ensures s.totalChats == |db.chats|
    ensures InsertionOrder.Sum(s.platformBreakdown) == s.totalChats
    ensures s.favoriteCount == Favorites(GetChats(db, NoFilters)) <= s.totalChats
    ensures s.totalMessages == MessagesTotal(GetChats(db, NoFilters))
    ensures s.platformBreakdown == BreakdownOf(GetChats(db, NoFilters))
  {
    var chats := GetChats(db, NoFilters);
    GetChatsListsAll(db);
    s := StatsOf(chats);
  }
}
