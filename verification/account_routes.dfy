/**
 * The platform-account routes of template/backend/main.ts: listing a user's
 * accounts without their cookies, creating one after validating the body,
 * and updating or deleting one only when it belongs to the caller. Every
 * write is followed by `loadUserSources`, so the server state is the
 * account table together with the chat service's source registry.
 *
 * A JSON body field is `Option<Json>` (`None` when the key is absent); the
 * account name is taken as text. A thrown error inside a handler is caught
 * and answered with 500 and its message; nothing written before the throw
 * is undone.
 */
module AccountRoutes {
  import opened Wrappers
  import opened Json
  import opened JsText
  import opened PlatformAccounts
  import ChatService
  import InsertionOrder

  /** The account table and the registry `loadUserSources` fills. */
  datatype Server = Server(accounts: Accounts, reg: ChatService.Registry)

  predicate Ready(srv: Server) {
    PlatformAccounts.Valid(srv.accounts) && InsertionOrder.Valid(srv.reg)
  }

  /** The status a handler sends, its payload or error text, and the server after it. */
  datatype Reply<T> = Reply(srv: Server, status: int, body: Result<T, string>)

  /** What the listing and the create response show of an account. */
  datatype AccountSummary = AccountSummary(id: int, platform: string, accountName: string, createdAt: int)

  function Summary(a: Account): AccountSummary {
    AccountSummary(a.id, a.platform, a.accountName, a.createdAt)
  }

  /**
   * `GET /platform-accounts`: one summary per account of the caller and
   * none of anyone else's; a summary has no cookies field at all.
   */
  function ListAccountsRoute(srv: Server, userId: int): (r: Reply<seq<AccountSummary>>)
    ensures r.srv == srv && r.status == 200 && r.body.Ok?
    ensures forall s :: s in r.body.value <==> exists k :: k in srv.accounts.rows && srv.accounts.rows[k].userId == userId && s == Summary(srv.accounts.rows[k])
  {
    var accounts := GetPlatformAccountsByUserId(srv.accounts, userId);
    var summaries := Summaries(accounts);
    AccountsOfUser(srv.accounts, userId);
    assert forall s :: s in summaries ==> exists k :: k in srv.accounts.rows && srv.accounts.rows[k].userId == userId && s == Summary(srv.accounts.rows[k]) by {
      forall s | s in summaries
        ensures exists k :: k in srv.accounts.rows && srv.accounts.rows[k].userId == userId && s == Summary(srv.accounts.rows[k])
      {
        var a :| a in accounts && s == Summary(a);
        var k :| k in srv.accounts.rows && srv.accounts.rows[k] == a;
      }
    }
    assert forall k :: k in srv.accounts.rows && srv.accounts.rows[k].userId == userId ==> Summary(srv.accounts.rows[k]) in summaries by {
      forall k | k in srv.accounts.rows && srv.accounts.rows[k].userId == userId
        ensures Summary(srv.accounts.rows[k]) in summaries
      {
        assert srv.accounts.rows[k] in accounts;
      }
    }
    Reply(srv, 200, Ok(summaries))
  }

  /** `accounts.map(account => ({ id, platform, account_name, created_at }))`. */
  function Summaries(accounts: seq<Account>): (r: seq<AccountSummary>)
    ensures |r| == |accounts|
    ensures forall s :: s in r <==> exists a :: a in accounts && s == Summary(a)
  {
    if |accounts| == 0 then [] else [Summary(accounts[0])] + Summaries(accounts[1..])
  }

  // ---------------------------------------------------------------------------
  // Body validation
  // ---------------------------------------------------------------------------

  /** `validPlatforms.includes(platform)`: only these four strings pass. */
  predicate ValidPlatform(platform: Json) {
    platform.JStr? && ChatService.Supported(platform.s)
  }

  /** A cookie the loop lets through: `cookie.name` and `cookie.value` are both truthy. */
  predicate CookieComplete(c: Json) {
    c.JObj? && "name" in c.fields && Truthy(c.fields["name"]) && "value" in c.fields && Truthy(c.fields["value"])
  }

  /** Why the cookie loop stopped: a cookie lacking a field (400), or `null.name` throwing (500). */
  datatype CookieFault = MissingField | ThrewOn(message: string)

  /** The cookie at `i` is the first one that is not complete. */
  predicate FirstIncomplete(cookies: seq<Json>, i: int) {
    0 <= i < |cookies| && !CookieComplete(cookies[i]) && forall j :: 0 <= j < i ==> CookieComplete(cookies[j])
  }

  /**
   * The `for (const cookie of cookies)` check: the loop returns at the first
   * cookie that is not complete (see `CheckCookiesStopsAtFirst`).
   */
  function CheckCookies(cookies: seq<Json>): (r: Result<(), CookieFault>)
    ensures r.Ok? <==> forall c :: c in cookies ==> CookieComplete(c)
    ensures r.Err? && r.error.ThrewOn? ==> JNull in cookies && r.error.message == "Cannot read properties of null (reading 'name')"
    ensures r.Err? && r.error.MissingField? ==> exists c :: c in cookies && c != JNull && !CookieComplete(c)
    decreases |cookies|
  {
    if |cookies| == 0 then Ok(())
    else
      var c := cookies[0];
      match Member(c, "name")
      case Err(e) => Err(ThrewOn(e))
      case Ok(name) =>
        if !TruthyOpt(name) || !TruthyOpt(Member(c, "value").value) then
          assert c in cookies;
          Err(MissingField)
        else
          var rest := CheckCookies(cookies[1..]);
          assert forall x :: x in cookies[1..] ==> x in cookies;
          assert cookies == [c] + cookies[1..];
          rest
  }

  /**
   * The first cookie that is not complete alone decides the fault: the
   * thrown TypeError (a 500) exactly when it is `null`, a missing field (a
   * 400) otherwise, whatever follows it.
   */
  lemma {:induction false} CheckCookiesStopsAtFirst(cookies: seq<Json>)
    ensures CheckCookies(cookies).Err? ==>
      exists i :: FirstIncomplete(cookies, i) && (CheckCookies(cookies).error.ThrewOn? <==> cookies[i] == JNull)
    decreases |cookies|
  {
    var r := CheckCookies(cookies);
    if |cookies| > 0 && r.Err? {
      if !CookieComplete(cookies[0]) {
        assert FirstIncomplete(cookies, 0);
      } else {
        CheckCookiesStopsAtFirst(cookies[1..]);
        assert r == CheckCookies(cookies[1..]);
        var i :| FirstIncomplete(cookies[1..], i) && (r.error.ThrewOn? <==> cookies[1..][i] == JNull);
        assert FirstIncomplete(cookies, i + 1);
      }
    }
  }

  /** A cookie missing its name ahead of a `null` one stops the loop with a 400; the `null` is never read. */
  lemma MissingFieldBeforeNull()
    ensures CheckCookies([JObj(map["name" := JStr("")]), JNull]) == Err(MissingField)
  {
    assert !CookieComplete(JObj(map["name" := JStr("")]));
  }

  /** The request body of `POST /platform-accounts`. */
  datatype CreateBody = CreateBody(platform: Option<Json>, accountName: Option<string>, cookies: Option<Json>)

  /** Everything the create handler checks before it writes. */
  predicate CreateBodyAccepted(b: CreateBody) {
    && TruthyOpt(b.platform) && b.accountName.Some? && b.accountName.value != "" && TruthyOpt(b.cookies)
    && ValidPlatform(b.platform.value)
    && b.cookies.value.JArr?
    && forall c :: c in b.cookies.value.items ==> CookieComplete(c)
  }

  function StoreErrorText(e: StoreError): string {
    match e
    case UniqueViolation => "SQLITE_CONSTRAINT: UNIQUE constraint failed: platform_accounts.user_id, platform_accounts.platform, platform_accounts.account_name"
    case NotNullViolation => "SQLITE_CONSTRAINT: NOT NULL constraint failed: platform_accounts.cookies"
    case NoSuchColumn(c) => "SQLITE_ERROR: no such column: " + c
  }

  /** `await chatService.loadUserSources(userId)` after a write, answering `ok` unless it throws. */
  function Reload<T>(accounts: Accounts, reg: ChatService.Registry, userId: int, ok: int, payload: T): (r: Reply<T>)
    requires InsertionOrder.Valid(reg) && ok in {200, 201}
    ensures r.srv.accounts == accounts && InsertionOrder.Valid(r.srv.reg)
    ensures r.status != ok ==> r.status == 500
    ensures r.status == ok ==> r.body == Ok(payload)
  {
    var loaded := ChatService.LoadUserSources(reg, accounts, userId);
    if loaded.error.None? then Reply(Server(accounts, loaded.reg), ok, Ok(payload))
    else Reply(Server(accounts, loaded.reg), 500, Err(loaded.error.value))
  }

  /**
   * `POST /platform-accounts`: the body checks of `CreateRejection`, then
   * the insert and the reload of `InsertAccount`.
   */
  function CreateAccountRoute(srv: Server, userId: int, b: CreateBody, now: int): (r: Reply<AccountSummary>)
    requires Ready(srv)
    ensures Ready(r.srv)
  {
    if CreateRejection(b).Some? then Reply(srv, CreateRejection(b).value.0, Err(CreateRejection(b).value.1))
    else InsertAccount(srv, userId, b.platform.value.s, b.accountName.value, b.cookies.value, now)
  }

  /**
   * Missing fields, an unknown platform, cookies that are not an array or a
   * cookie without name or value are 400s, and a `null` cookie a 500 with
   * the TypeError's message; none of them writes anything.
   */
  lemma CreateRefusesBadBody(srv: Server, userId: int, b: CreateBody, now: int)
    requires Ready(srv) && !CreateBodyAccepted(b)
    ensures var r := CreateAccountRoute(srv, userId, b, now);
            r.status in {400, 500} && r.srv == srv
    ensures var r := CreateAccountRoute(srv, userId, b, now);
            r.status == 500 ==> r.body == Err("Cannot read properties of null (reading 'name')")
  {
  }

  /** An accepted body whose name the user already has on that platform is a 400 that writes nothing. */
  lemma CreateRefusesTakenName(srv: Server, userId: int, b: CreateBody, now: int)
    requires Ready(srv) && CreateBodyAccepted(b)
    requires LabelTaken(srv.accounts, (userId, b.platform.value.s, b.accountName.value), srv.accounts.lastId + 1)
    ensures CreateAccountRoute(srv, userId, b, now) == Reply(srv, 400, Err("An account with this name already exists for this platform"))
  {
  }

  /**
   * A 201 means the body was accepted and the account inserted under the
   * next id (so the table is the old one plus that row); a 500 after an
   * accepted body leaves the row stored all the same.
   */
  lemma CreateStoresAccount(srv: Server, userId: int, b: CreateBody, now: int)
    requires Ready(srv)
    ensures var r := CreateAccountRoute(srv, userId, b, now);
            && (r.status == 400 ==> r.srv == srv)
            && (r.status == 201 ==> CreateBodyAccepted(b))
            && (r.status == 201 || (r.status == 500 && CreateBodyAccepted(b)) ==>
                  var id := srv.accounts.lastId + 1;
                  var row := Account(id, userId, b.platform.value.s, b.accountName.value, b.cookies.value, now);
                  && id !in srv.accounts.rows
                  && r.srv.accounts == Accounts(srv.accounts.rows[id := row], id)
                  && (r.status == 201 ==> r.body.Ok? && r.body.value == Summary(row)))
  {
    if CreateRejection(b).None? {
      InsertAccountStores(srv, userId, b.platform.value.s, b.accountName.value, b.cookies.value, now);
      InsertAccountAnswers(srv, userId, b.platform.value.s, b.accountName.value, b.cookies.value, now);
    }
  }

  /** The write half of the create handler: the insert, then the reload. */
  function InsertAccount(srv: Server, userId: int, platform: string, accountName: string, cookies: Json, now: int): (r: Reply<AccountSummary>)
    requires Ready(srv)
    ensures Ready(r.srv)
    ensures r.status in {201, 400, 500}
    ensures r.status == 400 <==> LabelTaken(srv.accounts, (userId, platform, accountName), srv.accounts.lastId + 1)
    ensures r.status == 400 ==> r == Reply(srv, 400, Err("An account with this name already exists for this platform"))
  {
    var created := CreatePlatformAccount(srv.accounts, userId, platform, accountName, cookies, now);
    if created.Err? then Reply(srv, 400, Err("An account with this name already exists for this platform"))
    else Reload(created.value.0, srv.reg, userId, 201, Summary(created.value.1))
  }

  /** Unless the name is taken, the store's insert went through, whatever the reload does. */
  lemma InsertAccountStores(srv: Server, userId: int, platform: string, accountName: string, cookies: Json, now: int)
    requires Ready(srv)
    ensures var r := InsertAccount(srv, userId, platform, accountName, cookies, now);
            var row := Account(srv.accounts.lastId + 1, userId, platform, accountName, cookies, now);
            r.status != 400 ==> CreatePlatformAccount(srv.accounts, userId, platform, accountName, cookies, now) == Ok((r.srv.accounts, row))
  {
    var created := CreatePlatformAccount(srv.accounts, userId, platform, accountName, cookies, now);
    var r := InsertAccount(srv, userId, platform, accountName, cookies, now);
    if created.Ok? {
      var reloaded := Reload(created.value.0, srv.reg, userId, 201, Summary(created.value.1));
      assert r == reloaded;
      assert reloaded.srv.accounts == created.value.0;
      assert created.value.1 == Account(srv.accounts.lastId + 1, userId, platform, accountName, cookies, now);
      assert created == Ok((r.srv.accounts, created.value.1));
    } else {
      assert r.status == 400;
    }
  }

  /** A 201 answers with the summary of the new row. */
  lemma InsertAccountAnswers(srv: Server, userId: int, platform: string, accountName: string, cookies: Json, now: int)
    requires Ready(srv)
    ensures var r := InsertAccount(srv, userId, platform, accountName, cookies, now);
            r.status == 201 ==> r.body.Ok? && r.body.value == Summary(Account(srv.accounts.lastId + 1, userId, platform, accountName, cookies, now))
  {
    var created := CreatePlatformAccount(srv.accounts, userId, platform, accountName, cookies, now);
    var r := InsertAccount(srv, userId, platform, accountName, cookies, now);
    if created.Ok? {
      var reloaded := Reload(created.value.0, srv.reg, userId, 201, Summary(created.value.1));
      assert r == reloaded;
      assert created.value.1 == Account(srv.accounts.lastId + 1, userId, platform, accountName, cookies, now);
    } else {
      assert r.status == 400;
    }
  }

  /** The checks of the create handler, in order: the status and message of the first that fails. */
  function CreateRejection(b: CreateBody): (r: Option<(int, string)>)
    ensures r.None? <==> CreateBodyAccepted(b)
    ensures r.Some? ==> r.value.0 in {400, 500}
    ensures r.Some? && r.value.0 == 500 ==> b.cookies.Some? && b.cookies.value.JArr? && JNull in b.cookies.value.items
    ensures r.Some? && r.value.0 == 500 ==> r.value.1 == "Cannot read properties of null (reading 'name')"
  {
    if !TruthyOpt(b.platform) || b.accountName.None? || b.accountName.value == "" || !TruthyOpt(b.cookies) then
      Some((400, "Platform, account name, and cookies are required"))
    else if !ValidPlatform(b.platform.value) then
      Some((400, "Invalid platform. Must be one of: chatgpt, claude, grok, gemini"))
    else if !b.cookies.value.JArr? then
      Some((400, "Cookies must be an array"))
    else
      match CheckCookies(b.cookies.value.items)
      case Err(MissingField) => Some((400, "Each cookie must have name and value"))
      case Err(ThrewOn(e)) => Some((500, e))
      case Ok(_) => None
  }

  // ---------------------------------------------------------------------------
  // Update and delete
  // ---------------------------------------------------------------------------

  /** `existingAccount && existingAccount.user_id === userId` for the path id `parseInt(req.params.id)`. */
  predicate OwnedBy(st: Accounts, rawId: string, userId: int) {
    ParseInt(rawId).Some? && ParseInt(rawId).value in st.rows && st.rows[ParseInt(rawId).value].userId == userId
  }

  /** The request body of `PUT /platform-accounts/:id`. */
  datatype UpdateBody = UpdateBody(accountName: Option<string>, cookies: Option<Json>)

  /** `updates`: `account_name` when truthy, `cookies` when truthy; nothing else. */
  function UpdatesOf(b: UpdateBody): (u: AccountUpdates)
    ensures u.accountName.Some? <==> b.accountName.Some? && b.accountName.value != ""
    ensures u.accountName.Some? ==> u.accountName == b.accountName
    ensures u.cookies.Some? <==> TruthyOpt(b.cookies)
    ensures u.cookies.Some? ==> u.cookies == b.cookies
  {
    AccountUpdates(
      if b.accountName.Some? && b.accountName.value != "" then b.accountName else None,
      if TruthyOpt(b.cookies) then b.cookies else None)
  }

  /**
   * `PUT /platform-accounts/:id`: an id that is not a number, not stored or
   * not the caller's is a 404 that changes nothing; truthy cookies must be
   * an array of complete cookies (400 otherwise, nothing changed). The
   * update writes the truthy fields; a store error is a 500 with nothing
   * changed; then the sources are reloaded.
   */
  function UpdateAccountRoute(srv: Server, userId: int, rawId: string, b: UpdateBody): (r: Reply<()>)
    requires Ready(srv)
    ensures Ready(r.srv)
    ensures !OwnedBy(srv.accounts, rawId, userId) ==> r == Reply(srv, 404, Err("Platform account not found"))
    ensures r.status in {400, 404} ==> r.srv == srv
    ensures r.status == 200 ==>
      && OwnedBy(srv.accounts, rawId, userId)
      && UpdatePlatformAccount(srv.accounts, ParseInt(rawId).value, UpdatesOf(b)) == Ok(r.srv.accounts)
    ensures r.srv.accounts == srv.accounts ||
      (OwnedBy(srv.accounts, rawId, userId) && UpdatePlatformAccount(srv.accounts, ParseInt(rawId).value, UpdatesOf(b)) == Ok(r.srv.accounts))
  {
    if !OwnedBy(srv.accounts, rawId, userId) then Reply(srv, 404, Err("Platform account not found"))
    else
      var id := ParseInt(rawId).value;
      var cookieCheck :=
        if !TruthyOpt(b.cookies) then Ok(())
        else if !b.cookies.value.JArr? then Err(Reply(srv, 400, Err("Cookies must be an array")))
        else match CheckCookies(b.cookies.value.items)
          case Ok(_) => Ok(())
          case Err(MissingField) => Err(Reply(srv, 400, Err("Each cookie must have name and value")))
          case Err(ThrewOn(e)) => Err(Reply(srv, 500, Err(e)));
      if cookieCheck.Err? then cookieCheck.error
      else
        match UpdatePlatformAccount(srv.accounts, id, UpdatesOf(b))
        case Err(e) => Reply(srv, 500, Err(StoreErrorText(e)))
        case Ok(accounts) => Reload(accounts, srv.reg, userId, 200, ())
  }

  /**
   * The update the route sends never binds NULL cookies, so the store can
   * refuse it only over a label: it fails exactly when another of the
   * caller's accounts on that platform already has the new name.
   */
  lemma UpdateRouteFailsOnlyOnLabel(srv: Server, userId: int, rawId: string, b: UpdateBody)
    requires Ready(srv) && OwnedBy(srv.accounts, rawId, userId)
    ensures var id := ParseInt(rawId).value;
            var row := srv.accounts.rows[id];
            UpdatePlatformAccount(srv.accounts, id, UpdatesOf(b)).Err? <==>
              LabelTaken(srv.accounts, (userId, row.platform, UpdatesOf(b).accountName.GetOr(row.accountName)), id)
  {
  }

  /**
   * `DELETE /platform-accounts/:id`: the same 404 guard, then the row is
   * removed and the sources reloaded.
   */
  function DeleteAccountRoute(srv: Server, userId: int, rawId: string): (r: Reply<()>)
    requires Ready(srv)
    ensures Ready(r.srv)
    ensures !OwnedBy(srv.accounts, rawId, userId) ==> r == Reply(srv, 404, Err("Platform account not found"))
    ensures OwnedBy(srv.accounts, rawId, userId) ==>
      && r.status in {200, 500}
      && r.srv.accounts == DeletePlatformAccount(srv.accounts, ParseInt(rawId).value)
  {
    if !OwnedBy(srv.accounts, rawId, userId) then Reply(srv, 404, Err("Platform account not found"))
    else Reload(DeletePlatformAccount(srv.accounts, ParseInt(rawId).value), srv.reg, userId, 200, ())
  }

  // ---------------------------------------------------------------------------
  // What the routes keep true
  // ---------------------------------------------------------------------------

  /** Every stored account is on a platform a scraper exists for. */
  predicate AllSupported(st: Accounts) {
    forall k :: k in st.rows ==> ChatService.Supported(st.rows[k].platform)
  }

  /**
   * While every stored account was created through these routes, the
   * reload after a create never throws: an accepted body with a fresh label
   * is answered 201, and the table stays all-supported.
   */
  lemma CreateSucceedsOnFreshLabel(srv: Server, userId: int, b: CreateBody, now: int)
    requires Ready(srv) && AllSupported(srv.accounts)
    requires CreateBodyAccepted(b)
    requires !LabelTaken(srv.accounts, (userId, b.platform.value.s, b.accountName.value), srv.accounts.lastId + 1)
    ensures CreateAccountRoute(srv, userId, b, now).status == 201
    ensures AllSupported(CreateAccountRoute(srv, userId, b, now).srv.accounts)
  {
    var created := CreatePlatformAccount(srv.accounts, userId, b.platform.value.s, b.accountName.value, b.cookies.value, now);
    assert AllSupported(created.value.0);
    ChatService.LoadThrowsIffUnsupported(srv.reg, created.value.0, userId);
  }

  /** Updates never change a platform and deletes only remove rows, so neither breaks that. */
  lemma UpdateDeleteKeepSupported(srv: Server, userId: int, rawId: string, b: UpdateBody)
    requires Ready(srv) && AllSupported(srv.accounts)
    ensures AllSupported(UpdateAccountRoute(srv, userId, rawId, b).srv.accounts)
    ensures AllSupported(DeleteAccountRoute(srv, userId, rawId).srv.accounts)
  {
    UpdateKeepsSupported(srv, userId, rawId, b);
    DeleteKeepsSupported(srv, userId, rawId);
  }

  /** An update writes the store only through `updatePlatformAccount`, which keeps every platform. */
  lemma UpdateKeepsSupported(srv: Server, userId: int, rawId: string, b: UpdateBody)
    requires Ready(srv) && AllSupported(srv.accounts)
    ensures AllSupported(UpdateAccountRoute(srv, userId, rawId, b).srv.accounts)
  {
    var after := UpdateAccountRoute(srv, userId, rawId, b).srv.accounts;
    if after != srv.accounts {
      UpdateKeepsPlatforms(srv.accounts, ParseInt(rawId).value, UpdatesOf(b), after);
    }
  }

  /** `updatePlatformAccount` never changes a platform, so an all-supported table stays so. */
  lemma UpdateKeepsPlatforms(st: Accounts, id: int, u: AccountUpdates, after: Accounts)
    requires Valid(st) && AllSupported(st) && UpdatePlatformAccount(st, id, u) == Ok(after)
    ensures AllSupported(after)
  {
    assert forall k :: k in after.rows ==> after.rows[k].platform == st.rows[k].platform;
  }

  /** A delete only removes a row. */
  lemma DeleteKeepsSupported(srv: Server, userId: int, rawId: string)
    requires Ready(srv) && AllSupported(srv.accounts)
    ensures AllSupported(DeleteAccountRoute(srv, userId, rawId).srv.accounts)
  {
  }
}
