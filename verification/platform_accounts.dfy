/**
 * The `platform_accounts` table of template/backend/db.ts: one row per saved
 * login of a user on a chat platform, unique per (user, platform, account
 * name). Cookies are stored as `JSON.stringify` text and read back with
 * `JSON.parse`; the model keeps the parsed value itself.
 *
 * `updatePlatformAccount` as written appends `updated_at = CURRENT_TIMESTAMP`
 * to every non-empty SET list, but the table has no `updated_at` column, so
 * SQLite refuses every such statement while preparing it.
 * `UpdatePlatformAccountAsWritten` keeps that statement and
 * `AsWrittenUpdateAlwaysFails` shows the effect; `UpdatePlatformAccount`
 * leaves the missing column out and is the update the routes use.
 */
module PlatformAccounts {
  import opened Wrappers
  import opened Json
  import Ordering

  datatype Account = Account(
    id: int,
    userId: int,
    platform: string,
    accountName: string,
    cookies: Json,
    createdAt: int)

  datatype Accounts = Accounts(rows: map<int, Account>, lastId: int)

  /** The columns of `UNIQUE(user_id, platform, account_name)`. */
  function Label(a: Account): (int, string, string) {
    (a.userId, a.platform, a.accountName)
  }

  /** Rows filed under their own AUTOINCREMENT id, and no two with the same label. */
  predicate Valid(st: Accounts) {
    && (forall k :: k in st.rows ==> st.rows[k].id == k && k <= st.lastId)
    && (forall a, b :: a in st.rows && b in st.rows && Label(st.rows[a]) == Label(st.rows[b]) ==> a == b)
  }

  /** Some row other than `exempt` already carries `key`. */
  predicate LabelTaken(st: Accounts, key: (int, string, string), exempt: int) {
    exists k :: k in st.rows && k != exempt && Label(st.rows[k]) == key
  }

  datatype StoreError =
    | UniqueViolation              // UNIQUE constraint failed
    | NotNullViolation             // NOT NULL constraint failed
    | NoSuchColumn(column: string) // the statement names a column the table lacks

  // ---------------------------------------------------------------------------
  // Create, read, delete
  // ---------------------------------------------------------------------------

  /**
   * `createPlatformAccount`: inserts under the next id (with `created_at`
   * at `now`) and returns the row read back, or fails on the UNIQUE label.
   */
  function CreatePlatformAccount(st: Accounts, userId: int, platform: string, accountName: string, cookies: Json, now: int): (r: Result<(Accounts, Account), StoreError>)
    requires Valid(st)
    ensures r.Err? <==> LabelTaken(st, (userId, platform, accountName), st.lastId + 1)
    ensures r.Err? ==> r.error == UniqueViolation
    ensures r.Ok? ==>
      var id := st.lastId + 1;
      && Valid(r.value.0)
      && id !in st.rows
      && r.value.1 == Account(id, userId, platform, accountName, cookies, now)
      && r.value.0 == Accounts(st.rows[id := r.value.1], id)
  {
    var id := st.lastId + 1;
    if LabelTaken(st, (userId, platform, accountName), id) then Err(UniqueViolation)
    else
      var row := Account(id, userId, platform, accountName, cookies, now);
      Ok((Accounts(st.rows[id := row], id), row))
  }

  /**
   * `getPlatformAccountsByUserId`: the user's rows. The query has no
   * `ORDER BY`; the model lists them in id order.
   */
  function GetPlatformAccountsByUserId(st: Accounts, userId: int): (r: seq<Account>)
    ensures forall a :: a in r ==> a.userId == userId && a in st.rows.Values
    ensures forall k :: k in st.rows && st.rows[k].userId == userId ==> st.rows[k] in r
  {
    OfUserKeeps(Ordering.Scan(st.rows), userId);
    OfUser(Ordering.Scan(st.rows), userId)
  }

  /** `WHERE user_id = ?` over a scan, keeping the scan order. */
  function OfUser(rows: seq<Account>, userId: int): seq<Account> {
    if |rows| == 0 then []
    else (if rows[0].userId == userId then [rows[0]] else []) + OfUser(rows[1..], userId)
  }

  /** The user's listing holds every row of theirs and nothing of anyone else's. */
  lemma AccountsOfUser(st: Accounts, userId: int)
    ensures var r := GetPlatformAccountsByUserId(st, userId);
            && (forall a :: a in r ==> a.userId == userId && a in st.rows.Values)
            && (forall k :: k in st.rows && st.rows[k].userId == userId ==> st.rows[k] in r)
  {
    OfUserKeeps(Ordering.Scan(st.rows), userId);
  }

  /** The filter keeps exactly the rows of that user. */
  lemma {:induction false} OfUserKeeps(rows: seq<Account>, userId: int)
    ensures forall a :: a in OfUser(rows, userId) <==> a in rows && a.userId == userId
    decreases |rows|
  {
    if |rows| > 0 {
      OfUserKeeps(rows[1..], userId);
      assert rows == [rows[0]] + rows[1..];
    }
  }

  /** `getPlatformAccountById`. */
  function GetPlatformAccountById(st: Accounts, id: int): (r: Option<Account>)
    ensures r.Some? <==> id in st.rows
    ensures r.Some? ==> r.value == st.rows[id]
  {
    if id in st.rows then Some(st.rows[id]) else None
  }

  /** `deletePlatformAccount`: removes that row only; an absent id is not an error. */
  function DeletePlatformAccount(st: Accounts, id: int): (r: Accounts)
    requires Valid(st)
    ensures Valid(r)
    ensures id !in r.rows && r.lastId == st.lastId
    ensures forall k :: k in r.rows <==> k in st.rows && k != id
    ensures forall k :: k in r.rows ==> r.rows[k] == st.rows[k]
  {
    Accounts(map k | k in st.rows && k != id :: st.rows[k], st.lastId)
  }

  // ---------------------------------------------------------------------------
  // Update
  // ---------------------------------------------------------------------------

  /** The fields the account routes put in `updates` (the only keys they ever set). */
  datatype AccountUpdates = AccountUpdates(accountName: Option<string>, cookies: Option<Json>)

  /** One `column = ?` entry of an UPDATE's SET list; `SetCookies(None)` binds NULL. */
  datatype Assignment =
    | SetAccountName(name: string)
    | SetCookies(text: Option<Json>)
    | SetTimestamp(column: string)

  function ColumnOf(a: Assignment): string {
    match a
    case SetAccountName(_) => "account_name"
    case SetCookies(_) => "cookies"
    case SetTimestamp(c) => c
  }

  /** The columns of the `platform_accounts` table as created. */
  const TableColumns: set<string> := {"id", "user_id", "platform", "account_name", "cookies", "created_at"}

  /**
   * The SET list `Object.entries(updates)` yields, in insertion order:
   * `cookies` is serialised when truthy and bound as NULL otherwise, and
   * `id`, `user_id` and `created_at` can never appear.
   */
  function Assignments(u: AccountUpdates): (r: seq<Assignment>)
    ensures |r| == 0 <==> u.accountName.None? && u.cookies.None?
    ensures forall a :: a in r ==> ColumnOf(a) in {"account_name", "cookies"}
    ensures u.accountName.Some? ==> SetAccountName(u.accountName.value) in r
    ensures u.cookies.Some? ==> SetCookies(if Truthy(u.cookies.value) then u.cookies else None) in r
  {
    (if u.accountName.Some? then [SetAccountName(u.accountName.value)] else [])
    + (if u.cookies.Some? then [SetCookies(if Truthy(u.cookies.value) then u.cookies else None)] else [])
  }

  /** The first assignment naming a column the table lacks, if any. */
  function UnknownColumn(sets: seq<Assignment>): (r: Option<string>)
    ensures r.None? <==> forall a :: a in sets ==> ColumnOf(a) in TableColumns
    ensures r.Some? ==> r.value !in TableColumns && exists a :: a in sets && ColumnOf(a) == r.value
  {
    if |sets| == 0 then None
    else if ColumnOf(sets[0]) !in TableColumns then Some(ColumnOf(sets[0]))
    else UnknownColumn(sets[1..])
  }

  /** The row after the SET list, left to right (a later entry for a column wins). */
  function Assign(row: Account, sets: seq<Assignment>): (r: Account)
    ensures r.id == row.id && r.userId == row.userId && r.platform == row.platform && r.createdAt == row.createdAt
    decreases |sets|
  {
    if |sets| == 0 then row
    else
      var next := match sets[0]
        case SetAccountName(n) => row.(accountName := n)
        case SetCookies(Some(c)) => row.(cookies := c)
        case _ => row;
      Assign(next, sets[1..])
  }

  /** Some assignment binds NULL to the NOT NULL `cookies` column. */
  predicate NullsCookies(sets: seq<Assignment>) {
    SetCookies(None) in sets
  }

  /**
   * `UPDATE platform_accounts SET … WHERE id = ?` in SQLite: a column the
   * table lacks fails the statement before anything runs; no matching row
   * changes nothing; a NULL cookie text or a duplicate label fails it.
   */
  function RunUpdate(st: Accounts, id: int, sets: seq<Assignment>): (r: Result<Accounts, StoreError>)
    requires Valid(st)
    ensures UnknownColumn(sets).Some? ==> r == Err(NoSuchColumn(UnknownColumn(sets).value))
    ensures UnknownColumn(sets).None? && id !in st.rows ==> r == Ok(st)
    ensures r.Ok? ==> Valid(r.value) && r.value.lastId == st.lastId && r.value.rows.Keys == st.rows.Keys
    ensures r.Ok? ==> forall k :: k in st.rows && k != id ==> r.value.rows[k] == st.rows[k]
  {
    if UnknownColumn(sets).Some? then Err(NoSuchColumn(UnknownColumn(sets).value))
    else if id !in st.rows then Ok(st)
    else if NullsCookies(sets) then Err(NotNullViolation)
    else
      var row := Assign(st.rows[id], sets);
      if LabelTaken(st, Label(row), id) then Err(UniqueViolation)
      else Ok(st.(rows := st.rows[id := row]))
  }

  /** `updatePlatformAccount` as written: the entries, then `updated_at = CURRENT_TIMESTAMP`. */
  function UpdatePlatformAccountAsWritten(st: Accounts, id: int, u: AccountUpdates): (r: Result<Accounts, StoreError>)
    requires Valid(st)
    ensures |Assignments(u)| == 0 ==> r == Ok(st)
  {
    var sets := Assignments(u);
    if |sets| == 0 then Ok(st) else RunUpdate(st, id, sets + [SetTimestamp("updated_at")])
  }

  /** Every update that names a field fails, whatever the row and the values. */
  lemma AsWrittenUpdateAlwaysFails(st: Accounts, id: int, u: AccountUpdates)
    requires Valid(st)
    requires u.accountName.Some? || u.cookies.Some?
    ensures UpdatePlatformAccountAsWritten(st, id, u) == Err(NoSuchColumn("updated_at"))
  {
    var sets := Assignments(u);
    var all := sets + [SetTimestamp("updated_at")];
    assert forall a :: a in sets ==> ColumnOf(a) in TableColumns;
    assert UnknownColumn(all) == Some("updated_at") by { UnknownColumnAfter(sets, "updated_at"); }
  }

  /** Known columns first, then one unknown column: that column is the one reported. */
  lemma {:induction false} UnknownColumnAfter(sets: seq<Assignment>, c: string)
    requires forall a :: a in sets ==> ColumnOf(a) in TableColumns
    requires c !in TableColumns
    ensures UnknownColumn(sets + [SetTimestamp(c)]) == Some(c)
    decreases |sets|
  {
    if |sets| > 0 {
      assert (sets + [SetTimestamp(c)])[1..] == sets[1..] + [SetTimestamp(c)];
      UnknownColumnAfter(sets[1..], c);
    }
  }

  /**
   * The update without the missing column: the given name and cookies are
   * written to that row, `id`, `user_id`, `platform` and `created_at` are
   * kept, and nothing else changes; it fails only on a falsy cookie value or
   * a label another row holds.
   */
  function UpdatePlatformAccount(st: Accounts, id: int, u: AccountUpdates): (r: Result<Accounts, StoreError>)
    requires Valid(st)
    ensures (u.accountName.None? && u.cookies.None?) || id !in st.rows ==> r == Ok(st)
    ensures r.Ok? ==> Valid(r.value) && r.value.rows.Keys == st.rows.Keys && r.value.lastId == st.lastId
    ensures r.Ok? ==> forall k :: k in st.rows && k != id ==> r.value.rows[k] == st.rows[k]
    ensures r.Ok? && id in st.rows ==>
      var before := st.rows[id];
      var after := r.value.rows[id];
      && after.id == id && after.userId == before.userId && after.platform == before.platform && after.createdAt == before.createdAt
      && after.accountName == u.accountName.GetOr(before.accountName)
      && after.cookies == u.cookies.GetOr(before.cookies)
    ensures r.Err? <==> id in st.rows && ((u.cookies.Some? && !Truthy(u.cookies.value)) || LabelTaken(st, (st.rows[id].userId, st.rows[id].platform, u.accountName.GetOr(st.rows[id].accountName)), id))
  {
    var sets := Assignments(u);
    assert UnknownColumn(sets).None?;
    assert NullsCookies(sets) <==> u.cookies.Some? && !Truthy(u.cookies.value);
    if id in st.rows && !NullsCookies(sets) then
      AssignUpdates(st.rows[id], u);
      assert st.rows[id := st.rows[id]] == st.rows;
      RunUpdate(st, id, sets)
    else RunUpdate(st, id, sets)
  }

  /** Without a NULL cookie text, the SET list writes exactly the fields given. */
  lemma AssignUpdates(row: Account, u: AccountUpdates)
    requires u.cookies.Some? ==> Truthy(u.cookies.value)
    ensures Assign(row, Assignments(u)) == row.(accountName := u.accountName.GetOr(row.accountName), cookies := u.cookies.GetOr(row.cookies))
  {
    var sets := Assignments(u);
    if u.accountName.Some? && u.cookies.Some? {
      var named := row.(accountName := u.accountName.value);
      assert sets == [SetAccountName(u.accountName.value), SetCookies(u.cookies)];
      assert Assign(row, sets) == Assign(named, sets[1..]);
      assert Assign(named, sets[1..]) == Assign(named.(cookies := u.cookies.value), []) by { assert sets[1..][1..] == []; }
    } else if u.accountName.Some? {
      assert sets == [SetAccountName(u.accountName.value)];
      assert Assign(row, sets) == Assign(row.(accountName := u.accountName.value), []);
    } else if u.cookies.Some? {
      assert sets == [SetCookies(u.cookies)];
      assert Assign(row, sets) == Assign(row.(cookies := u.cookies.value), []);
    }
  }
}
