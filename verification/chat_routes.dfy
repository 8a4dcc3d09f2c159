/**
 * `GET /chats`: how the query string becomes the filters `getChats` takes.
 * Each query parameter is the text Express parsed, or `None` when it is
 * absent; a repeated parameter (which Express turns into an array) is not
 * modelled.
 */
module ChatRoutes {
  import opened Wrappers
  import opened JsText
  import opened ChatStore
  import Ordering

  datatype ChatQuery = ChatQuery(
    platform: Option<string>,
    isFavorite: Option<string>,
    isArchived: Option<string>,
    tags: Option<string>,
    limit: Option<string>,
    offset: Option<string>)

  /** `v === "true" ? true : v === "false" ? false : undefined`. */
  function FlagOf(v: Option<string>): (r: Option<bool>)
    ensures r == Some(true) <==> v == Some("true")
    ensures r == Some(false) <==> v == Some("false")
    ensures r.None? <==> v != Some("true") && v != Some("false")
  {
    if v == Some("true") then Some(true)
    else if v == Some("false") then Some(false)
    else None
  }

  /** The text a flag is written as in a link; the query reads it back. */
  function FlagText(b: bool): string {
    if b then "true" else "false"
  }

  lemma FlagRoundTrip(b: bool)
    ensures FlagOf(Some(FlagText(b))) == Some(b)
  {
  }

  /**
   * `tags ? tags.split(",") : undefined`: an empty `tags` is falsy and asks
   * for nothing; otherwise its comma-free pieces, which join back to it.
   */
  function TagsOf(v: Option<string>): (r: Option<seq<string>>)
    ensures r.Some? <==> v.Some? && v.value != ""
    ensures r.Some? ==> Join(r.value, ',') == v.value
    ensures r.Some? ==> forall k, j :: 0 <= k < |r.value| && 0 <= j < |r.value[k]| ==> r.value[k][j] != ','
  {
    if v.Some? && v.value != "" then
      JoinSplit(v.value, ',');
      Some(Split(v.value, ','))
    else None
  }

  /**
   * `parseInt(v)` where `v` defaults to `fallback` when the parameter is
   * absent; the default's value is given as a number (`ParseFifty` and
   * `ParseZero` show it is what `parseInt` makes of "50" and "0").
   */
  function PageNumber(v: Option<string>, fallback: int): (r: Option<int>)
    ensures v.None? ==> r == Some(fallback)
    ensures v.Some? ==> r == ParseInt(v.value)
  {
    if v.None? then Some(fallback) else ParseInt(v.value)
  }

  /** `limit = "50"` and `offset = "0"` as the handler writes them. */
  lemma PageDefaultsAreParsed(v: Option<string>)
    ensures PageNumber(v, 50) == ParseInt(v.GetOr("50"))
    ensures PageNumber(v, 0) == ParseInt(v.GetOr("0"))
  {
    ParseFifty();
    ParseZero();
  }

  /**
   * The filters the handler builds: the platform as given, the two flags
   * and the tags as above, and `parseInt` of `limit` and `offset`, which
   * default to "50" and "0" when absent (NaN is `None`).
   */
  function FiltersOf(q: ChatQuery): (f: ChatFilters)
    ensures f.platform == q.platform
    ensures f.isFavorite == FlagOf(q.isFavorite) && f.isArchived == FlagOf(q.isArchived)
    ensures f.tags == TagsOf(q.tags)
  {
    ChatFilters(q.platform, FlagOf(q.isFavorite), FlagOf(q.isArchived), TagsOf(q.tags),
                PageNumber(q.limit, 50), PageNumber(q.offset, 0))
  }

  /**
   * Without `limit` and `offset` the page is the 50 newest matching chats:
   * every matching chat when there are at most 50, else 50 of them, none
   * older than a matching chat left out.
   */
  lemma DefaultPage(db: Db, q: ChatQuery)
    requires q.limit.None? && q.offset.None?
    ensures PageBounds(FiltersOf(q)) == (50, 0)
    ensures var n := |MatchingChats(db, FiltersOf(q))|;
      |ListChatsRoute(db, q)| == if n < 50 then n else 50
    ensures HoldsNewestChats(db, FiltersOf(q), GetChatRows(db, FiltersOf(q)))
  {
    var f := FiltersOf(q);
    assert PageBounds(f) == (50, 0);
  }

  /** A number written into `limit` or `offset` arrives as that number. */
  lemma NumericPage(q: ChatQuery, limit: int, offset: int)
    requires q.limit == Some(IntToString(limit)) && q.offset == Some(IntToString(offset))
    ensures FiltersOf(q).limit == Some(limit) && FiltersOf(q).offset == Some(offset)
  {
    ParseIntOfIntToString(limit);
    ParseIntOfIntToString(offset);
  }

  /**
   * A `limit` with no digit in it (`?limit=` or `?limit=all`) is NaN, and a
   * NaN limit adds no `LIMIT` clause: the page is unbounded, and so is one
   * with `limit=0`.
   */
  lemma NonNumericLimitUnbounded(q: ChatQuery)
    requires q.limit.Some? && forall i :: 0 <= i < |q.limit.value| ==> !IsDecimalDigit(q.limit.value[i])
    ensures PageBounds(FiltersOf(q)) == (-1, 0)
  {
    ParseIntNoDigits(q.limit.value);
  }

  /** The handler's answer: `chatService.getChats(filters)`. */
  function ListChatsRoute(db: Db, q: ChatQuery): (r: seq<Chat>)
    ensures q.limit.None? ==> |r| <= 50
    ensures |r| == Ordering.PageSize(|MatchingChats(db, FiltersOf(q))|, PageBounds(FiltersOf(q)).0, PageBounds(FiltersOf(q)).1)
    ensures forall i :: 0 <= i < |r| ==> r[i] == SerializeChat(GetChatRows(db, FiltersOf(q))[i])
  {
    GetChats(db, FiltersOf(q))
  }

  /**
   * Every chat listed agrees with the flags and platform asked for and
   * carries every tag asked for, up to ASCII case.
   */
  lemma ListedChatsMatch(db: Db, q: ChatQuery)
    ensures forall c :: c in ListChatsRoute(db, q) ==>
      && (q.isFavorite == Some("true") ==> c.isFavorite)
      && (q.isFavorite == Some("false") ==> !c.isFavorite)
      && (q.isArchived == Some("true") ==> c.isArchived)
      && (q.isArchived == Some("false") ==> !c.isArchived)
      && (q.platform.Some? && q.platform.value != "" ==> c.platform == q.platform.value)
      && (q.tags.Some? && q.tags.value != "" ==> forall t :: t in Split(q.tags.value, ',') ==> TagLike(c.tags, t))
  {
    var f := FiltersOf(q);
    var rows := GetChatRows(db, f);
    forall c | c in ListChatsRoute(db, q)
      ensures && (q.isFavorite == Some("true") ==> c.isFavorite)
              && (q.isFavorite == Some("false") ==> !c.isFavorite)
              && (q.isArchived == Some("true") ==> c.isArchived)
              && (q.isArchived == Some("false") ==> !c.isArchived)
              && (q.platform.Some? && q.platform.value != "" ==> c.platform == q.platform.value)
              && (q.tags.Some? && q.tags.value != "" ==> forall t :: t in Split(q.tags.value, ',') ==> TagLike(c.tags, t))
    {
      var i :| 0 <= i < |GetChats(db, f)| && GetChats(db, f)[i] == c;
      assert c == SerializeChat(rows[i]);
      assert rows[i] in rows;
      assert Matches(f, rows[i]);
    }
  }
}
