/**
 * Row order and paging as SQLite produces them: a table scan visits rows by
 * ascending integer primary key, `ORDER BY col` sorts (ties in any order), and
 * `LIMIT n OFFSET m` cuts a page where a negative limit means "no limit" and a
 * negative offset counts as zero.
 */
module Ordering {

  /** Strictly ascending integers. */
  predicate Ascending(s: seq<int>) {
    forall i, j :: 0 <= i < j < |s| ==> s[i] < s[j]
  }

  /** Some element of a non-empty finite set of integers is the smallest. */
  lemma {:induction false} HasMinimum(s: set<int>)
    requires s != {}
    ensures exists m :: m in s && forall y :: y in s ==> m <= y
    decreases |s|
  {
    assert exists z :: z in s by { if forall z :: z !in s { assert false; } }
    var x :| x in s;
    var rest := s - {x};
    if rest != {} {
      HasMinimum(rest);
      var m :| m in rest && forall y :: y in rest ==> m <= y;
      if x < m {
        assert forall y :: y in s ==> x <= y by {
          forall y | y in s ensures x <= y { if y != x { assert y in rest; } }
        }
      } else {
        assert forall y :: y in s ==> m <= y by {
          forall y | y in s ensures m <= y { if y != x { assert y in rest; } }
        }
        assert m in s;
      }
    } else {
      assert forall y :: y in s ==> y == x by {
        forall y | y in s ensures y == x { assert y !in rest; }
      }
    }
  }

  function Min(s: set<int>): (m: int)
    requires s != {}
    ensures m in s && forall y :: y in s ==> m <= y
  {
    HasMinimum(s);
    var m :| m in s && forall y :: y in s ==> m <= y; m
  }

  /** The keys of an integer-keyed table in scan order (ascending primary key). */
  function SortedKeys(s: set<int>): (r: seq<int>)
    ensures |r| == |s|
    ensures forall x :: x in r <==> x in s
    ensures Ascending(r)
    decreases |s|
  {
    if s == {} then []
    else
      var m := Min(s);
      var rest := SortedKeys(s - {m});
      assert forall i :: 0 <= i < |rest| ==> m < rest[i] by {
        forall i | 0 <= i < |rest| ensures m < rest[i] {
          assert rest[i] in s - {m};
        }
      }
      [m] + rest
  }

  /** The rows stored under `ids`, in that order. */
  function Lookup<V>(ids: seq<int>, m: map<int, V>): (r: seq<V>)
    requires forall i :: 0 <= i < |ids| ==> ids[i] in m
    ensures |r| == |ids|
    ensures forall i :: 0 <= i < |ids| ==> r[i] == m[ids[i]]
  {
    if |ids| == 0 then [] else [m[ids[0]]] + Lookup(ids[1..], m)
  }

  /** A full table scan: every row once, by ascending primary key. */
  function Scan<V(==)>(m: map<int, V>): (r: seq<V>)
    ensures |r| == |m|
    ensures forall v :: v in r ==> v in m.Values
    ensures forall k :: k in m ==> m[k] in r
  {
    var ids := SortedKeys(m.Keys);
    ScanCovers(ids, m);
    Lookup(ids, m)
  }

  lemma ScanCovers<V>(ids: seq<int>, m: map<int, V>)
    requires forall k :: k in ids ==> k in m
    requires forall k :: k in m ==> k in ids
    ensures forall i :: 0 <= i < |ids| ==> ids[i] in m
    ensures forall v :: v in Lookup(ids, m) ==> v in m.Values
    ensures forall k :: k in m ==> m[k] in Lookup(ids, m)
  {
    forall i | 0 <= i < |ids| ensures ids[i] in m {
      var k := ids[i];
      assert k in ids;
    }
    var r := Lookup(ids, m);
    forall v | v in r ensures v in m.Values {
      var i :| 0 <= i < |r| && r[i] == v;
      assert r[i] == m[ids[i]];
    }
    forall k | k in m ensures m[k] in r {
      var i :| 0 <= i < |ids| && ids[i] == k;
      assert r[i] == m[k];
    }
  }

  /** No element occurs twice. */
  predicate Distinct<T(==)>(s: seq<T>) {
    forall i, j :: 0 <= i < j < |s| ==> s[i] != s[j]
  }

  /** Different keys hold different rows, as in a table whose rows carry their own key. */
  predicate Injective<V(==)>(m: map<int, V>) {
    forall j, k :: j in m && k in m && j != k ==> m[j] != m[k]
  }

  /** A row that is not yet in a listing may go in front of it without repeating anything. */
  lemma DistinctCons<T>(x: T, s: seq<T>)
    requires Distinct(s) && x !in s
    ensures Distinct([x] + s)
  {
    forall i, j | 0 <= i < j < |[x] + s| ensures ([x] + s)[i] != ([x] + s)[j] {
      assert ([x] + s)[j] == s[j - 1];
      if i > 0 { assert ([x] + s)[i] == s[i - 1]; }
    }
  }

  /** The head of a listing without repeats does not occur again in its tail. */
  lemma DistinctTail<T>(s: seq<T>)
    requires Distinct(s) && |s| > 0
    ensures Distinct(s[1..]) && s[0] !in s[1..]
  {
    forall k | 0 <= k < |s| - 1 ensures s[1..][k] != s[0] {
      assert s[1..][k] == s[k + 1];
    }
  }

  /** A scan of a table whose keys hold different rows lists no row twice. */
  lemma ScanDistinct<V>(m: map<int, V>)
    requires Injective(m)
    ensures Distinct(Scan(m))
  {
    var ids := SortedKeys(m.Keys);
    ScanCovers(ids, m);
    var r := Scan(m);
    assert r == Lookup(ids, m);
    forall i, j | 0 <= i < j < |r| ensures r[i] != r[j] {
      assert ids[i] < ids[j];
      assert r[i] == m[ids[i]] && r[j] == m[ids[j]];
    }
  }

  // ---------------------------------------------------------------------------
  // Sorting by an integer key
  // ---------------------------------------------------------------------------

  predicate SortedBy<T>(s: seq<T>, key: T -> int) {
    forall i, j :: 0 <= i < j < |s| ==> key(s[i]) <= key(s[j])
  }

  /** Every row's key is at least `b`. */
  predicate AllAtLeast<T>(s: seq<T>, key: T -> int, b: int) {
    forall i :: 0 <= i < |s| ==> b <= key(s[i])
  }

  /** A row no larger than a sorted listing's keys may go in front of it. */
  lemma PrependSorted<T>(x: T, s: seq<T>, key: T -> int)
    requires SortedBy(s, key) && AllAtLeast(s, key, key(x))
    ensures SortedBy([x] + s, key)
  {
    forall i, j | 0 <= i < j < |[x] + s| ensures key(([x] + s)[i]) <= key(([x] + s)[j]) {
      assert ([x] + s)[j] == s[j - 1];
      if i > 0 { assert ([x] + s)[i] == s[i - 1]; }
    }
  }

  /** Places `x` into a sorted listing before the first row whose key is not below its own. */
  function Insert<T>(x: T, s: seq<T>, key: T -> int): (r: seq<T>)
    requires SortedBy(s, key)
    ensures SortedBy(r, key)
    ensures multiset(r) == multiset(s) + multiset{x}
    ensures |r| == |s| + 1
    ensures forall b :: AllAtLeast(s, key, b) && b <= key(x) ==> AllAtLeast(r, key, b)
    decreases |s|
  {
    if |s| == 0 then [x]
    else if key(x) <= key(s[0]) then
      PrependSorted(x, s, key);
      [x] + s
    else
      assert SortedBy(s[1..], key);
      assert AllAtLeast(s[1..], key, key(s[0]));
      var tail := Insert(x, s[1..], key);
      PrependSorted(s[0], tail, key);
      assert s == [s[0]] + s[1..];
      [s[0]] + tail
  }

  /** `ORDER BY key ASC`: a permutation of the rows, in non-decreasing key order. */
  function SortBy<T>(s: seq<T>, key: T -> int): (r: seq<T>)
    ensures SortedBy(r, key)
    ensures multiset(r) == multiset(s)
    ensures |r| == |s|
    decreases |s|
  {
    if |s| == 0 then []
    else
      assert s == [s[0]] + s[1..];
      Insert(s[0], SortBy(s[1..], key), key)
  }

  /** Sorting keeps exactly the rows it was given. */
  lemma SortByMembers<T>(s: seq<T>, key: T -> int)
    ensures forall x :: x in SortBy(s, key) <==> x in s
  {
    var r := SortBy(s, key);
    forall x ensures x in r <==> x in s {
      assert x in r <==> x in multiset(r);
      assert x in s <==> x in multiset(s);
    }
  }

  /** Inserting a new row into a listing without repeats repeats nothing. */
  lemma {:induction false} InsertDistinct<T>(x: T, s: seq<T>, key: T -> int)
    requires SortedBy(s, key) && Distinct(s) && x !in s
    ensures Distinct(Insert(x, s, key))
    decreases |s|
  {
    if |s| == 0 {
    } else if key(x) <= key(s[0]) {
      DistinctCons(x, s);
    } else {
      assert SortedBy(s[1..], key);
      DistinctTail(s);
      assert forall y :: y in s[1..] ==> y in s;
      InsertDistinct(x, s[1..], key);
      var tail := Insert(x, s[1..], key);
      assert s[0] !in tail by {
        assert multiset(tail) == multiset(s[1..]) + multiset{x};
        assert s[0] !in multiset(s[1..]);
        assert s[0] !in multiset(tail);
      }
      DistinctCons(s[0], tail);
    }
  }

  /** Sorting a listing without repeats repeats nothing. */
  lemma {:induction false} SortByDistinct<T>(s: seq<T>, key: T -> int)
    requires Distinct(s)
    ensures Distinct(SortBy(s, key))
    decreases |s|
  {
    if |s| > 0 {
      DistinctTail(s);
      SortByDistinct(s[1..], key);
      var t := SortBy(s[1..], key);
      assert s[0] !in t by {
        assert s[0] !in multiset(s[1..]);
        assert s[0] !in multiset(t);
      }
      InsertDistinct(s[0], t, key);
    }
  }

  // ---------------------------------------------------------------------------
  // LIMIT / OFFSET
  // ---------------------------------------------------------------------------

  /**
   * How many of `n` rows `LIMIT limit OFFSET offset` keeps: the rows left
   * after the offset (a negative offset skips nothing), and of those at
   * most `limit` unless the limit is negative.
   */
  function PageSize(n: nat, limit: int, offset: int): (k: nat)
    ensures k <= n
    ensures limit >= 0 ==> k <= limit
    ensures limit < 0 && offset <= 0 ==> k == n
  {
    var left := if offset <= 0 then n else if offset >= n then 0 else n - offset;
    if 0 <= limit < left then limit else left
  }

  /**
   * `LIMIT limit OFFSET offset`: the page is the run of `PageSize` rows that
   * starts right after the skipped ones.
   */
  function Page<T>(rows: seq<T>, limit: int, offset: int): (r: seq<T>)
    ensures |r| == PageSize(|rows|, limit, offset)
    ensures limit < 0 && offset <= 0 ==> r == rows
    ensures var start := if offset < 0 then 0 else if offset > |rows| then |rows| else offset;
            start + |r| <= |rows| && r == rows[start..start + |r|]
  {
    var start := if offset < 0 then 0 else if offset > |rows| then |rows| else offset;
    var rest := rows[start..];
    if limit >= 0 && limit < |rest| then rest[..limit] else rest
  }

  /** A page only ever holds rows of the listing it was cut from. */
  lemma PageWithin<T>(rows: seq<T>, limit: int, offset: int, x: T)
    requires x in Page(rows, limit, offset)
    ensures x in rows
  {
    var r := Page(rows, limit, offset);
    var start := if offset < 0 then 0 else if offset > |rows| then |rows| else offset;
    var i :| 0 <= i < |r| && r[i] == x;
    assert r[i] == rows[start + i];
  }

  /** Any contiguous slice of a sorted listing is sorted. */
  lemma SliceSorted<T>(rows: seq<T>, lo: int, hi: int, key: T -> int)
    requires SortedBy(rows, key) && 0 <= lo <= hi <= |rows|
    ensures SortedBy(rows[lo..hi], key)
  {
    var s := rows[lo..hi];
    forall i, j | 0 <= i < j < |s| ensures key(s[i]) <= key(s[j]) {
      assert s[i] == rows[lo + i] && s[j] == rows[lo + j];
    }
  }

  /** Every row of a page comes from the listing it was cut from. */
  lemma PageMembers<T>(rows: seq<T>, limit: int, offset: int)
    ensures forall x :: x in Page(rows, limit, offset) ==> x in rows
  {
    forall x | x in Page(rows, limit, offset) ensures x in rows {
      PageWithin(rows, limit, offset, x);
    }
  }

  /** A page of a sorted listing is sorted. */
  lemma PageSorted<T>(rows: seq<T>, limit: int, offset: int, key: T -> int)
    requires SortedBy(rows, key)
    ensures SortedBy(Page(rows, limit, offset), key)
  {
    var r := Page(rows, limit, offset);
    var start := if offset < 0 then 0 else if offset > |rows| then |rows| else offset;
    SliceSorted(rows, start, start + |r|, key);
  }

  /** A page of a listing without repeats has none. */
  lemma PageDistinct<T>(rows: seq<T>, limit: int, offset: int)
    requires Distinct(rows)
    ensures Distinct(Page(rows, limit, offset))
  {
    var r := Page(rows, limit, offset);
    var start := if offset < 0 then 0 else if offset > |rows| then |rows| else offset;
    SliceDistinct(rows, start, start + |r|);
  }

  /** Any contiguous slice of a listing without repeats has none. */
  lemma SliceDistinct<T>(rows: seq<T>, lo: int, hi: int)
    requires Distinct(rows) && 0 <= lo <= hi <= |rows|
    ensures Distinct(rows[lo..hi])
  {
    var s := rows[lo..hi];
    forall i, j | 0 <= i < j < |s| ensures s[i] != s[j] {
      assert s[i] == rows[lo + i] && s[j] == rows[lo + j];
    }
  }

  /**
   * The first page of a sorted listing takes the lowest keys: a row whose key
   * is below that of a row on the page is on the page too.
   */
  lemma PageLowestFirst<T>(rows: seq<T>, limit: int, offset: int, key: T -> int)
    requires SortedBy(rows, key) && offset <= 0
    ensures forall x, y :: x in Page(rows, limit, offset) && y in rows && key(y) < key(x) ==> y in Page(rows, limit, offset)
  {
    var r := Page(rows, limit, offset);
    forall x, y | x in r && y in rows && key(y) < key(x) ensures y in r {
      var i :| 0 <= i < |r| && r[i] == x;
      var j :| 0 <= j < |rows| && rows[j] == y;
      assert r[i] == rows[i];
      assert j < i;
      assert r[j] == rows[j];
    }
  }

  /**
   * Consecutive pages join up: a page of `a` rows followed by the page of
   * `b` rows that starts where it ends is the page of `a + b` rows.
   */
  lemma PagesJoin<T>(rows: seq<T>, a: int, b: int, offset: int)
    requires 0 <= a && 0 <= b && 0 <= offset
    ensures Page(rows, a, offset) + Page(rows, b, offset + a) == Page(rows, a + b, offset)
  {
    var start := if offset > |rows| then |rows| else offset;
    var first := Page(rows, a, offset);
    var second := Page(rows, b, offset + a);
    var both := Page(rows, a + b, offset);
    assert first == rows[start..start + |first|];
    assert second == rows[start + |first|..start + |first| + |second|];
    assert both == rows[start..start + |first| + |second|];
  }

  /** Keeps, in order, the elements satisfying `p` (a SQL `WHERE` over a scan). */
  function Filter<T(!new)>(s: seq<T>, p: T -> bool): (r: seq<T>)
    ensures |r| <= |s|
    ensures forall x :: x in r <==> x in s && p(x)
    ensures multiset(r) <= multiset(s)
    decreases |s|
  {
    if |s| == 0 then []
    else
      assert s == [s[0]] + s[1..];
      (if p(s[0]) then [s[0]] else []) + Filter(s[1..], p)
  }

  /** Filtering a listing without repeats repeats nothing. */
  lemma {:induction false} FilterDistinct<T(!new)>(s: seq<T>, p: T -> bool)
    requires Distinct(s)
    ensures Distinct(Filter(s, p))
    decreases |s|
  {
    if |s| > 0 {
      assert s == [s[0]] + s[1..];
      DistinctTail(s);
      FilterDistinct(s[1..], p);
      if p(s[0]) {
        DistinctCons(s[0], Filter(s[1..], p));
      }
    }
  }

  /** The keys of a table whose rows pass `p`. */
  function KeysWhere<V>(m: map<int, V>, p: V -> bool): set<int> {
    set k | k in m && p(m[k])
  }

  /** Filtering the rows stored under ascending keys keeps one row per key that passes. */
  /** The keys among `ids` whose rows pass: the first key's share and the rest's. */
  lemma KeysSplit<V>(ids: seq<int>, m: map<int, V>, p: V -> bool)
    requires |ids| > 0 && ids[0] in m
    ensures (set k | k in ids && k in m && p(m[k]))
         == (if p(m[ids[0]]) then {ids[0]} else {}) + (set k | k in ids[1..] && k in m && p(m[k]))
  {
    assert forall k :: k in ids <==> k == ids[0] || k in ids[1..] by {
      assert ids == [ids[0]] + ids[1..];
    }
  }

  lemma {:induction false} LookupFilterCount<V(!new)>(ids: seq<int>, m: map<int, V>, p: V -> bool)
    requires Ascending(ids) && forall i :: 0 <= i < |ids| ==> ids[i] in m
    ensures |Filter(Lookup(ids, m), p)| == |set k | k in ids && k in m && p(m[k])|
    decreases |ids|
  {
    if |ids| > 0 {
      var head, rest := ids[0], ids[1..];
      assert Ascending(rest);
      assert head !in rest by {
        assert forall k :: 0 <= k < |rest| ==> rest[k] == ids[k + 1] && head < ids[k + 1];
      }
      LookupFilterCount(rest, m, p);
      var s, t := Lookup(ids, m), Lookup(rest, m);
      assert s[0] == m[head] && s[1..] == t;
      var kept := if p(m[head]) then [m[head]] else [];
      assert Filter(s, p) == kept + Filter(t, p);
      var later := set k | k in rest && k in m && p(m[k]);
      var first := if p(m[head]) then {head} else {};
      KeysSplit(ids, m, p);
      assert first * later == {};
      assert |first + later| == |first| + |later|;
    }
  }

  /** Keys drawn from a list holding exactly the table's keys are the table's keys. */
  lemma KeysWhereOf<V>(ids: seq<int>, m: map<int, V>, p: V -> bool)
    requires forall k :: k in ids <==> k in m
    ensures (set k | k in ids && k in m && p(m[k])) == KeysWhere(m, p)
  {
    forall k ensures k in ids && k in m && p(m[k]) <==> k in m && p(m[k]) {
    }
  }

  /** A filtered scan holds as many rows as there are keys whose rows pass the filter. */
  lemma ScanFilterCount<V(!new)>(m: map<int, V>, p: V -> bool)
    ensures |Filter(Scan(m), p)| == |KeysWhere(m, p)|
  {
    var ids := SortedKeys(m.Keys);
    ScanCovers(ids, m);
    assert Scan(m) == Lookup(ids, m);
    LookupFilterCount(ids, m, p);
    KeysWhereOf(ids, m, p);
  }

  /** A filter every element passes keeps the whole sequence. */
  lemma {:induction false} FilterKeepsAll<T(!new)>(s: seq<T>, p: T -> bool)
    requires forall x :: x in s ==> p(x)
    ensures Filter(s, p) == s
    decreases |s|
  {
    if |s| > 0 {
      assert s == [s[0]] + s[1..];
      FilterKeepsAll(s[1..], p);
    }
  }

  /**
   * `SELECT … WHERE p ORDER BY key LIMIT limit OFFSET offset` over a scan:
   * only rows that pass the filter, in key order, as many as `PageSize`
   * leaves of the matching rows, none twice unless the scan repeats it, and
   * on a first page the lowest keys; all of them with no limit and no
   * offset. Later pages are the continuation (`SelectPagesJoin`).
   */
  function Select<T(==,!new)>(rows: seq<T>, p: T -> bool, key: T -> int, limit: int, offset: int): (r: seq<T>)
    ensures forall x :: x in r ==> x in rows && p(x)
    ensures SortedBy(r, key)
    ensures |r| == PageSize(|Filter(rows, p)|, limit, offset)
    ensures Distinct(rows) ==> Distinct(r)
    ensures offset <= 0 ==> forall x, y :: x in r && y in rows && p(y) && key(y) < key(x) ==> y in r
    ensures limit < 0 && offset <= 0 ==> forall x :: x in rows && p(x) ==> x in r
  {
    SelectFacts(rows, p, key, limit, offset);
    Page(SortBy(Filter(rows, p), key), limit, offset)
  }

  /** The facts `Select` promises, about the page of the sorted matching rows. */
  lemma SelectFacts<T(!new)>(rows: seq<T>, p: T -> bool, key: T -> int, limit: int, offset: int)
    ensures var r := Page(SortBy(Filter(rows, p), key), limit, offset);
      && (forall x :: x in r ==> x in rows && p(x))
      && SortedBy(r, key)
      && (Distinct(rows) ==> Distinct(r))
      && (offset <= 0 ==> forall x, y :: x in r && y in rows && p(y) && key(y) < key(x) ==> y in r)
      && (limit < 0 && offset <= 0 ==> forall x :: x in rows && p(x) ==> x in r)
  {
    var matching := Filter(rows, p);
    var ordered := SortBy(matching, key);
    SortByMembers(matching, key);
    PageMembers(ordered, limit, offset);
    PageSorted(ordered, limit, offset, key);
    if Distinct(rows) {
      FilterDistinct(rows, p);
      SortByDistinct(matching, key);
      PageDistinct(ordered, limit, offset);
    }
    if offset <= 0 {
      PageLowestFirst(ordered, limit, offset, key);
    }
  }

  /**
   * The page of `a` matching rows followed by the page of `b` that starts
   * where it ends is the page of `a + b`: paging walks one fixed order.
   */
  lemma SelectPagesJoin<T(!new)>(rows: seq<T>, p: T -> bool, key: T -> int, a: int, b: int, offset: int)
    requires 0 <= a && 0 <= b && 0 <= offset
    ensures Select(rows, p, key, a, offset) + Select(rows, p, key, b, offset + a) == Select(rows, p, key, a + b, offset)
  {
    PagesJoin(SortBy(Filter(rows, p), key), a, b, offset);
  }

  /** With no limit, no offset and a filter every row passes, the listing has every row. */
  lemma SelectAll<T(!new)>(rows: seq<T>, p: T -> bool, key: T -> int)
    requires forall x :: x in rows ==> p(x)
    ensures |Select(rows, p, key, -1, 0)| == |rows|
  {
    FilterKeepsAll(rows, p);
  }
}
