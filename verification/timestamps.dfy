/**
 * How the database layers actually compare times. Expiry columns are written with
 * `Date.prototype.toISOString()` ("2024-01-01T10:00:00.000Z"), but `getSession`,
 * `deleteExpiredSessions` and `isTokenRevoked` compare them as TEXT against
 * SQLite's `datetime('now')` ("2024-01-01 12:00:00"). Only `cleanupExpiredTokens`
 * formats its bound with `toISOString()` too.
 *
 * The model checks both comparisons. Same-format ISO text orders exactly like the
 * instants it denotes, which is what the rest of the model assumes with its
 * integer clock. The mixed-format comparison treats every expiry that falls on
 * the current UTC date as still ahead, because ' ' sorts below 'T'.
 */
module Timestamps {
  import JsText

  /** A UTC instant with the fields both text formats print (years 0..9999). */
  datatype Instant = Instant(year: nat, month: nat, day: nat, hour: nat, minute: nat, second: nat, millis: nat)

  predicate Printable(t: Instant) {
    t.year < 10000 && t.month < 100 && t.day < 100 && t.hour < 100
    && t.minute < 100 && t.second < 100 && t.millis < 1000
  }

  /** Chronological order: field by field, most significant first. */
  predicate Before(a: Instant, b: Instant) {
    if a.year != b.year then a.year < b.year
    else if a.month != b.month then a.month < b.month
    else if a.day != b.day then a.day < b.day
    else if a.hour != b.hour then a.hour < b.hour
    else if a.minute != b.minute then a.minute < b.minute
    else if a.second != b.second then a.second < b.second
    else a.millis < b.millis
  }

  /** SQLite's BINARY comparison of two TEXT values (and JavaScript's `<` on strings). */
  predicate TextLess(a: string, b: string)
    decreases |a|
  {
    if |a| == 0 then |b| > 0
    else if |b| == 0 then false
    else if a[0] != b[0] then a[0] < b[0]
    else TextLess(a[1..], b[1..])
  }

  function Pow10(w: nat): (p: nat)
    ensures p >= 1
  {
    if w == 0 then 1 else 10 * Pow10(w - 1)
  }

  /** `n` printed in exactly `w` decimal digits, zero-padded. */
  function Pad(n: nat, w: nat): (s: string)
    requires n < Pow10(w)
    ensures |s| == w
    decreases w
  {
    if w == 0 then "" else Pad(n / 10, w - 1) + [JsText.DecimalChar(n % 10)]
  }

  /** `Date.prototype.toISOString()`: "YYYY-MM-DDTHH:MM:SS.sssZ". */
  function IsoText(t: Instant): string
    requires Printable(t)
  {
    Pad(t.year, 4) + ("-" + (Pad(t.month, 2) + ("-" + (Pad(t.day, 2) + ("T" + IsoTime(t))))))
  }

  function IsoTime(t: Instant): string
    requires Printable(t)
  {
    Pad(t.hour, 2) + (":" + (Pad(t.minute, 2) + (":" + (Pad(t.second, 2) + ("." + (Pad(t.millis, 3) + "Z"))))))
  }

  /** SQLite `datetime('now')`: "YYYY-MM-DD HH:MM:SS". */
  function SqlNowText(t: Instant): string
    requires Printable(t)
  {
    Pad(t.year, 4) + ("-" + (Pad(t.month, 2) + ("-" + (Pad(t.day, 2) + (" " + SqlTime(t))))))
  }

  function SqlTime(t: Instant): string
    requires Printable(t)
  {
    Pad(t.hour, 2) + (":" + (Pad(t.minute, 2) + (":" + Pad(t.second, 2))))
  }

  // ---------------------------------------------------------------------------
  // Text order over fixed-width fields
  // ---------------------------------------------------------------------------

  /** Comparing texts that start with equally long heads compares the heads first. */
  lemma {:induction false} TextLessConcat(p1: string, q1: string, p2: string, q2: string)
    requires |p1| == |p2|
    ensures TextLess(p1 + q1, p2 + q2) <==> TextLess(p1, p2) || (p1 == p2 && TextLess(q1, q2))
    decreases |p1|
  {
    if |p1| > 0 {
      assert (p1 + q1)[0] == p1[0] && (p2 + q2)[0] == p2[0];
      assert (p1 + q1)[1..] == p1[1..] + q1;
      assert (p2 + q2)[1..] == p2[1..] + q2;
      TextLessConcat(p1[1..], q1, p2[1..], q2);
      if p1[0] == p2[0] {
        assert p1 == p2 <==> p1[1..] == p2[1..] by {
          if p1[1..] == p2[1..] { assert p1 == [p1[0]] + p1[1..] && p2 == [p2[0]] + p2[1..]; }
        }
      }
    } else {
      assert p1 + q1 == q1 && p2 + q2 == q2;
    }
  }

  /** Zero-padded fields of one width order as text exactly as the numbers do. */
  lemma {:induction false} PadOrder(a: nat, b: nat, w: nat)
    requires a < Pow10(w) && b < Pow10(w)
    ensures TextLess(Pad(a, w), Pad(b, w)) <==> a < b
    ensures Pad(a, w) == Pad(b, w) <==> a == b
    decreases w
  {
    if w > 0 {
      PadOrder(a / 10, b / 10, w - 1);
      var da := [JsText.DecimalChar(a % 10)];
      var db := [JsText.DecimalChar(b % 10)];
      TextLessConcat(Pad(a / 10, w - 1), da, Pad(b / 10, w - 1), db);
      assert TextLess(da, db) <==> a % 10 < b % 10;
      assert da == db <==> a % 10 == b % 10 by {
        if da == db { assert da[0] == db[0]; }
      }
      if Pad(a, w) == Pad(b, w) {
        assert Pad(a, w)[..w - 1] == Pad(a / 10, w - 1);
        assert Pad(b, w)[..w - 1] == Pad(b / 10, w - 1);
        assert Pad(a, w)[w - 1] == da[0];
        assert Pad(b, w)[w - 1] == db[0];
      }
    } else {
      assert a == 0 && b == 0;
    }
  }

  /** A field followed by anything: the field decides unless it is equal. */
  lemma FieldFirst(a: nat, b: nat, w: nat, q1: string, q2: string)
    requires a < Pow10(w) && b < Pow10(w)
    ensures TextLess(Pad(a, w) + q1, Pad(b, w) + q2) <==> a < b || (a == b && TextLess(q1, q2))
  {
    TextLessConcat(Pad(a, w), q1, Pad(b, w), q2);
    PadOrder(a, b, w);
  }

  /** A shared separator character is skipped. */
  lemma SeparatorSkipped(c: char, q1: string, q2: string)
    ensures TextLess([c] + q1, [c] + q2) <==> TextLess(q1, q2)
  {
    assert ([c] + q1)[1..] == q1 && ([c] + q2)[1..] == q2;
  }

  // ---------------------------------------------------------------------------
  // The corrected comparison: ISO text against ISO text
  // ---------------------------------------------------------------------------

  lemma IsoTimeOrder(a: Instant, b: Instant)
    requires Printable(a) && Printable(b)
    requires a.year == b.year && a.month == b.month && a.day == b.day
    ensures TextLess(IsoTime(a), IsoTime(b)) <==> Before(a, b)
  {
    FieldFirst(a.millis, b.millis, 3, "Z", "Z");
    SeparatorSkipped('.', Pad(a.millis, 3) + "Z", Pad(b.millis, 3) + "Z");
    FieldFirst(a.second, b.second, 2, "." + (Pad(a.millis, 3) + "Z"), "." + (Pad(b.millis, 3) + "Z"));
    var s1 := Pad(a.second, 2) + ("." + (Pad(a.millis, 3) + "Z"));
    var s2 := Pad(b.second, 2) + ("." + (Pad(b.millis, 3) + "Z"));
    SeparatorSkipped(':', s1, s2);
    FieldFirst(a.minute, b.minute, 2, ":" + s1, ":" + s2);
    var m1 := Pad(a.minute, 2) + (":" + s1);
    var m2 := Pad(b.minute, 2) + (":" + s2);
    SeparatorSkipped(':', m1, m2);
    FieldFirst(a.hour, b.hour, 2, ":" + m1, ":" + m2);
  }

  /** ISO texts compare exactly as the instants they print: the comparison `cleanupExpiredTokens` makes is sound. */
  lemma IsoOrder(a: Instant, b: Instant)
    requires Printable(a) && Printable(b)
    ensures TextLess(IsoText(a), IsoText(b)) <==> Before(a, b)
  {
    var t1 := "T" + IsoTime(a);
    var t2 := "T" + IsoTime(b);
    if a.year == b.year && a.month == b.month && a.day == b.day {
      IsoTimeOrder(a, b);
    }
    SeparatorSkipped('T', IsoTime(a), IsoTime(b));
    FieldFirst(a.day, b.day, 2, t1, t2);
    var d1 := Pad(a.day, 2) + t1;
    var d2 := Pad(b.day, 2) + t2;
    SeparatorSkipped('-', d1, d2);
    FieldFirst(a.month, b.month, 2, "-" + d1, "-" + d2);
    var m1 := Pad(a.month, 2) + ("-" + d1);
    var m2 := Pad(b.month, 2) + ("-" + d2);
    SeparatorSkipped('-', m1, m2);
    FieldFirst(a.year, b.year, 4, "-" + m1, "-" + m2);
  }

  /** Session liveness as intended: `expires_at > now`, both sides printed by `toISOString()`. */
  function CorrectedSessionLive(expires: Instant, now: Instant): (live: bool)
    requires Printable(expires) && Printable(now)
    ensures live <==> Before(now, expires)
  {
    IsoOrder(now, expires);
    TextLess(IsoText(now), IsoText(expires))
  }

  // ---------------------------------------------------------------------------
  // As written: ISO text against datetime('now')
  // ---------------------------------------------------------------------------

  /** `expires_at > datetime('now')`, the filter of `getSession` as written. */
  predicate AsWrittenSessionLive(expires: Instant, now: Instant)
    requires Printable(expires) && Printable(now)
  {
    TextLess(SqlNowText(now), IsoText(expires))
  }

  /** `expires_at <= datetime('now')`, the sweep of `deleteExpiredSessions` as written. */
  predicate AsWrittenSessionSwept(expires: Instant, now: Instant)
    requires Printable(expires) && Printable(now)
  {
    !AsWrittenSessionLive(expires, now)
  }

  /** The "YYYY-MM-DD" both formats start with. */
  function DateText(t: Instant): (s: string)
    requires Printable(t)
    ensures |s| == 10
  {
    Pad(t.year, 4) + ("-" + (Pad(t.month, 2) + ("-" + Pad(t.day, 2))))
  }

  lemma SqlNowSplit(t: Instant)
    requires Printable(t)
    ensures SqlNowText(t) == DateText(t) + (" " + SqlTime(t))
  {
  }

  lemma IsoSplit(t: Instant)
    requires Printable(t)
    ensures IsoText(t) == DateText(t) + ("T" + IsoTime(t))
  {
  }

  /** On the current UTC date every expiry reads as still ahead, whatever its time of day. */
  lemma AsWrittenSameDayAlwaysLive(expires: Instant, now: Instant)
    requires Printable(expires) && Printable(now)
    requires expires.year == now.year && expires.month == now.month && expires.day == now.day
    ensures AsWrittenSessionLive(expires, now)
    ensures !AsWrittenSessionSwept(expires, now)
  {
    SqlNowSplit(now);
    IsoSplit(expires);
    assert DateText(now) == DateText(expires);
    TextLessConcat(DateText(now), " " + SqlTime(now), DateText(expires), "T" + IsoTime(expires));
    assert TextLess(" " + SqlTime(now), "T" + IsoTime(expires));
  }

  /**
   * The discrepancy on a concrete input: a session that expired at 10:00 UTC is
   * still returned by `getSession` at 12:00 UTC the same day, and the sweep keeps it.
   */
  lemma ExpiredSessionStillLive()
    ensures var expires := Instant(2024, 1, 1, 10, 0, 0, 0);
            var now := Instant(2024, 1, 1, 12, 0, 0, 0);
            Before(expires, now)
            && AsWrittenSessionLive(expires, now)
            && !AsWrittenSessionSwept(expires, now)
            && !CorrectedSessionLive(expires, now)
  {
    var expires := Instant(2024, 1, 1, 10, 0, 0, 0);
    var now := Instant(2024, 1, 1, 12, 0, 0, 0);
    AsWrittenSameDayAlwaysLive(expires, now);
  }
}
