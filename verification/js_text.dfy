/**
 * The JavaScript string built-ins the source leans on, written out over `string`
 * (a sequence of Unicode scalar values): `trim`, `split`/`join` on one character,
 * `parseInt` without a radix, number-to-text in template literals, and the
 * UTF-16 length that bounds every zod `.min`/`.max` check.
 */
module JsText {
  import opened Wrappers

  /** The characters `String.prototype.trim` removes: ECMAScript WhiteSpace and LineTerminator. */
  predicate IsJsWhitespace(c: char) {
    var n := c as int;
    (0x09 <= n <= 0x0D) || n == 0x20 || n == 0xA0 || n == 0x1680
    || (0x2000 <= n <= 0x200A) || n == 0x2028 || n == 0x2029 || n == 0x202F
    || n == 0x205F || n == 0x3000 || n == 0xFEFF
  }

  predicate AllWhitespace(s: string) {
    forall i :: 0 <= i < |s| ==> IsJsWhitespace(s[i])
  }

  /** `s.trimStart()`: the suffix left after the longest all-whitespace prefix. */
  function TrimStart(s: string): (r: string)
    ensures |r| <= |s| && r == s[|s| - |r|..]
    ensures AllWhitespace(s[..|s| - |r|])
    ensures |r| > 0 ==> !IsJsWhitespace(r[0])
    decreases |s|
  {
    if |s| > 0 && IsJsWhitespace(s[0]) then
      var r := TrimStart(s[1..]);
      var n := |s| - |r|;
      assert s[1..][n - 1..] == s[n..];
      assert AllWhitespace(s[..n]) by {
        forall i | 0 <= i < n ensures IsJsWhitespace(s[..n][i]) {
          if i > 0 { assert s[..n][i] == s[1..][..n - 1][i - 1]; }
        }
      }
      r
    else s
  }

  /** `s.trimEnd()`: the prefix left after the longest all-whitespace suffix. */
  function TrimEnd(s: string): (r: string)
    ensures |r| <= |s| && r == s[..|r|]
    ensures AllWhitespace(s[|r|..])
    ensures |r| > 0 ==> !IsJsWhitespace(r[|r| - 1])
    decreases |s|
  {
    if |s| > 0 && IsJsWhitespace(s[|s| - 1]) then
      var r := TrimEnd(s[..|s| - 1]);
      assert s[..|s| - 1][..|r|] == s[..|r|];
      assert AllWhitespace(s[|r|..]) by {
        forall i | 0 <= i < |s| - |r| ensures IsJsWhitespace(s[|r|..][i]) {
          if i < |s| - 1 - |r| { assert s[|r|..][i] == s[..|s| - 1][|r|..][i]; }
        }
      }
      r
    else s
  }

  /** `s.trim()`: an infix of `s` that neither starts nor ends with whitespace and is empty only for blank text. */
  function Trim(s: string): (r: string)
    ensures |r| <= |TrimStart(s)| <= |s|
    ensures r == s[|s| - |TrimStart(s)|..][..|r|]
    ensures |r| > 0 ==> !IsJsWhitespace(r[0]) && !IsJsWhitespace(r[|r| - 1])
    ensures |r| == 0 <==> AllWhitespace(s)
  {
    TrimBlank(s);
    TrimEnd(TrimStart(s))
  }

  lemma TrimBlank(s: string)
    ensures |TrimEnd(TrimStart(s))| == 0 <==> AllWhitespace(s)
  {
    var t := TrimStart(s);
    var r := TrimEnd(t);
    if |r| == 0 {
      // `t` starts with a non-blank character unless it is empty, and trims to nothing.
      assert t[|r|..] == t;
      assert s[..|s| - |t|] == s;
    } else {
      assert !IsJsWhitespace(s[|s| - |t|]) by { assert s[|s| - |t|] == t[0] == r[0]; }
    }
  }

  /** A string with a non-whitespace character at index `i` does not trim to nothing. */
  lemma TrimNonEmpty(s: string, i: nat)
    requires i < |s| && !IsJsWhitespace(s[i])
    ensures |Trim(s)| > 0
  {
  }

  /** Index of the first `c` in `s`, or `|s|` when there is none (`indexOf` with -1 read as `|s|`). */
  function IndexOf(s: string, c: char): (i: nat)
    ensures i <= |s|
    ensures i < |s| ==> s[i] == c
    ensures forall k :: 0 <= k < i ==> s[k] != c
    decreases |s|
  {
    if |s| == 0 then 0
    else if s[0] == c then 0
    else 1 + IndexOf(s[1..], c)
  }

  /** `s.split(c)` for a one-character separator: the maximal `c`-free pieces, in order. */
  function Split(s: string, c: char): (parts: seq<string>)
    ensures |parts| >= 1
    ensures forall k, j :: 0 <= k < |parts| && 0 <= j < |parts[k]| ==> parts[k][j] != c
    decreases |s|
  {
    var i := IndexOf(s, c);
    if i == |s| then [s]
    else [s[..i]] + Split(s[i + 1..], c)
  }

  /** `parts.join(c)`. */
  function Join(parts: seq<string>, c: char): string
    decreases |parts|
  {
    if |parts| == 0 then ""
    else if |parts| == 1 then parts[0]
    else parts[0] + [c] + Join(parts[1..], c)
  }

  /** Joining the pieces of a split with the same separator gives back the original text. */
  lemma {:induction false} JoinSplit(s: string, c: char)
    ensures Join(Split(s, c), c) == s
    decreases |s|
  {
    var i := IndexOf(s, c);
    if i < |s| {
      JoinSplit(s[i + 1..], c);
      var rest := Split(s[i + 1..], c);
      assert Split(s, c) == [s[..i]] + rest;
      assert ([s[..i]] + rest)[1..] == rest;
      assert s == s[..i] + [c] + s[i + 1..];
    }
  }

  /**
   * `const [head, ...tail] = s.split(c); tail.join(c)` when `s` contains `c`:
   * `head` is the text before the first `c` and the joined tail is everything after it.
   */
  lemma SplitAtFirst(s: string, c: char)
    requires IndexOf(s, c) < |s|
    ensures Split(s, c)[0] == s[..IndexOf(s, c)]
    ensures |Split(s, c)| >= 2
    ensures Join(Split(s, c)[1..], c) == s[IndexOf(s, c) + 1..]
  {
    var i := IndexOf(s, c);
    var rest := Split(s[i + 1..], c);
    assert Split(s, c) == [s[..i]] + rest;
    assert Split(s, c)[1..] == rest;
    JoinSplit(s[i + 1..], c);
  }

  /** The length JavaScript reports: scalar values above U+FFFF take two UTF-16 code units. */
  function Utf16Length(s: string): (n: nat)
    ensures |s| <= n <= 2 * |s|
  {
    if |s| == 0 then 0
    else (if s[0] as int > 0xFFFF then 2 else 1) + Utf16Length(s[1..])
  }

  /** Text of Basic Latin letters and marks, where JavaScript's `length` is the number of characters. */
  predicate IsBmp(s: string) {
    forall i :: 0 <= i < |s| ==> s[i] as int <= 0xFFFF
  }

  lemma {:induction false} Utf16LengthBmp(s: string)
    requires IsBmp(s)
    ensures Utf16Length(s) == |s|
  {
    if |s| > 0 {
      assert IsBmp(s[1..]) by {
        forall i | 0 <= i < |s[1..]| ensures s[1..][i] as int <= 0xFFFF {
          assert s[1..][i] == s[i + 1];
        }
      }
      Utf16LengthBmp(s[1..]);
    }
  }

  /** `String.prototype.toLowerCase` restricted to ASCII letters; other characters pass through. */
  function ToLowerAscii(s: string): (r: string)
    ensures |r| == |s|
    ensures forall i :: 0 <= i < |s| && 'A' <= s[i] <= 'Z' ==> r[i] as int == s[i] as int + 32
    ensures forall i :: 0 <= i < |s| && !('A' <= s[i] <= 'Z') ==> r[i] == s[i]
  {
    if |s| == 0 then ""
    else [if 'A' <= s[0] <= 'Z' then (s[0] as int + 32) as char else s[0]] + ToLowerAscii(s[1..])
  }

  // ---------------------------------------------------------------------------
  // Numbers as text
  // ---------------------------------------------------------------------------

  predicate IsDecimalDigit(c: char) {
    '0' <= c <= '9'
  }

  predicate IsHexDigit(c: char) {
    IsDecimalDigit(c) || 'a' <= c <= 'f' || 'A' <= c <= 'F'
  }

  predicate IsRadixDigit(c: char, hex: bool) {
    if hex then IsHexDigit(c) else IsDecimalDigit(c)
  }

  function DigitValue(c: char): (v: nat)
    requires IsHexDigit(c)
    ensures v < 16
    ensures IsDecimalDigit(c) ==> v < 10
  {
    if IsDecimalDigit(c) then c as int - '0' as int
    else if 'a' <= c <= 'f' then c as int - 'a' as int + 10
    else c as int - 'A' as int + 10
  }

  function DecimalChar(d: nat): (c: char)
    requires d < 10
    ensures IsDecimalDigit(c) && DigitValue(c) == d
  {
    ('0' as int + d) as char
  }

  /** Length of the longest prefix of `s` made of digits of the radix. */
  function DigitRun(s: string, hex: bool): (n: nat)
    ensures n <= |s|
    ensures forall i :: 0 <= i < n ==> IsRadixDigit(s[i], hex)
    ensures n < |s| ==> !IsRadixDigit(s[n], hex)
    decreases |s|
  {
    if |s| > 0 && IsRadixDigit(s[0], hex) then 1 + DigitRun(s[1..], hex) else 0
  }

  /** Positional value of a digit string, most significant digit first. */
  function DigitsValue(s: string, hex: bool): nat
    requires forall i :: 0 <= i < |s| ==> IsRadixDigit(s[i], hex)
    decreases |s|
  {
    if |s| == 0 then 0
    else
      assert forall i :: 0 <= i < |s| - 1 ==> s[..|s| - 1][i] == s[i];
      assert IsHexDigit(s[|s| - 1]) by { assert IsRadixDigit(s[|s| - 1], hex); }
      DigitsValue(s[..|s| - 1], hex) * (if hex then 16 else 10) + DigitValue(s[|s| - 1])
  }

  /** The longest run of radix digits at the start of `d`, read as a number; `None` when there is none. */
  function ParseDigits(d: string, hex: bool): Option<nat> {
    var n := DigitRun(d, hex);
    if n == 0 then None
    else
      assert forall i :: 0 <= i < n ==> d[..n][i] == d[i];
      Some(DigitsValue(d[..n], hex))
  }

  /** Digits after an optional sign: base 16 after a `0x`/`0X` prefix, base 10 otherwise. */
  function ParseUnsigned(u: string): Option<nat> {
    if |u| >= 2 && u[0] == '0' && (u[1] == 'x' || u[1] == 'X') then ParseDigits(u[2..], true)
    else ParseDigits(u, false)
  }

  function ParseSigned(t: string): Option<int> {
    if |t| > 0 && t[0] == '-' then
      match ParseUnsigned(t[1..])
      case None => None
      case Some(m) => Some(-(m as int))
    else if |t| > 0 && t[0] == '+' then
      match ParseUnsigned(t[1..])
      case None => None
      case Some(m) => Some(m)
    else
      match ParseUnsigned(t)
      case None => None
      case Some(m) => Some(m)
  }

  /**
   * `parseInt(s)` with no radix, `None` standing for NaN: skip leading whitespace,
   * take one optional sign, switch to base 16 after a `0x`/`0X` prefix, and read the
   * longest run of digits; no digit at all gives NaN. Trailing text is ignored.
   */
  function ParseInt(s: string): Option<int> {
    ParseSigned(TrimStart(s))
  }

  /** `parseInt(undefined)`: the argument is first turned into the text "undefined", which has no digits. */
  function ParseIntOpt(s: Option<string>): Option<int> {
    match s
    case None => None
    case Some(t) => ParseInt(t)
  }

  /** Decimal text of a natural number, without leading zeros. */
  function NatToString(n: nat): (s: string)
    ensures |s| > 0
    ensures forall i :: 0 <= i < |s| ==> IsDecimalDigit(s[i])
    ensures |s| > 1 ==> s[0] != '0'
    decreases n
  {
    if n < 10 then [DecimalChar(n)]
    else NatToString(n / 10) + [DecimalChar(n % 10)]
  }

  /** `${n}` for an integer `n`. */
  function IntToString(n: int): (s: string)
    ensures |s| > 0
  {
    if n < 0 then "-" + NatToString(-n) else NatToString(n)
  }

  lemma {:induction false} NatToStringValue(n: nat)
    ensures DigitsValue(NatToString(n), false) == n
    decreases n
  {
    var s := NatToString(n);
    if n >= 10 {
      NatToStringValue(n / 10);
      assert s[..|s| - 1] == NatToString(n / 10);
    }
  }

  lemma DigitRunAll(s: string, hex: bool)
    requires forall i :: 0 <= i < |s| ==> IsRadixDigit(s[i], hex)
    ensures DigitRun(s, hex) == |s|
  {
  }

  /** The decimal text of a natural number reads back, unsigned, as that number. */
  lemma ParseUnsignedOfNatToString(m: nat)
    ensures ParseUnsigned(NatToString(m)) == Some(m)
  {
    var digits := NatToString(m);
    // A leading zero is only ever the whole text "0", so there is no hex prefix.
    assert !(|digits| >= 2 && digits[0] == '0');
    DigitRunAll(digits, false);
    assert digits[..|digits|] == digits;
    NatToStringValue(m);
  }

  /** Reading back the decimal text of any integer with `parseInt` yields that integer. */
  lemma ParseIntOfIntToString(n: int)
    ensures ParseInt(IntToString(n)) == Some(n)
  {
    var m: nat := if n < 0 then -n else n;
    var s := IntToString(n);
    assert !IsJsWhitespace(s[0]);
    assert TrimStart(s) == s;
    ParseUnsignedOfNatToString(m);
    if n < 0 {
      assert s[1..] == NatToString(m);
    } else {
      assert s[0] != '-' && s[0] != '+';
    }
  }

  /** `parseInt("50")`, worked digit by digit. */
  lemma ParseFifty()
    ensures ParseInt("50") == Some(50)
  {
    var s := "50";
    assert s[0] == '5' && s[1] == '0' && |s| == 2;
    assert TrimStart(s) == s;
    assert s[1..] == "0";
    assert DigitRun(s[1..], false) == 1;
    assert DigitRun(s, false) == 2;
    assert s[..2] == s;
    assert s[..1] == "5";
    assert DigitsValue(s[..1], false) == 5;
    assert DigitsValue(s, false) == 50;
    assert ParseDigits(s, false) == Some(50);
    assert ParseUnsigned(s) == Some(50);
    assert ParseSigned(s) == Some(50);
  }

  /** `parseInt("0")`. */
  lemma ParseZero()
    ensures ParseInt("0") == Some(0)
  {
    ParseIntOfIntToString(0);
    assert IntToString(0) == "0";
  }

  /** Text without a single decimal digit is NaN to `parseInt`. */
  lemma ParseIntNoDigits(s: string)
    requires forall i :: 0 <= i < |s| ==> !IsDecimalDigit(s[i])
    ensures ParseInt(s) == None
  {
    var t := TrimStart(s);
    assert forall i :: 0 <= i < |t| ==> t[i] == s[|s| - |t| + i];
    var u := if |t| > 0 && (t[0] == '-' || t[0] == '+') then t[1..] else t;
    assert forall i :: 0 <= i < |u| ==> !IsDecimalDigit(u[i]);
    assert |u| > 0 ==> u[0] != '0' && !IsRadixDigit(u[0], false);
    assert ParseUnsigned(u) == None;
  }
}
