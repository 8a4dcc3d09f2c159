/**
 * The platform-account form of the chat aggregator UI: `parseCookies`, which
 * takes a JSON array of cookies or falls back to `name=value` lines, and the
 * checks `handleSubmit` makes before it builds the request. `JSON.parse` is
 * a parameter (`None` when it throws).
 */
module CookieForm {
  import opened Wrappers
  import opened Json
  import opened JsText
  import AccountRoutes

  /** A cookie the line format produces. */
  datatype Cookie = Cookie(name: string, value: string, domain: string, path: string)

  /** The object `cookies.push` adds. */
  function CookieJson(c: Cookie): (j: Json)
    ensures j.JObj? && j.fields.Keys == {"name", "value", "domain", "path"}
    ensures j.fields["name"] == JStr(c.name) && j.fields["value"] == JStr(c.value)
    ensures j.fields["domain"] == JStr(c.domain) && j.fields["path"] == JStr(c.path)
  {
    JObj(map["name" := JStr(c.name), "value" := JStr(c.value), "domain" := JStr(c.domain), "path" := JStr(c.path)])
  }

  /** `platforms.find(p => p.value === platform)?.label`. */
  function PlatformLabel(platform: string): (r: Option<string>)
    ensures r.Some? <==> platform in {"chatgpt", "claude", "grok", "gemini"}
  {
    if platform == "chatgpt" then Some("ChatGPT")
    else if platform == "claude" then Some("Claude")
    else if platform == "grok" then Some("Grok")
    else if platform == "gemini" then Some("Gemini")
    else None
  }

  /**
   * `.${label?.toLowerCase()}.com`: an unknown platform leaves the label
   * `undefined`, which the template literal spells out.
   */
  function DomainFor(platform: string): string {
    "." + (match PlatformLabel(platform) case Some(l) => ToLowerAscii(l) case None => "undefined") + ".com"
  }

  /** For each of the four platforms the lowered label is the platform's own name. */
  lemma DomainIsPlatform(platform: string)
    requires platform in {"chatgpt", "claude", "grok", "gemini"}
    ensures DomainFor(platform) == "." + platform + ".com"
  {
    if platform == "chatgpt" {
      Lowers("ChatGPT", "chatgpt");
    } else if platform == "claude" {
      Lowers("Claude", "claude");
    } else if platform == "grok" {
      Lowers("Grok", "grok");
    } else {
      Lowers("Gemini", "gemini");
    }
  }

  /** `label.toLowerCase() == lower`, checked character by character. */
  lemma Lowers(text: string, lowered: string)
    requires |text| == |lowered|
    requires forall i :: 0 <= i < |text| ==> lowered[i] == (if 'A' <= text[i] <= 'Z' then (text[i] as int + 32) as char else text[i])
    ensures ToLowerAscii(text) == lowered
  {
  }

  // ---------------------------------------------------------------------------
  // The line format
  // ---------------------------------------------------------------------------

  /**
   * One line of the fallback: trimmed, it must contain `=`; the name is the
   * text before the first `=` and the value everything after it (rejoined
   * with `=`), both non-empty before they are trimmed.
   */
  function LineCookie(line: string, domain: string): (r: Option<Cookie>)
    ensures r.Some? ==> r.value.domain == domain && r.value.path == "/"
  {
    var t := Trim(line);
    if IndexOf(t, '=') == |t| then None
    else
      var parts := Split(t, '=');
      var name := parts[0];
      var value := Join(parts[1..], '=');
      if name != "" && value != "" then Some(Cookie(Trim(name), Trim(value), domain, "/"))
      else None
  }

  /**
   * A line gives a cookie exactly when its trimmed text has an `=` that is
   * neither its first nor its last character; the name is the trimmed text
   * before the first `=` and the value the trimmed text after it.
   */
  lemma LineCookieShape(line: string, domain: string)
    ensures var t := Trim(line);
            var i := IndexOf(t, '=');
            && (LineCookie(line, domain).Some? <==> 0 < i < |t| - 1)
            && (0 < i < |t| - 1 ==> LineCookie(line, domain) == Some(Cookie(Trim(t[..i]), Trim(t[i + 1..]), domain, "/")))
  {
    var t := Trim(line);
    var i := IndexOf(t, '=');
    if i < |t| {
      SplitAtFirst(t, '=');
      assert |t[i + 1..]| == |t| - 1 - i;
    }
  }

  /** A cookie from the line format has a name and a value, neither empty nor padded with whitespace. */
  lemma LineCookieFilled(line: string, domain: string)
    requires LineCookie(line, domain).Some?
    ensures var c := LineCookie(line, domain).value;
            && c.name != "" && c.value != ""
            && !IsJsWhitespace(c.name[0]) && !IsJsWhitespace(c.name[|c.name| - 1])
            && !IsJsWhitespace(c.value[0]) && !IsJsWhitespace(c.value[|c.value| - 1])
  {
    LineCookieShape(line, domain);
    var t := Trim(line);
    HalvesFilled(t, IndexOf(t, '='));
  }

  /**
   * Cutting text that starts and ends with a non-blank character at an
   * inner position leaves two halves that each trim to something.
   */
  lemma HalvesFilled(t: string, i: nat)
    requires 0 < i < |t| - 1 && !IsJsWhitespace(t[0]) && !IsJsWhitespace(t[|t| - 1])
    ensures |Trim(t[..i])| > 0 && |Trim(t[i + 1..])| > 0
  {
    assert t[..i][0] == t[0];
    TrimNonEmpty(t[..i], 0);
    assert t[i + 1..][|t| - i - 2] == t[|t| - 1];
    TrimNonEmpty(t[i + 1..], |t| - i - 2);
  }

  /** `text.split('\n').filter(line => line.trim())`. */
  function NonBlankLines(lines: seq<string>): (r: seq<string>)
    ensures forall l :: l in r <==> l in lines && Trim(l) != ""
    decreases |lines|
  {
    if |lines| == 0 then []
    else
      assert lines == [lines[0]] + lines[1..];
      (if Trim(lines[0]) != "" then [lines[0]] else []) + NonBlankLines(lines[1..])
  }

  /** The `for (const line of lines)` loop with `read` as its body: one cookie per line that yields one, in order. */
  function Collect(lines: seq<string>, read: string -> Option<Cookie>): seq<Cookie>
    decreases |lines|
  {
    if |lines| == 0 then []
    else
      match read(lines[0])
      case Some(c) => [c] + Collect(lines[1..], read)
      case None => Collect(lines[1..], read)
  }

  /** The loop body of the fallback. */
  function Reader(domain: string): (read: string -> Option<Cookie>)
    ensures forall line :: read(line) == LineCookie(line, domain)
  {
    line => LineCookie(line, domain)
  }

  function LineCookies(lines: seq<string>, domain: string): seq<Cookie> {
    Collect(lines, Reader(domain))
  }

  /** Every cookie of the loop comes from some line, has a name and a value, the domain and the path `/`. */
  lemma {:induction false} LineCookiesFilled(lines: seq<string>, domain: string)
    ensures forall c :: c in LineCookies(lines, domain) ==>
      c.name != "" && c.value != "" && c.domain == domain && c.path == "/"
    decreases |lines|
  {
    if |lines| > 0 {
      LineCookiesFilled(lines[1..], domain);
      assert Reader(domain)(lines[0]) == LineCookie(lines[0], domain);
      if LineCookie(lines[0], domain).Some? {
        LineCookieFilled(lines[0], domain);
      }
    }
  }

  /** The fallback parser: the cookies of the non-blank lines, or "No valid cookies found". */
  function Fallback(text: string, platform: string): (r: Result<seq<Cookie>, string>)
    ensures r.Err? ==> r.error == "No valid cookies found"
    ensures r.Ok? ==> |r.value| > 0
  {
    var cookies := LineCookies(NonBlankLines(Split(text, '\n')), DomainFor(platform));
    if |cookies| == 0 then Err("No valid cookies found") else Ok(cookies)
  }

  /** `cookies.map` over the objects pushed. */
  function CookiesJson(cs: seq<Cookie>): (r: seq<Json>)
    ensures |r| == |cs|
    ensures forall i :: 0 <= i < |cs| ==> r[i] == CookieJson(cs[i])
  {
    if |cs| == 0 then [] else [CookieJson(cs[0])] + CookiesJson(cs[1..])
  }

  /**
   * `parseCookies(text)`: a JSON array is returned as it is, items unchecked;
   * anything else, parsed or not, goes to the line format.
   */
  function ParseCookies(parse: string -> Option<Json>, text: string, platform: string): (r: Result<seq<Json>, string>)
    ensures parse(text).Some? && parse(text).value.JArr? ==> r == Ok(parse(text).value.items)
    ensures !(parse(text).Some? && parse(text).value.JArr?) ==>
      && (r.Ok? <==> Fallback(text, platform).Ok?)
      && (r.Ok? ==> r.value == CookiesJson(Fallback(text, platform).value))
      && (r.Err? ==> r == Err("No valid cookies found"))
  {
    match parse(text)
    case Some(JArr(items)) => Ok(items)
    case _ =>
      match Fallback(text, platform)
      case Ok(cs) => Ok(CookiesJson(cs))
      case Err(e) => Err(e)
  }

  /** Text that parses to an array is passed through; text that parses to anything else is read as lines. */
  lemma ParseCookiesBranches(parse: string -> Option<Json>, text: string, platform: string)
    ensures parse(text).Some? && parse(text).value.JArr? ==> ParseCookies(parse, text, platform) == Ok(parse(text).value.items)
    ensures !(parse(text).Some? && parse(text).value.JArr?) ==>
      && (ParseCookies(parse, text, platform).Ok? <==> Fallback(text, platform).Ok?)
      && (Fallback(text, platform).Ok? ==> ParseCookies(parse, text, platform) == Ok(CookiesJson(Fallback(text, platform).value)))
      && (Fallback(text, platform).Err? ==> ParseCookies(parse, text, platform) == Err("No valid cookies found"))
  {
  }

  /** Every cookie the line format makes passes the form's own check, and the server's. */
  lemma FallbackPassesCheck(text: string, platform: string)
    requires Fallback(text, platform).Ok?
    ensures AccountRoutes.CheckCookies(CookiesJson(Fallback(text, platform).value)).Ok?
  {
    var lines := NonBlankLines(Split(text, '\n'));
    var cs := Fallback(text, platform).value;
    LineCookiesFilled(lines, DomainFor(platform));
    var js := CookiesJson(cs);
    forall j | j in js ensures AccountRoutes.CookieComplete(j) {
      var i :| 0 <= i < |js| && js[i] == j;
      assert cs[i] in cs;
    }
  }

  // ---------------------------------------------------------------------------
  // Rendering cookies as lines, and reading them back
  // ---------------------------------------------------------------------------

  /** A cookie that survives being written as a `name=value` line. */
  predicate Writable(c: Cookie) {
    && c.name != "" && c.value != ""
    && !IsJsWhitespace(c.name[0]) && !IsJsWhitespace(c.name[|c.name| - 1])
    && !IsJsWhitespace(c.value[0]) && !IsJsWhitespace(c.value[|c.value| - 1])
    && (forall i :: 0 <= i < |c.name| ==> c.name[i] != '=' && c.name[i] != '\n')
    && (forall i :: 0 <= i < |c.value| ==> c.value[i] != '\n')
  }

  function RenderLine(c: Cookie): string {
    c.name + "=" + c.value
  }

  function RenderLines(cs: seq<Cookie>): (r: seq<string>)
    ensures |r| == |cs|
    ensures forall i :: 0 <= i < |cs| ==> r[i] == RenderLine(cs[i])
  {
    if |cs| == 0 then [] else [RenderLine(cs[0])] + RenderLines(cs[1..])
  }

  /** The text a user would paste: one `name=value` line per cookie. */
  function Render(cs: seq<Cookie>): string {
    Join(RenderLines(cs), '\n')
  }

  /** Text with nothing to trim at either end is its own trim. */
  lemma TrimUntouched(s: string)
    requires |s| > 0 && !IsJsWhitespace(s[0]) && !IsJsWhitespace(s[|s| - 1])
    ensures Trim(s) == s
  {
    assert TrimStart(s) == s;
    assert TrimEnd(s) == s;
  }

  /** In `name=value` with no `=` in the name, the first `=` is the one after the name. */
  lemma FirstSeparator(name: string, value: string)
    requires forall i :: 0 <= i < |name| ==> name[i] != '='
    ensures IndexOf(name + "=" + value, '=') == |name|
  {
    var line := name + "=" + value;
    assert line[|name|] == '=';
    assert forall k :: 0 <= k < |name| ==> line[k] == name[k];
  }

  /** A trimmed line whose first `=` sits inside it splits there. */
  lemma LineCookieAt(line: string, domain: string, i: int)
    requires Trim(line) == line && IndexOf(line, '=') == i && 0 < i < |line| - 1
    ensures LineCookie(line, domain) == Some(Cookie(Trim(line[..i]), Trim(line[i + 1..]), domain, "/"))
  {
    LineCookieShape(line, domain);
  }

  /** The line of a writable cookie needs no trimming, and its first `=` ends the name. */
  lemma RenderLineParts(c: Cookie)
    requires Writable(c)
    ensures var line := RenderLine(c);
      && Trim(line) == line && IndexOf(line, '=') == |c.name| && 0 < |c.name| < |line| - 1
      && line[..|c.name|] == c.name && line[|c.name| + 1..] == c.value
  {
    var line := RenderLine(c);
    assert line[0] == c.name[0] && line[|line| - 1] == c.value[|c.value| - 1];
    TrimUntouched(line);
    FirstSeparator(c.name, c.value);
    assert line[..|c.name|] == c.name;
    assert line[|c.name| + 1..] == c.value;
  }

  /** The line of a writable cookie reads back as that cookie. */
  lemma LineRoundTrip(c: Cookie, domain: string)
    requires Writable(c) && c.domain == domain && c.path == "/"
    ensures LineCookie(RenderLine(c), domain) == Some(c)
    ensures Trim(RenderLine(c)) != ""
  {
    RenderLineParts(c);
    LineCookieAt(RenderLine(c), domain, |c.name|);
    TrimUntouched(c.name);
    TrimUntouched(c.value);
  }

  /** Splitting a join of newline-free lines on the separator gives the lines back. */
  lemma {:induction false} SplitJoin(lines: seq<string>, c: char)
    requires |lines| > 0
    requires forall k, j :: 0 <= k < |lines| && 0 <= j < |lines[k]| ==> lines[k][j] != c
    ensures Split(Join(lines, c), c) == lines
    decreases |lines|
  {
    var s := Join(lines, c);
    var l := lines[0];
    assert forall j :: 0 <= j < |l| ==> l[j] != c;
    if |lines| == 1 {
      assert IndexOf(s, c) == |s|;
    } else {
      var rest := Join(lines[1..], c);
      assert s == l + [c] + rest;
      assert IndexOf(s, c) == |l| by {
        assert s[|l|] == c;
      }
      assert s[..|l|] == l;
      assert s[|l| + 1..] == rest;
      SplitJoin(lines[1..], c);
      assert lines == [l] + lines[1..];
    }
  }

  /** Lines that are none of them blank pass the filter whole. */
  lemma {:induction false} NonBlankKeepsAll(lines: seq<string>)
    requires forall i :: 0 <= i < |lines| ==> Trim(lines[i]) != ""
    ensures NonBlankLines(lines) == lines
    decreases |lines|
  {
    if |lines| > 0 {
      NonBlankKeepsAll(lines[1..]);
    }
  }

  /** When every line reads as the cookie at its position, the loop returns exactly those cookies. */
  lemma {:induction false} CollectEach(lines: seq<string>, cs: seq<Cookie>, read: string -> Option<Cookie>)
    requires |lines| == |cs|
    requires forall i :: 0 <= i < |lines| ==> read(lines[i]) == Some(cs[i])
    ensures Collect(lines, read) == cs
    decreases |lines|
  {
    if |lines| > 0 {
      assert read(lines[0]) == Some(cs[0]);
      CollectEach(lines[1..], cs[1..], read);
      assert cs == [cs[0]] + cs[1..];
    }
  }

  /**
   * Pasting the lines of writable cookies (with the platform's domain and
   * the path `/`) into the form gives back exactly those cookies, in order.
   */
  lemma FallbackRoundTrip(cs: seq<Cookie>, platform: string)
    requires |cs| > 0
    requires forall i :: 0 <= i < |cs| ==> Writable(cs[i]) && cs[i].domain == DomainFor(platform) && cs[i].path == "/"
    ensures Fallback(Render(cs), platform) == Ok(cs)
  {
    var lines := RenderLines(cs);
    forall k, j | 0 <= k < |lines| && 0 <= j < |lines[k]| ensures lines[k][j] != '\n' {
      var c := cs[k];
      assert lines[k] == c.name + "=" + c.value;
      if j < |c.name| {
        assert lines[k][j] == c.name[j];
      } else if j > |c.name| {
        assert lines[k][j] == c.value[j - |c.name| - 1];
      }
    }
    SplitJoin(lines, '\n');
    forall i | 0 <= i < |lines| ensures Trim(lines[i]) != "" {
      LineRoundTrip(cs[i], DomainFor(platform));
    }
    NonBlankKeepsAll(lines);
    var read := Reader(DomainFor(platform));
    forall i | 0 <= i < |lines| ensures read(lines[i]) == Some(cs[i]) {
      LineRoundTrip(cs[i], DomainFor(platform));
    }
    CollectEach(lines, cs, read);
  }

  // ---------------------------------------------------------------------------
  // Submitting
  // ---------------------------------------------------------------------------

  /** The form's state: `account` is the id of the account being edited, if any. */
  datatype Form = Form(platform: string, accountName: string, cookiesText: string, editing: Option<int>)

  /** The body `handleSubmit` sends; `platform` is left out when editing. */
  datatype SubmitBody = SubmitBody(accountName: string, cookies: seq<Json>, platform: Option<string>)

  datatype Request = Request(verb: string, url: string, body: SubmitBody)

  /**
   * `handleSubmit` up to the `fetch`: a blank account name or blank cookie
   * text is refused before parsing, then every parsed cookie needs a truthy
   * name and value (reading `name` of a `null` cookie throws). The thrown
   * message is the engine's; the model uses V8's text, and a browser with
   * another engine shows other words for the same refusal.
   */
  function HandleSubmit(parse: string -> Option<Json>, f: Form): (r: Result<Request, string>)
    ensures Trim(f.accountName) == "" ==> r == Err("Account name is required")
    ensures Trim(f.accountName) != "" && Trim(f.cookiesText) == "" ==> r == Err("Cookies are required")
    ensures r.Ok? ==> Trim(f.accountName) != "" && Trim(f.cookiesText) != ""
    ensures r.Ok? ==> r.value == RequestFor(f, r.value.body.cookies)
    ensures r.Ok? ==> forall c :: c in r.value.body.cookies ==> AccountRoutes.CookieComplete(c)
  {
    if Trim(f.accountName) == "" then Err("Account name is required")
    else if Trim(f.cookiesText) == "" then Err("Cookies are required")
    else
      match ParseCookies(parse, f.cookiesText, f.platform)
      case Err(e) => Err(e)
      case Ok(cookies) =>
        match AccountRoutes.CheckCookies(cookies)
        case Err(fault) => if fault.MissingField? then Err("Each cookie must have a name and value") else Err(fault.message)
        case Ok(_) => Ok(RequestFor(f, cookies))
  }

  /** The request for cookies that passed: PUT to the account when editing, otherwise POST with the platform. */
  function RequestFor(f: Form, cookies: seq<Json>): (r: Request)
    ensures f.editing.Some? ==> r.verb == "PUT" && r.body.platform.None?
    ensures f.editing.None? ==> r.verb == "POST" && r.url == "/api/platform-accounts" && r.body.platform == Some(f.platform)
    ensures r.body.cookies == cookies && r.body.accountName == Trim(f.accountName)
  {
    if f.editing.Some? then
      Request("PUT", "/api/platform-accounts/" + IntToString(f.editing.value), SubmitBody(Trim(f.accountName), cookies, None))
    else
      Request("POST", "/api/platform-accounts", SubmitBody(Trim(f.accountName), cookies, Some(f.platform)))
  }

  /** The PUT url names the account being edited: its id reads back from the last path segment. */
  lemma EditTargetsAccount(parse: string -> Option<Json>, f: Form)
    requires f.editing.Some? && HandleSubmit(parse, f).Ok?
    ensures var url := HandleSubmit(parse, f).value.url;
            && url[..|"/api/platform-accounts/"|] == "/api/platform-accounts/"
            && ParseInt(url[|"/api/platform-accounts/"|..]) == Some(f.editing.value)
  {
    var url := HandleSubmit(parse, f).value.url;
    var prefix := "/api/platform-accounts/";
    assert url == prefix + IntToString(f.editing.value);
    assert url[|prefix|..] == IntToString(f.editing.value);
    ParseIntOfIntToString(f.editing.value);
  }

  /**
   * A new account the form lets through on one of the four platforms also
   * passes every check of the server's create handler.
   */
  lemma SubmittedCreateIsAccepted(parse: string -> Option<Json>, f: Form)
    requires f.editing.None? && f.platform in {"chatgpt", "claude", "grok", "gemini"}
    requires HandleSubmit(parse, f).Ok?
    ensures var b := HandleSubmit(parse, f).value.body;
            AccountRoutes.CreateBodyAccepted(AccountRoutes.CreateBody(Some(JStr(b.platform.value)), Some(b.accountName), Some(JArr(b.cookies))))
  {
    var req := HandleSubmit(parse, f).value;
    RequestAccepted(f, req.body.cookies);
  }

  /** The POST body for a supported platform, a non-blank name and complete cookies is one the server accepts. */
  lemma RequestAccepted(f: Form, cookies: seq<Json>)
    requires f.editing.None? && f.platform in {"chatgpt", "claude", "grok", "gemini"}
    requires Trim(f.accountName) != "" && forall c :: c in cookies ==> AccountRoutes.CookieComplete(c)
    ensures var b := RequestFor(f, cookies).body;
            AccountRoutes.CreateBodyAccepted(AccountRoutes.CreateBody(Some(JStr(b.platform.value)), Some(b.accountName), Some(JArr(b.cookies))))
  {
  }
}
