/**
 * The zod request schemas of the three backends, as parsers from a JSON
 * request body to a typed request (`None` when `.parse` would throw).
 *
 * zod's rules as these schemas use them: `z.object` needs an object and
 * drops keys it does not name; a missing key is `undefined`, which only
 * `.optional()` accepts, and `null` only `.nullable()`; `.min`/`.max` on a
 * string bound its JavaScript length, in UTF-16 code units. Whether a string
 * is a URL or an e-mail address is decided by the `isUrl` and `isEmail`
 * parameters.
 */
module Schemas {
  import opened Wrappers
  import opened Json
  import opened JsText

  // ---------------------------------------------------------------------------
  // Field checks
  // ---------------------------------------------------------------------------

  /** `body[key]`, `None` for `undefined`. */
  function Field(fields: map<string, Json>, key: string): Option<Json> {
    if key in fields then Some(fields[key]) else None
  }

  /** `z.string().min(lo).max(hi)`; a missing `hi` is no `.max`. */
  predicate InBounds(s: string, lo: nat, hi: Option<nat>) {
    lo <= Utf16Length(s) && (hi.Some? ==> Utf16Length(s) <= hi.value)
  }

  function Str(v: Option<Json>, lo: nat, hi: Option<nat>): (r: Option<string>)
    ensures r.Some? <==> v.Some? && v.value.JStr? && InBounds(v.value.s, lo, hi)
    ensures r.Some? ==> v == Some(JStr(r.value))
  {
    if v.Some? && v.value.JStr? && InBounds(v.value.s, lo, hi) then Some(v.value.s) else None
  }

  /** The same check behind `.optional()`: absent passes as `Some(None)`. */
  function OptStr(v: Option<Json>, lo: nat, hi: Option<nat>): (r: Option<Option<string>>)
    ensures v.None? ==> r == Some(None)
    ensures v.Some? ==> (r.Some? <==> v.value.JStr? && InBounds(v.value.s, lo, hi))
    ensures r.Some? && r.value.Some? ==> v == Some(JStr(r.value.value))
  {
    if v.None? then Some(None)
    else match Str(v, lo, hi) case Some(s) => Some(Some(s)) case None => None
  }

  /** `z.url()` behind `.optional()`. */
  function OptUrl(v: Option<Json>, isUrl: string -> bool): (r: Option<Option<string>>)
    ensures v.None? ==> r == Some(None)
    ensures v.Some? ==> (r.Some? <==> v.value.JStr? && isUrl(v.value.s))
    ensures r.Some? && r.value.Some? ==> v == Some(JStr(r.value.value))
  {
    if v.None? then Some(None)
    else if v.value.JStr? && isUrl(v.value.s) then Some(Some(v.value.s))
    else None
  }

  /** `z.enum(options)`. */
  function OneOf(v: Option<Json>, options: set<string>): (r: Option<string>)
    ensures r.Some? <==> v.Some? && v.value.JStr? && v.value.s in options
    ensures r.Some? ==> v == Some(JStr(r.value))
  {
    if v.Some? && v.value.JStr? && v.value.s in options then Some(v.value.s) else None
  }

  /** `z.boolean().optional()`. */
  function OptBool(v: Option<Json>): (r: Option<Option<bool>>)
    ensures v.None? ==> r == Some(None)
    ensures v.Some? ==> (r.Some? <==> v.value.JBool?)
    ensures r.Some? && r.value.Some? ==> v == Some(JBool(r.value.value))
  {
    if v.None? then Some(None)
    else if v.value.JBool? then Some(Some(v.value.b))
    else None
  }

  predicate AllStrings(items: seq<Json>) {
    forall i :: 0 <= i < |items| ==> items[i].JStr?
  }

  function Texts(items: seq<Json>): (r: seq<string>)
    requires AllStrings(items)
    ensures |r| == |items|
    ensures forall i :: 0 <= i < |items| ==> items[i] == JStr(r[i])
  {
    if |items| == 0 then [] else [items[0].s] + Texts(items[1..])
  }

  function Strs(texts: seq<string>): (r: seq<Json>)
    ensures |r| == |texts| && AllStrings(r)
    ensures forall i :: 0 <= i < |texts| ==> r[i] == JStr(texts[i])
  {
    if |texts| == 0 then [] else [JStr(texts[0])] + Strs(texts[1..])
  }

  /** `z.array(z.string()).max(10).optional()`: at most ten strings of any length. */
  function OptTags(v: Option<Json>): (r: Option<Option<seq<string>>>)
    ensures v.None? ==> r == Some(None)
    ensures v.Some? ==> (r.Some? <==> v.value.JArr? && AllStrings(v.value.items) && |v.value.items| <= 10)
    ensures r.Some? && r.value.Some? ==> |r.value.value| <= 10 && v == Some(JArr(Strs(r.value.value)))
  {
    if v.None? then Some(None)
    else if v.value.JArr? && AllStrings(v.value.items) && |v.value.items| <= 10 then
      var texts := Texts(v.value.items);
      assert Strs(texts) == v.value.items;
      Some(Some(texts))
    else None
  }

  /** Writing an optional field: present only when there is a value. */
  function Put(fields: map<string, Json>, key: string, v: Option<Json>): map<string, Json> {
    if v.Some? then fields[key := v.value] else fields
  }

  function OptJStr(v: Option<string>): Option<Json> {
    if v.Some? then Some(JStr(v.value)) else None
  }

  // ---------------------------------------------------------------------------
  // Login and register (all three backends)
  // ---------------------------------------------------------------------------

  datatype LoginRequest = LoginRequest(username: string, password: string)

  /** `LoginSchema`: a username of 3 to 50 and a password of 6 to 100 UTF-16 units. */
  function ParseLogin(body: Json): (r: Option<LoginRequest>)
    ensures r.Some? ==> InBounds(r.value.username, 3, Some(50)) && InBounds(r.value.password, 6, Some(100))
    ensures r.Some? <==> body.JObj? && Str(Field(body.fields, "username"), 3, Some(50)).Some?
                                    && Str(Field(body.fields, "password"), 6, Some(100)).Some?
  {
    if !body.JObj? then None
    else
      var username := Str(Field(body.fields, "username"), 3, Some(50));
      var password := Str(Field(body.fields, "password"), 6, Some(100));
      if username.Some? && password.Some? then Some(LoginRequest(username.value, password.value)) else None
  }

  function LoginJson(l: LoginRequest): Json {
    JObj(map["username" := JStr(l.username), "password" := JStr(l.password)])
  }

  /** A request within bounds survives being sent as JSON. */
  lemma LoginRoundTrip(l: LoginRequest)
    requires InBounds(l.username, 3, Some(50)) && InBounds(l.password, 6, Some(100))
    ensures ParseLogin(LoginJson(l)) == Some(l)
  {
  }

  datatype RegisterRequest = RegisterRequest(username: string, password: string, email: string)

  /** `RegisterSchema`: the login bounds and an e-mail address. */
  function ParseRegister(body: Json, isEmail: string -> bool): (r: Option<RegisterRequest>)
    ensures r.Some? ==> InBounds(r.value.username, 3, Some(50)) && InBounds(r.value.password, 6, Some(100))
    ensures r.Some? ==> isEmail(r.value.email) && body.JObj? && Field(body.fields, "email") == Some(JStr(r.value.email))
  {
    match ParseLogin(body)
    case None => None
    case Some(l) =>
      var email := Field(body.fields, "email");
      if email.Some? && email.value.JStr? && isEmail(email.value.s) then Some(RegisterRequest(l.username, l.password, email.value.s))
      else None
  }

  function RegisterJson(r: RegisterRequest): Json {
    JObj(map["username" := JStr(r.username), "password" := JStr(r.password), "email" := JStr(r.email)])
  }

  lemma RegisterRoundTrip(r: RegisterRequest, isEmail: string -> bool)
    requires InBounds(r.username, 3, Some(50)) && InBounds(r.password, 6, Some(100)) && isEmail(r.email)
    ensures ParseRegister(RegisterJson(r), isEmail) == Some(r)
  {
    assert ParseLogin(RegisterJson(r)) == Some(LoginRequest(r.username, r.password));
  }

  /** Every body registration accepts is also a valid login, with the same credentials. */
  lemma RegisterBodyLogsIn(body: Json, isEmail: string -> bool)
    requires ParseRegister(body, isEmail).Some?
    ensures var r := ParseRegister(body, isEmail).value;
            ParseLogin(body) == Some(LoginRequest(r.username, r.password))
  {
  }

  /** `z.object` ignores a key it does not name. */
  lemma LoginIgnoresOtherKeys(fields: map<string, Json>, key: string, v: Json)
    requires key != "username" && key != "password"
    ensures ParseLogin(JObj(fields[key := v])) == ParseLogin(JObj(fields))
  {
    assert Field(fields[key := v], "username") == Field(fields, "username");
    assert Field(fields[key := v], "password") == Field(fields, "password");
  }

  /**
   * The bounds count UTF-16 units, not characters: 25 characters outside
   * the Basic Multilingual Plane are 50 units, the most a username may
   * have, and 26 of them are too many.
   */
  lemma UsernameCountsUnits(s: string)
    requires forall i :: 0 <= i < |s| ==> s[i] as int > 0xFFFF
    ensures Utf16Length(s) == 2 * |s|
    ensures InBounds(s, 3, Some(50)) <==> 2 <= |s| <= 25
  {
    AstralLength(s);
  }

  lemma {:induction false} AstralLength(s: string)
    requires forall i :: 0 <= i < |s| ==> s[i] as int > 0xFFFF
    ensures Utf16Length(s) == 2 * |s|
    decreases |s|
  {
    if |s| > 0 {
      assert forall i :: 0 <= i < |s[1..]| ==> s[1..][i] == s[i + 1];
      AstralLength(s[1..]);
    }
  }

  // ---------------------------------------------------------------------------
  // Chats and messages (chat_aggregator)
  // ---------------------------------------------------------------------------

  const ChatPlatforms: set<string> := {"chatgpt", "claude", "grok", "gemini", "other"}
  const MessageRoles: set<string> := {"user", "assistant", "system"}

  datatype CreateChatRequest = CreateChatRequest(
    title: string, platform: string, platformChatId: string, url: Option<string>, tags: Option<seq<string>>)

  predicate CreateChatFits(c: CreateChatRequest, isUrl: string -> bool) {
    && InBounds(c.title, 1, Some(200)) && c.platform in ChatPlatforms && InBounds(c.platformChatId, 1, Some(100))
    && (c.url.Some? ==> isUrl(c.url.value)) && (c.tags.Some? ==> |c.tags.value| <= 10)
  }

  /** `CreateChatSchema`: title 1..200, one of five platforms, chat id 1..100, optional URL, at most ten tags. */
  function ParseCreateChat(body: Json, isUrl: string -> bool): (r: Option<CreateChatRequest>)
    ensures r.Some? ==> CreateChatFits(r.value, isUrl)
  {
    if !body.JObj? then None
    else
      var title := Str(Field(body.fields, "title"), 1, Some(200));
      var platform := OneOf(Field(body.fields, "platform"), ChatPlatforms);
      var chatId := Str(Field(body.fields, "platform_chat_id"), 1, Some(100));
      var url := OptUrl(Field(body.fields, "url"), isUrl);
      var tags := OptTags(Field(body.fields, "tags"));
      if title.Some? && platform.Some? && chatId.Some? && url.Some? && tags.Some? then
        Some(CreateChatRequest(title.value, platform.value, chatId.value, url.value, tags.value))
      else None
  }

  function CreateChatJson(c: CreateChatRequest): Json {
    var base := map["title" := JStr(c.title), "platform" := JStr(c.platform), "platform_chat_id" := JStr(c.platformChatId)];
    var withUrl := Put(base, "url", OptJStr(c.url));
    JObj(Put(withUrl, "tags", if c.tags.Some? then Some(JArr(Strs(c.tags.value))) else None))
  }

  lemma CreateChatRoundTrip(c: CreateChatRequest, isUrl: string -> bool)
    requires CreateChatFits(c, isUrl)
    ensures ParseCreateChat(CreateChatJson(c), isUrl) == Some(c)
  {
    var fields := CreateChatJson(c).fields;
    assert Field(fields, "title") == Some(JStr(c.title));
    assert Field(fields, "platform") == Some(JStr(c.platform));
    assert Field(fields, "platform_chat_id") == Some(JStr(c.platformChatId));
    assert Field(fields, "url") == OptJStr(c.url);
    if c.tags.Some? {
      assert Field(fields, "tags") == Some(JArr(Strs(c.tags.value)));
      assert Texts(Strs(c.tags.value)) == c.tags.value;
    } else {
      assert Field(fields, "tags").None?;
    }
  }

  datatype CreateMessageRequest = CreateMessageRequest(
    chatId: int, role: string, content: string, metadata: Option<map<string, Json>>)

  /**
   * `CreateMessageSchema`: a positive integer chat id, one of three roles,
   * non-empty content, an optional object of metadata. `timestamp` must be
   * a `Date` instance, which no JSON value is: a body carrying one is refused.
   */
  function ParseCreateMessage(body: Json): (r: Option<CreateMessageRequest>)
    ensures r.Some? ==> r.value.chatId > 0 && r.value.role in MessageRoles && Utf16Length(r.value.content) >= 1
    ensures r.Some? ==> body.JObj? && "timestamp" !in body.fields
  {
    if !body.JObj? then None
    else
      var chatId := Field(body.fields, "chat_id");
      var role := OneOf(Field(body.fields, "role"), MessageRoles);
      var content := Str(Field(body.fields, "content"), 1, None);
      var metadata := Field(body.fields, "metadata");
      if chatId.Some? && chatId.value.JNum? && chatId.value.n > 0 && role.Some? && content.Some?
         && "timestamp" !in body.fields && (metadata.None? || metadata.value.JObj?)
      then Some(CreateMessageRequest(chatId.value.n, role.value, content.value,
                                     if metadata.Some? then Some(metadata.value.fields) else None))
      else None
  }

  function CreateMessageJson(m: CreateMessageRequest): Json {
    var base := map["chat_id" := JNum(m.chatId), "role" := JStr(m.role), "content" := JStr(m.content)];
    JObj(Put(base, "metadata", if m.metadata.Some? then Some(JObj(m.metadata.value)) else None))
  }

  lemma CreateMessageRoundTrip(m: CreateMessageRequest)
    requires m.chatId > 0 && m.role in MessageRoles && Utf16Length(m.content) >= 1
    ensures ParseCreateMessage(CreateMessageJson(m)) == Some(m)
  {
    var fields := CreateMessageJson(m).fields;
    assert Field(fields, "chat_id") == Some(JNum(m.chatId));
    assert Field(fields, "role") == Some(JStr(m.role));
    assert Field(fields, "content") == Some(JStr(m.content));
    assert "timestamp" !in fields;
  }

  /**
   * The route parses `{...req.body, chat_id: parseInt(req.params.id)}`: the
   * path id wins over any `chat_id` in the body, and a NaN id (no JSON
   * value) or one below 1 is refused.
   */
  function ParseMessageRoute(body: map<string, Json>, pathId: Option<int>): (r: Option<CreateMessageRequest>)
    ensures r.Some? ==> pathId.Some? && pathId.value > 0 && r.value.chatId == pathId.value
  {
    if pathId.None? then None
    else ParseCreateMessage(JObj(body["chat_id" := JNum(pathId.value)]))
  }

  datatype UpdateChatRequest = UpdateChatRequest(
    title: Option<string>, tags: Option<seq<string>>, isFavorite: Option<bool>, isArchived: Option<bool>)

  /** `UpdateChatSchema`: every field optional; a title present is 1..200, tags at most ten. */
  function ParseUpdateChat(body: Json): (r: Option<UpdateChatRequest>)
    ensures r.Some? ==> (r.value.title.Some? ==> InBounds(r.value.title.value, 1, Some(200)))
    ensures r.Some? ==> (r.value.tags.Some? ==> |r.value.tags.value| <= 10)
    ensures body == JObj(map[]) ==> r == Some(UpdateChatRequest(None, None, None, None))
  {
    if !body.JObj? then None
    else
      var title := OptStr(Field(body.fields, "title"), 1, Some(200));
      var tags := OptTags(Field(body.fields, "tags"));
      var favorite := OptBool(Field(body.fields, "is_favorite"));
      var archived := OptBool(Field(body.fields, "is_archived"));
      if title.Some? && tags.Some? && favorite.Some? && archived.Some? then
        Some(UpdateChatRequest(title.value, tags.value, favorite.value, archived.value))
      else None
  }

  /** A valid create body with no flags in it is also a valid update, of its title and tags. */
  lemma CreateBodyIsUpdate(body: Json, isUrl: string -> bool)
    requires ParseCreateChat(body, isUrl).Some?
    requires "is_favorite" !in body.fields && "is_archived" !in body.fields
    ensures var c := ParseCreateChat(body, isUrl).value;
            ParseUpdateChat(body) == Some(UpdateChatRequest(Some(c.title), c.tags, None, None))
  {
  }

  // ---------------------------------------------------------------------------
  // Posts, comments and profiles (mini_social_media and template)
  // ---------------------------------------------------------------------------

  datatype CreatePostRequest = CreatePostRequest(content: string, imageUrl: Option<string>)

  /** `CreatePostSchema`: content of 1..1000 units and an optional image URL. */
  function ParseCreatePost(body: Json, isUrl: string -> bool): (r: Option<CreatePostRequest>)
    ensures r.Some? ==> InBounds(r.value.content, 1, Some(1000))
    ensures r.Some? && r.value.imageUrl.Some? ==> isUrl(r.value.imageUrl.value)
  {
    if !body.JObj? then None
    else
      var content := Str(Field(body.fields, "content"), 1, Some(1000));
      var image := OptUrl(Field(body.fields, "image_url"), isUrl);
      if content.Some? && image.Some? then Some(CreatePostRequest(content.value, image.value)) else None
  }

  function CreatePostJson(p: CreatePostRequest): Json {
    JObj(Put(map["content" := JStr(p.content)], "image_url", OptJStr(p.imageUrl)))
  }

  lemma CreatePostRoundTrip(p: CreatePostRequest, isUrl: string -> bool)
    requires InBounds(p.content, 1, Some(1000)) && (p.imageUrl.Some? ==> isUrl(p.imageUrl.value))
    ensures ParseCreatePost(CreatePostJson(p), isUrl) == Some(p)
  {
    var fields := CreatePostJson(p).fields;
    assert Field(fields, "content") == Some(JStr(p.content));
    assert Field(fields, "image_url") == OptJStr(p.imageUrl);
  }

  /** What `image_url` in an update asks for: leave it, clear it (`null`), or set it. */
  datatype ImageEdit = Keep | Clear | SetTo(url: string)

  datatype UpdatePostRequest = UpdatePostRequest(content: Option<string>, image: ImageEdit)

  /** `UpdatePostSchema`: optional content with the create bounds; `image_url` may also be `null`. */
  function ParseUpdatePost(body: Json, isUrl: string -> bool): (r: Option<UpdatePostRequest>)
    ensures r.Some? && r.value.content.Some? ==> InBounds(r.value.content.value, 1, Some(1000))
    ensures r.Some? ==> body.JObj? && (r.value.image.Clear? <==> Field(body.fields, "image_url") == Some(JNull))
    ensures r.Some? && r.value.image.SetTo? ==> isUrl(r.value.image.url)
  {
    if !body.JObj? then None
    else
      var content := OptStr(Field(body.fields, "content"), 1, Some(1000));
      var v := Field(body.fields, "image_url");
      var image :=
        if v.None? then Some(Keep)
        else if v.value.JNull? then Some(Clear)
        else if v.value.JStr? && isUrl(v.value.s) then Some(SetTo(v.value.s))
        else None;
      if content.Some? && image.Some? then Some(UpdatePostRequest(content.value, image.value)) else None
  }

  /** A valid create body is also a valid update, setting both fields it names. */
  lemma CreatePostBodyIsUpdate(body: Json, isUrl: string -> bool)
    requires ParseCreatePost(body, isUrl).Some?
    ensures var p := ParseCreatePost(body, isUrl).value;
            ParseUpdatePost(body, isUrl) == Some(UpdatePostRequest(Some(p.content), if p.imageUrl.Some? then SetTo(p.imageUrl.value) else Keep))
  {
  }

  /** `null` is refused where a post is created and means "remove the image" where one is edited. */
  lemma NullImageOnlyOnUpdate(fields: map<string, Json>, isUrl: string -> bool)
    requires Field(fields, "image_url") == Some(JNull)
    ensures ParseCreatePost(JObj(fields), isUrl).None?
    ensures ParseUpdatePost(JObj(fields), isUrl).Some? ==> ParseUpdatePost(JObj(fields), isUrl).value.image == Clear
  {
  }

  /** `CreateCommentSchema`: content of 1..500 units. */
  function ParseCreateComment(body: Json): (r: Option<string>)
    ensures r.Some? ==> InBounds(r.value, 1, Some(500))
    ensures r.Some? <==> body.JObj? && Str(Field(body.fields, "content"), 1, Some(500)).Some?
  {
    if body.JObj? then Str(Field(body.fields, "content"), 1, Some(500)) else None
  }

  lemma CommentRoundTrip(content: string)
    requires InBounds(content, 1, Some(500))
    ensures ParseCreateComment(JObj(map["content" := JStr(content)])) == Some(content)
  {
  }

  /** A comment fits in a post: anything the comment schema accepts the post schema accepts too. */
  lemma CommentFitsPost(body: Json, isUrl: string -> bool)
    requires ParseCreateComment(body).Some? && "image_url" !in body.fields
    ensures ParseCreatePost(body, isUrl) == Some(CreatePostRequest(ParseCreateComment(body).value, None))
  {
  }

  datatype UpdateProfileRequest = UpdateProfileRequest(bio: Option<string>, avatarUrl: Option<string>, displayName: Option<string>)

  predicate ProfileFits(p: UpdateProfileRequest, isUrl: string -> bool) {
    && (p.bio.Some? ==> InBounds(p.bio.value, 0, Some(500)))
    && (p.avatarUrl.Some? ==> isUrl(p.avatarUrl.value))
    && (p.displayName.Some? ==> InBounds(p.displayName.value, 1, Some(100)))
  }

  /** `UpdateProfileSchema`: all optional; a bio of at most 500 units (empty allowed), a display name of 1..100. */
  function ParseUpdateProfile(body: Json, isUrl: string -> bool): (r: Option<UpdateProfileRequest>)
    ensures r.Some? ==> ProfileFits(r.value, isUrl)
    ensures body == JObj(map[]) ==> r == Some(UpdateProfileRequest(None, None, None))
  {
    if !body.JObj? then None
    else
      var bio := OptStr(Field(body.fields, "bio"), 0, Some(500));
      var avatar := OptUrl(Field(body.fields, "avatar_url"), isUrl);
      var name := OptStr(Field(body.fields, "display_name"), 1, Some(100));
      if bio.Some? && avatar.Some? && name.Some? then Some(UpdateProfileRequest(bio.value, avatar.value, name.value)) else None
  }

  function UpdateProfileJson(p: UpdateProfileRequest): Json {
    JObj(Put(Put(Put(map[], "bio", OptJStr(p.bio)), "avatar_url", OptJStr(p.avatarUrl)), "display_name", OptJStr(p.displayName)))
  }

  lemma UpdateProfileRoundTrip(p: UpdateProfileRequest, isUrl: string -> bool)
    requires ProfileFits(p, isUrl)
    ensures ParseUpdateProfile(UpdateProfileJson(p), isUrl) == Some(p)
  {
    var fields := UpdateProfileJson(p).fields;
    assert Field(fields, "bio") == OptJStr(p.bio);
    assert Field(fields, "avatar_url") == OptJStr(p.avatarUrl);
    assert Field(fields, "display_name") == OptJStr(p.displayName);
  }

  /** An empty bio clears the bio; an empty display name is refused. */
  lemma EmptyBioButNotEmptyName(isUrl: string -> bool)
    ensures ParseUpdateProfile(JObj(map["bio" := JStr("")]), isUrl) == Some(UpdateProfileRequest(Some(""), None, None))
    ensures ParseUpdateProfile(JObj(map["display_name" := JStr("")]), isUrl).None?
  {
    var withBio: map<string, Json> := map["bio" := JStr("")];
    assert Field(withBio, "avatar_url").None? && Field(withBio, "display_name").None?;
    var withName: map<string, Json> := map["display_name" := JStr("")];
    assert Field(withName, "display_name") == Some(JStr(""));
  }
}
