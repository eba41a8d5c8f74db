/**
 * The control panel: field-wise settings updates, custom-URL submission, the
 * share link and iframe snippet, and the transform and ramp literal of the
 * standalone HTML export.
 */
module ControlPanel {
  import opened Wrappers
  import opened JsString
  import opened JsNumber
  import UriComponent
  import FormUrlencoded
  import opened Types
  import opened Constants
  import opened SceneModel
  import opened App

  // updateSetting.

  /** `{ ...settings, [key]: value }`: the named field takes the value, the other four keep theirs. */
  function WithSetting(s: AsciiSettings, u: SettingUpdate): (r: AsciiSettings)
    ensures r.resolution == (if u.Resolution? then u.resolution else s.resolution)
    ensures r.characters == (if u.Characters? then u.characters else s.characters)
    ensures r.fgColor == (if u.FgColor? then u.fgColor else s.fgColor)
    ensures r.bgColor == (if u.BgColor? then u.bgColor else s.bgColor)
    ensures r.invert == (if u.Invert? then u.invert else s.invert)
  {
    match u
    case Resolution(v) => s.(resolution := v)
    case Characters(v) => s.(characters := v)
    case FgColor(v) => s.(fgColor := v)
    case BgColor(v) => s.(bgColor := v)
    case Invert(v) => s.(invert := v)
  }

  /** Two updates of the same key. */
  predicate SameKey(u: SettingUpdate, v: SettingUpdate) {
    (u.Resolution? && v.Resolution?) || (u.Characters? && v.Characters?) || (u.FgColor? && v.FgColor?)
    || (u.BgColor? && v.BgColor?) || (u.Invert? && v.Invert?)
  }

  /** The update of `u`'s key that writes the value `s` holds now. */
  function Current(s: AsciiSettings, u: SettingUpdate): (r: SettingUpdate)
    ensures SameKey(r, u)
  {
    match u
    case Resolution(_) => Resolution(s.resolution)
    case Characters(_) => Characters(s.characters)
    case FgColor(_) => FgColor(s.fgColor)
    case BgColor(_) => BgColor(s.bgColor)
    case Invert(_) => Invert(s.invert)
  }

  /** Reading a key after updating it gives the written value. */
  lemma ReadAfterUpdate(s: AsciiSettings, u: SettingUpdate)
    ensures Current(WithSetting(s, u), u) == u
  {
  }

  /** Writing back the value a key holds changes nothing. */
  lemma UpdateWithCurrent(s: AsciiSettings, u: SettingUpdate)
    ensures WithSetting(s, Current(s, u)) == s
  {
  }

  /** Of two updates of the same key the later one wins; updates of different keys commute. */
  lemma UpdatesCompose(s: AsciiSettings, u: SettingUpdate, v: SettingUpdate)
    ensures SameKey(u, v) ==> WithSetting(WithSetting(s, u), v) == WithSetting(s, v)
    ensures !SameKey(u, v) ==> WithSetting(WithSetting(s, u), v) == WithSetting(WithSetting(s, v), u)
  {
  }

  lemma CancelPrefix(p: string, u: string, v: string)
    requires p + u == p + v
    ensures u == v
  {
    assert u == (p + u)[|p|..];
    assert v == (p + v)[|p|..];
  }

  lemma CancelSuffix(u: string, v: string, t: string)
    requires u + t == v + t
    ensures u == v
  {
    assert |u| == |v|;
    assert u == (u + t)[..|u|];
    assert v == (v + t)[..|v|];
  }

  /** `toString` tells apart every two numbers it prints exactly. */
  lemma ToStringInjective(m: Number, n: Number)
    requires Printable(m) && Printable(n) && ToString(m) == ToString(n)
    ensures m == n
  {
    ParseFloatToString(m);
    ParseFloatToString(n);
  }

  /** Changing one part of the key template, the others kept, changes the key. */
  lemma JoinKeyParts(a: string, b: string, c: string, d: string, e: string, x: string)
    ensures JoinKey(x, b, c, d, e) == JoinKey(a, b, c, d, e) ==> x == a
    ensures JoinKey(a, x, c, d, e) == JoinKey(a, b, c, d, e) ==> x == b
    ensures JoinKey(a, b, x, d, e) == JoinKey(a, b, c, d, e) ==> x == c
    ensures JoinKey(a, b, c, x, e) == JoinKey(a, b, c, d, e) ==> x == d
    ensures JoinKey(a, b, c, d, x) == JoinKey(a, b, c, d, e) ==> x == e
  {
    var te := "-" + e;
    var td := "-" + (d + te);
    var tc := "-" + (c + td);
    var tb := "-" + (b + tc);
    if JoinKey(x, b, c, d, e) == JoinKey(a, b, c, d, e) {
      CancelSuffix(x, a, tb);
    }
    if JoinKey(a, x, c, d, e) == JoinKey(a, b, c, d, e) {
      CancelPrefix(a, "-" + (x + tc), tb);
      CancelPrefix("-", x + tc, b + tc);
      CancelSuffix(x, b, tc);
    }
    if JoinKey(a, b, x, d, e) == JoinKey(a, b, c, d, e) {
      CancelPrefix(a, "-" + (b + ("-" + (x + td))), tb);
      CancelPrefix("-", b + ("-" + (x + td)), b + tc);
      CancelPrefix(b, "-" + (x + td), tc);
      CancelPrefix("-", x + td, c + td);
      CancelSuffix(x, c, td);
    }
    if JoinKey(a, b, c, x, e) == JoinKey(a, b, c, d, e) {
      CancelPrefix(a, "-" + (b + ("-" + (c + ("-" + (x + te))))), tb);
      CancelPrefix("-", b + ("-" + (c + ("-" + (x + te)))), b + tc);
      CancelPrefix(b, "-" + (c + ("-" + (x + te))), tc);
      CancelPrefix("-", c + ("-" + (x + te)), c + td);
      CancelPrefix(c, "-" + (x + te), td);
      CancelPrefix("-", x + te, d + te);
      CancelSuffix(x, d, te);
    }
    if JoinKey(a, b, c, d, x) == JoinKey(a, b, c, d, e) {
      CancelPrefix(a, "-" + (b + ("-" + (c + ("-" + (d + ("-" + x)))))), tb);
      CancelPrefix("-", b + ("-" + (c + ("-" + (d + ("-" + x))))), b + tc);
      CancelPrefix(b, "-" + (c + ("-" + (d + ("-" + x)))), tc);
      CancelPrefix("-", c + ("-" + (d + ("-" + x))), c + td);
      CancelPrefix(c, "-" + (d + ("-" + x)), td);
      CancelPrefix("-", d + ("-" + x), d + te);
      CancelPrefix(d, "-" + x, te);
      CancelPrefix("-", x, e);
    }
  }

  /**
   * Every `updateSetting` that changes the settings changes `asciiKey`, so
   * the renderer is rebuilt after each single change made in the panel.
   */
  lemma UpdateChangesAsciiKey(s: AsciiSettings, u: SettingUpdate)
    requires Printable(s.resolution) && (u.Resolution? ==> Printable(u.resolution))
    requires WithSetting(s, u) != s
    ensures AsciiKey(WithSetting(s, u)) != AsciiKey(s)
  {
    var r, c, f, b, i := ToString(s.resolution), s.characters, s.fgColor, s.bgColor, BoolToString(s.invert);
    match u
    case Resolution(v) =>
      JoinKeyParts(r, c, f, b, i, ToString(v));
      if ToString(v) == r { ToStringInjective(v, s.resolution); }
    case Characters(v) => JoinKeyParts(r, c, f, b, i, v);
    case FgColor(v) => JoinKeyParts(r, c, f, b, i, v);
    case BgColor(v) => JoinKeyParts(r, c, f, b, i, v);
    case Invert(v) => JoinKeyParts(r, c, f, b, i, BoolToString(v));
  }

  /** Two settings that differ in more than one field can share a key: `asciiKey` is not injective. */
  lemma AsciiKeyCollision(resolution: Number, bg: string, invert: bool)
    ensures AsciiSettings(resolution, "a-b", "c", bg, invert) != AsciiSettings(resolution, "a", "b-c", bg, invert)
    ensures AsciiKey(AsciiSettings(resolution, "a-b", "c", bg, invert)) == AsciiKey(AsciiSettings(resolution, "a", "b-c", bg, invert))
  {
    var r, t := ToString(resolution), "-" + (bg + ("-" + BoolToString(invert)));
    assert "a-b" + ("-" + ("c" + t)) == "a" + ("-" + ("b-c" + t));
  }

  // getEmbedUrl and getIframeCode.

  /** `MODELS.find(m => m.url === url)?.name || 'Custom'`. */
  function ModelNameFor(url: string): (name: string)
    ensures IsCatalogUrl(url) ==> name == FindByUrl(Models, url).value.name
    ensures !IsCatalogUrl(url) ==> name == "Custom"
  {
    var found := FindByUrl(Models, url);
    if found.Some? && found.value.name != "" then found.value.name else "Custom"
  }

  /** The model name a link carries selects the same URL again for catalog models, the first model otherwise. */
  lemma ModelNameRoundTrip(url: string)
    ensures InitialModelUrl(Some(ModelNameFor(url))) == if IsCatalogUrl(url) then url else Models[0].url
  {
    if IsCatalogUrl(url) {
      UrlNameInverse(url);
    } else {
      CustomIsNoCatalogName();
    }
  }

  /** The ten entries of the `URLSearchParams` record, in the order they are written. */
  ghost function EmbedParams(url: string, s: AsciiSettings, userScale: Number, userPosition: Offset): (ps: seq<FormUrlencoded.Pair>)
    ensures |ps| == 10
  {
    [ ("embed", "true"),
      ("model", ModelNameFor(url)),
      ("res", ToString(s.resolution)),
      ("chars", s.characters),
      ("fg", UriComponent.Encode(s.fgColor)),
      ("bg", UriComponent.Encode(s.bgColor)),
      ("inv", BoolToString(s.invert)),
      ("scale", ToString(userScale)),
      ("posX", ToString(userPosition.x)),
      ("posY", ToString(userPosition.y)) ]
  }

  /** The query (`location.search`) of the share link: `?` and the serialized parameters. */
  ghost function EmbedSearch(url: string, s: AsciiSettings, userScale: Number, userPosition: Offset): (r: string)
    ensures |r| > 0 && r[0] == '?' && QuoteFree(r[1..])
  {
    var q := FormUrlencoded.Serialize(EmbedParams(url, s, userScale, userPosition));
    FormUrlencoded.SerializeQuoteFree(EmbedParams(url, s, userScale, userPosition));
    assert ("?" + q)[1..] == q;
    "?" + q
  }

  /** `getEmbedUrl`: the page's origin and path, then the query. */
  ghost function EmbedUrl(origin: string, pathname: string, url: string, s: AsciiSettings, userScale: Number, userPosition: Offset): (r: string)
    ensures |r| > |origin + pathname| && r[..|origin + pathname|] == origin + pathname
    ensures r[|origin + pathname|..] == EmbedSearch(url, s, userScale, userPosition)
  {
    origin + pathname + EmbedSearch(url, s, userScale, userPosition)
  }

  const IframeAttributes: string := " width=\"100%\" height=\"500px\" frameborder=\"0\" style=\"border-radius: 8px; background: "

  /** `getIframeCode`: the snippet that frames the link on the settings' background colour. */
  function IframeCode(embedUrl: string, bgColor: string): (r: string)
    ensures |r| > 13 + |embedUrl| + |bgColor| + 12 && r[..13] == "<iframe src=\"" && r[13..13 + |embedUrl|] == embedUrl
    ensures r[|r| - 12..] == ";\"></iframe>" && r[|r| - 12 - |bgColor|..|r| - 12] == bgColor
  {
    var tail := bgColor + ";\"></iframe>";
    assert tail[|bgColor|..] == ";\"></iframe>" && tail[..|bgColor|] == bgColor;
    "<iframe src=\"" + (embedUrl + ("\"" + (IframeAttributes + tail)))
  }

  /** A text without `"`. */
  predicate QuoteFree(t: string) {
    forall k :: 0 <= k < |t| ==> t[k] != '"'
  }

  /**
   * The text up to the first `"`: an attribute value as an HTML parser reads
   * it, taken as raw text: character references such as `&quot;` are not
   * decoded.
   */
  function UpToQuote(t: string): (r: string)
    ensures |r| <= |t| && r == t[..|r|]
    ensures forall k :: 0 <= k < |r| ==> r[k] != '"'
    ensures |r| < |t| ==> t[|r|] == '"'
  {
    if t == [] || t[0] == '"' then [] else [t[0]] + UpToQuote(t[1..])
  }

  lemma {:induction false} UpToQuoteOf(a: string, b: string)
    requires QuoteFree(a)
    requires b != [] && b[0] == '"'
    ensures UpToQuote(a + b) == a
  {
    if a == [] {
      assert a + b == b;
    } else {
      assert (a + b)[1..] == a[1..] + b;
      UpToQuoteOf(a[1..], b);
      assert [a[0]] + a[1..] == a;
    }
  }

  /** The `src` attribute of the snippet is the whole link when the link holds no `"`. */
  lemma IframeSrc(embedUrl: string, bgColor: string)
    requires QuoteFree(embedUrl)
    ensures var code := IframeCode(embedUrl, bgColor);
      |code| > 13 && code[..13] == "<iframe src=\"" && UpToQuote(code[13..]) == embedUrl
  {
    var code := IframeCode(embedUrl, bgColor);
    var rest := "\"" + (IframeAttributes + (bgColor + ";\"></iframe>"));
    assert code[13..] == embedUrl + rest;
    assert rest[0] == '"';
    UpToQuoteOf(embedUrl, rest);
  }

  /** A page address followed by `?` and a serialized query holds no `"` when the address holds none. */
  lemma QueryUrlQuoteFree(address: string, pairs: seq<FormUrlencoded.Pair>)
    requires QuoteFree(address)
    ensures QuoteFree(address + ("?" + FormUrlencoded.Serialize(pairs)))
  {
    var q := FormUrlencoded.Serialize(pairs);
    FormUrlencoded.SerializeQuoteFree(pairs);
    var e := address + ("?" + q);
    forall k | 0 <= k < |e| ensures e[k] != '"' {
      if k < |address| {
        assert e[k] == address[k];
      } else if k == |address| {
        assert e[k] == '?';
      } else {
        assert e[k] == ("?" + q)[k - |address|] == q[k - |address| - 1];
      }
    }
  }

  /** The share link holds no `"` when the page's origin and path hold none. */
  lemma EmbedUrlQuoteFree(origin: string, pathname: string, url: string, s: AsciiSettings, userScale: Number, userPosition: Offset)
    requires QuoteFree(origin + pathname)
    ensures QuoteFree(EmbedUrl(origin, pathname, url, s, userScale, userPosition))
  {
    var ps := EmbedParams(url, s, userScale, userPosition);
    assert EmbedUrl(origin, pathname, url, s, userScale, userPosition) == (origin + pathname) + ("?" + FormUrlencoded.Serialize(ps));
    QueryUrlQuoteFree(origin + pathname, ps);
  }

  // generateStandaloneHtml.

  /** The model the export bakes in: the catalog entry, or a neutral model named `Custom`. */
  function ExportModel(url: string): (m: ModelData)
    ensures m.url == url
    ensures !IsCatalogUrl(url) ==> m == ModelData("Custom", url, Finite(1.0), Zero3, Some(Zero3))
  {
    var found := FindByUrl(Models, url);
    if found.Some? then found.value else ModelData("Custom", url, Finite(1.0), Zero3, Some(Zero3))
  }

  /** `SCALE`, `POSITION` and `ROTATION` of the exported page. */
  function ExportPlacement(url: string, userScale: Number, userPosition: Offset): (r: Placement)
    ensures r == Place(ExportModel(url), userScale, userPosition)
  {
    var m := ExportModel(url);
    var finalScale := Mul(m.baseScale, userScale);
    Placement(
      Vec3(finalScale, finalScale, finalScale),
      Vec3(Add(m.position.x, userPosition.x), Add(m.position.y, userPosition.y), m.position.z),
      if m.rotation.Some? then m.rotation.value else Zero3)
  }

  /**
   * The exported transform has the values the live scene uses. The page
   * writes them faithfully only when they are finite: `JSON.stringify` prints
   * a NaN or infinite coordinate as `null`.
   */
  lemma ExportMatchesLive(url: string, userScale: Number, userPosition: Offset)
    ensures ExportPlacement(url, userScale, userPosition) == Place(ResolveModel(url), userScale, userPosition)
  {
  }

  /** The exported model differs from the live one only in the fallback's name. */
  lemma ExportModelAgrees(url: string)
    ensures ExportModel(url) == ResolveModel(url).(name := ExportModel(url).name)
    ensures IsCatalogUrl(url) ==> ExportModel(url) == ResolveModel(url)
  {
  }

  /** `characters.replace(/\\/g, '\\\\').replace(/"/g, '\\"')`: backslashes doubled first, then quotes escaped. */
  function EscapeRamp(s: string): (r: string)
    ensures r == EscapeEach(s)
  {
    EscapeRampEach(s);
    ReplaceAll(ReplaceAll(s, '\\', "\\\\"), '"', "\\\"")
  }

  /** The escape of a single character, as the two passes together treat it. */
  function EscapeRampChar(c: char): string {
    if c == '\\' then "\\\\" else if c == '"' then "\\\"" else [c]
  }

  /** A one-pass escape, character by character. */
  function EscapeEach(s: string): string {
    if s == [] then [] else EscapeRampChar(s[0]) + EscapeEach(s[1..])
  }

  /** The two passes equal the one-pass escape: the first pass makes no quote, the second no backslash to redo. */
  lemma {:induction false} EscapeRampEach(s: string)
    ensures ReplaceAll(ReplaceAll(s, '\\', "\\\\"), '"', "\\\"") == EscapeEach(s)
  {
    if s != [] {
      var h := if s[0] == '\\' then "\\\\" else [s[0]];
      var t := ReplaceAll(s[1..], '\\', "\\\\");
      assert ReplaceAll(s, '\\', "\\\\") == h + t;
      ReplaceAllAppend(h, t, '"', "\\\"");
      assert ReplaceAll(h, '"', "\\\"") == EscapeRampChar(s[0]);
      EscapeRampEach(s[1..]);
    }
  }

  /** The escaped ramp is longer by one character per backslash and per quote. */
  lemma {:induction false} EscapeRampLength(s: string)
    ensures |EscapeRamp(s)| == |s| + Count(s, '\\') + Count(s, '"')
  {
    EscapeEachLength(s);
    EscapeRampEach(s);
  }

  lemma {:induction false} EscapeEachLength(s: string)
    ensures |EscapeEach(s)| == |s| + Count(s, '\\') + Count(s, '"')
  {
    if s != [] {
      EscapeEachLength(s[1..]);
    }
  }

  /** The escape of the `slashes` preset doubles its backslash. */
  lemma EscapeSlashes()
    ensures EscapeRamp(PresetCharsets[4].1) == " /\\\\|"
  {
    var r := " /\\|";
    assert PresetCharsets[4].1 == r;
    EscapeRampEach(r);
    EscapeEachSlashes(r);
  }

  lemma EscapeEachSlashes(r: string)
    requires r == " /\\|"
    ensures EscapeEach(r) == " /\\\\|"
  {
    assert r[1..] == "/\\|" && r[2..] == "\\|" && r[3..] == "|" && r[4..] == "";
    assert EscapeEach(r[3..]) == "|";
    assert EscapeEach(r[2..]) == "\\\\|";
    assert EscapeEach(r[1..]) == "/\\\\|";
  }

  /** The value of the escape `\c` in a JavaScript string literal; `None` where the escape is not modelled. */
  function EscapeValue(c: char): Option<char> {
    if c == 'b' then Some('\U{0008}')
    else if c == 't' then Some('\t')
    else if c == 'n' then Some('\n')
    else if c == 'v' then Some('\U{000B}')
    else if c == 'f' then Some('\U{000C}')
    else if c == 'r' then Some('\r')
    else if '0' <= c <= '9' || c == 'x' || c == 'u' || c == '\n' || c == '\r' || c == '\U{2028}' || c == '\U{2029}' then None
    else Some(c)
  }

  function Cons(c: char, r: Option<string>): Option<string> {
    if r.Some? then Some([c] + r.value) else None
  }

  /**
   * The string a JavaScript double-quoted literal with body `t` denotes;
   * `None` when the body is no such literal's body: an unescaped `"`, a line
   * break, or a `\` at the end.
   */
  function ReadLiteralBody(t: string): Option<string>
    decreases |t|
  {
    if t == [] then Some([])
    else if t[0] == '"' || t[0] == '\n' || t[0] == '\r' then None
    else if t[0] != '\\' then Cons(t[0], ReadLiteralBody(t[1..]))
    else if |t| == 1 then None
    else
      var e := EscapeValue(t[1]);
      if e.None? then None else Cons(e.value, ReadLiteralBody(t[2..]))
  }

  /** A ramp without line breaks survives the export: its escape reads back as the ramp. */
  lemma {:induction false} ReadEscapedRamp(s: string)
    requires forall k :: 0 <= k < |s| ==> s[k] != '\n' && s[k] != '\r'
    ensures ReadLiteralBody(EscapeRamp(s)) == Some(s)
  {
    EscapeRampEach(s);
    ReadEscapeEach(s);
  }

  lemma {:induction false} ReadEscapeEach(s: string)
    requires forall k :: 0 <= k < |s| ==> s[k] != '\n' && s[k] != '\r'
    ensures ReadLiteralBody(EscapeEach(s)) == Some(s)
  {
    if s != [] {
      var rest := EscapeEach(s[1..]);
      var t := EscapeRampChar(s[0]) + rest;
      ReadEscapeEach(s[1..]);
      if s[0] == '\\' || s[0] == '"' {
        assert t[0] == '\\' && t[1] == s[0] && t[2..] == rest;
      } else {
        assert t[0] == s[0] && t[1..] == rest;
      }
      assert [s[0]] + s[1..] == s;
    }
  }

  /** A line feed in the ramp is written out raw, which ends the literal with a syntax error. */
  lemma EscapeRampNewline()
    ensures EscapeRamp("a\nb") == "a\nb"
    ensures ReadLiteralBody(EscapeRamp("a\nb")) == None
  {
    assert ReplaceAll("a\nb", '\\', "\\\\") == "a\nb";
    assert ReplaceAll("a\nb", '"', "\\\"") == "a\nb";
  }

  /** The escape the literal needs: the ramp's escape plus `\n` and `\r` for line breaks. */
  function EscapeLiteralChar(c: char): string {
    if c == '\n' then "\\n" else if c == '\r' then "\\r" else EscapeRampChar(c)
  }

  function EscapeLiteral(s: string): string {
    if s == [] then [] else EscapeLiteralChar(s[0]) + EscapeLiteral(s[1..])
  }

  /** Every ramp, line breaks included, reads back from its corrected escape. */
  lemma {:induction false} ReadEscapedLiteral(s: string)
    ensures ReadLiteralBody(EscapeLiteral(s)) == Some(s)
  {
    if s != [] {
      var rest := EscapeLiteral(s[1..]);
      var t := EscapeLiteralChar(s[0]) + rest;
      ReadEscapedLiteral(s[1..]);
      if s[0] == '\\' || s[0] == '"' || s[0] == '\n' || s[0] == '\r' {
        assert t[0] == '\\' && t[2..] == rest;
      } else {
        assert t[0] == s[0] && t[1..] == rest;
      }
      assert [s[0]] + s[1..] == s;
    }
  }

  /** On ramps without line breaks the corrected escape writes what the original writes. */
  lemma {:induction false} EscapeLiteralAgrees(s: string)
    requires forall k :: 0 <= k < |s| ==> s[k] != '\n' && s[k] != '\r'
    ensures EscapeLiteral(s) == EscapeRamp(s)
  {
    EscapeRampEach(s);
    EscapeLiteralEach(s);
  }

  lemma {:induction false} EscapeLiteralEach(s: string)
    requires forall k :: 0 <= k < |s| ==> s[k] != '\n' && s[k] != '\r'
    ensures EscapeLiteral(s) == EscapeEach(s)
  {
    if s != [] {
      EscapeLiteralEach(s[1..]);
    }
  }

  // Component state.

  /** The panel's own state: the text of the custom-URL field. */
  class Panel {
    var customUrl: string

    constructor ()
      ensures customUrl == ""
    {
      customUrl := "";
    }

    /** The field's `onChange`. */
    method SetCustomUrl(value: string)
      modifies this
      ensures customUrl == value
    {
      customUrl := value;
    }

    /** The URL a submit passes on: the trimmed text, when anything is left of it. */
    function SubmittedUrl(): (r: Option<string>)
      reads this
      ensures r.None? <==> forall k :: 0 <= k < |customUrl| ==> IsWhiteSpace(customUrl[k])
      ensures r.Some? ==> r.value == Trim(customUrl) && r.value != []
      ensures r.Some? ==> !IsWhiteSpace(r.value[0]) && !IsWhiteSpace(r.value[|r.value| - 1])
    {
      var t := Trim(customUrl);
      if t != [] then Some(t) else None
    }

    /** `handleCustomUrlSubmit`: selects the trimmed URL when it is not empty, and otherwise does nothing. */
    method SubmitCustomUrl(app: Session, clearFails: bool)
      modifies app, app.cache
      ensures SubmittedUrl().Some? ==> app.State() == old(app.State()).(selectedModelUrl := SubmittedUrl().value)
      ensures SubmittedUrl().Some? ==> var previous := old(app.selectedModelUrl);
        app.cache.urls == if previous != "" && previous != SubmittedUrl().value && !clearFails then old(app.cache.urls) - {previous} else old(app.cache.urls)
      ensures SubmittedUrl().None? ==> app.State() == old(app.State()) && app.cache.urls == old(app.cache.urls)
      ensures app.asciiSettings == old(app.asciiSettings) && app.userScale == old(app.userScale)
      ensures app.userPosition == old(app.userPosition) && app.isPanelOpen == old(app.isPanelOpen)
    {
      var url := SubmittedUrl();
      if url.Some? {
        app.HandleModelChange(url.value, clearFails);
      }
    }

    /** `updateSetting(key, value)` on the settings the panel shows. */
    method UpdateSetting(app: Session, u: SettingUpdate)
      modifies app
      ensures app.State() == old(app.State()).(asciiSettings := WithSetting(old(app.asciiSettings), u))
    {
      app.SetAsciiSettings(WithSetting(app.asciiSettings, u));
    }
  }
}
