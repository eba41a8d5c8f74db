/**
 * The viewer's top-level component: the query parameters read at start-up,
 * the session state built from them, the model the state selects, and the
 * handlers that change the state.
 */
module App {
  import opened Wrappers
  import opened JsString
  import opened JsNumber
  import UriComponent
  import FormUrlencoded
  import opened Types
  import opened Constants
  import opened SceneModel

  /**
   * `initialParams`: `None` stands for `null`. `posX` and `posY` have no
   * `null`: an absent or empty value reads as `0`.
   */
  datatype InitialParams = InitialParams(
    embed: bool,
    modelName: Option<string>,
    resolution: Option<Number>,
    chars: Option<string>,
    fg: Option<string>,
    bg: Option<string>,
    inv: Option<bool>,
    scale: Option<Number>,
    posX: Number,
    posY: Number)

  /** A query value is truthy when it is present and not the empty string. */
  predicate Given(v: Option<string>) {
    v.Some? && v.value != ""
  }

  /** `params.get(key) ? parseFloat(params.get(key)) : null`. */
  function NumberParam(v: Option<string>): (r: Option<Number>)
    ensures r.Some? <==> Given(v)
    ensures r.Some? ==> r.value == ParseFloat(v.value)
  {
    if Given(v) then Some(ParseFloat(v.value)) else None
  }

  /** `params.get(key) ? decodeURIComponent(params.get(key)) : null`; the URIError comes out as `Failure`. */
  function ColorParam(v: Option<string>): (r: Result<Option<string>, UriComponent.UriError>)
    ensures r.Failure? <==> Given(v) && UriComponent.Decode(v.value).None?
    ensures r.Success? ==> r.value == (if Given(v) then UriComponent.Decode(v.value) else None)
  {
    if !Given(v) then Success(None)
    else match UriComponent.Decode(v.value)
      case None => Failure(UriComponent.UriError)
      case Some(d) => Success(Some(d))
  }

  /**
   * `initialParams` for the query string `search` (`window.location.search`,
   * with its `?` or empty). It fails exactly when `fg` or `bg` is given but
   * `decodeURIComponent` throws on it.
   */
  function ReadInitialParams(search: string): (r: Result<InitialParams, UriComponent.UriError>)
    ensures var params := FormUrlencoded.Parse(search);
      var fg := FormUrlencoded.Get(params, "fg");
      var bg := FormUrlencoded.Get(params, "bg");
      r.Failure? <==> (Given(fg) && UriComponent.Decode(fg.value).None?) || (Given(bg) && UriComponent.Decode(bg.value).None?)
  {
    ReadParams(FormUrlencoded.Parse(search))
  }

  /** `initialParams` for the list of pairs a `URLSearchParams` holds. */
  function ReadParams(params: seq<FormUrlencoded.Pair>): (r: Result<InitialParams, UriComponent.UriError>)
    ensures var fg := FormUrlencoded.Get(params, "fg");
      var bg := FormUrlencoded.Get(params, "bg");
      r.Failure? <==> (Given(fg) && UriComponent.Decode(fg.value).None?) || (Given(bg) && UriComponent.Decode(bg.value).None?)
  {
    var fg := ColorParam(FormUrlencoded.Get(params, "fg"));
    var bg := ColorParam(FormUrlencoded.Get(params, "bg"));
    if fg.Failure? || bg.Failure? then Failure(UriComponent.UriError)
    else Success(ParamsWith(params, fg.value, bg.value))
  }

  /** The fields of `initialParams` read from the pairs, with the two colours already read. */
  function ParamsWith(params: seq<FormUrlencoded.Pair>, fg: Option<string>, bg: Option<string>): (r: InitialParams)
    ensures r.fg == fg && r.bg == bg
    ensures r.embed <==> FormUrlencoded.Get(params, "embed") == Some("true")
    ensures r.inv.Some? <==> FormUrlencoded.Get(params, "inv").Some?
  {
    var inv := FormUrlencoded.Get(params, "inv");
    var posX := FormUrlencoded.Get(params, "posX");
    var posY := FormUrlencoded.Get(params, "posY");
    InitialParams(
      embed := FormUrlencoded.Get(params, "embed") == Some("true"),
      modelName := FormUrlencoded.Get(params, "model"),
      resolution := NumberParam(FormUrlencoded.Get(params, "res")),
      chars := FormUrlencoded.Get(params, "chars"),
      fg := fg,
      bg := bg,
      inv := if inv.Some? then Some(inv.value == "true") else None,
      scale := NumberParam(FormUrlencoded.Get(params, "scale")),
      posX := if Given(posX) then ParseFloat(posX.value) else Finite(0.0),
      posY := if Given(posY) then ParseFloat(posY.value) else Finite(0.0))
  }

  /**
   * The colour read start-up evidently intends: a value that does not decode
   * is treated as absent, so the `||` default applies instead of a `URIError`.
   */
  function TolerantColor(v: Option<string>): (r: Option<string>)
    ensures r.Some? ==> Given(v) && UriComponent.Decode(v.value) == r
    ensures Given(v) && UriComponent.Decode(v.value).Some? ==> r == UriComponent.Decode(v.value)
    ensures ColorParam(v).Success? ==> ColorParam(v).value == r
  {
    if Given(v) then UriComponent.Decode(v.value) else None
  }

  /** The corrected `initialParams`: total, and equal to the code's wherever the code does not throw. */
  function TolerantInitialParams(search: string): (p: InitialParams)
    ensures ReadInitialParams(search).Success? ==> p == ReadInitialParams(search).value
    ensures var params := FormUrlencoded.Parse(search);
      p.fg == TolerantColor(FormUrlencoded.Get(params, "fg")) && p.bg == TolerantColor(FormUrlencoded.Get(params, "bg"))
  {
    var params := FormUrlencoded.Parse(search);
    ParamsWith(params, TolerantColor(FormUrlencoded.Get(params, "fg")), TolerantColor(FormUrlencoded.Get(params, "bg")))
  }

  /** `a || b` for a nullable number. */
  function NumberOr(a: Option<Number>, b: Number): (r: Number)
    ensures Truthy(b) ==> Truthy(r)
    ensures a.Some? && Truthy(a.value) ==> r == a.value
    ensures !(a.Some? && Truthy(a.value)) ==> r == b
  {
    if a.Some? && Truthy(a.value) then a.value else b
  }

  /** `a || b` for a nullable string. */
  function StringOr(a: Option<string>, b: string): (r: string)
    ensures b != "" ==> r != ""
    ensures Given(a) ==> r == a.value
    ensures !Given(a) ==> r == b
  {
    if Given(a) then a.value else b
  }

  /** The state fields of the component. */
  datatype SessionState = SessionState(
    selectedModelUrl: string,
    userScale: Number,
    userPosition: Offset,
    asciiSettings: AsciiSettings,
    isPanelOpen: bool)

  /** The URL the initial model name selects: a catalog name's URL, otherwise the first model's. */
  function InitialModelUrl(modelName: Option<string>): (url: string)
    ensures IsCatalogUrl(url)
  {
    var found := if modelName.Some? then FindByName(Models, modelName.value) else None;
    if found.Some? then
      var i :| 0 <= i < |Models| && Models[i] == found.value;
      found.value.url
    else Models[0].url
  }

  /** The initial settings: every value the query does not give in a usable form is the default's. */
  function InitialSettings(p: InitialParams): (s: AsciiSettings)
    ensures Truthy(s.resolution) && s.characters != [] && s.fgColor != [] && s.bgColor != []
    ensures s.invert == (if p.inv.Some? then p.inv.value else DefaultSettings.invert)
  {
    AsciiSettings(
      NumberOr(p.resolution, DefaultSettings.resolution),
      StringOr(p.chars, DefaultSettings.characters),
      StringOr(p.fg, DefaultSettings.fgColor),
      StringOr(p.bg, DefaultSettings.bgColor),
      if p.inv.Some? then p.inv.value else DefaultSettings.invert)
  }

  /**
   * The state the `useState` initialisers build. The model is always one of
   * the catalog, scale and resolution are truthy, the ramp is not empty, and
   * the panel starts open exactly when not embedded.
   */
  function InitialState(p: InitialParams): (r: SessionState)
    ensures IsCatalogUrl(r.selectedModelUrl)
    ensures Truthy(r.userScale) && Truthy(r.asciiSettings.resolution) && r.asciiSettings.characters != []
    ensures r.userPosition == Offset(p.posX, p.posY)
    ensures r.isPanelOpen == !p.embed
  {
    SessionState(
      InitialModelUrl(p.modelName),
      NumberOr(p.scale, Finite(1.0)),
      Offset(p.posX, p.posY),
      InitialSettings(p),
      !p.embed)
  }

  /** The fallback `currentModel` builds for a URL the catalog does not hold. */
  function CustomModel(url: string): (m: ModelData)
    ensures m.url == url && m !in Models
    ensures m.baseScale == Finite(1.0) && m.position == Zero3 && RotationOrZero(m.rotation) == Zero3
  {
    ModelData("Custom Model", url, Finite(1.0), Zero3, Some(Zero3))
  }

  /** `currentModel`: the catalog entry with the selected URL, otherwise a neutral custom model. */
  function ResolveModel(url: string): (m: ModelData)
    ensures m.url == url
    ensures IsCatalogUrl(url) ==> m in Models
    ensures !IsCatalogUrl(url) ==> m == ModelData("Custom Model", url, Finite(1.0), Zero3, Some(Zero3))
  {
    var found := FindByUrl(Models, url);
    if found.Some? then
      var i :| 0 <= i < |Models| && Models[i] == found.value;
      found.value
    else CustomModel(url)
  }

  /**
   * `asciiKey`, the key that makes the renderer start afresh: the five
   * settings printed and joined by `-`.
   */
  ghost function AsciiKey(s: AsciiSettings): (r: string)
    ensures var res, inv := ToString(s.resolution), BoolToString(s.invert);
      && |r| == |res| + |s.characters| + |s.fgColor| + |s.bgColor| + |inv| + 4
      && r[..|res|] == res && r[|r| - |inv|..] == inv
  {
    JoinKey(ToString(s.resolution), s.characters, s.fgColor, s.bgColor, BoolToString(s.invert))
  }

  /** The template `${a}-${b}-${c}-${d}-${e}`. */
  function JoinKey(a: string, b: string, c: string, d: string, e: string): (r: string)
    ensures |r| == |a| + |b| + |c| + |d| + |e| + 4
    ensures r[..|a|] == a && r[|a|] == '-' && r[|r| - |e|..] == e && r[|r| - |e| - 1] == '-'
  {
    a + ("-" + (b + ("-" + (c + ("-" + (d + ("-" + e)))))))
  }

  /** A custom model is drawn with the user's scale and offset alone. */
  lemma CustomModelPlacement(url: string, scale: Number, offset: Offset)
    requires !IsCatalogUrl(url)
    ensures var r := Place(ResolveModel(url), scale, offset);
      && r.scale == Vec3(Mul(Finite(1.0), scale), Mul(Finite(1.0), scale), Mul(Finite(1.0), scale))
      && r.scale.x == scale
      && r.position == Vec3(Add(Finite(0.0), offset.x), Add(Finite(0.0), offset.y), Finite(0.0))
      && r.position.x == offset.x && r.position.y == offset.y
      && r.rotation == Zero3
  {
    Identities(scale);
    Identities(offset.x);
    Identities(offset.y);
  }

  /**
   * The geometry cache of the glTF loader, as the set of URLs it holds.
   * Loading caches a URL; clearing may fail, and then nothing changes.
   */
  class GeometryCache {
    var urls: set<string>

    constructor ()
      ensures urls == {}
    {
      urls := {};
    }

    method Load(url: string)
      modifies this
      ensures urls == old(urls) + {url}
    {
      urls := urls + {url};
    }

    method Clear(url: string, fails: bool)
      modifies this
      ensures urls == if fails then old(urls) else old(urls) - {url}
    {
      if !fails {
        urls := urls - {url};
      }
    }
  }

  /** The running component: its state fields and the cache its handlers clear. */
  class Session {
    const embed: bool
    var selectedModelUrl: string
    var userScale: Number
    var userPosition: Offset
    var asciiSettings: AsciiSettings
    var isPanelOpen: bool
    const cache: GeometryCache

    function State(): SessionState
      reads this
    {
      SessionState(selectedModelUrl, userScale, userPosition, asciiSettings, isPanelOpen)
    }

    /** The first render with the parameters read from the query. */
    constructor (p: InitialParams, cache: GeometryCache)
      ensures embed == p.embed && this.cache == cache
      ensures State() == InitialState(p)
    {
      var s := InitialState(p);
      this.embed := p.embed;
      this.cache := cache;
      selectedModelUrl := s.selectedModelUrl;
      userScale := s.userScale;
      userPosition := s.userPosition;
      asciiSettings := s.asciiSettings;
      isPanelOpen := s.isPanelOpen;
    }

    function CurrentModel(): (m: ModelData)
      reads this
      ensures m.url == selectedModelUrl
    {
      ResolveModel(selectedModelUrl)
    }

    /** The scene model of the current render; its geometry is loaded into the cache. */
    method RenderScene() returns (placement: Placement)
      modifies cache
      ensures placement == Place(ResolveModel(selectedModelUrl), userScale, userPosition)
      ensures cache.urls == old(cache.urls) + {selectedModelUrl}
    {
      cache.Load(selectedModelUrl);
      placement := Place(CurrentModel(), userScale, userPosition);
    }

    /**
     * `handleModelChange(url)`: the previous model's geometry is cleared only
     * when there was one and the URL really changes; a failing clear is
     * swallowed. The new URL is selected in every case.
     */
    method HandleModelChange(url: string, clearFails: bool)
      modifies this, cache
      ensures selectedModelUrl == url
      ensures var previous := old(selectedModelUrl);
        cache.urls == if previous != "" && previous != url && !clearFails then old(cache.urls) - {previous} else old(cache.urls)
      ensures userScale == old(userScale) && userPosition == old(userPosition)
      ensures asciiSettings == old(asciiSettings) && isPanelOpen == old(isPanelOpen)
    {
      if selectedModelUrl != "" && selectedModelUrl != url {
        cache.Clear(selectedModelUrl, clearFails);
      }
      selectedModelUrl := url;
    }

    /** `handleReset`: default settings, neutral scale and offset, the first model; the cache is kept. */
    method HandleReset()
      modifies this
      ensures asciiSettings == DefaultSettings
      ensures userScale == Finite(1.0) && userPosition == Offset(Finite(0.0), Finite(0.0))
      ensures selectedModelUrl == Models[0].url
      ensures isPanelOpen == old(isPanelOpen)
    {
      asciiSettings := DefaultSettings;
      userScale := Finite(1.0);
      userPosition := Offset(Finite(0.0), Finite(0.0));
      selectedModelUrl := Models[0].url;
    }

    /** The panel's `onSettingsChange`. */
    method SetAsciiSettings(s: AsciiSettings)
      modifies this
      ensures State() == old(State()).(asciiSettings := s)
    {
      asciiSettings := s;
    }

    /** The panel's `onUserScaleChange`. */
    method SetUserScale(scale: Number)
      modifies this
      ensures State() == old(State()).(userScale := scale)
    {
      userScale := scale;
    }

    /** The panel's `onUserPositionChange`. */
    method SetUserPosition(offset: Offset)
      modifies this
      ensures State() == old(State()).(userPosition := offset)
    {
      userPosition := offset;
    }

    /** The panel's `toggleOpen`. */
    method TogglePanel()
      modifies this
      ensures State() == old(State()).(isPanelOpen := !old(isPanelOpen))
    {
      isPanelOpen := !isPanelOpen;
    }
  }

  /** After a reset the session draws the first catalog model at its base transform. */
  lemma ResetPlacement()
    ensures Place(ResolveModel(Models[0].url), Finite(1.0), Offset(Finite(0.0), Finite(0.0)))
      == Placement(Vec3(Finite(0.025), Finite(0.025), Finite(0.025)), Models[0].position, Models[0].rotation.value)
  {
    CatalogLookups(0);
    PlaceNeutral(Models[0]);
  }

  /** A catalog URL resolves to its own entry; any other URL to the custom fallback. */
  lemma ResolveModelLookup(url: string)
    ensures IsCatalogUrl(url) ==> ResolveModel(url) == FindByUrl(Models, url).value
    ensures !IsCatalogUrl(url) ==> ResolveModel(url).name == "Custom Model" && ResolveModel(url).baseScale == Finite(1.0)
  {
  }

  /** The initial model is the entry with the named model's name when there is one, the first entry otherwise. */
  lemma InitialModelByName(name: string)
    ensures FindByName(Models, name).Some? ==> InitialModelUrl(Some(name)) == FindByName(Models, name).value.url
    ensures FindByName(Models, name).None? ==> InitialModelUrl(Some(name)) == Models[0].url
    ensures InitialModelUrl(None) == Models[0].url
  {
  }

  /** The embedded flag is read as true exactly when the `embed` value is the string `true`. */
  lemma EmbedFlag(search: string)
    requires ReadInitialParams(search).Success?
    ensures var v := FormUrlencoded.Get(FormUrlencoded.Parse(search), "embed");
      ReadInitialParams(search).value.embed <==> v == Some("true")
  {
  }

  /** `invert` keeps the default when `inv` is absent and is `inv == "true"` when present. */
  lemma InvertFromQuery(search: string)
    requires ReadInitialParams(search).Success?
    ensures var v := FormUrlencoded.Get(FormUrlencoded.Parse(search), "inv");
      var s := InitialState(ReadInitialParams(search).value).asciiSettings;
      && (v.None? ==> s.invert == true)
      && (v.Some? ==> (s.invert <==> v.value == "true"))
  {
  }

  /** Resolution is `parseFloat(res)` when that is truthy, and 0.2 when `res` is absent, empty, NaN or 0. */
  lemma ResolutionFromQuery(search: string)
    requires ReadInitialParams(search).Success?
    ensures var v := FormUrlencoded.Get(FormUrlencoded.Parse(search), "res");
      var r := InitialState(ReadInitialParams(search).value).asciiSettings.resolution;
      && (Given(v) && Truthy(ParseFloat(v.value)) ==> r == ParseFloat(v.value))
      && (!Given(v) || !Truthy(ParseFloat(v.value)) ==> r == Finite(0.2))
  {
  }

  /** Scale is `parseFloat(scale)` when that is truthy, and 1 when `scale` is absent, empty, NaN or 0. */
  lemma ScaleFromQuery(search: string)
    requires ReadInitialParams(search).Success?
    ensures var v := FormUrlencoded.Get(FormUrlencoded.Parse(search), "scale");
      var r := InitialState(ReadInitialParams(search).value).userScale;
      && (Given(v) && Truthy(ParseFloat(v.value)) ==> r == ParseFloat(v.value))
      && (!Given(v) || !Truthy(ParseFloat(v.value)) ==> r == Finite(1.0))
  {
  }

  /** The ramp is the `chars` value when it is given and the default ramp otherwise. */
  lemma CharactersFromQuery(search: string)
    requires ReadInitialParams(search).Success?
    ensures var v := FormUrlencoded.Get(FormUrlencoded.Parse(search), "chars");
      var c := InitialState(ReadInitialParams(search).value).asciiSettings.characters;
      c == if Given(v) then v.value else DefaultSettings.characters
  {
  }

  /** An absent or empty `posX`/`posY` is 0, but a malformed one is NaN, not a default. */
  lemma PositionFromQuery(search: string)
    requires ReadInitialParams(search).Success?
    ensures var x := FormUrlencoded.Get(FormUrlencoded.Parse(search), "posX");
      var y := FormUrlencoded.Get(FormUrlencoded.Parse(search), "posY");
      var o := InitialState(ReadInitialParams(search).value).userPosition;
      && o.x == (if Given(x) then ParseFloat(x.value) else Finite(0.0))
      && o.y == (if Given(y) then ParseFloat(y.value) else Finite(0.0))
  {
  }

  /** A colour that is given decodes to its `decodeURIComponent`; an absent or empty one gives the default. */
  lemma ColorsFromQuery(search: string)
    requires ReadInitialParams(search).Success?
    ensures var fg := FormUrlencoded.Get(FormUrlencoded.Parse(search), "fg");
      var s := InitialState(ReadInitialParams(search).value).asciiSettings;
      var bg := FormUrlencoded.Get(FormUrlencoded.Parse(search), "bg");
      && (Given(fg) ==> Some(s.fgColor) == UriComponent.Decode(fg.value))
      && (!Given(fg) ==> s.fgColor == "#000000")
      && (Given(bg) ==> Some(s.bgColor) == UriComponent.Decode(bg.value))
      && (!Given(bg) ==> s.bgColor == "#ffffff")
  {
    var params := FormUrlencoded.Parse(search);
    var fg := FormUrlencoded.Get(params, "fg");
    var bg := FormUrlencoded.Get(params, "bg");
    if Given(fg) {
      UriComponent.DecodeNonEmpty(fg.value);
    }
    if Given(bg) {
      UriComponent.DecodeNonEmpty(bg.value);
    }
  }

  /** A query with an `fg` of just `%` makes start-up throw. */
  lemma MalformedColorFails(search: string)
    requires FormUrlencoded.Get(FormUrlencoded.Parse(search), "fg") == Some("%")
    ensures ReadInitialParams(search).Failure?
  {
    UriComponent.MalformedEscapeThrows("%");
  }

  /** Under the corrected read, an `fg` of just `%` starts the session with the default foreground. */
  lemma MalformedColorDefaults(search: string)
    requires FormUrlencoded.Get(FormUrlencoded.Parse(search), "fg") == Some("%")
    ensures InitialState(TolerantInitialParams(search)).asciiSettings.fgColor == DefaultSettings.fgColor
  {
    UriComponent.MalformedEscapeThrows("%");
  }

  /** The model a query's `model` value selects, through the whole start-up read. */
  lemma ModelFromQuery(search: string)
    requires ReadInitialParams(search).Success?
    ensures var v := FormUrlencoded.Get(FormUrlencoded.Parse(search), "model");
      var url := InitialState(ReadInitialParams(search).value).selectedModelUrl;
      && (v.Some? && FindByName(Models, v.value).Some? ==> url == FindByName(Models, v.value).value.url)
      && (v.None? || FindByName(Models, v.value).None? ==> url == Models[0].url)
  {
    var v := FormUrlencoded.Get(FormUrlencoded.Parse(search), "model");
    if v.Some? {
      InitialModelByName(v.value);
    }
  }

  /** An empty query starts the session from the defaults, with the first model and the panel open. */
  lemma EmptyQueryDefaults()
    ensures ReadInitialParams("").Success?
    ensures InitialState(ReadInitialParams("").value)
      == SessionState(Models[0].url, Finite(1.0), Offset(Finite(0.0), Finite(0.0)), DefaultSettings, true)
  {
    assert FormUrlencoded.Parse("") == [];
  }
}
