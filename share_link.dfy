/**
 * The share link as a codec: the state a page opened from the link starts
 * with, compared with the state the link was made from.
 */
module ShareLink {
  import opened Wrappers
  import opened JsNumber
  import UriComponent
  import FormUrlencoded
  import opened Types
  import opened Constants
  import opened SceneModel
  import opened App
  import opened ControlPanel

  /** The numbers of a shared state that `toString` prints: every number a double can hold. */
  ghost predicate PrintableState(s: AsciiSettings, userScale: Number, userPosition: Offset) {
    Printable(s.resolution) && Printable(userScale) && Printable(userPosition.x) && Printable(userPosition.y)
  }

  /** A colour sent through `encodeURIComponent` comes back from the query as itself, or as `null` when empty. */
  lemma ColorParamOfEncoding(color: string)
    ensures ColorParam(Some(UriComponent.Encode(color))) == Success(if color != "" then Some(color) else None)
  {
    UriComponent.DecodeEncode(color);
  }

  /** `get` on the ten pairs of a link finds each value under its key. */
  lemma LinkValues(ps: seq<FormUrlencoded.Pair>, model: string, res: string, chars: string, fg: string, bg: string,
                   inv: string, scale: string, posX: string, posY: string)
    requires ps == [("embed", "true"), ("model", model), ("res", res), ("chars", chars), ("fg", fg), ("bg", bg),
      ("inv", inv), ("scale", scale), ("posX", posX), ("posY", posY)]
    ensures FormUrlencoded.Get(ps, "embed") == Some("true") && FormUrlencoded.Get(ps, "model") == Some(model)
    ensures FormUrlencoded.Get(ps, "res") == Some(res) && FormUrlencoded.Get(ps, "chars") == Some(chars)
    ensures FormUrlencoded.Get(ps, "fg") == Some(fg) && FormUrlencoded.Get(ps, "bg") == Some(bg)
    ensures FormUrlencoded.Get(ps, "inv") == Some(inv) && FormUrlencoded.Get(ps, "scale") == Some(scale)
    ensures FormUrlencoded.Get(ps, "posX") == Some(posX) && FormUrlencoded.Get(ps, "posY") == Some(posY)
  {
    FrontValues(ps, model, res, chars, fg, bg, inv, scale, posX, posY);
    BackValues(ps, model, res, chars, fg, bg, inv, scale, posX, posY);
  }

  lemma FrontValues(ps: seq<FormUrlencoded.Pair>, model: string, res: string, chars: string, fg: string, bg: string,
                    inv: string, scale: string, posX: string, posY: string)
    requires ps == [("embed", "true"), ("model", model), ("res", res), ("chars", chars), ("fg", fg), ("bg", bg),
      ("inv", inv), ("scale", scale), ("posX", posX), ("posY", posY)]
    ensures FormUrlencoded.Get(ps, "embed") == Some("true") && FormUrlencoded.Get(ps, "model") == Some(model)
    ensures FormUrlencoded.Get(ps, "res") == Some(res) && FormUrlencoded.Get(ps, "chars") == Some(chars)
    ensures FormUrlencoded.Get(ps, "fg") == Some(fg)
  {
    FormUrlencoded.GetFirst(ps, 0, "embed");
    FormUrlencoded.GetFirst(ps, 1, "model");
    FormUrlencoded.GetFirst(ps, 2, "res");
    FormUrlencoded.GetFirst(ps, 3, "chars");
    FormUrlencoded.GetFirst(ps, 4, "fg");
  }

  lemma BackValues(ps: seq<FormUrlencoded.Pair>, model: string, res: string, chars: string, fg: string, bg: string,
                   inv: string, scale: string, posX: string, posY: string)
    requires ps == [("embed", "true"), ("model", model), ("res", res), ("chars", chars), ("fg", fg), ("bg", bg),
      ("inv", inv), ("scale", scale), ("posX", posX), ("posY", posY)]
    ensures FormUrlencoded.Get(ps, "bg") == Some(bg)
    ensures FormUrlencoded.Get(ps, "inv") == Some(inv) && FormUrlencoded.Get(ps, "scale") == Some(scale)
    ensures FormUrlencoded.Get(ps, "posX") == Some(posX) && FormUrlencoded.Get(ps, "posY") == Some(posY)
  {
    FormUrlencoded.GetFirst(ps, 5, "bg");
    FormUrlencoded.GetFirst(ps, 6, "inv");
    FormUrlencoded.GetFirst(ps, 7, "scale");
    FormUrlencoded.GetFirst(ps, 8, "posX");
    FormUrlencoded.GetFirst(ps, 9, "posY");
  }

  /** Pairs whose `get` gives the link's ten values read as those values. */
  lemma ReadLinkValues(ps: seq<FormUrlencoded.Pair>, model: string, res: string, chars: string, fg: string, bg: string,
                       inv: bool, scale: string, posX: string, posY: string)
    requires res != "" && scale != "" && posX != "" && posY != ""
    requires FormUrlencoded.Get(ps, "embed") == Some("true") && FormUrlencoded.Get(ps, "model") == Some(model)
    requires FormUrlencoded.Get(ps, "res") == Some(res) && FormUrlencoded.Get(ps, "chars") == Some(chars)
    requires FormUrlencoded.Get(ps, "fg") == Some(UriComponent.Encode(fg))
    requires FormUrlencoded.Get(ps, "bg") == Some(UriComponent.Encode(bg))
    requires FormUrlencoded.Get(ps, "inv") == Some(JsString.BoolToString(inv))
    requires FormUrlencoded.Get(ps, "scale") == Some(scale)
    requires FormUrlencoded.Get(ps, "posX") == Some(posX) && FormUrlencoded.Get(ps, "posY") == Some(posY)
    ensures ReadParams(ps) == Success(InitialParams(
        embed := true,
        modelName := Some(model),
        resolution := Some(ParseFloat(res)),
        chars := Some(chars),
        fg := if fg != "" then Some(fg) else None,
        bg := if bg != "" then Some(bg) else None,
        inv := Some(inv),
        scale := Some(ParseFloat(scale)),
        posX := ParseFloat(posX),
        posY := ParseFloat(posY)))
  {
    ColorParamOfEncoding(fg);
    ColorParamOfEncoding(bg);
  }

  /** The ten pairs of a link, with the values as strings, read as `initialParams`. */
  lemma ReadLinkPairs(model: string, res: string, chars: string, fg: string, bg: string, inv: bool, scale: string, posX: string, posY: string)
    requires res != "" && scale != "" && posX != "" && posY != ""
    ensures ReadParams([("embed", "true"), ("model", model), ("res", res), ("chars", chars),
        ("fg", UriComponent.Encode(fg)), ("bg", UriComponent.Encode(bg)), ("inv", JsString.BoolToString(inv)),
        ("scale", scale), ("posX", posX), ("posY", posY)])
      == Success(InitialParams(
        embed := true,
        modelName := Some(model),
        resolution := Some(ParseFloat(res)),
        chars := Some(chars),
        fg := if fg != "" then Some(fg) else None,
        bg := if bg != "" then Some(bg) else None,
        inv := Some(inv),
        scale := Some(ParseFloat(scale)),
        posX := ParseFloat(posX),
        posY := ParseFloat(posY)))
  {
    var ps := [("embed", "true"), ("model", model), ("res", res), ("chars", chars),
      ("fg", UriComponent.Encode(fg)), ("bg", UriComponent.Encode(bg)), ("inv", JsString.BoolToString(inv)),
      ("scale", scale), ("posX", posX), ("posY", posY)];
    LinkValues(ps, model, res, chars, UriComponent.Encode(fg), UriComponent.Encode(bg), JsString.BoolToString(inv), scale, posX, posY);
    ReadLinkValues(ps, model, res, chars, fg, bg, inv, scale, posX, posY);
  }

  /**
   * The parameters read from a share link: every value comes back as it was
   * written, the colours undo their `encodeURIComponent`, and only empty
   * colours read as `null`.
   */
  lemma ShareLinkParams(url: string, s: AsciiSettings, userScale: Number, userPosition: Offset)
    requires PrintableState(s, userScale, userPosition)
    ensures ReadInitialParams(EmbedSearch(url, s, userScale, userPosition)) == Success(InitialParams(
      embed := true,
      modelName := Some(ModelNameFor(url)),
      resolution := Some(s.resolution),
      chars := Some(s.characters),
      fg := if s.fgColor != "" then Some(s.fgColor) else None,
      bg := if s.bgColor != "" then Some(s.bgColor) else None,
      inv := Some(s.invert),
      scale := Some(userScale),
      posX := userPosition.x,
      posY := userPosition.y))
  {
    var ps := EmbedParams(url, s, userScale, userPosition);
    FormUrlencoded.ParseQueryString(ps);
    ReadLinkPairs(ModelNameFor(url), ToString(s.resolution), s.characters, s.fgColor, s.bgColor, s.invert,
      ToString(userScale), ToString(userPosition.x), ToString(userPosition.y));
    ParseFloatToString(s.resolution);
    ParseFloatToString(userScale);
    ParseFloatToString(userPosition.x);
    ParseFloatToString(userPosition.y);
  }

  /**
   * The state a page opened from a share link starts with: the panel is
   * closed; a custom model falls back to the first catalog model; a falsy
   * resolution or scale and an empty ramp or colour fall back to the
   * defaults; the invert flag and the offset, NaN included, come back exactly.
   */
  lemma ShareLinkRestores(url: string, s: AsciiSettings, userScale: Number, userPosition: Offset)
    requires PrintableState(s, userScale, userPosition)
    ensures var p := ReadInitialParams(EmbedSearch(url, s, userScale, userPosition));
      && p.Success?
      && InitialState(p.value) == SessionState(
        selectedModelUrl := if IsCatalogUrl(url) then url else Models[0].url,
        userScale := if Truthy(userScale) then userScale else Finite(1.0),
        userPosition := userPosition,
        asciiSettings := AsciiSettings(
          if Truthy(s.resolution) then s.resolution else DefaultSettings.resolution,
          if s.characters != "" then s.characters else DefaultSettings.characters,
          if s.fgColor != "" then s.fgColor else DefaultSettings.fgColor,
          if s.bgColor != "" then s.bgColor else DefaultSettings.bgColor,
          s.invert),
        isPanelOpen := false)
  {
    ShareLinkParams(url, s, userScale, userPosition);
    RestoredState(url, s, userScale, userPosition);
  }

  /** The state started from the parameters a share link carries. */
  lemma RestoredState(url: string, s: AsciiSettings, userScale: Number, userPosition: Offset)
    ensures InitialState(InitialParams(
        embed := true,
        modelName := Some(ModelNameFor(url)),
        resolution := Some(s.resolution),
        chars := Some(s.characters),
        fg := if s.fgColor != "" then Some(s.fgColor) else None,
        bg := if s.bgColor != "" then Some(s.bgColor) else None,
        inv := Some(s.invert),
        scale := Some(userScale),
        posX := userPosition.x,
        posY := userPosition.y))
      == SessionState(
        selectedModelUrl := if IsCatalogUrl(url) then url else Models[0].url,
        userScale := if Truthy(userScale) then userScale else Finite(1.0),
        userPosition := userPosition,
        asciiSettings := AsciiSettings(
          if Truthy(s.resolution) then s.resolution else DefaultSettings.resolution,
          if s.characters != "" then s.characters else DefaultSettings.characters,
          if s.fgColor != "" then s.fgColor else DefaultSettings.fgColor,
          if s.bgColor != "" then s.bgColor else DefaultSettings.bgColor,
          s.invert),
        isPanelOpen := false)
  {
    ModelNameRoundTrip(url);
  }

  /**
   * The link restores the shared state exactly if and only if the model is a
   * catalog model, resolution and scale are truthy, and the ramp and both
   * colours are not empty.
   */
  lemma ShareLinkExact(url: string, s: AsciiSettings, userScale: Number, userPosition: Offset)
    requires PrintableState(s, userScale, userPosition)
    ensures var p := ReadInitialParams(EmbedSearch(url, s, userScale, userPosition));
      && p.Success?
      && (InitialState(p.value) == SessionState(url, userScale, userPosition, s, false)
          <==> (IsCatalogUrl(url) && Truthy(userScale) && Truthy(s.resolution)
                && s.characters != "" && s.fgColor != "" && s.bgColor != ""))
  {
    ShareLinkRestores(url, s, userScale, userPosition);
    CatalogNonEmpty();
  }

  /** A custom model is never shared: its link opens the first catalog model. */
  lemma CustomModelNotShared(url: string, s: AsciiSettings, userScale: Number, userPosition: Offset)
    requires PrintableState(s, userScale, userPosition) && !IsCatalogUrl(url)
    ensures var p := ReadInitialParams(EmbedSearch(url, s, userScale, userPosition));
      p.Success? && InitialState(p.value).selectedModelUrl == FoxUrl && ModelNameFor(url) == "Custom"
  {
    ShareLinkRestores(url, s, userScale, userPosition);
  }

  /** A catalog model shared at any printable state is drawn where the sharing page drew it. */
  lemma ShareLinkPlacement(url: string, s: AsciiSettings, userScale: Number, userPosition: Offset)
    requires PrintableState(s, userScale, userPosition) && IsCatalogUrl(url) && Truthy(userScale)
    ensures ReadInitialParams(EmbedSearch(url, s, userScale, userPosition)).Success?
    ensures var r := InitialState(ReadInitialParams(EmbedSearch(url, s, userScale, userPosition)).value);
      Place(ResolveModel(r.selectedModelUrl), r.userScale, r.userPosition) == Place(ResolveModel(url), userScale, userPosition)
  {
    ShareLinkRestores(url, s, userScale, userPosition);
    var r := InitialState(ReadInitialParams(EmbedSearch(url, s, userScale, userPosition)).value);
    assert r.selectedModelUrl == url && r.userScale == userScale && r.userPosition == userPosition;
  }
}
