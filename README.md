# ASCII 3D viewer: a Dafny model

The viewer draws a glTF model as animated ASCII art. It renders a 3D scene
through an ASCII post-processing pass. Its state is:

- the selected model URL (one of four catalog models, or a custom URL);
- a user scale and an x/y offset;
- the ASCII settings: resolution, character ramp, foreground and background colour, invert;
- whether the control panel is open.

At start-up the state is read from the page's query string. The control panel
edits the state. It can also produce three things:

- a share/embed link that encodes the state in a query string;
- an `<iframe>` snippet around that link;
- a standalone HTML page that bakes the current transform and settings.

The model is split into one Dafny module per source file, plus modules for
the browser built-ins the code depends on:

- `Types`, `Constants`: the records and the model catalog, default settings and preset ramps.
- `SceneModel`: how a model is placed (scale, base position plus offset, rotation).
- `App`: reading the query into `initialParams`; the initial state; `currentModel`; the render key.
  The component is the class `Session`, whose methods are the handlers; the shared geometry cache
  that `handleModelChange` clears is the class `GeometryCache`.
- `ControlPanel`: settings updates; custom-URL submission (class `Panel`); the share link and iframe
  snippet; the export's transform and the escaping of the ramp into a JavaScript string literal.
- `ShareLink`: the round trip from a state, through the share link, back to the state a page opened
  from that link starts with.
- Built-ins, modelled from their standards:
  - `Utf8`: UTF-8 encoding and the lossy decoder of the WHATWG Encoding standard.
  - `UriComponent`: `encodeURIComponent`/`decodeURIComponent` of ECMA-262 (sections 19.2.6.4 and
    19.2.6.2). A malformed escape is the `URIError` the function throws.
  - `FormUrlencoded`: the `application/x-www-form-urlencoded` serializer and parser of the WHATWG URL
    standard, and `URLSearchParams.get`.
  - `JsNumber`: numbers as `Finite(real) | Infinity | NaN`, `+`, `*`, truthiness, `parseFloat` and
    `Number.prototype.toString`.
  - `JsString`: `trim`, `String(bool)`, and `replace` with a global one-character pattern.

Where the code and its written description disagree, the model follows the code and adds the
evidently intended behaviour beside it; both cases are listed under "## Findings". The corrected
start-up read, `App.TolerantInitialParams`, equals the code's read on every query the code accepts,
so the share-link results hold for both.

## Model

| member | source | states |
|---|---|---|
| Constants.FindByName | App.tsx:42 | `MODELS.find` by name: the first entry with the name; none exactly when no entry has it |
| Constants.FindByUrl | App.tsx:67 | `MODELS.find` by URL: the first entry with the URL; none exactly when no entry has it |
| Constants.CatalogNonEmpty | constants.ts:4-11 | the catalog has four models and the first is the Fox |
| Constants.CatalogDistinct | constants.ts:4-31 | catalog names are pairwise distinct, and so are catalog URLs |
| Constants.CatalogLookups | constants.ts:4-31 | every catalog entry is found by its own name and by its own URL |
| Constants.NameUrlInverse | App.tsx:42-43 | looking up the URL of the entry found by name gives that entry back |
| Constants.UrlNameInverse | components/ControlPanel.tsx:49 | looking up the name of the entry found by URL gives that entry back |
| Constants.FindByUrlCatalog | App.tsx:67-68 | a URL is found in the catalog exactly when it is a catalog URL |
| Constants.CustomIsNoCatalogName | components/ControlPanel.tsx:49 | the fallback name `Custom` names no catalog entry |
| Constants.RotationsOfCatalog | constants.ts:12-30 | Avocado and Duck have no rotation; Fox and BoomBox have one |
| Constants.PresetsWellFormed | constants.ts:42-48 | every preset ramp starts with a space, and the standard preset is the default ramp |
| Constants.SlashesHasBackslash | constants.ts:47 | the slashes preset is four characters, the third a backslash |
| SceneModel.RotationOrZero | components/SceneModel.tsx:35 | the model's rotation when it has one, otherwise zero |
| SceneModel.Place | components/SceneModel.tsx:21-36 | the scale is the same on all three axes, and the z position is the model's own |
| SceneModel.PlaceComponents | components/SceneModel.tsx:21-35 | scale is baseScale times multiplier; x and y are base plus offset; z is kept; rotation is kept or zero |
| SceneModel.PlaceFinite | components/SceneModel.tsx:21-28 | for finite inputs, the scale and position are the exact product and sums |
| SceneModel.PlaceNeutral | components/SceneModel.tsx:21-35 | multiplier 1 and offset 0 draw the model at its base transform |
| SceneModel.PlaceNaNScale | components/SceneModel.tsx:21 | a NaN multiplier makes every scale axis NaN |
| App.NumberParam | App.tsx:29 | a number exactly when the value is present and non-empty, and then its `parseFloat` |
| App.ColorParam | App.tsx:31-32 | fails exactly when a present, non-empty value has a malformed escape; otherwise its decoding, or null |
| App.ReadInitialParams | App.tsx:23-38 | reading a query fails exactly when `fg` or `bg` is given and does not decode; otherwise each field as read |
| App.ReadParams | App.tsx:25-37 | the same, for the pairs a `URLSearchParams` holds |
| App.ParamsWith | App.tsx:26-36 | the record read from the pairs carries the given colours, `embed` exactly when it is `true`, and `inv` exactly when present |
| App.TolerantColor | App.tsx:31-32 | the corrected colour read: the decoding of a given value, and null both when absent and when it does not decode; it agrees with the code's read wherever that does not throw |
| App.TolerantInitialParams | App.tsx:23-38 | the corrected start-up read: total, equal to the code's wherever the code does not throw, with the colours read tolerantly |
| App.NumberOr | App.tsx:46 | `a \|\| b`: a truthy `a` is kept, and otherwise the result is `b`, so a truthy `b` makes it truthy |
| App.StringOr | App.tsx:51 | `a \|\| b`: a non-empty `a` is kept, and otherwise the result is `b`, so a non-empty `b` makes it non-empty |
| App.InitialModelUrl | App.tsx:41-44 | the initial model is always a catalog model |
| App.InitialSettings | App.tsx:49-55 | resolution is truthy and the ramp and colours are non-empty; invert is `inv` when given, else the default |
| App.InitialState | App.tsx:41-57 | catalog model; truthy scale and resolution; non-empty ramp; offset (posX, posY); panel open exactly when not embedded |
| App.ResolveModel | App.tsx:66-78 | the model has the selected URL; it is the catalog entry, or for any other URL the neutral custom model |
| App.CustomModel | App.tsx:71-77 | the fallback model has the selected URL, is no catalog entry, and has base scale 1, zero position and zero rotation |
| App.AsciiKey | App.tsx:99 | the key's length is the parts' plus four separators; it starts with the printed resolution and ends with the printed invert flag |
| App.JoinKey | App.tsx:99 | the joined text is the five parts and four `-`: it starts with the first part and a `-`, and ends with a `-` and the last part |
| App.CustomModelPlacement | App.tsx:71-77 | a custom model is drawn at the user's scale and offset, with no rotation |
| App.GeometryCache.constructor | components/SceneModel.tsx:13 | the cache starts empty |
| App.GeometryCache.Load | components/SceneModel.tsx:13 | loading a model adds its URL to the cache |
| App.GeometryCache.Clear | App.tsx:82-86 | clearing removes the URL, unless the clear fails, in which case nothing changes |
| App.Session.constructor | App.tsx:41-57 | the first render's state is `InitialState` of the parameters read |
| App.Session.CurrentModel | App.tsx:66-78 | the current model has the selected URL |
| App.Session.RenderScene | App.tsx:134-141 | the scene model is placed from the current state, and its URL is loaded into the cache |
| App.Session.HandleModelChange | App.tsx:80-89 | selects the URL; evicts the previous URL only if it was non-empty, differs, and the clear succeeds; nothing else changes |
| App.Session.HandleReset | App.tsx:91-96 | default settings, scale 1, offset (0, 0), first model; panel and cache unchanged |
| App.Session.SetAsciiSettings | App.tsx:171 | replaces the settings and nothing else |
| App.Session.SetUserScale | App.tsx:173 | replaces the scale and nothing else |
| App.Session.SetUserPosition | App.tsx:175 | replaces the offset and nothing else |
| App.Session.TogglePanel | App.tsx:178 | flips the panel flag and nothing else |
| App.ResetPlacement | App.tsx:91-96 | after a reset, the Fox is drawn at scale 0.025 at its base position and rotation |
| App.ResolveModelLookup | App.tsx:66-78 | a catalog URL resolves to its catalog entry; any other URL to `Custom Model` with base scale 1 |
| App.InitialModelByName | App.tsx:41-44 | a known name selects its entry's URL; an unknown or absent name selects the first model |
| App.EmbedFlag | App.tsx:27 | embedded exactly when `embed` is the string `true` |
| App.InvertFromQuery | App.tsx:33 | invert is the default when `inv` is absent, and otherwise `inv == "true"` |
| App.ResolutionFromQuery | App.tsx:29 | resolution is `parseFloat(res)` when that is truthy, and 0.2 otherwise |
| App.ScaleFromQuery | App.tsx:34 | scale is `parseFloat(scale)` when that is truthy, and 1 otherwise |
| App.CharactersFromQuery | App.tsx:30 | the ramp is `chars` when it is non-empty, and the default otherwise |
| App.PositionFromQuery | App.tsx:35-36 | an absent or empty `posX`/`posY` is 0; otherwise its `parseFloat`, NaN included |
| App.ColorsFromQuery | App.tsx:31-32 | a given colour is its decoding; an absent or empty one is the default colour |
| App.MalformedColorFails | App.tsx:31 | a `fg` that reads as `%` makes start-up throw |
| App.MalformedColorDefaults | App.tsx:31-52 | under the corrected read, an `fg` of `%` starts with the default foreground instead of throwing |
| App.ModelFromQuery | App.tsx:28-44 | through the whole start-up read, a known `model` name selects its entry's URL, and an unknown or absent one the first model |
| App.EmptyQueryDefaults | App.tsx:23-57 | an empty query gives the first model, scale 1, offset 0, the default settings and an open panel |
| ControlPanel.WithSetting | components/ControlPanel.tsx:37-39 | an update replaces exactly the field it names |
| ControlPanel.Current | components/ControlPanel.tsx:37 | the current value of the field an update names |
| ControlPanel.ReadAfterUpdate | components/ControlPanel.tsx:37-39 | reading back the updated field gives the update |
| ControlPanel.UpdateWithCurrent | components/ControlPanel.tsx:37-39 | writing a field's current value changes nothing |
| ControlPanel.UpdatesCompose | components/ControlPanel.tsx:37-39 | two updates: on the same field the last wins; on different fields they commute |
| ControlPanel.UpdateChangesAsciiKey | App.tsx:99 | any update that changes the settings changes the renderer key |
| ControlPanel.AsciiKeyCollision | App.tsx:99 | two different settings can share a renderer key when a ramp or colour contains `-` |
| ControlPanel.ToStringInjective | App.tsx:99 | different printable numbers print differently |
| ControlPanel.JoinKeyParts | App.tsx:99 | in the key template, replacing one part without changing the key leaves that part equal |
| ControlPanel.ModelNameFor | components/ControlPanel.tsx:49 | the catalog name of a catalog URL, and `Custom` for any other URL |
| ControlPanel.ModelNameRoundTrip | components/ControlPanel.tsx:49 | the model name in a link selects the same URL at start-up; a custom URL selects the first model |
| ControlPanel.EmbedParams | components/ControlPanel.tsx:50-61 | the link holds ten pairs |
| ControlPanel.EmbedSearch | components/ControlPanel.tsx:50-63 | the link's query is `?` followed by a text with no `"` |
| ControlPanel.EmbedUrl | components/ControlPanel.tsx:48-64 | the link is the page's origin and path followed by the query |
| ControlPanel.IframeCode | components/ControlPanel.tsx:66-69 | the snippet starts `<iframe src="` and the link, and ends with the background colour and `;"></iframe>` |
| ControlPanel.UpToQuote | components/ControlPanel.tsx:68 | the longest prefix without `"`; it is followed by `"` or the end |
| ControlPanel.UpToQuoteOf | components/ControlPanel.tsx:68 | a quote-free text followed by `"` reads back as that text |
| ControlPanel.IframeSrc | components/ControlPanel.tsx:66-69 | the snippet's `src` attribute is the whole link when the link holds no `"` |
| ControlPanel.QueryUrlQuoteFree | components/ControlPanel.tsx:63 | an address without `"` followed by a serialized query holds no `"` |
| ControlPanel.EmbedUrlQuoteFree | components/ControlPanel.tsx:63 | the share link holds no `"` when origin and path hold none |
| ControlPanel.ExportModel | components/ControlPanel.tsx:78-84 | the export's model has the selected URL; for a custom URL it is the neutral `Custom` model |
| ControlPanel.ExportPlacement | components/ControlPanel.tsx:86-93 | the baked transform is the scene model's placement of the export's model |
| ControlPanel.ExportMatchesLive | components/ControlPanel.tsx:87-93 | the baked scale, position and rotation values equal the live scene's placement |
| ControlPanel.ExportModelAgrees | components/ControlPanel.tsx:78-84 | the export's model is the live model, apart from the custom fallback's name |
| ControlPanel.EscapeRamp | components/ControlPanel.tsx:132 | the two global replaces are the character-wise escape: each backslash doubled, each quote prefixed, all else kept |
| ControlPanel.EscapeRampEach | components/ControlPanel.tsx:132 | the two global replaces escape each backslash and each quote on its own |
| ControlPanel.EscapeRampLength | components/ControlPanel.tsx:132 | the escaped ramp is longer by the number of backslashes and quotes |
| ControlPanel.EscapeEachLength | components/ControlPanel.tsx:132 | the same length, for the character-wise escaping |
| ControlPanel.EscapeSlashes | components/ControlPanel.tsx:132 | the slashes preset is escaped as ` /\\\\|` |
| ControlPanel.ReadEscapedRamp | components/ControlPanel.tsx:132 | a ramp without line terminators reads back from its string literal unchanged |
| ControlPanel.ReadEscapeEach | components/ControlPanel.tsx:132 | the same, for the character-wise escaping |
| ControlPanel.EscapeRampNewline | components/ControlPanel.tsx:132 | a ramp with a line feed is left unescaped, and the literal does not read back |
| ControlPanel.ReadEscapedLiteral | components/ControlPanel.tsx:132 | with line terminators escaped too, every ramp reads back from its literal |
| ControlPanel.EscapeLiteralAgrees | components/ControlPanel.tsx:132 | without line terminators, the corrected escaping equals the one written |
| ControlPanel.EscapeLiteralEach | components/ControlPanel.tsx:132 | without line terminators, the corrected escaping equals the character-wise one |
| ControlPanel.Panel.constructor | components/ControlPanel.tsx:35 | the custom URL field starts empty |
| ControlPanel.Panel.SetCustomUrl | components/ControlPanel.tsx:299 | the field holds the typed value |
| ControlPanel.Panel.SubmittedUrl | components/ControlPanel.tsx:43-44 | none exactly when the field is all white space; otherwise its trim, non-empty with no white space at either end |
| ControlPanel.Panel.SubmitCustomUrl | components/ControlPanel.tsx:41-46 | a submitted URL is selected and the previous one evicted as `handleModelChange` does; an all-blank field changes nothing; settings, scale, offset and the panel flag are kept |
| ControlPanel.Panel.UpdateSetting | components/ControlPanel.tsx:37-39 | the session's settings become the updated settings, and nothing else changes |
| ShareLink.ColorParamOfEncoding | components/ControlPanel.tsx:55-56 | an encoded colour decodes back to itself, or to null when it is empty |
| ShareLink.LinkValues | components/ControlPanel.tsx:50-61 | `get` on the link's pairs returns each of the ten values |
| ShareLink.ReadLinkPairs | App.tsx:25-37 | reading the link's pairs gives each value back: the numbers parsed, the colours decoded |
| ShareLink.ShareLinkParams | components/ControlPanel.tsx:48-64 | the link's query reads back as the shared values, with no failure |
| ShareLink.ShareLinkRestores | App.tsx:41-57 | a page opened from the link starts with the shared state, panel closed, and each falsy value replaced by its default |
| ShareLink.ShareLinkExact | App.tsx:41-57 | the restored state equals the shared one exactly when the model is a catalog model, scale and resolution are truthy and ramp and colours are non-empty |
| ShareLink.CustomModelNotShared | components/ControlPanel.tsx:49 | a custom model's link opens the Fox |
| ShareLink.ShareLinkPlacement | components/SceneModel.tsx:21-35 | a catalog model shared at a truthy scale is drawn where the sharing page drew it |
| FormUrlencoded.GetSome | App.tsx:25 | `get` finds a value exactly when some pair has the name |
| FormUrlencoded.GetFirst | App.tsx:25 | `get` returns the value of the first pair with the name |
| FormUrlencoded.Encode | components/ControlPanel.tsx:63 | the serialized name or value uses only the serializer's output characters |
| FormUrlencoded.ParseSerialize | components/ControlPanel.tsx:63 | parsing the serialized bytes gives the pairs back |
| FormUrlencoded.SerializeQuoteFree | components/ControlPanel.tsx:63 | a serialized query holds only wire characters, `=` and `&`, and never `"` |
| FormUrlencoded.ParseQueryString | components/ControlPanel.tsx:63 | `?` followed by a serialized query parses back to the same pairs |
| FormUrlencoded.DecodeEncodedBytes | components/ControlPanel.tsx:50-61 | a form-encoded string decodes back to itself |
| UriComponent.DecodeEncode | components/ControlPanel.tsx:55-56 | `decodeURIComponent(encodeURIComponent(s))` is `s` for every string |
| UriComponent.Encode | components/ControlPanel.tsx:55 | encoding is empty exactly when the input is |
| UriComponent.DecodeNonEmpty | App.tsx:31-32 | decoding a non-empty value never gives the empty string |
| UriComponent.MalformedEscapeThrows | App.tsx:31 | a `%` not followed by two hex digits throws |
| Utf8.DecodeLossyEncode | App.tsx:25 | decoding the UTF-8 encoding of a string gives the string back |
| Utf8.EncodeAppend | App.tsx:25 | UTF-8 encoding distributes over concatenation |
| JsNumber.ParseFloatToString | App.tsx:29 | `parseFloat` of a printed number gives the number back, NaN and the infinities included |
| JsNumber.ParseDecimalString | App.tsx:29 | `parseFloat` of a plain decimal rendering gives its value back |
| JsNumber.ReadShowNat | components/ControlPanel.tsx:53 | reading the digits of a natural number gives it back |
| JsNumber.ParseNoLiteral | App.tsx:29 | a value that does not start like a number parses as NaN |
| JsNumber.Identities | components/SceneModel.tsx:21-28 | multiplying by 1 and adding 0 change no number, NaN included |
| JsString.Trim | components/ControlPanel.tsx:43 | the trim is empty exactly when the text is all white space; otherwise it starts and ends with non-white-space |
| JsString.TrimIdempotent | components/ControlPanel.tsx:43-44 | trimming twice is trimming once |
| JsString.BoolToString | components/ControlPanel.tsx:57 | `true` or `false`, and `true` exactly for true |
| JsString.ReplaceAll | components/ControlPanel.tsx:132 | the length grows by the pattern count times the replacement's extra length |
| JsString.ReplaceAllAppend | components/ControlPanel.tsx:132 | a global replace distributes over concatenation |

## Left out

- SSR branch: App.tsx:24 returns `{}` when there is no `window`. Only the browser path is modelled.
- `window.location`: origin and path are an opaque prefix of the link (`EmbedUrl`). Turning a full URL
  into `location.search` is not modelled; the query is given directly, starting with `?`.
- Rendering, WebGL, `OrbitControls`, the `AsciiRenderer` pass itself, Suspense and the loading overlay,
  and the body-style effect at App.tsx:60-63: these are outside the logic proved here. The renderer key
  is modelled because it decides when the pass is rebuilt.
- `JsNumber.ToString`: real numbers are exact decimals with no IEEE rounding, and there is no −0.
  Exponent notation for very large or very small numbers is not produced (`parseFloat` does accept
  exponents).
- `JsNumber.ParseFloatToString`: requires a number whose value is a finite decimal (`Printable`), which
  every double is; arbitrary reals are not numbers the program can hold.
- `ShareLink.ShareLinkRestores`: stated for printable states only, for the same reason.
- `Constants.Pi`: `Math.PI` is its printed 16-digit decimal, not the exact double.
- Lone surrogates: Dafny `char` is a Unicode scalar value, so a string cannot hold an unpaired
  surrogate. The `URIError` that `encodeURIComponent` throws on one is not modelled.
- `ControlPanel.ReadLiteralBody`: reads only the escapes the export can produce. It rejects the
  `\x`, `\u` and digit escapes, and line terminators.
- Standalone HTML export (components/ControlPanel.tsx:95-176): only the baked transform and the ramp literal are
  modelled. The rest of the template is not:
  - the model URL and the colours are inserted without escaping;
  - a `</script>` inside a value would end the script;
  - `JSON.stringify` at components/ControlPanel.tsx:127 prints a NaN or infinite coordinate as `null`.
    The model states the baked values (`ControlPanel.ExportPlacement`), not their printed form, so the
    claim that the page draws the model where the live scene does holds for finite placements only.
    A NaN offset is reachable, from `posX=abc` (see `App.PositionFromQuery`).
- Clipboard copy, the "copied" timer, the download via a blob URL, the embed modal and the rest of the
  JSX (components/ControlPanel.tsx:71-75, components/ControlPanel.tsx:179-190) are browser I/O. They are left out.
- Slider bounds (`min`/`max`/`step` on the inputs): the browser enforces them, and the handlers do not
  check them. So the model accepts any number, as the handlers do.
- `App.GeometryCache.Clear`: a failing clear is a boolean parameter. The exception it stands for comes
  from code that is not part of this model.

## Findings

| source | as written | input that shows it | evidently intended | confidence | as-written member | corrected member |
|---|---|---|---|---|---|---|
| components/ControlPanel.tsx:132 | the ramp is put in a `"…"` literal with only `\` and `"` escaped | a ramp with a line feed, reachable only from a link such as `?chars=%0A` (the ramp field is a one-line text input, which drops line breaks) | the baked ramp reads back as the live ramp, so line terminators are escaped too | not executed | ControlPanel.EscapeRampNewline | ControlPanel.ReadEscapedLiteral |
| App.tsx:31-32 | `decodeURIComponent` is called on `fg` and `bg` without a guard, so start-up throws a `URIError` | `?fg=%25`, whose value `%` is a malformed escape | a malformed colour falls back to its default, as for every other malformed query value, and start-up never throws | not executed | App.MalformedColorFails | App.MalformedColorDefaults |
