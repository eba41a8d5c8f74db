/** The record shapes of the viewer: a catalog entry and the renderer settings. */
module Types {
  import opened Wrappers
  import opened JsNumber

  /** A `[number, number, number]` tuple: always exactly three numbers. */
  datatype Vec3 = Vec3(x: Number, y: Number, z: Number)

  /** The origin `[0, 0, 0]`. */
  const Zero3: Vec3 := Vec3(Finite(0.0), Finite(0.0), Finite(0.0))

  /** A model of the catalog, or the fallback built for a custom URL; the rotation is optional. */
  datatype ModelData = ModelData(name: string, url: string, baseScale: Number, position: Vec3, rotation: Option<Vec3>)

  /** The five settings of the ASCII renderer. */
  datatype AsciiSettings = AsciiSettings(resolution: Number, characters: string, fgColor: string, bgColor: string, invert: bool)

  /** The user's offset `{ x, y }` of the model in the view plane. */
  datatype Offset = Offset(x: Number, y: Number)

  /**
   * A key of `AsciiSettings` together with a value of that field's type: the
   * arguments `updateSetting(key, value)` accepts.
   */
  datatype SettingUpdate =
    | Resolution(resolution: Number)
    | Characters(characters: string)
    | FgColor(fgColor: string)
    | BgColor(bgColor: string)
    | Invert(invert: bool)
}
