/** The transform `SceneModel` gives the loaded scene: base values combined with the user's. */
module SceneModel {
  import opened Wrappers
  import opened JsNumber
  import opened Types

  /** The `scale`, `position` and `rotation` props of the rendered primitive. */
  datatype Placement = Placement(scale: Vec3, position: Vec3, rotation: Vec3)

  /** A missing rotation is drawn as `[0, 0, 0]`. */
  function RotationOrZero(rotation: Option<Vec3>): (r: Vec3)
    ensures rotation.Some? ==> r == rotation.value
    ensures rotation.None? ==> r == Zero3
  {
    if rotation.Some? then rotation.value else Zero3
  }

  /**
   * `finalScale` on all three axes, `finalPosition` and the rotation default
   * for a model drawn with a scale multiplier and a user offset.
   */
  function Place(m: ModelData, scaleMultiplier: Number, offset: Offset): (r: Placement)
    ensures r.scale.x == r.scale.y == r.scale.z
    ensures r.position.z == m.position.z
  {
    var s := Mul(m.baseScale, scaleMultiplier);
    Placement(
      Vec3(s, s, s),
      Vec3(Add(m.position.x, offset.x), Add(m.position.y, offset.y), m.position.z),
      RotationOrZero(m.rotation))
  }

  /** The placement is uniform in scale, shifts only x and y, and keeps the rotation or defaults it. */
  lemma PlaceComponents(m: ModelData, scaleMultiplier: Number, offset: Offset)
    ensures var r := Place(m, scaleMultiplier, offset);
      && r.scale == Vec3(Mul(m.baseScale, scaleMultiplier), Mul(m.baseScale, scaleMultiplier), Mul(m.baseScale, scaleMultiplier))
      && r.position.x == Add(m.position.x, offset.x) && r.position.y == Add(m.position.y, offset.y)
      && r.position.z == m.position.z
      && r.rotation == (if m.rotation.Some? then m.rotation.value else Zero3)
  {
  }

  /** For finite values the scale is the product and the position the sum, as exact reals. */
  lemma PlaceFinite(m: ModelData, scaleMultiplier: Number, offset: Offset)
    requires m.baseScale.Finite? && scaleMultiplier.Finite?
    requires m.position.x.Finite? && m.position.y.Finite? && offset.x.Finite? && offset.y.Finite?
    ensures var r := Place(m, scaleMultiplier, offset);
      && r.scale.x == Finite(m.baseScale.value * scaleMultiplier.value)
      && r.position.x == Finite(m.position.x.value + offset.x.value)
      && r.position.y == Finite(m.position.y.value + offset.y.value)
  {
  }

  /** With multiplier 1 and a zero offset the model is drawn at its base transform. */
  lemma PlaceNeutral(m: ModelData)
    ensures var r := Place(m, Finite(1.0), Offset(Finite(0.0), Finite(0.0)));
      && r.scale == Vec3(m.baseScale, m.baseScale, m.baseScale)
      && r.position == m.position
      && r.rotation == RotationOrZero(m.rotation)
  {
    Identities(m.baseScale);
    Identities(m.position.x);
    Identities(m.position.y);
  }

  /** A NaN multiplier, as `parseFloat` gives for a malformed `scale`, makes every axis NaN. */
  lemma PlaceNaNScale(m: ModelData, offset: Offset)
    ensures Place(m, NaN, offset).scale == Vec3(NaN, NaN, NaN)
  {
  }
}
