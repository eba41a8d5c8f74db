/** The model catalog, the default settings and the preset character ramps. */
module Constants {
  import opened Wrappers
  import opened JsNumber
  import opened Types

  const FoxUrl: string := "https://raw.githubusercontent.com/KhronosGroup/glTF-Sample-Models/master/2.0/Fox/glTF-Binary/Fox.glb"
  const AvocadoUrl: string := "https://raw.githubusercontent.com/KhronosGroup/glTF-Sample-Models/master/2.0/Avocado/glTF-Binary/Avocado.glb"
  const BoomBoxUrl: string := "https://raw.githubusercontent.com/KhronosGroup/glTF-Sample-Models/master/2.0/BoomBox/glTF-Binary/BoomBox.glb"
  const DuckUrl: string := "https://raw.githubusercontent.com/KhronosGroup/glTF-Sample-Models/master/2.0/Duck/glTF-Binary/Duck.glb"

  /** `Math.PI`, as the double it denotes prints. */
  const Pi: real := 3.141592653589793

  /** `MODELS`, in catalog order. */
  const Models: seq<ModelData> := [
    ModelData("Fox", FoxUrl, Finite(0.025), Vec3(Finite(0.0), Finite(-0.7), Finite(0.0)),
      Some(Vec3(Finite(0.0), Finite(0.5), Finite(0.0)))),
    ModelData("Avocado", AvocadoUrl, Finite(30.0), Vec3(Finite(0.0), Finite(-0.5), Finite(0.0)), None),
    ModelData("BoomBox", BoomBoxUrl, Finite(80.0), Vec3(Finite(0.0), Finite(0.2), Finite(0.0)),
      Some(Vec3(Finite(0.0), Finite(Pi), Finite(0.0)))),
    ModelData("Duck", DuckUrl, Finite(3.0), Vec3(Finite(0.0), Finite(-0.8), Finite(0.0)), None)
  ]

  /** `DEFAULT_SETTINGS`: black text on white, inverted. */
  const DefaultSettings: AsciiSettings :=
    AsciiSettings(Finite(0.2), " .:-=+*#%@", "#000000", "#ffffff", true)

  /** `PRESET_CHARSETS` as the name-ramp entries `Object.entries` lists, in order. */
  const PresetCharsets: seq<(string, string)> := [
    ("standard", " .:-=+*#%@"),
    ("binary", " 01"),
    ("blocks", " \U{2591}\U{2592}\U{2593}\U{2588}"),
    ("minimal", " ."),
    ("slashes", " /\\|")
  ]

  /** `MODELS.find(m => m.name === name)`: the first entry with that name. */
  function FindByName(ms: seq<ModelData>, name: string): (r: Option<ModelData>)
    ensures r.None? <==> forall i :: 0 <= i < |ms| ==> ms[i].name != name
    ensures r.Some? ==> r.value.name == name
    ensures r.Some? ==> exists i :: 0 <= i < |ms| && ms[i] == r.value && forall k :: 0 <= k < i ==> ms[k].name != name
  {
    if ms == [] then None
    else if ms[0].name == name then Some(ms[0])
    else
      var r := FindByName(ms[1..], name);
      assert r.Some? ==> exists i :: 0 <= i < |ms| && ms[i] == r.value && forall k :: 0 <= k < i ==> ms[k].name != name by {
        if r.Some? {
          var j :| 0 <= j < |ms| - 1 && ms[1..][j] == r.value && forall k :: 0 <= k < j ==> ms[1..][k].name != name;
          assert ms[j + 1] == r.value;
          forall k | 0 <= k < j + 1 ensures ms[k].name != name {
            if k > 0 { assert ms[k] == ms[1..][k - 1]; }
          }
        }
      }
      r
  }

  /** `MODELS.find(m => m.url === url)`: the first entry with that URL. */
  function FindByUrl(ms: seq<ModelData>, url: string): (r: Option<ModelData>)
    ensures r.None? <==> forall i :: 0 <= i < |ms| ==> ms[i].url != url
    ensures r.Some? ==> r.value.url == url
    ensures r.Some? ==> exists i :: 0 <= i < |ms| && ms[i] == r.value && forall k :: 0 <= k < i ==> ms[k].url != url
  {
    if ms == [] then None
    else if ms[0].url == url then Some(ms[0])
    else
      var r := FindByUrl(ms[1..], url);
      assert r.Some? ==> exists i :: 0 <= i < |ms| && ms[i] == r.value && forall k :: 0 <= k < i ==> ms[k].url != url by {
        if r.Some? {
          var j :| 0 <= j < |ms| - 1 && ms[1..][j] == r.value && forall k :: 0 <= k < j ==> ms[1..][k].url != url;
          assert ms[j + 1] == r.value;
          forall k | 0 <= k < j + 1 ensures ms[k].url != url {
            if k > 0 { assert ms[k] == ms[1..][k - 1]; }
          }
        }
      }
      r
  }

  /** A URL of the catalog. */
  predicate IsCatalogUrl(url: string) {
    exists i :: 0 <= i < |Models| && Models[i].url == url
  }

  /** The catalog is not empty, so `MODELS[0]` is always defined. */
  lemma CatalogNonEmpty()
    ensures |Models| == 4 && Models[0].url == FoxUrl && IsCatalogUrl(Models[0].url)
  {
  }

  /** No two entries share a name, and no two share a URL. */
  lemma CatalogDistinct()
    ensures forall i, j :: 0 <= i < j < |Models| ==> Models[i].name != Models[j].name
    ensures forall i, j :: 0 <= i < j < |Models| ==> Models[i].url != Models[j].url
  {
  }

  /**
   * Looking an entry up by its own name or by its own URL finds that entry,
   * so name to URL and URL to name are inverse on the catalog.
   */
  lemma CatalogLookups(i: nat)
    requires i < |Models|
    ensures FindByName(Models, Models[i].name) == Some(Models[i])
    ensures FindByUrl(Models, Models[i].url) == Some(Models[i])
  {
    CatalogDistinct();
    assert FindByName(Models, Models[i].name) == Some(Models[i]) by {
      var n := FindByName(Models, Models[i].name);
      var j :| 0 <= j < |Models| && Models[j] == n.value && forall k :: 0 <= k < j ==> Models[k].name != Models[i].name;
      assert j == i;
    }
    assert FindByUrl(Models, Models[i].url) == Some(Models[i]) by {
      var u := FindByUrl(Models, Models[i].url);
      var l :| 0 <= l < |Models| && Models[l] == u.value && forall k :: 0 <= k < l ==> Models[k].url != Models[i].url;
      assert l == i;
    }
  }

  /** The URL of the entry a name finds, looked up again, gives the entry's name back. */
  lemma NameUrlInverse(name: string)
    requires FindByName(Models, name).Some?
    ensures FindByUrl(Models, FindByName(Models, name).value.url) == FindByName(Models, name)
  {
    var m := FindByName(Models, name).value;
    var i :| 0 <= i < |Models| && Models[i] == m;
    CatalogLookups(i);
  }

  /** The entry a URL finds, looked up again by name, is the same entry. */
  lemma UrlNameInverse(url: string)
    requires FindByUrl(Models, url).Some?
    ensures FindByName(Models, FindByUrl(Models, url).value.name) == FindByUrl(Models, url)
  {
    var m := FindByUrl(Models, url).value;
    var i :| 0 <= i < |Models| && Models[i] == m;
    CatalogLookups(i);
  }

  /** A URL finds an entry exactly when it is a catalog URL. */
  lemma FindByUrlCatalog(url: string)
    ensures FindByUrl(Models, url).Some? <==> IsCatalogUrl(url)
  {
  }

  /** No catalog entry is called `Custom`. */
  lemma CustomIsNoCatalogName()
    ensures FindByName(Models, "Custom") == None
  {
  }

  /** Avocado and Duck have no rotation; Fox and BoomBox do. */
  lemma RotationsOfCatalog()
    ensures Models[1].name == "Avocado" && Models[1].rotation == None
    ensures Models[3].name == "Duck" && Models[3].rotation == None
    ensures Models[0].rotation.Some? && Models[2].rotation.Some?
  {
  }

  /** Every preset ramp is non-empty and starts with a space; the standard one is the default ramp. */
  lemma PresetsWellFormed()
    ensures forall i :: 0 <= i < |PresetCharsets| ==> |PresetCharsets[i].1| > 0 && PresetCharsets[i].1[0] == ' '
    ensures PresetCharsets[0] == ("standard", DefaultSettings.characters)
  {
  }

  /** The `slashes` preset holds one backslash. */
  lemma SlashesHasBackslash()
    ensures PresetCharsets[4].0 == "slashes" && |PresetCharsets[4].1| == 4 && PresetCharsets[4].1[2] == '\\'
  {
  }
}
