/** The window-level rules of editor/main_window.py: the persisted settings it toggles
    (theme, map tiles, species recognition), the splitter sizes it resets and restores, and
    the guards around species recognition. The settings are the JSON dictionary of the
    configuration file; the state of the image panel, of the metadata panel and of the
    recognition model is given to the methods that read it. */
module MainWindow {
  import opened Common
  import opened SharedData
  import EditorUtils
  import MetadataPanel

  const DefaultWidth: int := 1200
  const DefaultHeight: int := 800

  /** StyleData.DEFAULT_MAP and StyleData.DEFAULT_SPECIE. */
  const DefaultMap: string := "french"
  const DefaultSpecie: bool := true

  /** A value of the JSON configuration. */
  datatype Json = Null | Bool(b: bool) | Int(i: int) | Str(s: string) | List(items: seq<Json>)

  /** Python truth of a configuration value. */
  predicate Truthy(v: Json)
  {
    match v
    case Null => false
    case Bool(b) => b
    case Int(i) => i != 0
    case Str(s) => s != []
    case List(items) => items != []
  }

  /** `config.get(key, default)`. */
  function ConfigGet(config: map<string, Json>, key: string, default: Json): Json
  {
    if key in config then config[key] else default
  }

  /** int(v) on a configuration value: integers, and booleans as 0 and 1; anything else
      raises. */
  function IntOf(v: Json): Option<int>
  {
    match v
    case Int(i) => Some(i)
    case Bool(b) => Some(if b then 1 else 0)
    case _ => None
  }

  function Ints(xs: seq<int>): (r: seq<Json>)
    ensures |r| == |xs| && forall k :: 0 <= k < |xs| ==> r[k] == Int(xs[k])
  {
    seq(|xs|, k requires 0 <= k < |xs| => Int(xs[k]))
  }

  // ---------------------------------------------------------------------------
  // Toggles

  /** The theme toggle_theme switches to. */
  function OtherMode(mode: string): (r: string)
    ensures r == "dark" || r == "light"
  {
    if mode == "dark" then "light" else "dark"
  }

  /** The tiles switch_map switches to. */
  function OtherMap(current: Json): (r: string)
    ensures r == "french" || r == "international"
  {
    if current == Str("french") then "international" else "french"
  }

  /** Toggling the theme twice gives the theme back. */
  lemma ThemeToggleInvolution(mode: string)
    requires mode == "dark" || mode == "light"
    ensures OtherMode(OtherMode(mode)) == mode
  {
  }

  /** Switching the map twice gives the map back, and any unknown value goes to "french". */
  lemma MapSwitchInvolution(current: string)
    ensures current == "french" || current == "international" ==> OtherMap(Str(OtherMap(Str(current)))) == current
    ensures current != "french" ==> OtherMap(Str(current)) == "french"
  {
  }

  // ---------------------------------------------------------------------------
  // Splitter sizes

  /** The main splitter by default: a third of the width, then the rest. */
  function Thirds(w: int): (r: seq<int>)
    requires w >= 1
    ensures |r| == 2 && r[0] + r[1] == w
    ensures 0 <= r[0] <= r[1]
  {
    [w / 3, w - w / 3]
  }

  /** The left splitter by default: half the height each, the extra pixel going below. */
  function Halves(h: int): (r: seq<int>)
    requires h >= 1
    ensures |r| == 2 && r[0] + r[1] == h
    ensures 0 <= r[0] <= r[1] <= r[0] + 1
  {
    [h / 2, h - h / 2]
  }

  function Max1(n: int): (r: int)
    ensures r >= 1 && (n >= 1 ==> r == n)
  {
    if n > 1 then n else 1
  }

  // ---------------------------------------------------------------------------
  // Restoring the layout

  /** The window geometry and the two splitters' sizes. */
  datatype Layout = Layout(x: int, y: int, width: int, height: int, mainSizes: seq<int>, leftSizes: seq<int>)

  /** The geometry restore_layout sets: the saved x, y, width and height when "geometry_qt"
      is a list of four values, else the default size at the current position; None when
      int() raises on a saved value. */
  function RestoredGeometry(config: map<string, Json>, x: int, y: int): Option<(int, int, int, int)>
  {
    var geom := ConfigGet(config, "geometry_qt", Null);
    if geom.List? && |geom.items| == 4 then
      match (IntOf(geom.items[0]), IntOf(geom.items[1]), IntOf(geom.items[2]), IntOf(geom.items[3]))
      case (Some(a), Some(b), Some(c), Some(d)) => Some((a, b, c, d))
      case _ => None
    else Some((x, y, DefaultWidth, DefaultHeight))
  }

  /** The sizes restore_layout gives a splitter: the saved pair when the key holds a list of
      two values, else the default split; None when int() raises on a saved value. */
  function RestoredSplit(config: map<string, Json>, key: string, default: seq<int>): Option<seq<int>>
  {
    var saved := ConfigGet(config, key, Null);
    if saved.List? && |saved.items| == 2 then
      match (IntOf(saved.items[0]), IntOf(saved.items[1]))
      case (Some(a), Some(b)) => Some([a, b])
      case _ => None
    else Some(default)
  }

  /** restore_layout as a whole: the geometry, then the main splitter from the restored width
      and the left splitter from the restored height; None when it raises. */
  function Restored(config: map<string, Json>, x: int, y: int): Option<Layout>
  {
    match RestoredGeometry(config, x, y)
    case None => None
    case Some((x', y', w, h)) =>
      match (RestoredSplit(config, "main_split_qt", Thirds(Max1(w))),
             RestoredSplit(config, "left_split_qt", Halves(Max1(h))))
      case (Some(m), Some(l)) => Some(Layout(x', y', w, h, m, l))
      case _ => None
  }

  /** The geometry step of restore_layout: `setGeometry` with int() of the four saved
      values, or `resize` to the default size. */
  method RestoreGeometry(config: map<string, Json>, x: int, y: int) returns (g: Option<(int, int, int, int)>)
    ensures g == RestoredGeometry(config, x, y)
  {
    var geom := ConfigGet(config, "geometry_qt", Null);
    if geom.List? && |geom.items| == 4 {
      var a, b, c, d := IntOf(geom.items[0]), IntOf(geom.items[1]), IntOf(geom.items[2]), IntOf(geom.items[3]);
      if a.None? || b.None? || c.None? || d.None? {
        return None;
      }
      return Some((a.value, b.value, c.value, d.value));
    }
    return Some((x, y, DefaultWidth, DefaultHeight));
  }

  /** One splitter step of restore_layout: `setSizes` with int() of the two saved values, or
      the default split. */
  method RestoreSplit(config: map<string, Json>, key: string, default: seq<int>) returns (sizes: Option<seq<int>>)
    ensures sizes == RestoredSplit(config, key, default)
  {
    var saved := ConfigGet(config, key, Null);
    if saved.List? && |saved.items| == 2 {
      var a, b := IntOf(saved.items[0]), IntOf(saved.items[1]);
      if a.None? || b.None? {
        return None;
      }
      return Some([a.value, b.value]);
    }
    return Some(default);
  }

  /** The saved geometry is used only as a list of four values that int() accepts; anything
      else that is not such a list gives the default size. */
  lemma RestoredGeometryMeaning(config: map<string, Json>, x: int, y: int)
    ensures var geom := ConfigGet(config, "geometry_qt", Null);
      && (!(geom.List? && |geom.items| == 4) ==>
            RestoredGeometry(config, x, y) == Some((x, y, DefaultWidth, DefaultHeight)))
      && (geom.List? && |geom.items| == 4 ==>
            && (RestoredGeometry(config, x, y).Some? <==> forall k :: 0 <= k < 4 ==> IntOf(geom.items[k]).Some?)
            && (RestoredGeometry(config, x, y).Some? ==>
                  var g := RestoredGeometry(config, x, y).value;
                  && IntOf(geom.items[0]) == Some(g.0) && IntOf(geom.items[1]) == Some(g.1)
                  && IntOf(geom.items[2]) == Some(g.2) && IntOf(geom.items[3]) == Some(g.3)))
  {
    var geom := ConfigGet(config, "geometry_qt", Null);
    if geom.List? && |geom.items| == 4 && forall k :: 0 <= k < 4 ==> IntOf(geom.items[k]).Some? {
      assert IntOf(geom.items[0]).Some? && IntOf(geom.items[1]).Some?;
      assert IntOf(geom.items[2]).Some? && IntOf(geom.items[3]).Some?;
    }
  }

  /** Saved splitter sizes are used only as a list of two values that int() accepts; anything
      else that is not such a list gives the default split. */
  lemma RestoredSplitMeaning(config: map<string, Json>, key: string, default: seq<int>)
    ensures var saved := ConfigGet(config, key, Null);
      && (!(saved.List? && |saved.items| == 2) ==> RestoredSplit(config, key, default) == Some(default))
      && (saved.List? && |saved.items| == 2 ==>
            && (RestoredSplit(config, key, default).Some? <==> forall k :: 0 <= k < 2 ==> IntOf(saved.items[k]).Some?)
            && (RestoredSplit(config, key, default).Some? ==>
                  var r := RestoredSplit(config, key, default).value;
                  |r| == 2 && Some(r[0]) == IntOf(saved.items[0]) && Some(r[1]) == IntOf(saved.items[1])))
  {
    var saved := ConfigGet(config, key, Null);
    if saved.List? && |saved.items| == 2 && forall k :: 0 <= k < 2 ==> IntOf(saved.items[k]).Some? {
      assert IntOf(saved.items[0]).Some? && IntOf(saved.items[1]).Some?;
    }
  }

  /** The layout is restored exactly when the geometry and both splitters are; the splitters'
      defaults are taken from the restored size. */
  lemma RestoredMeaning(config: map<string, Json>, x: int, y: int)
    ensures Restored(config, x, y).Some? <==>
      && RestoredGeometry(config, x, y).Some?
      && var g := RestoredGeometry(config, x, y).value;
         RestoredSplit(config, "main_split_qt", Thirds(Max1(g.2))).Some?
         && RestoredSplit(config, "left_split_qt", Halves(Max1(g.3))).Some?
    ensures Restored(config, x, y).Some? ==>
      var l := Restored(config, x, y).value;
      var g := RestoredGeometry(config, x, y).value;
      && (l.x, l.y, l.width, l.height) == g
      && Some(l.mainSizes) == RestoredSplit(config, "main_split_qt", Thirds(Max1(l.width)))
      && Some(l.leftSizes) == RestoredSplit(config, "left_split_qt", Halves(Max1(l.height)))
  {
  }

  /** The settings reset_window saves: the geometry and both splitters' sizes. */
  function SavedLayout(config: map<string, Json>, l: Layout): map<string, Json>
  {
    config["geometry_qt" := List(Ints([l.x, l.y, l.width, l.height]))]
          ["main_split_qt" := List(Ints(l.mainSizes))]
          ["left_split_qt" := List(Ints(l.leftSizes))]
  }

  /** A layout whose splitters have two sizes each comes back unchanged from its saved
      settings, whatever the current position. */
  lemma SavedLayoutRestores(config: map<string, Json>, l: Layout, x: int, y: int)
    requires |l.mainSizes| == 2 && |l.leftSizes| == 2
    ensures Restored(SavedLayout(config, l), x, y) == Some(l)
  {
    var c := SavedLayout(config, l);
    var geom := Ints([l.x, l.y, l.width, l.height]);
    assert ConfigGet(c, "geometry_qt", Null) == List(geom);
    assert RestoredGeometry(c, x, y) == Some((l.x, l.y, l.width, l.height));
    var m := Ints(l.mainSizes);
    assert ConfigGet(c, "main_split_qt", Null) == List(m);
    assert RestoredSplit(c, "main_split_qt", Thirds(Max1(l.width))) == Some([l.mainSizes[0], l.mainSizes[1]]);
    var lf := Ints(l.leftSizes);
    assert ConfigGet(c, "left_split_qt", Null) == List(lf);
    assert RestoredSplit(c, "left_split_qt", Halves(Max1(l.height))) == Some([l.leftSizes[0], l.leftSizes[1]]);
    assert [l.mainSizes[0], l.mainSizes[1]] == l.mainSizes;
    assert [l.leftSizes[0], l.leftSizes[1]] == l.leftSizes;
  }

  // ---------------------------------------------------------------------------
  // Species

  /** The first letter of a word is upper-case (`w[:1].isupper()`): False on an empty word. */
  predicate UpperInitial(w: string)
  {
    w != [] && IsUpperAscii(w[0])
  }

  /** The first letter of a word is lower-case (`w[:1].islower()`). */
  predicate LowerInitial(w: string)
  {
    w != [] && IsLowerAscii(w[0])
  }

  /** _has_specie: more than two space-separated words, the first capitalised and the second
      not; a missing name is the empty one, and an empty word gives False, not an error. */
  function HasSpecie(name: Option<string>): (r: bool)
    ensures name.None? || name.value == [] ==> !r
    ensures var parts := Split(if name.None? then [] else name.value, ' ');
      r <==> |parts| > 2 && UpperInitial(parts[0]) && LowerInitial(parts[1])
  {
    var parts := Split(if name.None? then [] else name.value, ' ');
    assert name.None? || name.value == [] ==> parts == [[]];
    |parts| > 2 && UpperInitial(parts[0]) && LowerInitial(parts[1])
  }

  /** editor/utils.py's has_specie, when it does not raise, answers as _has_specie does on the
      file's name; when it raises, _has_specie says False. */
  lemma HasSpecieAgrees(path: string)
    ensures EditorUtils.HasSpecie(path).Returns? ==>
      EditorUtils.HasSpecie(path).value == HasSpecie(Some(EditorUtils.GetName(path)))
    ensures EditorUtils.HasSpecie(path).Raises? ==> !HasSpecie(Some(EditorUtils.GetName(path)))
  {
  }

  /** Three words joined by spaces, grouped from the right. */
  lemma ThreeWords(a: string, b: string, c: string)
    ensures a + " " + b + " " + c == a + [' '] + (b + [' '] + c)
  {
    assert " " == [' '];
  }

  /** A species accepted in the dialog, "Genus species", put in front of a non-blank name
      makes a name that has a species: recognition is not launched again for it. */
  lemma AcceptedSpecieIsRecognised(genus: string, species: string, current: string)
    requires UpperInitial(genus) && ' ' !in genus
    requires LowerInitial(species) && ' ' !in species && !IsSpace(species[|species| - 1])
    requires Strip(current) != []
    ensures HasSpecie(Some(MetadataPanel.WithPrefix(genus + " " + species, current)))
  {
    var prefix := genus + " " + species;
    assert prefix[0] == genus[0] && prefix[|prefix| - 1] == species[|species| - 1];
    MetadataPanel.WithPrefixJoins(prefix, current);
    var c := Strip(current);
    var name := prefix + " " + c;
    ThreeWords(genus, species, c);
    SplitAround(genus, species + [' '] + c, ' ');
    SplitAround(species, c, ' ');
    SplitWithoutSeparator(genus, ' ');
    SplitWithoutSeparator(species, ' ');
    assert Split(name, ' ') == [genus] + ([species] + Split(c, ' '));
  }

  /** What _maybe_get_specie hands to the inference worker. */
  datatype Inference = Inference(path: string, lat: Option<real>, lon: Option<real>)

  /** The species found for `path` is offered only when it is not empty and `path` is still
      the open image; when the dialog is accepted, it becomes the name's prefix. */
  function OnSpecieDetected(specie: string, path: string, currentPath: Option<string>,
                            accepted: bool): (prefix: Option<string>)
    ensures prefix.Some? <==> specie != [] && currentPath == Some(path) && accepted
    ensures prefix.Some? ==> prefix.value == specie
  {
    if specie == [] || currentPath != Some(path) then None
    else if accepted then Some(specie)
    else None
  }

  /** The theme asked for by `config.get("theme", "dark")`; a value that is not text is
      taken as no request. */
  function ThemeRequest(config: map<string, Json>): Option<string>
  {
    match ConfigGet(config, "theme", Str("dark"))
    case Str(s) => Some(s)
    case _ => None
  }

  class MainWindow {
    var config: map<string, Json>
    var style: StyleData
    var x: int
    var y: int
    var width: int
    var height: int
    var mainSizes: seq<int>
    var leftSizes: seq<int>

    predicate Valid()
      reads this, style
    {
      style.Valid()
    }

    /** The window over the loaded settings, in the theme they name. */
    constructor (loaded: map<string, Json>)
      ensures Valid() && fresh(style)
      ensures config == loaded && style.mode == ModeFor(ThemeRequest(loaded))
    {
      config := loaded;
      style := new StyleData(ThemeRequest(loaded));
      x, y, width, height := 0, 0, DefaultWidth, DefaultHeight;
      mainSizes := Thirds(DefaultWidth);
      leftSizes := Halves(DefaultHeight);
    }

    /** toggle_theme: light after dark, dark after anything else; the choice is saved. */
    method ToggleTheme()
      requires Valid()
      modifies this, style
      ensures Valid() && style == old(style)
      ensures style.mode == OtherMode(old(style.mode))
      ensures config == old(config)["theme" := Str(style.mode)]
      ensures width == old(width) && height == old(height)
      ensures mainSizes == old(mainSizes) && leftSizes == old(leftSizes)
    {
      var newMode := OtherMode(style.mode);
      assert Lower("light") == "light";
      style.SetMode(Some(newMode));
      config := config["theme" := Str(newMode)];
    }

    /** switch_map: "international" after "french", "french" after anything else. */
    method SwitchMap()
      modifies this
      ensures config == old(config)["map" := Str(OtherMap(ConfigGet(old(config), "map", Str(DefaultMap))))]
      ensures style == old(style) && width == old(width) && height == old(height)
      ensures mainSizes == old(mainSizes) && leftSizes == old(leftSizes)
    {
      var oldMap := ConfigGet(config, "map", Str(DefaultMap));
      var newMap := if oldMap == Str("french") then "international" else "french";
      config := config["map" := Str(newMap)];
    }

    /** _maybe_get_specie: a recognition is launched only when recognition is on, an image
        is open, the model is ready and the name has no species yet; the worker gets the
        image path and the panel's coordinates, if any. */
    method MaybeGetSpecie(imagePath: Option<string>, hasImage: bool, modelReady: bool,
                          nameField: string, coords: Option<(real, real)>)
      returns (launch: Option<Inference>)
      ensures launch.Some? <==>
        && Truthy(ConfigGet(config, "recognition", Bool(DefaultSpecie)))
        && imagePath.Some? && imagePath.value != [] && hasImage
        && modelReady
        && !HasSpecie(Some(nameField))
      ensures launch.Some? ==>
        && launch.value.path == imagePath.value
        && (coords.Some? ==> launch.value.lat == Some(coords.value.0) && launch.value.lon == Some(coords.value.1))
        && (coords.None? ==> launch.value.lat.None? && launch.value.lon.None?)
    {
      var recog := ConfigGet(config, "recognition", Bool(DefaultSpecie));
      if !Truthy(recog) {
        return None;
      }
      if !(imagePath.Some? && imagePath.value != [] && hasImage) {
        return None;
      }
      if !modelReady {
        return None;
      }
      if HasSpecie(Some(nameField)) {
        return None;
      }
      var lat: Option<real> := None;
      var lon: Option<real> := None;
      if coords.Some? {
        lat := Some(coords.value.0);
        lon := Some(coords.value.1);
      }
      return Some(Inference(imagePath.value, lat, lon));
    }

    /** switch_specie_recognition: the flag is stored negated, then a recognition is
        attempted with the new setting. */
    method SwitchSpecieRecognition(imagePath: Option<string>, hasImage: bool, modelReady: bool,
                                   nameField: string, coords: Option<(real, real)>)
      returns (launch: Option<Inference>)
      modifies this
      ensures config == old(config)["recognition" :=
                Bool(!Truthy(ConfigGet(old(config), "recognition", Bool(DefaultSpecie))))]
      ensures style == old(style) && width == old(width) && height == old(height)
      ensures mainSizes == old(mainSizes) && leftSizes == old(leftSizes)
      ensures Truthy(ConfigGet(old(config), "recognition", Bool(DefaultSpecie))) ==> launch.None?
      ensures !Truthy(ConfigGet(old(config), "recognition", Bool(DefaultSpecie))) ==>
        (launch.Some? <==>
           imagePath.Some? && imagePath.value != [] && hasImage && modelReady
           && !HasSpecie(Some(nameField)))
      ensures launch.Some? ==>
        && launch.value.path == imagePath.value
        && (coords.Some? ==> launch.value.lat == Some(coords.value.0) && launch.value.lon == Some(coords.value.1))
        && (coords.None? ==> launch.value.lat.None? && launch.value.lon.None?)
    {
      var recog := ConfigGet(config, "recognition", Bool(DefaultSpecie));
      config := config["recognition" := Bool(!Truthy(recog))];
      launch := MaybeGetSpecie(imagePath, hasImage, modelReady, nameField, coords);
    }

    /** reset_window: the default size, the default splits of that size, all saved. */
    method ResetWindow()
      modifies this
      ensures width == DefaultWidth && height == DefaultHeight
      ensures mainSizes == Thirds(DefaultWidth) && leftSizes == Halves(DefaultHeight)
      ensures mainSizes == [400, 800] && leftSizes == [400, 400]
      ensures x == old(x) && y == old(y) && style == old(style)
      ensures config == SavedLayout(old(config), Layout(x, y, width, height, mainSizes, leftSizes))
    {
      width, height := DefaultWidth, DefaultHeight;
      var w := Max1(width);
      var h := Max1(height);
      mainSizes := Thirds(w);
      leftSizes := Halves(h);
      config := config["geometry_qt" := List(Ints([x, y, width, height]))];
      config := config["main_split_qt" := List(Ints(mainSizes))];
      config := config["left_split_qt" := List(Ints(leftSizes))];
    }

    /** restore_layout: the saved geometry when it is a list of four values, else the
        default size; each splitter's saved sizes when they are a list of two values, else
        its default split of the current size. A saved value that int() refuses raises. */
    method RestoreLayout() returns (raised: bool)
      modifies this
      ensures config == old(config) && style == old(style)
      ensures raised <==> Restored(config, old(x), old(y)).None?
      ensures !raised ==> Restored(config, old(x), old(y)) == Some(Layout(x, y, width, height, mainSizes, leftSizes))
    {
      var g := RestoreGeometry(config, x, y);
      if g.None? {
        return true;
      }
      x, y, width, height := g.value.0, g.value.1, g.value.2, g.value.3;
      var m := RestoreSplit(config, "main_split_qt", Thirds(Max1(width)));
      if m.None? {
        return true;
      }
      mainSizes := m.value;
      var l := RestoreSplit(config, "left_split_qt", Halves(Max1(height)));
      if l.None? {
        return true;
      }
      leftSizes := l.value;
      return false;
    }
  }
}
