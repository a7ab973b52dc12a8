/** The readers of editor/exif_utils.py: they turn the tags of a loaded Exif dictionary back
    into what the metadata panel shows (the file's stem, the camera, the coordinates, the
    date taken). Decoding the file's Exif block is not part of this model: each reader is
    given the dictionary piexif.load returned, or None where loading raised. */
module ExifUtils {
  import opened Common
  import opened PosixPath
  import opened DateTime
  import opened SharedData
  import opened ExifData

  // ---------------------------------------------------------------------------
  // get_name

  /** The pieces of a base name between dots, all but the last, joined back with dots. */
  function StemOf(base: string): string
  {
    var parts := Split(base, '.');
    Common.Join(parts[..|parts| - 1], ".")
  }

  /** get_name: the base name of the path without its last extension. */
  function GetName(path: string): string
  {
    StemOf(Basename(path))
  }

  lemma StemDropsExtension(stem: string, ext: string)
    requires '.' !in ext
    ensures StemOf(stem + ['.'] + ext) == stem
  {
    SplitAround(stem, ext, '.');
    SplitWithoutSeparator(ext, '.');
    var parts := Split(stem + ['.'] + ext, '.');
    assert parts[..|parts| - 1] == Split(stem, '.');
    JoinSplit(stem, '.');
  }

  lemma StemWithoutDot(base: string)
    requires '.' !in base
    ensures StemOf(base) == []
  {
    SplitWithoutSeparator(base, '.');
  }

  /** The name is the base name cut at its last dot (inner dots are kept), and "" when the
      base name has no dot. */
  lemma GetNameIsStem(path: string)
    ensures var b := Basename(path);
      GetName(path) == (if RFind(b, '.') < 0 then [] else b[..RFind(b, '.')])
  {
    var b := Basename(path);
    var k := RFind(b, '.');
    if k < 0 {
      StemWithoutDot(b);
    } else {
      assert b == b[..k] + ['.'] + b[k + 1..];
      StemDropsExtension(b[..k], b[k + 1..]);
    }
  }

  // ---------------------------------------------------------------------------
  // get_device

  /** The tag is absent or holds bytes (piexif gives ASCII tags as bytes; anything else has
      no decode method and raises). */
  predicate BytesOrAbsent(d: ExifMap, section: string, tag: int)
    requires DictOrAbsent(d, section)
  {
    Get(d, section, tag).Some? ==> Get(d, section, tag).value.Bytes?
  }

  predicate DeviceReadable(d: ExifMap)
  {
    DictOrAbsent(d, "0th") && BytesOrAbsent(d, "0th", TagMake) && BytesOrAbsent(d, "0th", TagModel)
  }

  /** `d.get("0th", {}).get(tag, b"").decode("utf-8", errors="ignore")`. */
  function TagText(d: ExifMap, tag: int): string
    requires DictOrAbsent(d, "0th") && BytesOrAbsent(d, "0th", tag)
  {
    match Get(d, "0th", tag)
    case None => []
    case Some(v) => DecodeIgnore(v.b)
  }

  /** Whitespace runs collapsed to one space, then the ends stripped. */
  function Tidy(s: string): (r: string)
    ensures Normalised(r)
  {
    CollapseStripNormalised(s);
    Strip(CollapseWhitespace(s))
  }

  predicate StartsWith(s: string, prefix: string)
  {
    |prefix| <= |s| && s[..|prefix|] == prefix
  }

  /** The camera name built from a tidy make and model: the model alone when it already
      starts with the make (ignoring case), otherwise both, separated by a space and
      stripped. The name is tidy, and empty only when both are. */
  function Merge(make: string, model: string): (r: string)
    requires Normalised(make) && Normalised(model)
    ensures Normalised(r)
    ensures r == [] <==> make == [] && model == []
  {
    if StartsWith(Lower(model), Lower(make)) then model
    else
      assert make != [];
      if model == [] then
        assert make + " " + model == make + [' '];
        StripTrailingSpace(make);
        Strip(make + " " + model)
      else
        JoinedNormalised(make, model);
        var s := make + " " + model;
        assert s == make + [' '] + model;
        assert s[0] == make[0] && s[|s| - 1] == model[|model| - 1];
        StripTrimmed(s);
        Strip(s)
  }

  /** The make, tidied. */
  function Make(d: ExifMap): (r: string)
    requires DeviceReadable(d)
    ensures Normalised(r)
  {
    Tidy(TagText(d, TagMake))
  }

  /** The model, tidied. */
  function Model(d: ExifMap): (r: string)
    requires DeviceReadable(d)
    ensures Normalised(r)
  {
    Tidy(TagText(d, TagModel))
  }

  /** get_device: None when loading failed or when make and model are both empty after
      tidying; otherwise the merged camera name, which is tidy and not empty. */
  function GetDevice(exif: Option<ExifMap>): (r: Option<string>)
    requires exif.Some? ==> DeviceReadable(exif.value)
    ensures exif.None? ==> r.None?
    ensures exif.Some? ==> (r.None? <==> Make(exif.value) == [] && Model(exif.value) == [])
    ensures r.Some? ==> r.value != [] && Normalised(r.value)
  {
    if exif.None? then None
    else Device(Make(exif.value), Model(exif.value))
  }

  /** The tail of get_device, from the tidy make and model. */
  function Device(make: string, model: string): (r: Option<string>)
    requires Normalised(make) && Normalised(model)
    ensures r.None? <==> make == [] && model == []
    ensures r.Some? ==> r.value != [] && Normalised(r.value)
  {
    if make == [] && model == [] then None else Some(Merge(make, model))
  }

  lemma StripLeadingSpace(m: string)
    requires m != [] && Normalised(m)
    ensures Strip([' '] + m) == m
  {
    var s := [' '] + m;
    assert s[1..] == m;
    assert LStrip(s) == LStrip(m) == m;
  }

  lemma StripTrailingSpace(m: string)
    requires m != [] && Normalised(m)
    ensures Strip(m + [' ']) == m
  {
    var s := m + [' '];
    assert s[0] == m[0];
    assert LStrip(s) == s;
    assert s[..|s| - 1] == m;
    assert RStrip(s) == RStrip(m) == m;
  }

  /** Two tidy, non-empty texts joined by one space form a tidy text. */
  lemma JoinedNormalised(a: string, b: string)
    requires a != [] && b != [] && Normalised(a) && Normalised(b)
    ensures Normalised(a + [' '] + b)
  {
    var s := a + [' '] + b;
    forall i | 0 <= i < |s| && IsSpace(s[i]) ensures s[i] == ' ' {
      if i < |a| {
        assert s[i] == a[i];
      } else if i > |a| {
        assert s[i] == b[i - |a| - 1];
      }
    }
    forall i | 0 <= i < |s| - 1 ensures !(IsSpace(s[i]) && IsSpace(s[i + 1])) {
      if i < |a| - 1 {
        assert s[i] == a[i] && s[i + 1] == a[i + 1];
      } else if i == |a| - 1 {
        assert s[i] == a[|a| - 1];
      } else if i == |a| {
        assert s[i + 1] == b[0];
      } else {
        assert s[i] == b[i - |a| - 1] && s[i + 1] == b[i - |a|];
      }
    }
  }

  /** When the model does not repeat the make and both are present, the camera name is the
      make, one space, the model. */
  lemma MergeBoth(make: string, model: string)
    requires make != [] && model != [] && Normalised(make) && Normalised(model)
    requires !StartsWith(Lower(model), Lower(make))
    ensures Merge(make, model) == make + " " + model
  {
    var s := make + " " + model;
    assert s[0] == make[0] && s[|s| - 1] == model[|model| - 1];
    StripTrimmed(s);
  }

  /** With the make empty the camera name is the model; with the model empty it is the
      make. */
  lemma MergeOne(make: string, model: string)
    requires Normalised(make) && Normalised(model)
    ensures make == [] ==> Merge(make, model) == model
    ensures model == [] ==> Merge(make, model) == make
  {
    if make == [] {
      assert StartsWith(Lower(model), Lower(make));
    } else if model == [] {
      assert !StartsWith(Lower(model), Lower(make));
      assert make + " " + model == make + [' '];
      StripTrailingSpace(make);
    }
  }

  // ---------------------------------------------------------------------------
  // _check_validity and _get_geotagging

  predicate IsPair(v: Value)
  {
    (v.Tuple? || v.List?) && |v.items| == 2
  }

  /** The loop of _check_validity: every element is a pair whose second component is not 0. */
  function CheckPairs(items: seq<Value>): (ok: bool)
    ensures ok <==> forall k :: 0 <= k < |items| ==> IsPair(items[k]) && items[k].items[1] != Int(0)
    decreases |items|
  {
    if items == [] then true
    else if !IsPair(items[0]) || items[0].items[1] == Int(0) then false
    else CheckPairs(items[1..])
  }

  /** _check_validity: a present, non-empty list or tuple of exactly three pairs, none with a
      zero second component. */
  function CheckValidity(v: Option<Value>): (ok: bool)
    ensures ok <==>
      && v.Some? && (v.value.Tuple? || v.value.List?) && |v.value.items| == 3
      && forall k :: 0 <= k < 3 ==> IsPair(v.value.items[k]) && v.value.items[k].items[1] != Int(0)
  {
    if v.None? || !Truthy(v.value) then false
    else if !(v.value.Tuple? || v.value.List?) || |v.value.items| != 3 then false
    else CheckPairs(v.value.items)
  }

  /** A triple that passes the check holds integers, as piexif gives RATIONAL values;
      dividing anything else raises. */
  predicate NumericWhenValid(v: Option<Value>)
  {
    CheckValidity(v) ==>
      forall k :: 0 <= k < 3 ==> v.value.items[k].items[0].Int? && v.value.items[k].items[1].Int?
  }

  predicate ValidTriple(v: Value)
  {
    CheckValidity(Some(v)) && NumericWhenValid(Some(v))
  }

  function Ratio(p: Value): real
    requires IsPair(p) && p.items[0].Int? && p.items[1].Int? && p.items[1].i != 0
  {
    p.items[0].i as real / p.items[1].i as real
  }

  /** Degrees + minutes / 60 + seconds / 3600, each read as a quotient. */
  function TripleDegrees(v: Value): real
    requires ValidTriple(v)
  {
    Ratio(v.items[0]) + Ratio(v.items[1]) / 60.0 + Ratio(v.items[2]) / 3600.0
  }

  predicate GpsReadable(d: ExifMap)
  {
    && DictOrAbsent(d, "GPS")
    && NumericWhenValid(Get(d, "GPS", TagGpsLatitude))
    && NumericWhenValid(Get(d, "GPS", TagGpsLongitude))
    && BytesOrAbsent(d, "GPS", TagGpsLatitudeRef)
    && BytesOrAbsent(d, "GPS", TagGpsLongitudeRef)
  }

  /** `gps.get(tag, default).decode(errors="ignore")`. */
  function RefText(d: ExifMap, tag: int, default: string): string
    requires DictOrAbsent(d, "GPS") && BytesOrAbsent(d, "GPS", tag)
  {
    match Get(d, "GPS", tag)
    case None => default
    case Some(v) => DecodeIgnore(v.b)
  }

  /** _get_geotagging: both coordinates, or neither. They are present exactly when the GPS
      section is a non-empty dictionary and both triples pass the check; each is the
      triple's value in degrees, negated only when its reference reads "S" (or "W"). */
  function GetGeotagging(d: ExifMap): (r: Option<(real, real)>)
    requires GpsReadable(d)
    ensures r.Some? <==>
      && HasTags(d, "GPS") && d["GPS"].tags != map[]
      && CheckValidity(Get(d, "GPS", TagGpsLatitude)) && CheckValidity(Get(d, "GPS", TagGpsLongitude))
    ensures r.Some? ==>
      var lat := TripleDegrees(Get(d, "GPS", TagGpsLatitude).value);
      var lon := TripleDegrees(Get(d, "GPS", TagGpsLongitude).value);
      && (RefText(d, TagGpsLatitudeRef, "N") == "S" ==> r.value.0 == -lat)
      && (RefText(d, TagGpsLatitudeRef, "N") != "S" ==> r.value.0 == lat)
      && (RefText(d, TagGpsLongitudeRef, "E") == "W" ==> r.value.1 == -lon)
      && (RefText(d, TagGpsLongitudeRef, "E") != "W" ==> r.value.1 == lon)
  {
    if "GPS" !in d || d["GPS"].tags == map[] then None
    else
      var lat := Get(d, "GPS", TagGpsLatitude);
      var lon := Get(d, "GPS", TagGpsLongitude);
      if !(CheckValidity(lat) && CheckValidity(lon)) then None
      else
        var latitude := TripleDegrees(lat.value);
        var longitude := TripleDegrees(lon.value);
        var latRef := RefText(d, TagGpsLatitudeRef, "N");
        var lonRef := RefText(d, TagGpsLongitudeRef, "E");
        Some((if latRef == "S" then -latitude else latitude,
              if lonRef == "W" then -longitude else longitude))
  }

  /** Without reference tags the coordinates are read as north and east. */
  lemma MissingRefsAreNorthEast(d: ExifMap)
    requires GpsReadable(d) && GetGeotagging(d).Some?
    requires Get(d, "GPS", TagGpsLatitudeRef).None? && Get(d, "GPS", TagGpsLongitudeRef).None?
    ensures GetGeotagging(d).value
      == (TripleDegrees(Get(d, "GPS", TagGpsLatitude).value),
          TripleDegrees(Get(d, "GPS", TagGpsLongitude).value))
  {
    assert "N" != "S" && "E" != "W";
  }

  /** get_coordinates: nothing when loading failed, otherwise _get_geotagging. */
  function GetCoordinates(exif: Option<ExifMap>): (r: Option<(real, real)>)
    requires exif.Some? ==> GpsReadable(exif.value)
    ensures r.Some? ==> exif.Some? && HasTags(exif.value, "GPS")
  {
    if exif.None? then None else GetGeotagging(exif.value)
  }

  // ---------------------------------------------------------------------------
  // get_date_taken

  /** The date tags get_date_taken tries, in order. */
  const DateTags: seq<(int, string)> :=
    [(TagDateTimeOriginal, "Exif"), (TagDateTimeDigitized, "Exif"), (TagDateTime, "0th")]

  predicate DatesReadable(d: ExifMap)
  {
    DictOrAbsent(d, "Exif") && DictOrAbsent(d, "0th")
  }

  /** One attempt of the loop: a truthy value that decodes as UTF-8 and parses in the
      storage format gives the date in the display format; anything else is skipped. */
  function TryDate(d: ExifMap, tag: int, section: string): (r: Option<string>)
    requires DictOrAbsent(d, section)
    ensures r.Some? ==> Get(d, section, tag).Some? && Get(d, section, tag).value.Bytes?
    ensures r.Some? ==> Strptime(r.value, DisplayedDateFormat).Some?
  {
    match Get(d, section, tag)
    case None => None
    case Some(v) =>
      if !Truthy(v) || !v.Bytes? then None
      else
        match DecodeStrict(v.b)
        case None => None
        case Some(text) =>
          match Strptime(text, ExifDateFormat)
          case None => None
          case Some(f) =>
            DisplayRoundTrip(f);
            Some(Strftime(f, DisplayedDateFormat))
  }

  predicate TagsReadable(d: ExifMap, tags: seq<(int, string)>)
  {
    forall k :: 0 <= k < |tags| ==> DictOrAbsent(d, tags[k].1)
  }

  /** The position of the first attempt, in list order, that gives a date, or -1. */
  function FirstDateIndex(d: ExifMap, tags: seq<(int, string)>): (i: int)
    requires TagsReadable(d, tags)
    ensures -1 <= i < |tags|
    ensures i >= 0 ==> TryDate(d, tags[i].0, tags[i].1).Some?
    ensures forall j :: 0 <= j < |tags| && (i < 0 || j < i) ==> TryDate(d, tags[j].0, tags[j].1).None?
    decreases |tags|
  {
    if tags == [] then -1
    else if TryDate(d, tags[0].0, tags[0].1).Some? then 0
    else
      var k := FirstDateIndex(d, tags[1..]);
      if k < 0 then -1 else k + 1
  }

  /** The first attempt, in list order, that gives a date. */
  function FirstDate(d: ExifMap, tags: seq<(int, string)>): (r: Option<string>)
    requires TagsReadable(d, tags)
    ensures r.Some? <==> exists k :: 0 <= k < |tags| && TryDate(d, tags[k].0, tags[k].1).Some?
  {
    var i := FirstDateIndex(d, tags);
    if i < 0 then None else TryDate(d, tags[i].0, tags[i].1)
  }

  /** get_date_taken: nothing when loading failed; otherwise the first date tag, in the order
      DateTimeOriginal, DateTimeDigitized, DateTime, that holds a readable date, shown in the
      display format. */
  function GetDateTaken(exif: Option<ExifMap>): (r: Option<string>)
    requires exif.Some? ==> DatesReadable(exif.value)
    ensures r.Some? ==> exif.Some? && Strptime(r.value, DisplayedDateFormat).Some?
  {
    if exif.None? then None else FirstDate(exif.value, DateTags)
  }

  /** A readable DateTimeOriginal wins; otherwise a readable DateTimeDigitized; otherwise
      DateTime; and the date is shown only when one of them is readable. */
  lemma DateTakenPriority(d: ExifMap)
    requires DatesReadable(d)
    ensures TryDate(d, TagDateTimeOriginal, "Exif").Some? ==>
      GetDateTaken(Some(d)) == TryDate(d, TagDateTimeOriginal, "Exif")
    ensures TryDate(d, TagDateTimeOriginal, "Exif").None? && TryDate(d, TagDateTimeDigitized, "Exif").Some? ==>
      GetDateTaken(Some(d)) == TryDate(d, TagDateTimeDigitized, "Exif")
    ensures TryDate(d, TagDateTimeOriginal, "Exif").None? && TryDate(d, TagDateTimeDigitized, "Exif").None? ==>
      GetDateTaken(Some(d)) == TryDate(d, TagDateTime, "0th")
  {
    var i := FirstDateIndex(d, DateTags);
    assert DateTags[0] == (TagDateTimeOriginal, "Exif");
    assert DateTags[1] == (TagDateTimeDigitized, "Exif");
    assert DateTags[2] == (TagDateTime, "0th");
  }
}
