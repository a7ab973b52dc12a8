/** The field-edit engine (editor/exif_editor_service.py): it parses the four edit strings
    (name, date, latitude, longitude), writes them into the Exif dictionary, normalises
    the dictionary, and decides the file's final path. An empty date or coordinate string
    means "delete the tags"; text that does not parse aborts the save. */
module ExifEditorService {
  import opened Common
  import opened PyFloat
  import opened PosixPath
  import opened DateTime
  import opened SharedData
  import opened ExifData

  // ---------------------------------------------------------------------------
  // Parsing the edit strings

  /** The characters that may not appear in a file name. */
  predicate Forbidden(c: char)
  {
    c == '\\' || c == '/' || c == ':' || c == '"' || c == '*' || c == '?' || c == '<'
    || c == '>' || c == '|'
  }

  function ReplaceForbidden(s: string): (r: string)
    ensures |r| == |s|
    ensures forall i :: 0 <= i < |s| ==> r[i] == (if Forbidden(s[i]) then '_' else s[i])
    decreases |s|
  {
    if s == [] then [] else [if Forbidden(s[0]) then '_' else s[0]] + ReplaceForbidden(s[1..])
  }

  /** parse_name: every forbidden character becomes '_', every other one is kept; a missing
      name is the empty one. */
  function ParseName(name: Option<string>): (r: string)
    ensures name.None? ==> r == []
    ensures name.Some? ==> |r| == |name.value|
    ensures forall i :: 0 <= i < |r| ==> !Forbidden(r[i])
  {
    if name.None? then [] else ReplaceForbidden(name.value)
  }

  /** Sanitising a sanitised name changes nothing. */
  lemma ParseNameIdempotent(name: string)
    ensures ParseName(Some(ParseName(Some(name)))) == ParseName(Some(name))
  {
  }

  /** parse_date_to_exif: "" is the deletion sentinel; otherwise the first accepted format
      that parses decides the date, written back in the storage format; None when no
      format parses. */
  function ParseDateToExif(s: string): (r: Option<string>)
    ensures s == [] ==> r == Some([])
    ensures s != [] ==> (r.Some? <==> ParseFirst(s, AcceptedDateFormats).Some?)
    ensures s != [] && r.Some? ==> r.value != []
  {
    if s == [] then Some([])
    else
      match ParseFirst(s, AcceptedDateFormats)
      case None => None
      case Some(f) =>
        StoredTextShape(f);
        Some(Strftime(f, ExifDateFormat))
  }

  /** The storage text of a date is a fixed point of parse_date_to_exif. */
  lemma {:induction false} ParseDateToExifIdempotent(s: string)
    requires ParseDateToExif(s).Some?
    ensures ParseDateToExif(ParseDateToExif(s).value) == ParseDateToExif(s)
  {
    if s != [] {
      var f := ParseFirst(s, AcceptedDateFormats).value;
      StoredDateReparses(f);
      StoredTextShape(f);
    }
  }

  /** What a coordinate string asks for: deleting the axis or writing a value. */
  datatype CoordEdit = Clear | Degrees(v: real)

  /** parse_coordinate: "" deletes, decimal text gives its value, anything else is None. */
  function ParseCoordinate(s: string): (r: Option<CoordEdit>)
    ensures r == Some(Clear) <==> s == []
    ensures r.Some? && r.value.Degrees? ==> ParseFloat(s) == Some(r.value.v)
    ensures r.None? <==> s != [] && ParseFloat(s).None?
  {
    if s == [] then Some(Clear)
    else
      match ParseFloat(s)
      case None => None
      case Some(v) => Some(Degrees(v))
  }

  // ---------------------------------------------------------------------------
  // Degrees to degrees/minutes/seconds

  /** [(d, 1), (m, 1), (s, 10000)]: seconds are kept in units of 1/10000. */
  datatype Dms = Dms(d: int, m: int, s: int)

  function DmsDegrees(x: Dms): real
  {
    x.d as real + x.m as real / 60.0 + x.s as real / 36000000.0
  }

  /** Half of the resolution of the seconds field, in degrees. */
  const HalfStep: real := 1.0 / 72000000.0

  /** _decimal_to_dms_rational: whole degrees by truncation, whole minutes by truncation,
      seconds rounded half to even to 1/10000. */
  function DecimalToDms(deg: real): (r: Dms)
    ensures deg >= 0.0 ==> r.d == deg.Floor && 0 <= r.m <= 59 && 0 <= r.s <= 600000
  {
    var d := Trunc(deg);
    var m := Trunc((deg - d as real) * 60.0);
    var s := RoundHalfEven(((deg - d as real) * 60.0 - m as real) * 60.0 * 10000.0);
    Dms(d, m, s)
  }

  /** For a non-negative angle the triple is within half a step of the angle. */
  lemma DmsAccuracy(deg: real)
    requires deg >= 0.0
    ensures -HalfStep <= DmsDegrees(DecimalToDms(deg)) - deg <= HalfStep
  {
    var r := DecimalToDms(deg);
    var frac := deg - r.d as real;
    var rem := frac * 60.0 - r.m as real;
    var x := rem * 60.0 * 10000.0;
    assert deg == r.d as real + r.m as real / 60.0 + x / 36000000.0;
    assert -0.5 <= r.s as real - x <= 0.5;
    assert DmsDegrees(r) - deg == (r.s as real - x) / 36000000.0;
  }

  function DmsValue(x: Dms): Value
  {
    List([Tuple([Int(x.d), Int(1)]), Tuple([Int(x.m), Int(1)]), Tuple([Int(x.s), Int(10000)])])
  }

  function Abs(v: real): real
  {
    if v >= 0.0 then v else -v
  }

  // ---------------------------------------------------------------------------
  // Writing the edits into the dictionary

  /** _update_exif_date as a function of the dictionary. */
  function WithDate(d: ExifMap, date: string): (r: ExifMap)
    requires Editable(d)
    ensures Editable(r) && r.Keys == d.Keys
    ensures forall n :: n in d && n != "0th" && n != "Exif" ==> r[n] == d[n]
    ensures forall t :: t in d["0th"].tags && t != TagDateTime ==>
      t in r["0th"].tags && r["0th"].tags[t] == d["0th"].tags[t]
    ensures forall t :: t in d["Exif"].tags && t != TagDateTimeOriginal && t != TagDateTimeDigitized ==>
      t in r["Exif"].tags && r["Exif"].tags[t] == d["Exif"].tags[t]
    ensures r["0th"].tags.Keys - {TagDateTime} == d["0th"].tags.Keys - {TagDateTime}
    ensures r["Exif"].tags.Keys - {TagDateTimeOriginal, TagDateTimeDigitized}
      == d["Exif"].tags.Keys - {TagDateTimeOriginal, TagDateTimeDigitized}
    ensures date == [] ==>
      TagDateTime !in r["0th"].tags && TagDateTimeOriginal !in r["Exif"].tags
      && TagDateTimeDigitized !in r["Exif"].tags
    ensures date != [] ==>
      && TagDateTime in r["0th"].tags && TagDateTimeOriginal in r["Exif"].tags
      && TagDateTimeDigitized in r["Exif"].tags
      && r["0th"].tags[TagDateTime] == Bytes(Encode(date))
      && r["Exif"].tags[TagDateTimeOriginal] == Bytes(Encode(date))
      && r["Exif"].tags[TagDateTimeDigitized] == Bytes(Encode(date))
  {
    if date == [] then
      Pop(Pop(Pop(d, "0th", TagDateTime), "Exif", TagDateTimeOriginal), "Exif", TagDateTimeDigitized)
    else
      var encoded := Bytes(Encode(date));
      Put(Put(Put(d, "0th", TagDateTime, encoded), "Exif", TagDateTimeOriginal, encoded),
          "Exif", TagDateTimeDigitized, encoded)
  }

  /** One GPS axis: the hemisphere reference and the DMS triple of the absolute value. */
  function WithAxis(d: ExifMap, refTag: int, valueTag: int, positive: string, negative: string,
                    edit: CoordEdit): (r: ExifMap)
    requires Editable(d) && refTag != valueTag
    ensures Editable(r) && r.Keys == d.Keys
    ensures forall n :: n in d && n != "GPS" ==> r[n] == d[n]
    ensures forall t :: t in d["GPS"].tags && t != refTag && t != valueTag ==>
      t in r["GPS"].tags && r["GPS"].tags[t] == d["GPS"].tags[t]
    ensures r["GPS"].tags.Keys - {refTag, valueTag} == d["GPS"].tags.Keys - {refTag, valueTag}
    ensures edit.Clear? ==> refTag !in r["GPS"].tags && valueTag !in r["GPS"].tags
    ensures edit.Degrees? ==>
      && refTag in r["GPS"].tags && valueTag in r["GPS"].tags
      && r["GPS"].tags[refTag] == Bytes(Encode(if edit.v >= 0.0 then positive else negative))
      && r["GPS"].tags[valueTag] == DmsValue(DecimalToDms(Abs(edit.v)))
  {
    match edit
    case Clear => Pop(Pop(d, "GPS", refTag), "GPS", valueTag)
    case Degrees(v) =>
      Put(Put(d, "GPS", refTag, Bytes(Encode(if v >= 0.0 then positive else negative))),
          "GPS", valueTag, DmsValue(DecimalToDms(Abs(v))))
  }

  /** _update_exif_latitude: reference "N" or "S" (tags 1 and 2). */
  function WithLatitude(d: ExifMap, edit: CoordEdit): ExifMap
    requires Editable(d)
  {
    WithAxis(d, TagGpsLatitudeRef, TagGpsLatitude, "N", "S", edit)
  }

  /** _update_exif_longitude: reference "E" or "W" (tags 3 and 4). */
  function WithLongitude(d: ExifMap, edit: CoordEdit): ExifMap
    requires Editable(d)
  {
    WithAxis(d, TagGpsLongitudeRef, TagGpsLongitude, "E", "W", edit)
  }

  /** Deleting a date that is not there changes nothing. */
  lemma DeleteAbsentDate(d: ExifMap)
    requires Editable(d)
    requires TagDateTime !in d["0th"].tags
    requires TagDateTimeOriginal !in d["Exif"].tags && TagDateTimeDigitized !in d["Exif"].tags
    ensures WithDate(d, []) == d
  {
    PopAbsent(d, "0th", TagDateTime);
    PopAbsent(d, "Exif", TagDateTimeOriginal);
    PopAbsent(d, "Exif", TagDateTimeDigitized);
  }

  /** Writing the same date twice is writing it once. */
  lemma WithDateIdempotent(d: ExifMap, date: string)
    requires Editable(d)
    ensures WithDate(WithDate(d, date), date) == WithDate(d, date)
  {
    var once := WithDate(d, date);
    var twice := WithDate(once, date);
    if date == [] {
      assert twice["0th"].tags == once["0th"].tags - {TagDateTime};
      assert twice["0th"].tags == once["0th"].tags;
    } else {
      var encoded := Bytes(Encode(date));
      assert twice["0th"].tags == once["0th"].tags[TagDateTime := encoded];
      assert twice["0th"].tags == once["0th"].tags;
    }
    assert twice["Exif"].tags == once["Exif"].tags;
  }

  /** The base dictionary: the loaded one, or three empty sections. */
  function Base(loaded: Option<ExifMap>): ExifMap
  {
    if loaded.Some? then loaded.value else EmptyExif
  }

  predicate LoadedOk(loaded: Option<ExifMap>)
  {
    loaded.Some? ==> Editable(loaded.value)
  }

  /** The edits of _update_exif_metadata that are not None, in order, before the
      normalisation. */
  function Applied(loaded: Option<ExifMap>, date: Option<string>, lat: Option<CoordEdit>,
                   lon: Option<CoordEdit>): (r: ExifMap)
    requires LoadedOk(loaded)
    ensures Editable(r)
  {
    var d0 := Base(loaded);
    var d1 := if date.Some? then WithDate(d0, date.value) else d0;
    var d2 := if lat.Some? then WithLatitude(d1, lat.value) else d1;
    if lon.Some? then WithLongitude(d2, lon.value) else d2
  }

  /** _update_exif_metadata: the edits that are not None, then the normalisation. */
  function Edited(loaded: Option<ExifMap>, date: Option<string>, lat: Option<CoordEdit>,
                  lon: Option<CoordEdit>): (r: ExifMap)
    requires LoadedOk(loaded)
    ensures Editable(r)
  {
    var d := Applied(loaded, date, lat, lon);
    CleanedKeys(d);
    Cleaned(d)
  }

  // ---------------------------------------------------------------------------
  // The in-place steps

  method UpdateExifDate(d: ExifDict, date: string)
    requires Editable(d.sections)
    modifies d
    ensures d.sections == WithDate(old(d.sections), date)
  {
    if date == [] {
      d.Remove("0th", TagDateTime);
      d.Remove("Exif", TagDateTimeOriginal);
      d.Remove("Exif", TagDateTimeDigitized);
      return;
    }
    var encoded := Bytes(Encode(date));
    d.Set("0th", TagDateTime, encoded);
    d.Set("Exif", TagDateTimeOriginal, encoded);
    d.Set("Exif", TagDateTimeDigitized, encoded);
  }

  method UpdateExifLatitude(d: ExifDict, latitude: CoordEdit)
    requires Editable(d.sections)
    modifies d
    ensures d.sections == WithLatitude(old(d.sections), latitude)
  {
    if latitude.Clear? {
      d.Remove("GPS", TagGpsLatitudeRef);
      d.Remove("GPS", TagGpsLatitude);
      return;
    }
    d.Set("GPS", TagGpsLatitudeRef, Bytes(Encode(if latitude.v >= 0.0 then "N" else "S")));
    d.Set("GPS", TagGpsLatitude, DmsValue(DecimalToDms(Abs(latitude.v))));
  }

  method UpdateExifLongitude(d: ExifDict, longitude: CoordEdit)
    requires Editable(d.sections)
    modifies d
    ensures d.sections == WithLongitude(old(d.sections), longitude)
  {
    if longitude.Clear? {
      d.Remove("GPS", TagGpsLongitudeRef);
      d.Remove("GPS", TagGpsLongitude);
      return;
    }
    d.Set("GPS", TagGpsLongitudeRef, Bytes(Encode(if longitude.v >= 0.0 then "E" else "W")));
    d.Set("GPS", TagGpsLongitude, DmsValue(DecimalToDms(Abs(longitude.v))));
  }

  /** The list branch of _clean_metadata: a new list built element by element. */
  method CleanList(items: seq<Value>) returns (r: seq<Value>)
    ensures List(r) == CleanValue(List(items))
  {
    r := [];
    var i := 0;
    while i < |items|
      invariant 0 <= i <= |items| && |r| == i
      invariant forall k :: 0 <= k < i ==> r[k] == CleanElement(items[k])
    {
      var v := items[i];
      if v.Int? {
        r := r + [Tuple([v, Int(1)])];
      } else if v.Tuple? {
        r := r + [if |v.items| == 1 then Tuple([v.items[0], Int(1)]) else v];
      } else {
        r := r + [v];
      }
      i := i + 1;
    }
  }

  /** One tag dictionary of _clean_metadata, rewritten tag by tag over a snapshot of its
      items. */
  method CleanTags(ifd: map<int, Value>) returns (r: map<int, Value>)
    ensures Tags(r) == CleanSection(Tags(ifd))
  {
    r := ifd;
    var pending := ifd.Items;
    while pending != {}
      invariant pending <= ifd.Items && r.Keys == ifd.Keys
      invariant forall t :: t in ifd ==>
        r[t] == (if (t, ifd[t]) in pending then ifd[t] else CleanValue(ifd[t]))
      decreases |pending|
    {
      var item :| item in pending;
      var (tag, value) := item;
      if value.Int? {
        r := r[tag := Tuple([value, Int(1)])];
      } else if value.Tuple? && |value.items| == 1 {
        r := r[tag := Tuple([value.items[0], Int(1)])];
      } else if value.Str? {
        r := r[tag := Bytes(Encode(value.s))];
      } else if value.List? {
        var cleaned := CleanList(value.items);
        r := r[tag := List(cleaned)];
      }
      pending := pending - {item};
    }
    assert forall t :: t in ifd ==> r[t] == CleanValue(ifd[t]);
    assert r == map t | t in ifd :: CleanValue(ifd[t]);
  }

  /** _clean_metadata: every tag section cleaned in place, then the MakerNote dropped from
      "Exif". */
  method CleanMetadata(d: ExifDict)
    requires DictOrAbsent(d.sections, "Exif")
    modifies d
    ensures d.sections == Cleaned(old(d.sections))
  {
    ghost var start := d.sections;
    var pending := d.sections.Keys;
    while pending != {}
      invariant pending <= start.Keys && d.sections.Keys == start.Keys
      invariant forall n :: n in start ==> d.sections[n] == (if n in pending then start[n] else CleanSection(start[n]))
      decreases |pending|
    {
      var n :| n in pending;
      var section := d.sections[n];
      if section.Tags? {
        var tags := CleanTags(section.tags);
        d.sections := d.sections[n := Tags(tags)];
      }
      pending := pending - {n};
    }
    assert d.sections == map n | n in start :: CleanSection(start[n]);
    if "Exif" in d.sections {
      d.sections := d.sections["Exif" := Tags(d.sections["Exif"].tags - {TagMakerNote})];
    }
  }

  /** _update_exif_metadata: start from the loaded dictionary (or three empty sections),
      apply the edits that are present, clean. */
  method UpdateExifMetadata(loaded: Option<ExifMap>, date: Option<string>,
                            latitude: Option<CoordEdit>, longitude: Option<CoordEdit>)
    returns (r: ExifMap)
    requires LoadedOk(loaded)
    ensures r == Edited(loaded, date, latitude, longitude)
  {
    var d := new ExifDict(Base(loaded));
    if date.Some? {
      UpdateExifDate(d, date.value);
    }
    if latitude.Some? {
      UpdateExifLatitude(d, latitude.value);
    }
    if longitude.Some? {
      UpdateExifLongitude(d, longitude.value);
    }
    CleanMetadata(d);
    r := d.sections;
  }

  // ---------------------------------------------------------------------------
  // Choosing the final path

  /** The characters the strict file-name filter keeps. */
  predicate Keep(c: char, isAlnum: char -> bool)
  {
    isAlnum(c) || c == ' ' || c == '_' || c == '-'
  }

  function Filter(s: string, isAlnum: char -> bool): (r: string)
    ensures |r| <= |s|
    ensures forall i :: 0 <= i < |r| ==> Keep(r[i], isAlnum)
    ensures (forall i :: 0 <= i < |s| ==> Keep(s[i], isAlnum)) ==> r == s
    decreases |s|
  {
    if s == [] then []
    else if Keep(s[0], isAlnum) then [s[0]] + Filter(s[1..], isAlnum)
    else Filter(s[1..], isAlnum)
  }

  /** The strict file name: kept characters only, trailing whitespace removed. */
  function SafeName(name: string, isAlnum: char -> bool): (r: string)
    ensures forall i :: 0 <= i < |r| ==> Keep(r[i], isAlnum)
    ensures r == [] || !IsSpace(r[|r| - 1])
  {
    RStrip(Filter(name, isAlnum))
  }

  /** The final path as save_exif_and_rename computes it. */
  function FinalPathAsWritten(newPath: Option<string>, name: string, currentPath: string,
                              isAlnum: char -> bool): (r: string)
    ensures newPath.Some? && newPath.value != [] ==> r == newPath.value
    ensures (newPath.None? || newPath.value == []) && name == [] ==> r == currentPath
  {
    if newPath.Some? && newPath.value != [] then newPath.value
    else if name != [] then
      PosixPath.Join(Dirname(currentPath), SafeName(name, isAlnum) + Splitext(currentPath).1)
    else currentPath
  }

  /** A name made only of filtered-out characters (such as "!!!" or "   ") is not empty,
      so the file is renamed, to its bare extension in its own directory. */
  lemma EmptySafeNameRenamesToExtension(name: string, currentPath: string, isAlnum: char -> bool)
    requires name != [] && SafeName(name, isAlnum) == []
    ensures FinalPathAsWritten(None, name, currentPath, isAlnum)
      == PosixPath.Join(Dirname(currentPath), Splitext(currentPath).1)
  {
    assert SafeName(name, isAlnum) + Splitext(currentPath).1 == Splitext(currentPath).1;
  }

  /** "!!!" is such a name. */
  lemma ExclamationsFilterToNothing(isAlnum: char -> bool)
    requires !isAlnum('!')
    ensures SafeName("!!!", isAlnum) == []
  {
    assert "!!!"[1..] == "!!" && "!!"[1..] == "!";
    assert Filter("!!!", isAlnum) == [];
  }

  /** The final path with the rename by name taken only when the strict name is not
      empty; otherwise the file keeps its path. */
  function FinalPath(newPath: Option<string>, name: string, currentPath: string,
                     isAlnum: char -> bool): (r: string)
    ensures newPath.Some? && newPath.value != [] ==> r == newPath.value
    ensures (newPath.None? || newPath.value == []) ==>
      (r == currentPath
       || (SafeName(name, isAlnum) != []
           && r == PosixPath.Join(Dirname(currentPath), SafeName(name, isAlnum) + Splitext(currentPath).1)))
    ensures (newPath.None? || newPath.value == []) && SafeName(name, isAlnum) == [] ==> r == currentPath
  {
    if newPath.Some? && newPath.value != [] then newPath.value
    else if SafeName(name, isAlnum) != [] then
      PosixPath.Join(Dirname(currentPath), SafeName(name, isAlnum) + Splitext(currentPath).1)
    else currentPath
  }

  /** The two agree whenever the strict name is not empty. */
  lemma FinalPathAgrees(newPath: Option<string>, name: string, currentPath: string,
                        isAlnum: char -> bool)
    requires SafeName(name, isAlnum) != [] || name == []
    ensures FinalPath(newPath, name, currentPath, isAlnum)
      == FinalPathAsWritten(newPath, name, currentPath, isAlnum)
  {
  }

  // ---------------------------------------------------------------------------
  // Saving

  /** What a save does to the file system, in order. */
  datatype Effect =
    | InsertExif(path: string, exif: ExifMap)
    | Rename(source: string, target: string)
    | Copy(source: string, target: string)

  datatype SaveResult =
    | NotSaved
    | DateError
    | CoordinateError
    | Saved(finalPath: string, effects: seq<Effect>)

  function RenameEffects(currentPath: string, finalPath: string): seq<Effect>
  {
    if finalPath != currentPath then [Rename(currentPath, finalPath)] else []
  }

  /** save_exif_and_rename. `hasImage` says whether an image object was given, `loaded` is
      the image's Exif block as piexif.load returns it (None when there is none). */
  method SaveExifAndRename(hasImage: bool, loaded: Option<ExifMap>, currentPath: string,
                           nameStr: Option<string>, dateStr: string, latitudeStr: string,
                           longitudeStr: string, newPath: Option<string>,
                           isAlnum: char -> bool)
    returns (r: SaveResult)
    requires LoadedOk(loaded)
    ensures !hasImage || currentPath == [] <==> r == NotSaved
    ensures hasImage && currentPath != [] ==>
      (r.DateError? <==> ParseDateToExif(dateStr).None?)
    ensures hasImage && currentPath != [] ==>
      (r.CoordinateError? <==>
        ParseDateToExif(dateStr).Some?
        && (ParseCoordinate(latitudeStr).None? || ParseCoordinate(longitudeStr).None?))
    ensures r.Saved? ==>
      && ParseDateToExif(dateStr).Some?
      && ParseCoordinate(latitudeStr).Some? && ParseCoordinate(longitudeStr).Some?
      && r.finalPath == FinalPathAsWritten(newPath, ParseName(nameStr), currentPath, isAlnum)
      && r.effects
         == [InsertExif(currentPath, Edited(loaded, ParseDateToExif(dateStr),
                                            ParseCoordinate(latitudeStr),
                                            ParseCoordinate(longitudeStr)))]
            + RenameEffects(currentPath, r.finalPath)
  {
    if !(hasImage && currentPath != []) {
      return NotSaved;
    }
    var name := ParseName(nameStr);
    var date := ParseDateToExif(dateStr);
    var latitude := ParseCoordinate(latitudeStr);
    var longitude := ParseCoordinate(longitudeStr);
    if date.None? {
      return DateError;
    }
    if latitude.None? || longitude.None? {
      return CoordinateError;
    }
    var exif := UpdateExifMetadata(loaded, date, latitude, longitude);
    var effects := [InsertExif(currentPath, exif)];
    var finalPath := FinalPathAsWritten(newPath, name, currentPath, isAlnum);
    if finalPath != currentPath {
      effects := effects + [Rename(currentPath, finalPath)];
    }
    return Saved(finalPath, effects);
  }
}
