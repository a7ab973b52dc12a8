/** What the readers of editor/exif_utils.py make of what the edit engine of
    editor/exif_editor_service.py writes: a coordinate comes back within half a step of the
    seconds field, a typed date comes back in the display format, a deleted date or axis
    reads as absent, and the camera name is left as it was. */
module RoundTrips {
  import opened Common
  import opened DateTime
  import opened SharedData
  import opened ExifData
  import opened ExifEditorService
  import opened ExifUtils

  /** A triple written by the edit engine passes the reader's check and reads back as the
      degrees it stands for. */
  lemma DmsValueReads(t: Dms)
    ensures ValidTriple(DmsValue(t))
    ensures TripleDegrees(DmsValue(t)) == DmsDegrees(t)
  {
    var v := DmsValue(t);
    assert CheckValidity(Some(v));
    assert Ratio(v.items[0]) == t.d as real;
    assert Ratio(v.items[1]) == t.m as real;
    assert Ratio(v.items[2]) == t.s as real / 10000.0;
  }

  /** A triple written by the edit engine is left alone by the cleaning. */
  lemma DmsValueClean(t: Dms)
    ensures CleanValue(DmsValue(t)) == DmsValue(t)
  {
    var v := DmsValue(t);
    assert CanonicalElement(v.items[0]) && CanonicalElement(v.items[1]) && CanonicalElement(v.items[2]);
    assert CanonicalValue(v);
    CleanValueCanonical(v);
  }

  /** Before cleaning, the latitude tags hold what the latitude edit wrote; the longitude
      edit leaves them alone. */
  lemma AppliedLatitude(loaded: Option<ExifMap>, date: Option<string>, lat: real, lon: real)
    requires LoadedOk(loaded)
    ensures var g := Applied(loaded, date, Some(Degrees(lat)), Some(Degrees(lon)))["GPS"].tags;
      && TagGpsLatitudeRef in g && g[TagGpsLatitudeRef] == Bytes(Encode(if lat >= 0.0 then "N" else "S"))
      && TagGpsLatitude in g && g[TagGpsLatitude] == DmsValue(DecimalToDms(Abs(lat)))
  {
    var d0 := Base(loaded);
    var d1 := if date.Some? then WithDate(d0, date.value) else d0;
    var d2 := WithLatitude(d1, Degrees(lat));
    var d3 := WithLongitude(d2, Degrees(lon));
    assert d3["GPS"].tags[TagGpsLatitudeRef] == d2["GPS"].tags[TagGpsLatitudeRef];
    assert d3["GPS"].tags[TagGpsLatitude] == d2["GPS"].tags[TagGpsLatitude];
  }

  /** Before cleaning, the longitude tags hold what the longitude edit wrote. */
  lemma AppliedLongitude(loaded: Option<ExifMap>, date: Option<string>, lat: real, lon: real)
    requires LoadedOk(loaded)
    ensures var g := Applied(loaded, date, Some(Degrees(lat)), Some(Degrees(lon)))["GPS"].tags;
      && TagGpsLongitudeRef in g && g[TagGpsLongitudeRef] == Bytes(Encode(if lon >= 0.0 then "E" else "W"))
      && TagGpsLongitude in g && g[TagGpsLongitude] == DmsValue(DecimalToDms(Abs(lon)))
  {
  }

  /** After the edits, the latitude tags hold the reference and the triple. */
  lemma EditedLatitude(loaded: Option<ExifMap>, date: Option<string>, lat: real, lon: real)
    requires LoadedOk(loaded)
    ensures var e := Edited(loaded, date, Some(Degrees(lat)), Some(Degrees(lon)));
      && Get(e, "GPS", TagGpsLatitudeRef) == Some(Bytes(Encode(if lat >= 0.0 then "N" else "S")))
      && Get(e, "GPS", TagGpsLatitude) == Some(DmsValue(DecimalToDms(Abs(lat))))
  {
    var d := Applied(loaded, date, Some(Degrees(lat)), Some(Degrees(lon)));
    AppliedLatitude(loaded, date, lat, lon);
    DmsValueClean(DecimalToDms(Abs(lat)));
    CleanedValues(d, "GPS", TagGpsLatitudeRef);
    CleanedValues(d, "GPS", TagGpsLatitude);
  }

  /** After the edits, the longitude tags hold the reference and the triple. */
  lemma EditedLongitude(loaded: Option<ExifMap>, date: Option<string>, lat: real, lon: real)
    requires LoadedOk(loaded)
    ensures var e := Edited(loaded, date, Some(Degrees(lat)), Some(Degrees(lon)));
      && Get(e, "GPS", TagGpsLongitudeRef) == Some(Bytes(Encode(if lon >= 0.0 then "E" else "W")))
      && Get(e, "GPS", TagGpsLongitude) == Some(DmsValue(DecimalToDms(Abs(lon))))
  {
    var d := Applied(loaded, date, Some(Degrees(lat)), Some(Degrees(lon)));
    AppliedLongitude(loaded, date, lat, lon);
    DmsValueClean(DecimalToDms(Abs(lon)));
    CleanedValues(d, "GPS", TagGpsLongitudeRef);
    CleanedValues(d, "GPS", TagGpsLongitude);
  }

  /** A signed reading of a triple written from |v|, with the reference that says whether v
      was negative, is within half a step of v. */
  lemma SignedReading(v: real, negative: string, positive: string)
    requires negative != positive
    ensures var t := DmsValue(DecimalToDms(Abs(v)));
      var text := DecodeIgnore(Encode(if v >= 0.0 then positive else negative));
      ValidTriple(t)
      && -HalfStep <= (if text == negative then -TripleDegrees(t) else TripleDegrees(t)) - v <= HalfStep
  {
    var t := DecimalToDms(Abs(v));
    DmsValueReads(t);
    DmsAccuracy(Abs(v));
    DecodeEncode(if v >= 0.0 then positive else negative);
  }

  /** Coordinates written by the edit engine are read back within 1/72,000,000 of a degree
      (half the resolution of the seconds field), with the sign the references carry. */
  lemma CoordinatesRoundTrip(loaded: Option<ExifMap>, date: Option<string>, lat: real, lon: real)
    requires LoadedOk(loaded)
    ensures var e := Edited(loaded, date, Some(Degrees(lat)), Some(Degrees(lon)));
      && GpsReadable(e) && GetGeotagging(e).Some?
      && -HalfStep <= GetGeotagging(e).value.0 - lat <= HalfStep
      && -HalfStep <= GetGeotagging(e).value.1 - lon <= HalfStep
  {
    var e := Edited(loaded, date, Some(Degrees(lat)), Some(Degrees(lon)));
    EditedLatitude(loaded, date, lat, lon);
    EditedLongitude(loaded, date, lat, lon);
    SignedReading(lat, "S", "N");
    SignedReading(lon, "W", "E");
    assert e["GPS"].tags != map[] by {
      assert TagGpsLatitude in e["GPS"].tags;
    }
  }

  /** Before cleaning, a cleared latitude stays cleared whatever the longitude edit does. */
  lemma AppliedClearedLatitude(loaded: Option<ExifMap>, date: Option<string>, lon: Option<CoordEdit>)
    requires LoadedOk(loaded)
    ensures TagGpsLatitude !in Applied(loaded, date, Some(Clear), lon)["GPS"].tags
  {
    var d0 := Base(loaded);
    var d1 := if date.Some? then WithDate(d0, date.value) else d0;
    var d2 := WithLatitude(d1, Clear);
    if lon.Some? {
      var d3 := WithLongitude(d2, lon.value);
      assert TagGpsLatitude !in d2["GPS"].tags.Keys - {TagGpsLongitudeRef, TagGpsLongitude};
    }
  }

  /** Clearing the latitude leaves no coordinates to read. */
  lemma ClearedLatitudeReadsNothing(loaded: Option<ExifMap>, date: Option<string>, lon: Option<CoordEdit>)
    requires LoadedOk(loaded)
    requires GpsReadable(Edited(loaded, date, Some(Clear), lon))
    ensures GetGeotagging(Edited(loaded, date, Some(Clear), lon)).None?
  {
    AppliedClearedLatitude(loaded, date, lon);
    CleanedKeys(Applied(loaded, date, Some(Clear), lon));
  }

  /** Before cleaning, a cleared longitude is absent. */
  lemma AppliedClearedLongitude(loaded: Option<ExifMap>, date: Option<string>, lat: Option<CoordEdit>)
    requires LoadedOk(loaded)
    ensures TagGpsLongitude !in Applied(loaded, date, lat, Some(Clear))["GPS"].tags
  {
  }

  /** Clearing the longitude leaves no coordinates to read. */
  lemma ClearedLongitudeReadsNothing(loaded: Option<ExifMap>, date: Option<string>, lat: Option<CoordEdit>)
    requires LoadedOk(loaded)
    requires GpsReadable(Edited(loaded, date, lat, Some(Clear)))
    ensures GetGeotagging(Edited(loaded, date, lat, Some(Clear))).None?
  {
    AppliedClearedLongitude(loaded, date, lat);
    CleanedKeys(Applied(loaded, date, lat, Some(Clear)));
  }

  /** The "Exif" and "0th" sections after the edits, before cleaning, are those the date
      edit left. */
  lemma DateSections(loaded: Option<ExifMap>, date: Option<string>, lat: Option<CoordEdit>,
                     lon: Option<CoordEdit>)
    requires LoadedOk(loaded)
    ensures var d0 := Base(loaded);
      var d1 := if date.Some? then WithDate(d0, date.value) else d0;
      var d := Applied(loaded, date, lat, lon);
      d["Exif"] == d1["Exif"] && d["0th"] == d1["0th"]
  {
  }

  /** A tag holding the storage text of a date reads as that date in the display format. */
  lemma TryStoredDate(e: ExifMap, tag: int, section: string, f: Fields)
    requires Valid(f) && DictOrAbsent(e, section)
    requires Simple(ExifDateFormat) && Simple(DisplayedDateFormat)
    requires Get(e, section, tag) == Some(Bytes(Encode(Strftime(f, ExifDateFormat))))
    ensures TryDate(e, tag, section) == Some(Strftime(f, DisplayedDateFormat))
  {
    var text := Strftime(f, ExifDateFormat);
    StoredTextShape(f);
    StorageRoundTrip(f);
    DecodeEncode(text);
    assert Truthy(Bytes(Encode(text)));
  }

  /** Before the normalisation, DateTimeOriginal holds the bytes of the written date. */
  lemma AppliedDateTag(loaded: Option<ExifMap>, text: string, lat: Option<CoordEdit>, lon: Option<CoordEdit>)
    requires LoadedOk(loaded) && text != []
    ensures var d := Applied(loaded, Some(text), lat, lon);
      TagDateTimeOriginal in d["Exif"].tags && d["Exif"].tags[TagDateTimeOriginal] == Bytes(Encode(text))
  {
    DateSections(loaded, Some(text), lat, lon);
  }

  /** After a date is written, DateTimeOriginal holds its bytes. */
  lemma EditedDateTag(loaded: Option<ExifMap>, text: string, lat: Option<CoordEdit>, lon: Option<CoordEdit>)
    requires LoadedOk(loaded) && text != []
    ensures Get(Edited(loaded, Some(text), lat, lon), "Exif", TagDateTimeOriginal) == Some(Bytes(Encode(text)))
  {
    var d := Applied(loaded, Some(text), lat, lon);
    AppliedDateTag(loaded, text, lat, lon);
    CleanedValues(d, "Exif", TagDateTimeOriginal);
  }

  /** A typed date that the edit engine accepts is shown back by the reader as the date it
      parsed to, in the display format. */
  lemma DateRoundTrip(loaded: Option<ExifMap>, s: string, lat: Option<CoordEdit>, lon: Option<CoordEdit>)
    requires LoadedOk(loaded) && s != [] && ParseDateToExif(s).Some?
    ensures var f := ParseFirst(s, AcceptedDateFormats).value;
      var e := Edited(loaded, ParseDateToExif(s), lat, lon);
      DatesReadable(e) && Simple(DisplayedDateFormat)
      && GetDateTaken(Some(e)) == Some(Strftime(f, DisplayedDateFormat))
  {
    var f := ParseFirst(s, AcceptedDateFormats).value;
    var text := ParseDateToExif(s).value;
    FullFormatsApply(f);
    assert text == Strftime(f, ExifDateFormat);
    var e := Edited(loaded, Some(text), lat, lon);
    EditedDateTag(loaded, text, lat, lon);
    TryStoredDate(e, TagDateTimeOriginal, "Exif", f);
    DateTakenPriority(e);
  }

  /** The edits keep every "0th" tag other than DateTime, cleaned. */
  lemma EditedKeeps0th(d: ExifMap, date: Option<string>, lat: Option<CoordEdit>, lon: Option<CoordEdit>,
                       tag: int)
    requires Editable(d) && tag != TagDateTime && tag in d["0th"].tags
    ensures Get(Edited(Some(d), date, lat, lon), "0th", tag) == Some(CleanValue(d["0th"].tags[tag]))
  {
    var a := Applied(Some(d), date, lat, lon);
    DateSections(Some(d), date, lat, lon);
    CleanedValues(a, "0th", tag);
  }

  /** The edits add no "0th" tag other than DateTime. */
  lemma EditedAddsNo0th(d: ExifMap, date: Option<string>, lat: Option<CoordEdit>, lon: Option<CoordEdit>,
                        tag: int)
    requires Editable(d) && tag != TagDateTime && tag !in d["0th"].tags
    ensures Get(Edited(Some(d), date, lat, lon), "0th", tag).None?
  {
    var a := Applied(Some(d), date, lat, lon);
    DateSections(Some(d), date, lat, lon);
    CleanedKeys(a);
  }

  /** A deleted date reads as no date at all. */
  lemma DeletedDateReadsNothing(loaded: Option<ExifMap>, lat: Option<CoordEdit>, lon: Option<CoordEdit>)
    requires LoadedOk(loaded)
    ensures DatesReadable(Edited(loaded, Some([]), lat, lon))
    ensures GetDateTaken(Some(Edited(loaded, Some([]), lat, lon))).None?
  {
    var d := Applied(loaded, Some([]), lat, lon);
    DateSections(loaded, Some([]), lat, lon);
    CleanedKeys(d);
    var e := Edited(loaded, Some([]), lat, lon);
    assert Get(e, "Exif", TagDateTimeOriginal).None?;
    assert Get(e, "Exif", TagDateTimeDigitized).None?;
    assert Get(e, "0th", TagDateTime).None?;
    DateTakenPriority(e);
  }

  /** The camera tags come out of an edit as they went in. */
  lemma DeviceTagKept(d: ExifMap, date: Option<string>, lat: Option<CoordEdit>, lon: Option<CoordEdit>,
                      tag: int)
    requires Editable(d) && DeviceReadable(d) && (tag == TagMake || tag == TagModel)
    ensures Get(Edited(Some(d), date, lat, lon), "0th", tag) == Get(d, "0th", tag)
  {
    if tag in d["0th"].tags {
      EditedKeeps0th(d, date, lat, lon, tag);
    } else {
      EditedAddsNo0th(d, date, lat, lon, tag);
    }
  }

  /** Editing the date or the coordinates leaves the camera name alone. */
  lemma DeviceUnchanged(d: ExifMap, date: Option<string>, lat: Option<CoordEdit>, lon: Option<CoordEdit>)
    requires Editable(d) && DeviceReadable(d)
    ensures DeviceReadable(Edited(Some(d), date, lat, lon))
    ensures GetDevice(Some(Edited(Some(d), date, lat, lon))) == GetDevice(Some(d))
  {
    var e := Edited(Some(d), date, lat, lon);
    DeviceTagKept(d, date, lat, lon, TagMake);
    DeviceTagKept(d, date, lat, lon, TagModel);
    assert TagText(e, TagMake) == TagText(d, TagMake);
    assert TagText(e, TagModel) == TagText(d, TagModel);
  }
}
