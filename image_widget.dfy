/** The older Tk image widget (editor/image_widget.py), which carries its own copy of the
    edit engine. Its coordinate parser, degree conversion, tag updates and normaliser do
    what the service's do (ExifEditorService); what differs is the date parser, which
    has no deletion sentinel, and save_data, which skips a field that does not parse
    instead of refusing to save. */
module ImageWidget {
  import opened Common
  import opened PosixPath
  import opened DateTime
  import opened SharedData
  import opened ExifData
  import opened ExifEditorService

  /** _parse_date: the first accepted format that parses the text decides the date, written
      in the storage format; None otherwise, the empty text included. */
  function ParseDate(s: string): (r: Option<string>)
    ensures r.Some? <==> ParseFirst(s, AcceptedDateFormats).Some?
    ensures r.Some? ==> r.value != []
  {
    match ParseFirst(s, AcceptedDateFormats)
    case None => None
    case Some(f) =>
      StoredTextShape(f);
      Some(Strftime(f, ExifDateFormat))
  }

  /** A blank date is not parsed: the legacy widget has no way to delete a date. */
  lemma BlankDateUnparsed(s: string)
    requires Strip(s) == []
    ensures ParseDate(s).None?
  {
    BlankTextUnparsed(s);
  }

  /** On any other text the two date parsers agree. */
  lemma ParseDateAgrees(s: string)
    requires s != []
    ensures ParseDate(s) == ParseDateToExif(s)
  {
  }

  /** Whatever is typed, the dates already in the file survive a legacy save: the parsed
      date is never the deletion sentinel. */
  lemma LegacyKeepsDates(d: ExifMap, s: string, lat: Option<CoordEdit>, lon: Option<CoordEdit>)
    requires Editable(d)
    ensures var e := Edited(Some(d), ParseDate(s), lat, lon);
      && (TagDateTime in d["0th"].tags ==> TagDateTime in e["0th"].tags)
      && (TagDateTimeOriginal in d["Exif"].tags ==> TagDateTimeOriginal in e["Exif"].tags)
      && (TagDateTimeDigitized in d["Exif"].tags ==> TagDateTimeDigitized in e["Exif"].tags)
  {
    var date := ParseDate(s);
    var d1 := if date.Some? then WithDate(d, date.value) else d;
    var d2 := if lat.Some? then WithLatitude(d1, lat.value) else d1;
    var d3 := if lon.Some? then WithLongitude(d2, lon.value) else d2;
    assert Editable(d3) && d3["Exif"] == d1["Exif"] && d3["0th"] == d1["0th"];
    CleanedKeys(d3);
  }

  /** What save_data does: nothing, or write a dictionary into a file. */
  datatype SaveOutcome = Skipped | Written(path: string, exif: ExifMap)

  /** save_data: without both an image and a path nothing happens; otherwise the date and
      coordinates are parsed (a field that does not parse is left alone), the dictionary is
      edited and cleaned, and it is written to `newPath` when one is given, else to the
      image's own path. `loaded` is the image's Exif block as piexif.load returns it. */
  method SaveData(img: ImageData, loaded: Option<ExifMap>, dateStr: string, latitudeStr: string,
                  longitudeStr: string, newPath: Option<string>)
    returns (r: SaveOutcome)
    requires LoadedOk(loaded)
    ensures img.pilImage.None? || img.imagePath.None? || img.imagePath.value == [] ==> r == Skipped
    ensures img.pilImage.Some? && img.imagePath.Some? && img.imagePath.value != [] ==>
      && r.Written?
      && r.path == (if newPath.Some? && newPath.value != [] then newPath.value else img.imagePath.value)
      && r.exif == Edited(loaded, ParseDate(dateStr), ParseCoordinate(latitudeStr),
                          ParseCoordinate(longitudeStr))
  {
    if img.pilImage.None? || img.imagePath.None? || img.imagePath.value == [] {
      return Skipped;
    }
    var path := img.imagePath.value;
    var date := ParseDate(dateStr);
    var latitude := ParseCoordinate(latitudeStr);
    var longitude := ParseCoordinate(longitudeStr);
    var exif := UpdateExifMetadata(loaded, date, latitude, longitude);
    if newPath.Some? && newPath.value != [] {
      path := newPath.value;
    }
    return Written(path, exif);
  }

  /** save: saves when an image is open; the caller reloads the image after a save. */
  method Save(img: ImageData, loaded: Option<ExifMap>, dateStr: string, latitudeStr: string,
              longitudeStr: string)
    returns (r: SaveOutcome)
    requires LoadedOk(loaded)
    ensures !img.imageOpen ==> r == Skipped
    ensures img.imageOpen && img.pilImage.Some? && img.imagePath.Some? && img.imagePath.value != [] ==>
      r.Written?
    ensures r.Written? ==>
      && img.imageOpen && img.imagePath.Some? && r.path == img.imagePath.value
      && r.exif == Edited(loaded, ParseDate(dateStr), ParseCoordinate(latitudeStr),
                          ParseCoordinate(longitudeStr))
  {
    r := Skipped;
    if img.imageOpen {
      r := SaveData(img, loaded, dateStr, latitudeStr, longitudeStr, None);
    }
  }

  /** save_as: when an image is open and a target was chosen in the dialog, the file is
      copied there and the edits are written into the copy; the original is not written. */
  method SaveAs(img: ImageData, loaded: Option<ExifMap>, dateStr: string, latitudeStr: string,
                longitudeStr: string, chosen: string)
    returns (effects: seq<Effect>)
    requires LoadedOk(loaded)
    requires img.imageOpen ==> img.imagePath.Some?
    ensures !img.imageOpen || chosen == [] ==> effects == []
    ensures img.imageOpen && chosen != [] && img.pilImage.Some? && img.imagePath.value != [] ==>
      effects == [Copy(img.imagePath.value, chosen),
                   InsertExif(chosen, Edited(loaded, ParseDate(dateStr), ParseCoordinate(latitudeStr),
                                             ParseCoordinate(longitudeStr)))]
    ensures forall k :: 0 <= k < |effects| && effects[k].InsertExif? ==> effects[k].path == chosen
  {
    effects := [];
    if !img.imageOpen || chosen == [] {
      return;
    }
    var copy := Copy(img.imagePath.value, chosen);
    var saved := SaveData(img, loaded, dateStr, latitudeStr, longitudeStr, Some(chosen));
    if saved.Written? {
      effects := [copy, InsertExif(saved.path, saved.exif)];
    } else {
      effects := [copy];
    }
  }

  /** close_image: the open-image record goes back to its initial state. */
  method CloseImage(img: ImageData)
    modifies img
    ensures img.Closed()
  {
    img.imagePath := None;
    img.pilImage := None;
    img.tkImage := None;
    img.imageOpen := false;
  }
}
