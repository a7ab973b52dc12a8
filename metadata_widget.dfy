/** The module-level readers and the two validity checks of the older Tk metadata widget
    (editor/metadata_widget.py). They predate the readers of editor/exif_utils.py
    (ExifUtils) and differ from them in what they tolerate: an unreadable tag makes them
    raise instead of being skipped. A reader that may raise returns an Outcome. */
module MetadataWidget {
  import opened Common
  import opened PosixPath
  import opened PyFloat
  import opened DateTime
  import opened SharedData
  import opened ExifData
  import opened ExifEditorService
  import ExifUtils

  // ---------------------------------------------------------------------------
  // get_name

  /** get_name: the last "/"-separated piece of the path without its last extension. */
  function GetName(path: string): string
  {
    var pieces := Split(path, '/');
    ExifUtils.StemOf(pieces[|pieces| - 1])
  }

  /** Splitting on "/" finds the same base name as posixpath.basename, so the two readers
      of the name agree. */
  lemma GetNameAgrees(path: string)
    ensures GetName(path) == ExifUtils.GetName(path)
  {
    BasenameIsLastPiece(path);
  }

  // ---------------------------------------------------------------------------
  // get_device

  /** get_device: None when loading failed or there is no "0th" section; otherwise the
      tidied make and model merged without a final strip. */
  function GetDevice(exif: Option<ExifMap>): (r: Option<string>)
    requires exif.Some? ==> ExifUtils.DeviceReadable(exif.value)
    ensures r.Some? <==> exif.Some? && "0th" in exif.value
  {
    if exif.None? || "0th" !in exif.value then None
    else Some(Merged(ExifUtils.Make(exif.value), ExifUtils.Model(exif.value)))
  }

  /** The model when it starts with the make (ignoring case), else make, one space, model. */
  function Merged(make: string, model: string): string
  {
    if ExifUtils.StartsWith(Lower(model), Lower(make)) then model else make + " " + model
  }

  /** The older camera name is the newer one before its final strip; where the newer
      reader finds no camera, the older one gives the empty name. */
  lemma MergedUnstripped(make: string, model: string)
    requires Normalised(make) && Normalised(model)
    ensures ExifUtils.Device(make, model).None? ==> Merged(make, model) == []
    ensures ExifUtils.Device(make, model).Some? ==>
      Strip(Merged(make, model)) == ExifUtils.Device(make, model).value
  {
    if ExifUtils.StartsWith(Lower(model), Lower(make)) {
      StripTrimmed(model);
    }
  }

  /** The same, for the readers themselves. */
  lemma LegacyDeviceUnstripped(d: ExifMap)
    requires ExifUtils.DeviceReadable(d) && "0th" in d
    ensures ExifUtils.GetDevice(Some(d)).None? ==> GetDevice(Some(d)) == Some([])
    ensures ExifUtils.GetDevice(Some(d)).Some? ==>
      Strip(GetDevice(Some(d)).value) == ExifUtils.GetDevice(Some(d)).value
  {
    MergedUnstripped(ExifUtils.Make(d), ExifUtils.Model(d));
  }

  /** With a make and no model the older name ends in a space. */
  lemma MergedTrailingSpace(make: string)
    requires make != []
    ensures Merged(make, []) == make + " "
  {
    assert |Lower(make)| > |Lower([])|;
  }

  // ---------------------------------------------------------------------------
  // get_geotagging

  predicate Indexable(v: Value)
  {
    v.Tuple? || v.List?
  }

  /** `p[0] / p[1]` can be evaluated: two integers at the front, the second not 0. */
  predicate Divisible(p: Value)
  {
    Indexable(p) && |p.items| >= 2 && p.items[0].Int? && p.items[1].Int? && p.items[1].i != 0
  }

  /** Every index and division of the degree formula can be evaluated on `v`. */
  predicate Computable(v: Value)
  {
    Indexable(v) && |v.items| >= 3 && forall k :: 0 <= k < 3 ==> Divisible(v.items[k])
  }

  function Quotient(p: Value): real
    requires Divisible(p)
  {
    p.items[0].i as real / p.items[1].i as real
  }

  /** Degrees + minutes / 60 + seconds / 3600 from the first three entries. */
  function Degrees(v: Value): real
    requires Computable(v)
  {
    Quotient(v.items[0]) + Quotient(v.items[1]) / 60.0 + Quotient(v.items[2]) / 3600.0
  }

  /** The value of the tag is present and truthy. */
  predicate Present(d: ExifMap, tag: int)
    requires DictOrAbsent(d, "GPS")
  {
    Get(d, "GPS", tag).Some? && Truthy(Get(d, "GPS", tag).value)
  }

  /** `gps.get(tag).decode()` succeeds: the tag holds bytes that are well-formed UTF-8. */
  predicate RefReadable(d: ExifMap, tag: int)
    requires DictOrAbsent(d, "GPS")
  {
    Get(d, "GPS", tag).Some? && Get(d, "GPS", tag).value.Bytes?
      && DecodeStrict(Get(d, "GPS", tag).value.b).Some?
  }

  function RefOf(d: ExifMap, tag: int): string
    requires DictOrAbsent(d, "GPS") && RefReadable(d, tag)
  {
    DecodeStrict(Get(d, "GPS", tag).value.b).value
  }

  /** get_geotagging: no coordinates unless there is a GPS section with both triples
      present; then it raises unless both triples can be computed and both reference tags
      decode; otherwise each value is the triple's degrees, negated only for "S" (or "W"). */
  function GetGeotagging(d: ExifMap): (r: Outcome<Option<(real, real)>>)
    requires DictOrAbsent(d, "GPS")
    ensures r == Returns(None) <==>
      !("GPS" in d && Present(d, TagGpsLatitude) && Present(d, TagGpsLongitude))
    ensures r.Raises? <==>
      && "GPS" in d && Present(d, TagGpsLatitude) && Present(d, TagGpsLongitude)
      && !(Computable(Get(d, "GPS", TagGpsLatitude).value) && Computable(Get(d, "GPS", TagGpsLongitude).value)
           && RefReadable(d, TagGpsLatitudeRef) && RefReadable(d, TagGpsLongitudeRef))
    ensures r.Returns? && r.value.Some? ==>
      var lat := Degrees(Get(d, "GPS", TagGpsLatitude).value);
      var lon := Degrees(Get(d, "GPS", TagGpsLongitude).value);
      && (RefOf(d, TagGpsLatitudeRef) == "S" ==> r.value.value.0 == -lat)
      && (RefOf(d, TagGpsLatitudeRef) != "S" ==> r.value.value.0 == lat)
      && (RefOf(d, TagGpsLongitudeRef) == "W" ==> r.value.value.1 == -lon)
      && (RefOf(d, TagGpsLongitudeRef) != "W" ==> r.value.value.1 == lon)
  {
    if !("GPS" in d && Present(d, TagGpsLatitude) && Present(d, TagGpsLongitude)) then Returns(None)
    else
      var lat := Get(d, "GPS", TagGpsLatitude).value;
      var lon := Get(d, "GPS", TagGpsLongitude).value;
      if !(Computable(lat) && Computable(lon)) then Raises
      else if !(RefReadable(d, TagGpsLatitudeRef) && RefReadable(d, TagGpsLongitudeRef)) then Raises
      else
        var latitude := Degrees(lat);
        var longitude := Degrees(lon);
        Returns(Some((if RefOf(d, TagGpsLatitudeRef) == "S" then -latitude else latitude,
                      if RefOf(d, TagGpsLongitudeRef) == "W" then -longitude else longitude)))
  }

  /** A triple that passes _check_validity can be computed here, to the same degrees. */
  lemma ValidTripleComputable(v: Value)
    requires ExifUtils.ValidTriple(v)
    ensures Computable(v) && Degrees(v) == ExifUtils.TripleDegrees(v)
  {
    assert forall k :: 0 <= k < 3 ==> Quotient(v.items[k]) == ExifUtils.Ratio(v.items[k]);
  }

  /** Where the newer reader finds coordinates and both reference tags decode, the older
      reader finds the same coordinates. */
  lemma LegacyGeotaggingAgrees(d: ExifMap)
    requires ExifUtils.GpsReadable(d) && ExifUtils.GetGeotagging(d).Some?
    requires RefReadable(d, TagGpsLatitudeRef) && RefReadable(d, TagGpsLongitudeRef)
    ensures GetGeotagging(d) == Returns(ExifUtils.GetGeotagging(d))
  {
    var lat := Get(d, "GPS", TagGpsLatitude).value;
    var lon := Get(d, "GPS", TagGpsLongitude).value;
    ValidTripleComputable(lat);
    ValidTripleComputable(lon);
    DecodeStrictIgnore(Get(d, "GPS", TagGpsLatitudeRef).value.b);
    DecodeStrictIgnore(Get(d, "GPS", TagGpsLongitudeRef).value.b);
    assert ExifUtils.RefText(d, TagGpsLatitudeRef, "N") == RefOf(d, TagGpsLatitudeRef);
    assert ExifUtils.RefText(d, TagGpsLongitudeRef, "E") == RefOf(d, TagGpsLongitudeRef);
  }

  /** A latitude reference that is missing makes the older reader raise, where the newer
      one reads the latitude as north. */
  lemma LegacyMissingRefRaises(d: ExifMap)
    requires ExifUtils.GpsReadable(d) && ExifUtils.GetGeotagging(d).Some?
    requires Get(d, "GPS", TagGpsLatitudeRef).None?
    ensures GetGeotagging(d).Raises?
  {
    ValidTripleComputable(Get(d, "GPS", TagGpsLatitude).value);
    ValidTripleComputable(Get(d, "GPS", TagGpsLongitude).value);
  }

  /** A zero denominator makes the older reader raise, where the newer one rejects the
      triple and reads no coordinates. */
  lemma ZeroDenominatorRaises()
    ensures var pair := Tuple([Int(1), Int(0)]);
      var triple := List([pair, pair, pair]);
      var d := map["GPS" := Tags(map[TagGpsLatitude := triple, TagGpsLongitude := triple])];
      && GetGeotagging(d).Raises?
      && ExifUtils.GpsReadable(d) && ExifUtils.GetGeotagging(d).None?
  {
    var pair := Tuple([Int(1), Int(0)]);
    var triple := List([pair, pair, pair]);
    var d := map["GPS" := Tags(map[TagGpsLatitude := triple, TagGpsLongitude := triple])];
    assert !Divisible(triple.items[0]);
    assert !ExifUtils.CheckValidity(Some(triple)) by {
      assert triple.items[0].items[1] == Int(0);
    }
  }

  // ---------------------------------------------------------------------------
  // get_date_taken

  /** get_date_taken: only DateTime of "0th" is read. Nothing when loading failed or the
      tag is empty; a value that is not UTF-8 bytes in the storage format raises;
      otherwise the date in the display format. */
  function GetDateTaken(exif: Option<ExifMap>): (r: Outcome<Option<string>>)
    requires exif.Some? ==> DictOrAbsent(exif.value, "0th")
    ensures exif.None? ==> r == Returns(None)
    ensures exif.Some? ==>
      var v := Get(exif.value, "0th", TagDateTime);
      && (r == Returns(None) <==> v.None? || !Truthy(v.value))
      && (r.Raises? <==> v.Some? && Truthy(v.value) && ExifUtils.TryDate(exif.value, TagDateTime, "0th").None?)
      && (r.Returns? && r.value.Some? ==> r.value == ExifUtils.TryDate(exif.value, TagDateTime, "0th"))
    ensures r.Returns? && r.value.Some? ==> DateValid(r.value.value)
  {
    if exif.None? then Returns(None)
    else
      match Get(exif.value, "0th", TagDateTime)
      case None => Returns(None)
      case Some(v) =>
        if !Truthy(v) then Returns(None)
        else if !v.Bytes? then Raises
        else
          match DecodeStrict(v.b)
          case None => Raises
          case Some(text) =>
            match Strptime(text, ExifDateFormat)
            case None => Raises
            case Some(f) =>
              DisplayRoundTrip(f);
              Returns(Some(Strftime(f, DisplayedDateFormat)))
  }

  /** When the file has no readable DateTimeOriginal or DateTimeDigitized, the older reader,
      where it does not raise, shows what the newer one shows. */
  lemma LegacyDateAgrees(d: ExifMap)
    requires ExifUtils.DatesReadable(d)
    requires ExifUtils.TryDate(d, TagDateTimeOriginal, "Exif").None?
    requires ExifUtils.TryDate(d, TagDateTimeDigitized, "Exif").None?
    requires GetDateTaken(Some(d)).Returns?
    ensures GetDateTaken(Some(d)).value == ExifUtils.GetDateTaken(Some(d))
  {
    ExifUtils.DateTakenPriority(d);
    var v := Get(d, "0th", TagDateTime);
    if v.Some? && Truthy(v.value) {
      assert ExifUtils.TryDate(d, TagDateTime, "0th").Some?;
    }
  }

  // ---------------------------------------------------------------------------
  // coordinates_valid and date_valid

  /** coordinates_valid: both fields are numbers and lie in [-90, 90] and [-180, 180],
      bounds included. */
  function CoordinatesValid(latitude: string, longitude: string): (ok: bool)
    ensures ok ==> latitude != [] && longitude != []
  {
    match (ParseFloat(latitude), ParseFloat(longitude))
    case (Some(lat), Some(lon)) => -90.0 <= lat <= 90.0 && -180.0 <= lon <= 180.0
    case _ => false
  }

  /** Coordinates the widget accepts are written by the engine as degrees in range, never
      as a deletion. */
  lemma ValidCoordinatesAreWritten(latitude: string, longitude: string)
    requires CoordinatesValid(latitude, longitude)
    ensures ParseCoordinate(latitude).Some? && ParseCoordinate(latitude).value.Degrees?
    ensures -90.0 <= ParseCoordinate(latitude).value.v <= 90.0
    ensures ParseCoordinate(longitude).Some? && ParseCoordinate(longitude).value.Degrees?
    ensures -180.0 <= ParseCoordinate(longitude).value.v <= 180.0
  {
  }

  /** date_valid: the text parses in the display format. */
  function DateValid(s: string): (ok: bool)
    ensures ok ==> s != []
  {
    AcceptedFormatsLayout();
    if s == [] then
      BlankTextRejected(s, DisplayedDateFormat);
      false
    else Strptime(s, DisplayedDateFormat).Some?
  }

  /** A date the widget accepts is the one the engine stores: the display format is the
      first of the accepted formats. */
  lemma ValidDateIsStored(s: string)
    requires DateValid(s)
    ensures ParseFirst(s, AcceptedDateFormats) == Strptime(s, DisplayedDateFormat)
    ensures ParseDateToExif(s).Some?
  {
    AcceptedFormatsLayout();
    EarlierFormatWins(s, AcceptedDateFormats, 0);
  }
}
