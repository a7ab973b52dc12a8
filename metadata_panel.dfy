/** The Qt metadata panel (editor/metadata_panel.py): the editable fields, the snapshot of
    what was loaded from the image, the validation of the date and of the coordinates, and
    the "metadata changed" signal, counted here by the number of emissions. Widgets, colours
    and the readers that fill the snapshot are not part of this model: the snapshot is
    given as a map from field key to text. */
module MetadataPanel {
  import opened Common
  import opened PyFloat
  import opened DateTime
  import opened SharedData
  import opened ExifEditorService

  const DefaultMessage: string := "\U{2705}\U{FE0F} Aucune erreur"
  const WarningMessage: string := "\U{26A0}\U{FE0F} Attention : "
  const CoordsWarning: string := WarningMessage + "Coordonn\U{E9}es invalides"
  const DateWarning: string := WarningMessage + "Date invalide"

  /** The fields of the panel (FIELDS), each shown under its key. */
  datatype Field = Name | Format | Weight | Dimensions | Device | DateTaken | DateModified
                 | Latitude | Longitude

  function Key(f: Field): string
  {
    match f
    case Name => "nom"
    case Format => "format"
    case Weight => "poids"
    case Dimensions => "dimensions"
    case Device => "appareil"
    case DateTaken => "date_creation"
    case DateModified => "date_modification"
    case Latitude => "latitude"
    case Longitude => "longitude"
  }

  /** The fields in display order. */
  const FieldOrder: seq<Field> :=
    [Name, Format, Weight, Dimensions, Device, DateTaken, DateModified, Latitude, Longitude]

  /** Where a field stands in the display order. */
  function Position(f: Field): (j: nat)
    ensures j < |FieldOrder| && FieldOrder[j] == f
  {
    match f
    case Name => 0
    case Format => 1
    case Weight => 2
    case Dimensions => 3
    case Device => 4
    case DateTaken => 5
    case DateModified => 6
    case Latitude => 7
    case Longitude => 8
  }

  const AllFields: set<Field> :=
    {Name, Format, Weight, Dimensions, Device, DateTaken, DateModified, Latitude, Longitude}

  /** The field shown under `key`, if any (`key in self.entries`). */
  function FieldNamed(key: string): (r: Option<Field>)
    ensures r.Some? ==> Key(r.value) == key
  {
    if key == "nom" then Some(Name)
    else if key == "format" then Some(Format)
    else if key == "poids" then Some(Weight)
    else if key == "dimensions" then Some(Dimensions)
    else if key == "appareil" then Some(Device)
    else if key == "date_creation" then Some(DateTaken)
    else if key == "date_modification" then Some(DateModified)
    else if key == "latitude" then Some(Latitude)
    else if key == "longitude" then Some(Longitude)
    else None
  }

  /** Every field set from `source`, missing keys as "". */
  function Filled(source: map<string, string>): (r: map<Field, string>)
    ensures r.Keys == AllFields
  {
    map f | f in AllFields :: Lookup(source, Key(f))
  }

  // ---------------------------------------------------------------------------
  // Pure rules

  predicate InRange(lat: real, lon: real)
  {
    -90.0 <= lat <= 90.0 && -180.0 <= lon <= 180.0
  }

  /** get_coordinates on the two texts: both stripped texts are numbers. float() strips
      its argument itself (ParseFloatStripped), so the texts are given to it as they are. */
  function Coordinates(latitude: string, longitude: string): Option<(real, real)>
  {
    match (ParseFloat(latitude), ParseFloat(longitude))
    case (Some(lat), Some(lon)) => Some((lat, lon))
    case _ => None
  }

  /** What _validate_coords accepts: both fields blank (the coordinates are deleted), or
      both numbers, in range, bounds included. One blank field and one filled field are
      refused. */
  function CoordsAcceptable(latitude: string, longitude: string): bool
  {
    if Strip(latitude) == [] && Strip(longitude) == [] then true
    else
      match Coordinates(latitude, longitude)
      case None => false
      case Some((lat, lon)) => InRange(lat, lon)
  }

  /** What _validate_date leaves in the date field, or None when it refuses the text: a
      blank text is kept as it is (the date is deleted); otherwise the first accepted
      format that parses the stripped text decides the date, shown in the display format. */
  function ValidatedDate(text: string): Option<string>
  {
    if Strip(text) == [] then Some(text)
    else
      match ParseFirst(Strip(text), AcceptedDateFormats)
      case None => None
      case Some(f) =>
        DisplayedFormatSimple();
        Some(Strftime(f, DisplayedDateFormat))
  }

  /** The coordinates check accepts both blank, refuses one blank, and otherwise accepts
      exactly two numbers in range. */
  lemma CoordsAcceptableMeaning(latitude: string, longitude: string)
    ensures Strip(latitude) == [] && Strip(longitude) == [] ==> CoordsAcceptable(latitude, longitude)
    ensures (Strip(latitude) == []) != (Strip(longitude) == []) ==> !CoordsAcceptable(latitude, longitude)
    ensures Strip(latitude) != [] ==>
      (CoordsAcceptable(latitude, longitude) <==>
         Coordinates(latitude, longitude).Some? && InRange(Coordinates(latitude, longitude).value.0,
                                                           Coordinates(latitude, longitude).value.1))
  {
  }

  /** The date check keeps a blank text, refuses a text no accepted format parses, and
      otherwise writes a text that parses back, in the display format, to the first
      accepted format's reading. */
  lemma ValidatedDateMeaning(text: string)
    ensures Strip(text) == [] ==> ValidatedDate(text) == Some(text)
    ensures ValidatedDate(text).None? <==>
      Strip(text) != [] && ParseFirst(Strip(text), AcceptedDateFormats).None?
    ensures ValidatedDate(text).Some? && Strip(text) != [] ==>
      Strptime(ValidatedDate(text).value, DisplayedDateFormat) == ParseFirst(Strip(text), AcceptedDateFormats)
  {
    if Strip(text) != [] && ParseFirst(Strip(text), AcceptedDateFormats).Some? {
      DisplayRoundTrip(ParseFirst(Strip(text), AcceptedDateFormats).value);
    }
  }

  /** set_name_prefix on the name field's text. */
  function WithPrefix(prefix: string, current: string): (r: string)
    ensures r == [] || (!IsSpace(r[0]) && !IsSpace(r[|r| - 1]))
  {
    Strip(prefix + " " + Strip(current))
  }

  /** The steps of _validate_coords on the two texts: both blank is accepted, otherwise
      both stripped texts must be numbers and in range. */
  method CheckCoords(latitudeText: string, longitudeText: string) returns (ok: bool)
    ensures ok == CoordsAcceptable(latitudeText, longitudeText)
  {
    var latitude := Strip(latitudeText);
    var longitude := Strip(longitudeText);
    if latitude == [] && longitude == [] {
      return true;
    }
    var lat := ParseFloat(latitude);
    var lon := ParseFloat(longitude);
    ParseFloatStripped(latitudeText);
    ParseFloatStripped(longitudeText);
    if lat.None? || lon.None? {
      return false;
    }
    return InRange(lat.value, lon.value);
  }

  /** The formats are tried in order; the first that parses the text decides. */
  method FirstParse(s: string, formats: seq<string>) returns (r: Option<Fields>)
    ensures r == ParseFirst(s, formats)
  {
    var i := 0;
    while i < |formats|
      invariant 0 <= i <= |formats|
      invariant forall j :: 0 <= j < i ==> Strptime(s, formats[j]).None?
    {
      var parsed := Strptime(s, formats[i]);
      if parsed.Some? {
        EarlierFormatWins(s, formats, i);
        return parsed;
      }
      i := i + 1;
    }
    return None;
  }

  /** The steps of _validate_date on the field's text: a blank text is kept; otherwise the
      first accepted format that parses the stripped text gives the new text. */
  method CheckDate(text: string) returns (r: Option<string>)
    ensures r == ValidatedDate(text)
  {
    var s := Strip(text);
    if s == [] {
      return Some(text);
    }
    var parsed := FirstParse(s, AcceptedDateFormats);
    if parsed.None? {
      return None;
    }
    DisplayRoundTrip(parsed.value);
    return Some(Strftime(parsed.value, DisplayedDateFormat));
  }

  /** _on_edit_finished on the field texts: both checks run, the coordinates warning
      overrides the date warning, and the change is accepted only when both pass. */
  method EditFinishedStep(e: map<Field, string>)
    returns (e': map<Field, string>, message': string, accepted: bool)
    requires e.Keys == AllFields
    ensures e'.Keys == AllFields
    ensures var r := ValidatedDate(e[DateTaken]);
      e' == (if r.Some? then e[DateTaken := r.value] else e)
    ensures accepted == (ValidatedDate(e[DateTaken]).Some? && CoordsAcceptable(e[Latitude], e[Longitude]))
    ensures message' == (if !CoordsAcceptable(e[Latitude], e[Longitude]) then CoordsWarning
                         else if ValidatedDate(e[DateTaken]).None? then DateWarning
                         else DefaultMessage)
  {
    var date := CheckDate(e[DateTaken]);
    var okCoords := CheckCoords(e[Latitude], e[Longitude]);
    e' := if date.Some? then e[DateTaken := date.value] else e;
    accepted := date.Some? && okCoords;
    message' := if !okCoords then CoordsWarning else if date.None? then DateWarning else DefaultMessage;
  }

  /** `self._validate_date() and self._validate_coords()` on the field texts: the
      coordinates are looked at only once the date is accepted. */
  method RevalidateStep(e: map<Field, string>)
    returns (e': map<Field, string>, message': string, accepted: bool)
    requires e.Keys == AllFields
    ensures e'.Keys == AllFields
    ensures var r := ValidatedDate(e[DateTaken]);
      e' == (if r.Some? then e[DateTaken := r.value] else e)
    ensures accepted == (ValidatedDate(e[DateTaken]).Some? && CoordsAcceptable(e[Latitude], e[Longitude]))
    ensures message' == (if ValidatedDate(e[DateTaken]).None? then DateWarning
                         else if CoordsAcceptable(e[Latitude], e[Longitude]) then DefaultMessage
                         else CoordsWarning)
  {
    var date := CheckDate(e[DateTaken]);
    if date.None? {
      return e, DateWarning, false;
    }
    var okCoords := CheckCoords(e[Latitude], e[Longitude]);
    e' := e[DateTaken := date.value];
    accepted := okCoords;
    message' := if okCoords then DefaultMessage else CoordsWarning;
  }

  // ---------------------------------------------------------------------------
  // The panel

  class MetadataPanel {
    var entries: map<Field, string>
    var snapshot: Option<map<string, string>>
    var message: string
    var emitted: nat

    /** Every field has a text. */
    predicate Valid()
      reads this
    {
      entries.Keys == AllFields
    }

    constructor ()
      ensures Valid()
      ensures entries == Filled(map[]) && snapshot.None? && message == DefaultMessage && emitted == 0
    {
      entries := Filled(map[]);
      snapshot := None;
      message := DefaultMessage;
      emitted := 0;
    }

    /** get_coordinates. */
    function GetCoordinates(): (r: Option<(real, real)>)
      reads this
      requires Valid()
    {
      Coordinates(entries[Latitude], entries[Longitude])
    }

    /** _validate_coords: refuses with the coordinates warning, changes nothing else. */
    method ValidateCoords() returns (ok: bool)
      requires Valid()
      modifies this
      ensures Valid()
      ensures ok == CoordsAcceptable(entries[Latitude], entries[Longitude])
      ensures entries == old(entries) && snapshot == old(snapshot) && emitted == old(emitted)
      ensures message == (if ok then old(message) else CoordsWarning)
    {
      ok := CheckCoords(entries[Latitude], entries[Longitude]);
      if !ok {
        message := CoordsWarning;
      }
    }

    /** _validate_date: rewrites the date field in the display format, or refuses with the
        date warning and leaves the field alone. */
    method ValidateDate() returns (ok: bool)
      requires Valid()
      modifies this
      ensures Valid()
      ensures var r := ValidatedDate(old(entries)[DateTaken]);
        && ok == r.Some?
        && entries == (if ok then old(entries)[DateTaken := r.value] else old(entries))
      ensures message == (if ok then old(message) else DateWarning)
      ensures snapshot == old(snapshot) && emitted == old(emitted)
    {
      var r := CheckDate(entries[DateTaken]);
      if r.None? {
        message := DateWarning;
        return false;
      }
      entries := entries[DateTaken := r.value];
      return true;
    }

    /** The outcome of a validation: the field texts and the message are replaced, and a
        change is signalled when the values were accepted. */
    method Commit(e: map<Field, string>, m: string, accepted: bool)
      requires e.Keys == AllFields
      modifies this
      ensures Valid()
      ensures entries == e && message == m && snapshot == old(snapshot)
      ensures emitted == old(emitted) + (if accepted then 1 else 0)
    {
      entries, message, emitted := e, m, emitted + (if accepted then 1 else 0);
    }

    /** _on_edit_finished: both checks run; the message is cleared and the change signalled
        only when both accept. */
    method OnEditFinished()
      requires Valid()
      modifies this
      ensures Valid()
      ensures var r := ValidatedDate(old(entries)[DateTaken]);
        entries == (if r.Some? then old(entries)[DateTaken := r.value] else old(entries))
      ensures var ok := ValidatedDate(old(entries)[DateTaken]).Some?
                        && CoordsAcceptable(old(entries)[Latitude], old(entries)[Longitude]);
        emitted == old(emitted) + (if ok then 1 else 0)
      ensures message == (if !CoordsAcceptable(old(entries)[Latitude], old(entries)[Longitude])
                          then CoordsWarning
                          else if ValidatedDate(old(entries)[DateTaken]).None? then DateWarning
                          else DefaultMessage)
      ensures snapshot == old(snapshot)
    {
      var e, m, accepted := EditFinishedStep(entries);
      Commit(e, m, accepted);
    }

    /** `if self._validate_date() and self._validate_coords()`: the coordinates are checked
        only when the date is accepted. */
    method Revalidate()
      requires Valid()
      modifies this
      ensures Valid()
      ensures var r := ValidatedDate(old(entries)[DateTaken]);
        entries == (if r.Some? then old(entries)[DateTaken := r.value] else old(entries))
      ensures var ok := ValidatedDate(old(entries)[DateTaken]).Some?
                        && CoordsAcceptable(old(entries)[Latitude], old(entries)[Longitude]);
        emitted == old(emitted) + (if ok then 1 else 0)
      ensures message == (if ValidatedDate(old(entries)[DateTaken]).None? then DateWarning
                          else if CoordsAcceptable(old(entries)[Latitude], old(entries)[Longitude])
                          then DefaultMessage else CoordsWarning)
      ensures snapshot == old(snapshot)
    {
      var e, m, accepted := RevalidateStep(entries);
      Commit(e, m, accepted);
    }

    /** Every field is set from `source` (the loop `for spec in FIELDS: setText(...)`). */
    method Fill(source: map<string, string>)
      requires Valid()
      modifies this
      ensures Valid()
      ensures entries == Filled(source)
      ensures snapshot == old(snapshot) && message == old(message) && emitted == old(emitted)
    {
      var e := entries;
      var i := 0;
      while i < |FieldOrder|
        invariant 0 <= i <= |FieldOrder|
        invariant e.Keys == AllFields
        invariant forall j :: 0 <= j < i ==> e[FieldOrder[j]] == Lookup(source, Key(FieldOrder[j]))
      {
        e := e[FieldOrder[i] := Lookup(source, Key(FieldOrder[i]))];
        i := i + 1;
      }
      forall f | f in AllFields
        ensures e[f] == Lookup(source, Key(f))
      {
        assert FieldOrder[Position(f)] == f;
      }
      entries := e;
    }

    /** clear_all: every field empty, no snapshot, no error. */
    method ClearAll()
      requires Valid()
      modifies this
      ensures Valid()
      ensures entries == Filled(map[]) && snapshot.None? && message == DefaultMessage
      ensures emitted == old(emitted)
    {
      Fill(map[]);
      snapshot := None;
      message := DefaultMessage;
    }

    /** load_from_image, from the texts the readers produced: they become the snapshot and
        the fields. */
    method LoadFromImage(data: map<string, string>)
      requires Valid()
      modifies this
      ensures Valid()
      ensures snapshot == Some(data) && entries == Filled(data) && message == DefaultMessage
      ensures emitted == old(emitted)
    {
      snapshot := Some(data);
      Fill(data);
      message := DefaultMessage;
    }

    /** reset_field: nothing without a (non-empty) snapshot or for an unknown key; otherwise
        the field gets its snapshot text back ("" when the snapshot has none) and the fields
        are checked again. */
    method ResetField(key: string)
      requires Valid()
      modifies this
      ensures Valid()
      ensures snapshot == old(snapshot)
      ensures old(snapshot).None? || old(snapshot).value == map[] || FieldNamed(key).None? ==>
        entries == old(entries) && message == old(message) && emitted == old(emitted)
      ensures old(snapshot).Some? && old(snapshot).value != map[] && FieldNamed(key).Some? ==>
        var restored := old(entries)[FieldNamed(key).value := Lookup(old(snapshot).value, key)];
        var r := ValidatedDate(restored[DateTaken]);
        var coords := CoordsAcceptable(restored[Latitude], restored[Longitude]);
        && entries == (if r.Some? then restored[DateTaken := r.value] else restored)
        && emitted == old(emitted) + (if r.Some? && coords then 1 else 0)
        && message == (if r.None? then DateWarning
                       else if coords then DefaultMessage else CoordsWarning)
    {
      if snapshot.None? || snapshot.value == map[] {
        return;
      }
      var field := FieldNamed(key);
      if field.None? {
        return;
      }
      entries := entries[field.value := Lookup(snapshot.value, key)];
      Revalidate();
    }

    /** reset_all: every field back to its snapshot text, then checked again. */
    method ResetAll()
      requires Valid()
      modifies this
      ensures Valid()
      ensures snapshot == old(snapshot)
      ensures old(snapshot).None? || old(snapshot).value == map[] ==>
        entries == old(entries) && message == old(message) && emitted == old(emitted)
      ensures old(snapshot).Some? && old(snapshot).value != map[] ==>
        var restored := Filled(old(snapshot).value);
        var r := ValidatedDate(restored[DateTaken]);
        var coords := CoordsAcceptable(restored[Latitude], restored[Longitude]);
        && entries == (if r.Some? then restored[DateTaken := r.value] else restored)
        && emitted == old(emitted) + (if r.Some? && coords then 1 else 0)
        && message == (if r.None? then DateWarning
                       else if coords then DefaultMessage else CoordsWarning)
    {
      if snapshot.None? || snapshot.value == map[] {
        return;
      }
      Fill(snapshot.value);
      Revalidate();
    }

    /** set_name_prefix. */
    method SetNamePrefix(prefix: string)
      requires Valid()
      modifies this
      ensures Valid()
      ensures entries == old(entries)[Name := WithPrefix(prefix, old(entries)[Name])]
      ensures snapshot == old(snapshot) && message == old(message) && emitted == old(emitted)
    {
      var current := Strip(entries[Name]);
      entries := entries[Name := Strip(prefix + " " + current)];
    }
  }

  // ---------------------------------------------------------------------------
  // Properties

  /** get_coordinates strips both texts before float(): the pair read from the stripped
      texts is the pair read from the texts, and it is present exactly when both parse. */
  lemma CoordinatesOfStripped(latitude: string, longitude: string)
    ensures Coordinates(Strip(latitude), Strip(longitude)) == Coordinates(latitude, longitude)
    ensures Coordinates(latitude, longitude).Some? <==>
      ParseFloat(Strip(latitude)).Some? && ParseFloat(Strip(longitude)).Some?
    ensures Coordinates(latitude, longitude).Some? ==>
      Coordinates(latitude, longitude).value == (ParseFloat(Strip(latitude)).value, ParseFloat(Strip(longitude)).value)
  {
    ParseFloatStripped(latitude);
    ParseFloatStripped(longitude);
  }

  /** Accepted, filled coordinates are what the editing engine writes: degrees, in range. */
  lemma AcceptedCoordinatesWritten(latitude: string, longitude: string)
    requires CoordsAcceptable(latitude, longitude) && Strip(latitude) != []
    ensures var c := Coordinates(latitude, longitude).value;
      && ParseCoordinate(latitude) == Some(Degrees(c.0))
      && ParseCoordinate(longitude) == Some(Degrees(c.1))
      && InRange(c.0, c.1)
  {
  }

  /** The panel accepts blank fields as a deletion, but the editing engine is given the
      unstripped text and deletes only on the empty text: a field holding only whitespace
      passes the panel and makes the save fail. */
  lemma BlankFieldsFailSave(blank: string)
    requires blank != [] && Strip(blank) == []
    ensures CoordsAcceptable(blank, blank) && ParseCoordinate(blank).None?
    ensures ValidatedDate(blank) == Some(blank) && ParseDateToExif(blank).None?
  {
    BlankTextUnparsed(blank);
  }

  /** The text the date check writes is accepted again unchanged. */
  lemma ValidatedDateIdempotent(text: string)
    requires ValidatedDate(text).Some?
    ensures ValidatedDate(ValidatedDate(text).value) == ValidatedDate(text)
  {
    if Strip(text) != [] {
      var f := ParseFirst(Strip(text), AcceptedDateFormats).value;
      DisplayedForm(f);
      var u := Strftime(f, DisplayedDateFormat);
      assert ValidatedDate(u) == Some(u);
    }
  }

  /** Saving the rewritten date stores the same date as the text that was typed. */
  lemma ValidatedDateStored(text: string)
    requires ValidatedDate(text).Some? && Strip(text) != []
    ensures ParseDateToExif(ValidatedDate(text).value) == ParseDateToExif(Strip(text))
  {
    var f := ParseFirst(Strip(text), AcceptedDateFormats).value;
    DisplayedForm(f);
  }

  /** The display form of a date is non-blank, already stripped, and parses back to it. */
  lemma DisplayedForm(f: Fields)
    requires Valid(f)
    ensures Simple(DisplayedDateFormat)
    ensures Strftime(f, DisplayedDateFormat) != []
    ensures Strip(Strftime(f, DisplayedDateFormat)) == Strftime(f, DisplayedDateFormat)
    ensures ParseFirst(Strftime(f, DisplayedDateFormat), AcceptedDateFormats) == Some(f)
  {
    DisplayedTextTrimmed(f);
    DisplayedDateReparses(f);
    FormatsAreFull();
    FullFormatDigitEnds(f, '-', ':');
  }

  /** With a prefix and a name, the new name is the prefix, one space and the stripped
      name; with a blank name it is the stripped prefix. */
  lemma WithPrefixJoins(prefix: string, current: string)
    requires prefix != [] && !IsSpace(prefix[0]) && !IsSpace(prefix[|prefix| - 1])
    ensures Strip(current) != [] ==> WithPrefix(prefix, current) == prefix + " " + Strip(current)
    ensures Strip(current) == [] ==> WithPrefix(prefix, current) == prefix
  {
    var c := Strip(current);
    var s := prefix + " " + c;
    if c != [] {
      assert s[0] == prefix[0] && s[|s| - 1] == c[|c| - 1];
      StripTrimmed(s);
    } else {
      assert s == prefix + [' '];
      assert s[0] == prefix[0];
      assert LStrip(s) == s;
      assert s[..|s| - 1] == prefix;
      assert RStrip(s) == RStrip(prefix) == prefix;
    }
  }
}
