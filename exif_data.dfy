/** The in-memory Exif dictionary the editor reads and edits: section name ("0th", "Exif",
    "GPS", "1st", "Interop", "thumbnail") to a dictionary from tag number to value. Values
    take the shapes the dictionary holds: integers, tuples (a rational is a pair of
    integers), lists, text and byte strings. The "thumbnail" section is not a dictionary. */
module ExifData {
  import opened Common

  datatype Value =
    | Int(i: int)
    | Tuple(items: seq<Value>)
    | List(items: seq<Value>)
    | Str(s: string)
    | Bytes(b: seq<byte>)

  /** A section: a tag dictionary, or the raw thumbnail (bytes or None). */
  datatype Section = Tags(tags: map<int, Value>) | Raw(data: Option<seq<byte>>)

  type ExifMap = map<string, Section>

  // Tag numbers of Exif 2.3 (CIPA DC-008), sections 4.6.4 to 4.6.6.
  const TagMake := 271
  const TagModel := 272
  const TagDateTime := 306
  const TagDateTimeOriginal := 36867
  const TagDateTimeDigitized := 36868
  const TagMakerNote := 37500
  const TagGpsLatitudeRef := 1
  const TagGpsLatitude := 2
  const TagGpsLongitudeRef := 3
  const TagGpsLongitude := 4

  /** What the editor starts from when the image carries no Exif block. */
  const EmptyExif: ExifMap := map["0th" := Tags(map[]), "Exif" := Tags(map[]), "GPS" := Tags(map[])]

  /** Python's truth value of a dictionary value. */
  predicate Truthy(v: Value)
  {
    match v
    case Int(i) => i != 0
    case Tuple(items) => items != []
    case List(items) => items != []
    case Str(s) => s != []
    case Bytes(b) => b != []
  }

  predicate HasTags(d: ExifMap, section: string)
  {
    section in d && d[section].Tags?
  }

  /** `d.get(section, {})` may be called: the section is absent or a dictionary. */
  predicate DictOrAbsent(d: ExifMap, section: string)
  {
    section !in d || d[section].Tags?
  }

  /** The three sections the edits write into are dictionaries, as piexif.load makes them. */
  predicate Editable(d: ExifMap)
  {
    HasTags(d, "0th") && HasTags(d, "Exif") && HasTags(d, "GPS")
  }

  /** `d.get(section, {}).get(tag)`. */
  function Get(d: ExifMap, section: string, tag: int): (r: Option<Value>)
    requires DictOrAbsent(d, section)
    ensures r.Some? <==> section in d && tag in d[section].tags
    ensures r.Some? ==> r.value == d[section].tags[tag]
  {
    if section in d && tag in d[section].tags then Some(d[section].tags[tag]) else None
  }

  /** `d[section][tag] = v`. */
  function Put(d: ExifMap, section: string, tag: int, v: Value): (r: ExifMap)
    requires HasTags(d, section)
    ensures r.Keys == d.Keys && HasTags(r, section)
    ensures r[section].tags == d[section].tags[tag := v]
    ensures forall s :: s in d && s != section ==> r[s] == d[s]
  {
    d[section := Tags(d[section].tags[tag := v])]
  }

  /** `d[section].pop(tag, None)`. */
  function Pop(d: ExifMap, section: string, tag: int): (r: ExifMap)
    requires HasTags(d, section)
    ensures r.Keys == d.Keys && HasTags(r, section)
    ensures r[section].tags == d[section].tags - {tag}
    ensures forall s :: s in d && s != section ==> r[s] == d[s]
  {
    d[section := Tags(d[section].tags - {tag})]
  }

  lemma PopAbsent(d: ExifMap, section: string, tag: int)
    requires HasTags(d, section) && tag !in d[section].tags
    ensures Pop(d, section, tag) == d
  {
    assert d[section].tags - {tag} == d[section].tags;
  }

  /** The mutable dictionary object the edits work on. */
  class ExifDict {
    var sections: ExifMap

    constructor (d: ExifMap)
      ensures sections == d
    {
      sections := d;
    }

    method Set(section: string, tag: int, v: Value)
      requires HasTags(sections, section)
      modifies this
      ensures sections == Put(old(sections), section, tag, v)
    {
      sections := Put(sections, section, tag, v);
    }

    method Remove(section: string, tag: int)
      requires HasTags(sections, section)
      modifies this
      ensures sections == Pop(old(sections), section, tag)
    {
      sections := Pop(sections, section, tag);
    }
  }

  // ---------------------------------------------------------------------------
  // Normalisation before writing

  /** A list element: an integer becomes the rational (v, 1), a one-element tuple (v0,)
      becomes (v0, 1), anything else is kept. */
  function CleanElement(v: Value): Value
  {
    match v
    case Int(_) => Tuple([v, Int(1)])
    case Tuple(items) => if |items| == 1 then Tuple([items[0], Int(1)]) else v
    case _ => v
  }

  /** A tag value: integers and one-element tuples become rationals, text becomes its
      UTF-8 bytes, list elements are cleaned one by one, anything else is kept. */
  function CleanValue(v: Value): Value
  {
    match v
    case Int(_) => Tuple([v, Int(1)])
    case Tuple(items) => if |items| == 1 then Tuple([items[0], Int(1)]) else v
    case Str(s) => Bytes(Encode(s))
    case List(items) => List(seq(|items|, k requires 0 <= k < |items| => CleanElement(items[k])))
    case Bytes(_) => v
  }

  function CleanSection(s: Section): Section
  {
    match s
    case Tags(tags) => Tags(map t | t in tags :: CleanValue(tags[t]))
    case Raw(_) => s
  }

  /** The whole dictionary after cleaning: every tag section cleaned, and the MakerNote
      dropped from "Exif". */
  function Cleaned(d: ExifMap): (r: ExifMap)
    requires DictOrAbsent(d, "Exif")
    ensures r.Keys == d.Keys && DictOrAbsent(r, "Exif")
  {
    var c := map n | n in d :: CleanSection(d[n]);
    if "Exif" in c then c["Exif" := Tags(c["Exif"].tags - {TagMakerNote})] else c
  }

  predicate CanonicalElement(v: Value)
  {
    !v.Int? && !(v.Tuple? && |v.items| == 1)
  }

  /** The shapes cleaning leaves alone. */
  predicate CanonicalValue(v: Value)
  {
    && !v.Int?
    && !v.Str?
    && !(v.Tuple? && |v.items| == 1)
    && (v.List? ==> forall k :: 0 <= k < |v.items| ==> CanonicalElement(v.items[k]))
  }

  lemma CleanElementCanonical(v: Value)
    ensures CanonicalElement(CleanElement(v))
    ensures CanonicalElement(v) <==> CleanElement(v) == v
  {
  }

  /** Cleaning yields a canonical value, and leaves a value unchanged exactly when it is
      canonical already. */
  lemma CleanValueCanonical(v: Value)
    ensures CanonicalValue(CleanValue(v))
    ensures CanonicalValue(v) <==> CleanValue(v) == v
  {
    if v.List? {
      var items := v.items;
      var c := CleanValue(v).items;
      forall k | 0 <= k < |items| ensures CanonicalElement(c[k]) && (CanonicalElement(items[k]) <==> c[k] == items[k]) {
        CleanElementCanonical(items[k]);
      }
      if c == items {
        assert forall k :: 0 <= k < |items| ==> CanonicalElement(items[k]);
      }
      if forall k :: 0 <= k < |items| ==> CanonicalElement(items[k]) {
        assert c == items;
      }
    }
  }

  lemma CleanValueIdempotent(v: Value)
    ensures CleanValue(CleanValue(v)) == CleanValue(v)
  {
    CleanValueCanonical(v);
    CleanValueCanonical(CleanValue(v));
  }

  lemma CleanSectionIdempotent(s: Section)
    ensures CleanSection(CleanSection(s)) == CleanSection(s)
  {
    if s.Tags? {
      var once := CleanSection(s).tags;
      forall t | t in once ensures CleanValue(once[t]) == once[t] {
        CleanValueIdempotent(s.tags[t]);
      }
    }
  }

  /** Cleaning a cleaned dictionary changes nothing. */
  lemma CleanedIdempotent(d: ExifMap)
    requires DictOrAbsent(d, "Exif")
    ensures Cleaned(Cleaned(d)) == Cleaned(d)
  {
    var once := Cleaned(d);
    var twice := Cleaned(once);
    forall n | n in d ensures twice[n] == once[n] {
      CleanSectionIdempotent(d[n]);
      if n == "Exif" {
        var t := CleanSection(d[n]).tags - {TagMakerNote};
        assert once[n] == Tags(t);
        assert CleanSection(Tags(t)) == Tags(t) by {
          forall g | g in t ensures CleanValue(t[g]) == t[g] {
            CleanValueIdempotent(d[n].tags[g]);
          }
        }
        assert t - {TagMakerNote} == t;
      }
    }
  }

  /** Cleaning keeps every section and every tag, except the MakerNote in "Exif". */
  lemma CleanedKeys(d: ExifMap)
    requires DictOrAbsent(d, "Exif")
    ensures forall n :: n in d && d[n].Raw? ==> Cleaned(d)[n] == d[n]
    ensures forall n :: n in d && d[n].Tags? ==> Cleaned(d)[n].Tags?
    ensures forall n :: n in d && d[n].Tags? && n != "Exif" ==> Cleaned(d)[n].tags.Keys == d[n].tags.Keys
    ensures HasTags(d, "Exif") ==> Cleaned(d)["Exif"].tags.Keys == d["Exif"].tags.Keys - {TagMakerNote}
  {
  }

  /** Each surviving tag holds its cleaned value. */
  lemma CleanedValues(d: ExifMap, n: string, t: int)
    requires DictOrAbsent(d, "Exif") && HasTags(d, n) && t in d[n].tags
    requires n != "Exif" || t != TagMakerNote
    ensures t in Cleaned(d)[n].tags && Cleaned(d)[n].tags[t] == CleanValue(d[n].tags[t])
  {
  }
}
