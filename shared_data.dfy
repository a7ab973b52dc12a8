/** The editor's shared constants and state records: the date formats, the image
    extensions, the colour theme (StyleData) and the open-image record (ImageData). */
module SharedData {
  import opened Common
  import opened DateTime

  /** How dates are stored in Exif tags. */
  const ExifDateFormat: string := "%Y:%m:%d %H:%M:%S"

  /** How dates are shown in the date field. */
  const DisplayedDateFormat: string := "%Y-%m-%d %H:%M:%S"

  /** The formats a typed date may use, tried in this order. */
  const AcceptedDateFormats: seq<string> := [
    "%Y-%m-%d %H:%M:%S",
    "%Y-%m-%d %H-%M-%S",
    "%Y-%m-%d %H:%M",
    "%Y-%m-%d %H-%M",
    "%Y-%m-%d",
    "%Y:%m:%d %H:%M:%S",
    "%Y:%m:%d %H-%M-%S",
    "%Y:%m:%d %H:%M",
    "%Y:%m:%d %H-%M",
    "%Y:%m:%d",
    "%d/%m/%Y %H-%M-%S",
    "%d/%m/%Y %H:%M:%S",
    "%d/%m/%Y %H:%M",
    "%d/%m/%Y %H-%M",
    "%d/%m/%Y"
  ]

  const ExtensionsList: seq<string> := [".jpg", ".jpeg", ".png", ".gif"]

  lemma FormatsAreFull()
    ensures ExifDateFormat == FullFormat(':', ':')
    ensures DisplayedDateFormat == FullFormat('-', ':')
  {
    var tail := Step('d', ' ') + (Step('H', ':') + (Step('M', ':') + ['%', 'S']));
    assert tail == "%d %H:%M:%S";
    assert ExifDateFormat == "%Y:" + ("%m:" + tail);
    assert DisplayedDateFormat == "%Y-" + ("%m-" + tail);
  }

  lemma FullFormatsApply(f: Fields)
    requires Valid(f)
    ensures ExifDateFormat == FullFormat(':', ':')
    ensures DisplayedDateFormat == FullFormat('-', ':')
    ensures Simple(ExifDateFormat) && Simple(DisplayedDateFormat)
    ensures Apply(f, ExifDateFormat, Defaults) == f
    ensures Apply(f, DisplayedDateFormat, Defaults) == f
  {
    FormatsAreFull();
    FullFormatFacts(f, ':', ':');
    FullFormatFacts(f, '-', ':');
  }

  /** A date written in the storage format is read back unchanged. */
  lemma StorageRoundTrip(f: Fields)
    requires Valid(f)
    ensures Simple(ExifDateFormat)
    ensures Strptime(Strftime(f, ExifDateFormat), ExifDateFormat) == Some(f)
  {
    FullFormatsApply(f);
    StrptimeStrftime(f, ExifDateFormat);
  }

  /** A date written in the display format is read back unchanged. */
  /** The display format is made only of directives and plain characters. */
  lemma DisplayedFormatSimple()
    ensures Simple(DisplayedDateFormat)
  {
    assert DisplayedDateFormat == FullFormat('-', ':');
    FullFormatFacts(Defaults, '-', ':');
  }

  lemma DisplayRoundTrip(f: Fields)
    requires Valid(f)
    ensures Simple(DisplayedDateFormat)
    ensures Strptime(Strftime(f, DisplayedDateFormat), DisplayedDateFormat) == Some(f)
  {
    FullFormatsApply(f);
    StrptimeStrftime(f, DisplayedDateFormat);
  }

  /** A text whose fifth character is not '-' fails every format that starts "%Y-". */
  lemma YearDashRejects(s: string, rest: string)
    requires |s| >= 5 && s[4] != '-'
    ensures Strptime(s, "%Y-" + rest).None?
  {
    var fmt := "%Y-" + rest;
    assert fmt[0] == '%' && fmt[1] == 'Y' && IsDirective('Y');
    var tail := fmt[2..];
    assert tail == ['-'] + rest;
    assert !IsSpace('-');
    match ReadYear(s)
    case None =>
      assert Match(s, fmt, Defaults).None?;
    case Some((v, n)) =>
      assert n == 4;
      var t := s[n..];
      assert t != [] && t[0] == s[4] != tail[0];
      assert Match(t, tail, Set(Defaults, 'Y', v)).None?;
      assert Match(s, fmt, Defaults).None?;
  }

  lemma DashFormatRejects(s: string, fmt: string)
    requires |s| >= 5 && s[4] != '-'
    requires |fmt| >= 3 && fmt[..3] == "%Y-"
    ensures Strptime(s, fmt).None?
  {
    assert fmt == "%Y-" + fmt[3..];
    YearDashRejects(s, fmt[3..]);
  }

  /** The display format comes first in the priority list and the storage format sixth. */
  lemma AcceptedFormatsLayout()
    ensures |AcceptedDateFormats| == 15
    ensures AcceptedDateFormats[0] == DisplayedDateFormat
    ensures AcceptedDateFormats[5] == ExifDateFormat
    ensures forall i :: 0 <= i < 5 ==> |AcceptedDateFormats[i]| >= 3 && AcceptedDateFormats[i][..3] == "%Y-"
  {
  }

  lemma AcceptedFormatsStartWithDirective()
    ensures forall i :: 0 <= i < |AcceptedDateFormats| ==>
      |AcceptedDateFormats[i]| >= 2 && AcceptedDateFormats[i][0] == '%'
  {
  }

  /** No accepted format parses a text made only of whitespace. */
  lemma BlankTextUnparsed(s: string)
    requires Strip(s) == []
    ensures ParseFirst(s, AcceptedDateFormats).None?
  {
    BlankIsAllSpace(s);
    AcceptedFormatsStartWithDirective();
    forall i | 0 <= i < |AcceptedDateFormats|
      ensures Strptime(s, AcceptedDateFormats[i]).None?
    {
      BlankTextRejected(s, AcceptedDateFormats[i]);
    }
  }

  /** A displayed date has no whitespace at either end. */
  lemma DisplayedTextTrimmed(f: Fields)
    requires Valid(f)
    ensures Simple(DisplayedDateFormat)
    ensures Strip(Strftime(f, DisplayedDateFormat)) == Strftime(f, DisplayedDateFormat)
  {
    FormatsAreFull();
    FullFormatDigitEnds(f, '-', ':');
    DigitEndsTrimmed(Strftime(f, FullFormat('-', ':')));
  }

  /** A displayed date re-parses, through the priority list, to the same date. */
  lemma DisplayedDateReparses(f: Fields)
    requires Valid(f)
    ensures Simple(DisplayedDateFormat)
    ensures ParseFirst(Strftime(f, DisplayedDateFormat), AcceptedDateFormats) == Some(f)
  {
    DisplayRoundTrip(f);
    EarlierFormatWins(Strftime(f, DisplayedDateFormat), AcceptedDateFormats, 0);
  }

  /** A stored date re-parses, through the priority list, to the same date: the five
      formats ahead of the storage format all want a '-' after the year. */
  lemma StoredDateReparses(f: Fields)
    requires Valid(f)
    ensures Simple(ExifDateFormat)
    ensures ParseFirst(Strftime(f, ExifDateFormat), AcceptedDateFormats) == Some(f)
  {
    StorageRoundTrip(f);
    StoredTextShape(f);
    AcceptedFormatsLayout();
    SixthFormatWins(Strftime(f, ExifDateFormat), AcceptedDateFormats);
  }

  lemma SixthFormatWins(s: string, formats: seq<string>)
    requires |s| >= 5 && s[4] != '-' && |formats| >= 6 && Strptime(s, formats[5]).Some?
    requires forall i :: 0 <= i < 5 ==> |formats[i]| >= 3 && formats[i][..3] == "%Y-"
    ensures ParseFirst(s, formats) == Strptime(s, formats[5])
  {
    forall j | 0 <= j < 5
      ensures Strptime(s, formats[j]).None?
    {
      DashFormatRejects(s, formats[j]);
    }
    EarlierFormatWins(s, formats, 5);
  }

  /** A stored date has four year digits followed by ':'. */
  lemma StoredTextShape(f: Fields)
    requires Valid(f)
    ensures Simple(ExifDateFormat)
    ensures |Strftime(f, ExifDateFormat)| >= 5 && Strftime(f, ExifDateFormat)[4] == ':'
  {
    FullFormatsApply(f);
    FullFormatFacts(f, ':', ':');
  }

  // ---------------------------------------------------------------------------
  // Colour theme

  datatype Palette = Palette(
    bg: string, font: string, bgTab: string, select: string, border: string,
    bgDisable: string, fgDisable: string, fontError: string, button: string,
    buttonHover: string)

  const DarkPalette := Palette("#1e1e1e", "#f0f0f0", "#2c2c2c", "#61dafb", "#3c3c3c",
                               "#444444", "#888888", "#ff5555", "#444444", "#666666")

  const LightPalette := Palette("#f5f5f5", "#1e1e1e", "#ffffff", "#007acc", "#cccccc",
                                "#e0e0e0", "#888888", "#d32f2f", "#e0e0e0", "#d0d0d0")

  /** The mode `set_mode` settles on: a missing or empty request means "dark", and only a
      request that lower-cases to "light" gives "light". */
  function ModeFor(request: Option<string>): (mode: string)
    ensures mode == "dark" || mode == "light"
    ensures mode == "light" <==> request.Some? && Lower(request.value) == "light"
  {
    var m := if request.None? || request.value == [] then "dark" else request.value;
    if Lower(m) == "light" then "light" else "dark"
  }

  function PaletteFor(mode: string): Palette
  {
    if mode == "dark" then DarkPalette else LightPalette
  }

  /** Asking again for the mode already in force changes nothing. */
  lemma ModeForIdempotent(request: Option<string>)
    ensures ModeFor(Some(ModeFor(request))) == ModeFor(request)
  {
    var m := ModeFor(request);
    if m == "light" {
      assert Lower("light") == "light";
    } else {
      assert Lower("dark") == "dark";
    }
  }

  class StyleData {
    var mode: string
    var bgColor: string
    var fontColor: string
    var bgTabColor: string
    var selectColor: string
    var borderColor: string
    var bgDisable: string
    var fgDisable: string
    var fontErrorColor: string
    var buttonColor: string
    var buttonHoverColor: string

    function Colours(): Palette
      reads this
    {
      Palette(bgColor, fontColor, bgTabColor, selectColor, borderColor,
              bgDisable, fgDisable, fontErrorColor, buttonColor, buttonHoverColor)
    }

    /** The theme is one of the two modes and every colour belongs to it. */
    predicate Valid()
      reads this
    {
      (mode == "dark" || mode == "light") && Colours() == PaletteFor(mode)
    }

    constructor (request: Option<string>)
      ensures Valid()
      ensures mode == ModeFor(request)
    {
      mode := "dark";
      new;
      SetMode(request);
    }

    method SetMode(request: Option<string>)
      modifies this
      ensures Valid()
      ensures mode == ModeFor(request)
    {
      var m := ModeFor(request);
      Paint(PaletteFor(m));
      mode := m;
    }

    /** The ten colour assignments of `set_mode`. */
    method Paint(p: Palette)
      modifies this
      ensures Colours() == p && mode == old(mode)
    {
      bgColor := p.bg;
      fontColor := p.font;
      bgTabColor := p.bgTab;
      selectColor := p.select;
      borderColor := p.border;
      bgDisable := p.bgDisable;
      fgDisable := p.fgDisable;
      fontErrorColor := p.fontError;
      buttonColor := p.button;
      buttonHoverColor := p.buttonHover;
    }
  }

  // ---------------------------------------------------------------------------
  // The open image

  /** An opaque handle standing for a decoded image object. */
  datatype ImageHandle = ImageHandle(id: nat)

  class ImageData {
    var imagePath: Option<string>
    var pilImage: Option<ImageHandle>
    var tkImage: Option<ImageHandle>
    var imageOpen: bool

    predicate Closed()
      reads this
    {
      imagePath.None? && pilImage.None? && tkImage.None? && !imageOpen
    }

    constructor ()
      ensures Closed()
    {
      imagePath := None;
      pilImage := None;
      tkImage := None;
      imageOpen := false;
    }
  }

  class MetadataData {
    var entries: map<string, string>

    constructor ()
      ensures entries == map[]
    {
      entries := map[];
    }
  }
}
