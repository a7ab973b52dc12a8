/** datetime.strptime and datetime.strftime for the directives the editor's date formats
    use: %Y (exactly four digits), %m %d %H %M %S (one or two digits), literal characters,
    and whitespace in the format, which matches a run of one or more whitespace
    characters. Parsing must consume the whole text, the date must exist in the proleptic
    Gregorian calendar, and the time fields a format leaves out default to 0. */
module DateTime {
  import opened Common
  import opened PyFloat

  datatype Fields = Fields(year: int, month: int, day: int, hour: int, minute: int, second: int)

  /** What strptime starts from before a format sets any field. */
  const Defaults := Fields(1900, 1, 1, 0, 0, 0)

  predicate IsLeap(y: int)
  {
    y % 4 == 0 && (y % 100 != 0 || y % 400 == 0)
  }

  function DaysInMonth(y: int, m: int): (n: int)
    requires 1 <= m <= 12
    ensures 28 <= n <= 31
    ensures m == 2 ==> (n == 29 <==> IsLeap(y))
  {
    if m == 2 then (if IsLeap(y) then 29 else 28)
    else if m == 4 || m == 6 || m == 9 || m == 11 then 30
    else 31
  }

  /** What the datetime constructor accepts (seconds 60 and 61 are refused). */
  predicate Valid(f: Fields)
  {
    && 1 <= f.year <= 9999
    && 1 <= f.month <= 12
    && 1 <= f.day <= DaysInMonth(f.year, f.month)
    && 0 <= f.hour <= 23
    && 0 <= f.minute <= 59
    && 0 <= f.second <= 59
  }

  // ---------------------------------------------------------------------------
  // Reading fields

  /** One or two digits, as many as there are (the regex alternatives of %m %H %M %S). */
  function ReadShort(s: string): (r: Option<(int, nat)>)
    ensures r.Some? ==> 1 <= r.value.1 <= 2 && r.value.1 <= |s| && 0 <= r.value.0 <= 99
  {
    var run := DigitRun(s);
    var n := if run >= 2 then 2 else run;
    if n == 0 then None
    else
      assert AllDigits(s[..n]);
      Some((DigitsValue(s[..n]) as int, n))
  }

  /** %d also accepts a space followed by a digit 1-9. */
  function ReadDay(s: string): (r: Option<(int, nat)>)
    ensures r.Some? ==> 1 <= r.value.1 <= 2 && r.value.1 <= |s| && 0 <= r.value.0 <= 99
  {
    if |s| >= 2 && s[0] == ' ' && '1' <= s[1] <= '9' then Some((DigitValue(s[1]), 2))
    else ReadShort(s)
  }

  /** Exactly four digits. */
  function ReadYear(s: string): (r: Option<(int, nat)>)
    ensures r.Some? ==> r.value.1 == 4 <= |s| && 0 <= r.value.0 <= 9999
  {
    if |s| >= 4 && AllDigits(s[..4]) then Some((DigitsValue(s[..4]) as int, 4)) else None
  }

  predicate IsDirective(c: char)
  {
    c == 'Y' || c == 'm' || c == 'd' || c == 'H' || c == 'M' || c == 'S'
  }

  function Read(d: char, s: string): (r: Option<(int, nat)>)
    requires IsDirective(d)
    ensures r.Some? ==> 1 <= r.value.1 <= |s|
  {
    if d == 'Y' then ReadYear(s) else if d == 'd' then ReadDay(s) else ReadShort(s)
  }

  function Set(f: Fields, d: char, v: int): Fields
    requires IsDirective(d)
  {
    match d
    case 'Y' => f.(year := v)
    case 'm' => f.(month := v)
    case 'd' => f.(day := v)
    case 'H' => f.(hour := v)
    case 'M' => f.(minute := v)
    case _ => f.(second := v)
  }

  /** Matches the whole of `s` against `fmt`, filling fields into `f`. */
  function Match(s: string, fmt: string, f: Fields): Option<Fields>
    decreases |fmt|
  {
    if fmt == [] then (if s == [] then Some(f) else None)
    else if fmt[0] == '%' then
      if |fmt| >= 2 && IsDirective(fmt[1]) then
        match Read(fmt[1], s)
        case None => None
        case Some((v, n)) => Match(s[n..], fmt[2..], Set(f, fmt[1], v))
      else None
    else if IsSpace(fmt[0]) then
      var rest := DropSpaces(s);
      if |rest| == |s| then None else Match(rest, DropSpaces(fmt), f)
    else if s != [] && s[0] == fmt[0] then Match(s[1..], fmt[1..], f)
    else None
  }

  /** datetime.strptime(s, fmt): None where Python raises ValueError. */
  function Strptime(s: string, fmt: string): (r: Option<Fields>)
    ensures r.Some? ==> Valid(r.value)
  {
    match Match(s, fmt, Defaults)
    case Some(f) => if Valid(f) then Some(f) else None
    case None => None
  }

  /** A format that starts with a directive rejects a text made only of whitespace (the
      empty text included). */
  lemma BlankTextRejected(s: string, fmt: string)
    requires forall i :: 0 <= i < |s| ==> IsSpace(s[i])
    requires |fmt| >= 2 && fmt[0] == '%'
    ensures Strptime(s, fmt).None?
  {
    if IsDirective(fmt[1]) {
      assert s != [] ==> !IsDigit(s[0]) && (|s| >= 2 ==> !('1' <= s[1] <= '9'));
      assert DigitRun(s) == 0;
      assert Read(fmt[1], s).None?;
    }
  }

  // ---------------------------------------------------------------------------
  // Rendering

  /** `n` in decimal, zero-padded to `width` digits. */
  function Pad(n: nat, width: nat): (s: string)
    requires n < Pow10(width)
    ensures |s| == width && AllDigits(s)
    ensures DigitsValue(s) == n
    decreases width
  {
    if width == 0 then []
    else
      var s := Pad(n / 10, width - 1) + [DigitChar(n % 10)];
      assert s[..|s| - 1] == Pad(n / 10, width - 1);
      s
  }

  function Render(f: Fields, d: char): string
    requires Valid(f) && IsDirective(d)
  {
    match d
    case 'Y' => Pad(f.year, 4)
    case 'm' => Pad(f.month, 2)
    case 'd' => Pad(f.day, 2)
    case 'H' => Pad(f.hour, 2)
    case 'M' => Pad(f.minute, 2)
    case _ => Pad(f.second, 2)
  }

  /** The formats strftime and strptime agree on: directives from the set above and
      literal characters that are neither '%' nor digits. */
  predicate Simple(fmt: string)
    decreases |fmt|
  {
    if fmt == [] then true
    else if fmt[0] == '%' then |fmt| >= 2 && IsDirective(fmt[1]) && Simple(fmt[2..])
    else !IsDigit(fmt[0]) && Simple(fmt[1..])
  }

  /** datetime.strftime(fmt) with every field zero-padded (%Y to four digits). */
  function Strftime(f: Fields, fmt: string): (s: string)
    requires Valid(f) && Simple(fmt)
    decreases |fmt|
  {
    if fmt == [] then []
    else if fmt[0] == '%' then Render(f, fmt[1]) + Strftime(f, fmt[2..])
    else [fmt[0]] + Strftime(f, fmt[1..])
  }

  /** The fields a format sets, taken from `f`, over `acc`. */
  function Apply(f: Fields, fmt: string, acc: Fields): Fields
    requires Simple(fmt)
    decreases |fmt|
  {
    if fmt == [] then acc
    else if fmt[0] == '%' then Apply(f, fmt[2..], Set(acc, fmt[1], FieldOf(f, fmt[1])))
    else Apply(f, fmt[1..], acc)
  }

  function FieldOf(f: Fields, d: char): int
    requires IsDirective(d)
  {
    match d
    case 'Y' => f.year
    case 'm' => f.month
    case 'd' => f.day
    case 'H' => f.hour
    case 'M' => f.minute
    case _ => f.second
  }

  lemma DropSpacesOfSimple(fmt: string)
    requires Simple(fmt)
    ensures Simple(DropSpaces(fmt))
    decreases |fmt|
  {
    if fmt != [] && IsSpace(fmt[0]) {
      DropSpacesOfSimple(fmt[1..]);
    }
  }

  /** A rendering starts with whitespace only where the format does. */
  lemma StrftimeHead(f: Fields, fmt: string)
    requires Valid(f) && Simple(fmt) && Strftime(f, fmt) != []
    ensures IsSpace(Strftime(f, fmt)[0]) ==> fmt != [] && fmt[0] != '%' && IsSpace(fmt[0])
  {
    if fmt[0] == '%' {
      var r := Render(f, fmt[1]);
      assert IsDigit(r[0]);
    }
  }

  lemma DropSpacesNoSpace(s: string)
    requires s == [] || !IsSpace(s[0])
    ensures DropSpaces(s) == s
  {
  }

  lemma DropSpacesCons(c: char, s: string)
    requires IsSpace(c)
    ensures DropSpaces([c] + s) == DropSpaces(s)
  {
    assert ([c] + s)[1..] == s;
  }

  /** Dropping the leading whitespace run of a rendering is rendering the format with its
      leading whitespace dropped. */
  lemma {:induction false} DropSpacesStrftime(f: Fields, fmt: string)
    requires Valid(f) && Simple(fmt)
    ensures Simple(DropSpaces(fmt))
    ensures DropSpaces(Strftime(f, fmt)) == Strftime(f, DropSpaces(fmt))
    decreases |fmt|
  {
    DropSpacesOfSimple(fmt);
    if fmt != [] && IsSpace(fmt[0]) {
      assert fmt[0] != '%';
      assert Simple(fmt[1..]);
      DropSpacesStrftime(f, fmt[1..]);
      assert Strftime(f, fmt) == [fmt[0]] + Strftime(f, fmt[1..]);
      DropSpacesCons(fmt[0], Strftime(f, fmt[1..]));
      assert DropSpaces(fmt) == DropSpaces(fmt[1..]);
    } else {
      DropSpacesUnspaced(f, fmt);
    }
  }

  lemma DropSpacesUnspaced(f: Fields, fmt: string)
    requires Valid(f) && Simple(fmt) && (fmt == [] || !IsSpace(fmt[0]))
    ensures DropSpaces(fmt) == fmt
    ensures DropSpaces(Strftime(f, fmt)) == Strftime(f, fmt)
  {
    DropSpacesNoSpace(fmt);
    if Strftime(f, fmt) != [] {
      StrftimeHead(f, fmt);
    }
    DropSpacesNoSpace(Strftime(f, fmt));
  }

  /** Reading back a rendered field gives the field's value. */
  lemma ReadRender(f: Fields, d: char, rest: string)
    requires Valid(f) && IsDirective(d)
    ensures Read(d, Render(f, d) + rest) == Some((FieldOf(f, d), |Render(f, d)|))
  {
    var r := Render(f, d);
    var s := r + rest;
    assert s[..|r|] == r;
    if d != 'Y' {
      DigitRunPrefix(r, rest);
      assert IsDigit(s[0]);
    }
  }

  lemma DigitRunPrefix(a: string, b: string)
    requires AllDigits(a)
    ensures DigitRun(a + b) >= |a|
    decreases |a|
  {
    if a != [] {
      DigitRunPrefix(a[1..], b);
      assert (a + b)[1..] == a[1..] + b;
    }
  }

  /** Matching a rendering against its own format recovers the fields the format names. */
  lemma {:induction false} MatchStrftime(f: Fields, fmt: string, acc: Fields)
    requires Valid(f) && Simple(fmt)
    ensures Match(Strftime(f, fmt), fmt, acc) == Some(Apply(f, fmt, acc))
    decreases |fmt|
  {
    if fmt == [] {
    } else if fmt[0] == '%' {
      var d := fmt[1];
      var r := Render(f, d);
      var s := Strftime(f, fmt);
      assert s == r + Strftime(f, fmt[2..]);
      ReadRender(f, d, Strftime(f, fmt[2..]));
      assert s[|r|..] == Strftime(f, fmt[2..]);
      MatchStrftime(f, fmt[2..], Set(acc, d, FieldOf(f, d)));
    } else if IsSpace(fmt[0]) {
      var s := Strftime(f, fmt);
      DropSpacesStrftime(f, fmt);
      DropSpacesLength(fmt);
      MatchStrftime(f, DropSpaces(fmt), acc);
      ApplyDropSpaces(f, fmt, acc);
    } else {
      var s := Strftime(f, fmt);
      assert s[1..] == Strftime(f, fmt[1..]);
      MatchStrftime(f, fmt[1..], acc);
    }
  }

  lemma DropSpacesLength(s: string)
    requires s != [] && IsSpace(s[0])
    ensures |DropSpaces(s)| < |s|
  {
  }

  lemma {:induction false} ApplyDropSpaces(f: Fields, fmt: string, acc: Fields)
    requires Simple(fmt)
    ensures Simple(DropSpaces(fmt))
    ensures Apply(f, DropSpaces(fmt), acc) == Apply(f, fmt, acc)
    decreases |fmt|
  {
    DropSpacesOfSimple(fmt);
    if fmt != [] && IsSpace(fmt[0]) {
      ApplyDropSpaces(f, fmt[1..], acc);
    }
  }

  /** A format naming all six fields: parsing what strftime wrote with it gives the same
      date and time back. */
  lemma StrptimeStrftime(f: Fields, fmt: string)
    requires Valid(f) && Simple(fmt)
    requires Apply(f, fmt, Defaults) == f
    ensures Strptime(Strftime(f, fmt), fmt) == Some(f)
  {
    MatchStrftime(f, fmt, Defaults);
  }

  // ---------------------------------------------------------------------------
  // Formats naming all six fields

  /** "%Y<d>%m<d>%d %H<t>%M<t>%S" for a date separator <d> and a time separator <t>. */
  function FullFormat(dateSep: char, timeSep: char): string
  {
    Step('Y', dateSep) + (Step('m', dateSep) + (Step('d', ' ') + (Step('H', timeSep)
      + (Step('M', timeSep) + ['%', 'S']))))
  }

  /** One directive followed by one literal character. */
  function Step(d: char, c: char): string
  {
    ['%', d, c]
  }

  lemma StepFacts(f: Fields, d: char, c: char, rest: string, acc: Fields)
    requires Valid(f) && IsDirective(d) && c != '%' && !IsDigit(c) && Simple(rest)
    ensures Simple(Step(d, c) + rest)
    ensures Strftime(f, Step(d, c) + rest) == Render(f, d) + [c] + Strftime(f, rest)
    ensures Apply(f, Step(d, c) + rest, acc) == Apply(f, rest, Set(acc, d, FieldOf(f, d)))
  {
    var s := Step(d, c) + rest;
    assert s[0] == '%' && s[1] == d;
    assert s[2..] == [c] + rest;
    assert s[2..][1..] == rest;
  }

  /** The full formats name every field once: applying one rebuilds the fields. */
  lemma FullFormatFacts(f: Fields, dateSep: char, timeSep: char)
    requires Valid(f)
    requires dateSep != '%' && !IsDigit(dateSep) && timeSep != '%' && !IsDigit(timeSep)
    ensures Simple(FullFormat(dateSep, timeSep))
    ensures Apply(f, FullFormat(dateSep, timeSep), Defaults) == f
    ensures |Strftime(f, FullFormat(dateSep, timeSep))| >= 5
    ensures Strftime(f, FullFormat(dateSep, timeSep))[4] == dateSep
  {
    var last := ['%', 'S'];
    assert last[0] == '%' && last[1] == 'S' && last[2..] == [];
    assert Simple(last);
    var a0 := Defaults.(year := f.year);
    var a1 := a0.(month := f.month);
    var a2 := a1.(day := f.day);
    var a3 := a2.(hour := f.hour);
    var a4 := a3.(minute := f.minute);
    assert Apply(f, last, a4) == f;
    var r4 := Step('M', timeSep) + last;
    StepFacts(f, 'M', timeSep, last, a3);
    var r3 := Step('H', timeSep) + r4;
    StepFacts(f, 'H', timeSep, r4, a2);
    var r2 := Step('d', ' ') + r3;
    StepFacts(f, 'd', ' ', r3, a1);
    var r1 := Step('m', dateSep) + r2;
    StepFacts(f, 'm', dateSep, r2, a0);
    var r0 := Step('Y', dateSep) + r1;
    StepFacts(f, 'Y', dateSep, r1, Defaults);
    assert FullFormat(dateSep, timeSep) == r0;
    YearAndSeparator(f, dateSep, r1);
  }

  /** A format starting with "%Y<d>" writes the padded year and then <d>. */
  lemma YearAndSeparator(f: Fields, dateSep: char, rest: string)
    requires Valid(f) && dateSep != '%' && !IsDigit(dateSep) && Simple(rest)
    ensures |Strftime(f, Step('Y', dateSep) + rest)| >= 5
    ensures Strftime(f, Step('Y', dateSep) + rest)[4] == dateSep
  {
    StepFacts(f, 'Y', dateSep, rest, Defaults);
    assert |Pad(f.year, 4)| == 4;
  }

  /** A text written in a full format starts and ends with a digit. */
  lemma FullFormatDigitEnds(f: Fields, dateSep: char, timeSep: char)
    requires Valid(f)
    requires dateSep != '%' && !IsDigit(dateSep) && timeSep != '%' && !IsDigit(timeSep)
    ensures Simple(FullFormat(dateSep, timeSep))
    ensures var s := Strftime(f, FullFormat(dateSep, timeSep));
      s != [] && IsDigit(s[0]) && IsDigit(s[|s| - 1])
  {
    FullFormatFacts(f, dateSep, timeSep);
    var last := ['%', 'S'];
    assert last[0] == '%' && last[1] == 'S' && last[2..] == [];
    var sec := Pad(f.second, 2);
    assert Strftime(f, last) == sec;
    var r4 := Step('M', timeSep) + last;
    StepFacts(f, 'M', timeSep, last, Defaults);
    var r3 := Step('H', timeSep) + r4;
    StepFacts(f, 'H', timeSep, r4, Defaults);
    var r2 := Step('d', ' ') + r3;
    StepFacts(f, 'd', ' ', r3, Defaults);
    var r1 := Step('m', dateSep) + r2;
    StepFacts(f, 'm', dateSep, r2, Defaults);
    var r0 := Step('Y', dateSep) + r1;
    StepFacts(f, 'Y', dateSep, r1, Defaults);
    assert FullFormat(dateSep, timeSep) == r0;
    var s4 := Strftime(f, r4);
    assert s4[|s4| - 1] == sec[1];
    var s3 := Strftime(f, r3);
    assert s3[|s3| - 1] == sec[1];
    var s2 := Strftime(f, r2);
    assert s2[|s2| - 1] == sec[1];
    var s1 := Strftime(f, r1);
    assert s1[|s1| - 1] == sec[1];
    var s0 := Strftime(f, r0);
    assert s0[|s0| - 1] == sec[1];
    assert s0[0] == Pad(f.year, 4)[0];
  }

  // ---------------------------------------------------------------------------
  // First match in a priority list of formats

  /** The position of the first format in `formats` that parses `s`, or -1 when none
      does: the loop `for fmt in formats: try: return strptime(s, fmt)`. */
  function FirstMatch(s: string, formats: seq<string>): (i: int)
    ensures -1 <= i < |formats|
    ensures i >= 0 ==> Strptime(s, formats[i]).Some?
    ensures forall j :: 0 <= j < |formats| && (i < 0 || j < i) ==> Strptime(s, formats[j]).None?
    decreases |formats|
  {
    if formats == [] then -1
    else if Strptime(s, formats[0]).Some? then 0
    else
      var k := FirstMatch(s, formats[1..]);
      if k < 0 then -1 else k + 1
  }

  /** The date parsed by the first format that accepts `s`. */
  function ParseFirst(s: string, formats: seq<string>): (r: Option<Fields>)
    ensures r.Some? <==> exists j :: 0 <= j < |formats| && Strptime(s, formats[j]).Some?
    ensures r.Some? ==> Valid(r.value)
  {
    var i := FirstMatch(s, formats);
    if i < 0 then None else Strptime(s, formats[i])
  }

  /** An earlier format that accepts the text always wins over a later one. */
  lemma EarlierFormatWins(s: string, formats: seq<string>, i: nat)
    requires i < |formats| && Strptime(s, formats[i]).Some?
    requires forall j :: 0 <= j < i ==> Strptime(s, formats[j]).None?
    ensures ParseFirst(s, formats) == Strptime(s, formats[i])
  {
  }
}
