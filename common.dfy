/** Values and text helpers shared by every module of the model: an Option type, bytes,
    Python's notion of whitespace, str.split/str.join on one separator, str.strip,
    the whitespace-collapsing substitution re.sub(r"\s+", " ", s), and UTF-8. */
module Common {

  datatype Option<+T> = None | Some(value: T)

  /** What a call that may raise does: return a value, or raise an exception that nobody
      catches. */
  datatype Outcome<+T> = Returns(value: T) | Raises

  newtype byte = x: int | 0 <= x < 256

  /** `m.get(k, "")` on a dictionary of texts. */
  function Lookup(m: map<string, string>, k: string): string
  {
    if k in m then m[k] else ""
  }

  // ---------------------------------------------------------------------------
  // Characters

  /** Python's str.isspace(), which is also what `\s` matches in a str pattern and
      what str.strip() removes. */
  predicate IsSpace(c: char)
  {
    var n := c as int;
    (9 <= n <= 13) || (0x1C <= n <= 0x20) || n == 0x85 || n == 0xA0 || n == 0x1680
    || (0x2000 <= n <= 0x200A) || n == 0x2028 || n == 0x2029 || n == 0x202F
    || n == 0x205F || n == 0x3000
  }

  predicate IsDigit(c: char)
  {
    '0' <= c <= '9'
  }

  function DigitValue(c: char): (d: int)
    requires IsDigit(c)
    ensures 0 <= d <= 9
  {
    c as int - '0' as int
  }

  function DigitChar(d: int): (c: char)
    requires 0 <= d <= 9
    ensures IsDigit(c) && DigitValue(c) == d
  {
    ('0' as int + d) as char
  }

  predicate IsUpperAscii(c: char) { 'A' <= c <= 'Z' }

  predicate IsLowerAscii(c: char) { 'a' <= c <= 'z' }

  function LowerChar(c: char): (r: char)
    ensures IsUpperAscii(c) ==> IsLowerAscii(r) && r as int == c as int + 32
    ensures !IsUpperAscii(c) ==> r == c
  {
    if IsUpperAscii(c) then (c as int + 32) as char else c
  }

  /** str.lower(), on the ASCII letters. */
  function Lower(s: string): (r: string)
    ensures |r| == |s|
    ensures forall i :: 0 <= i < |s| ==> r[i] == LowerChar(s[i])
  {
    seq(|s|, i requires 0 <= i < |s| => LowerChar(s[i]))
  }

  // ---------------------------------------------------------------------------
  // Splitting and joining on one separator

  /** str.split(sep) for a one-character separator: the pieces between separators. */
  function Split(s: string, sep: char): (parts: seq<string>)
    ensures |parts| >= 1
    decreases |s|
  {
    if s == [] then [[]]
    else
      var rest := Split(s[1..], sep);
      if s[0] == sep then [[]] + rest
      else [[s[0]] + rest[0]] + rest[1..]
  }

  /** sep.join(parts). */
  function Join(parts: seq<string>, sep: string): string
    decreases |parts|
  {
    if |parts| == 0 then []
    else if |parts| == 1 then parts[0]
    else parts[0] + sep + Join(parts[1..], sep)
  }

  /** No piece produced by Split contains the separator. */
  lemma {:induction false} SplitPiecesHaveNoSeparator(s: string, sep: char)
    ensures forall i :: 0 <= i < |Split(s, sep)| ==> sep !in Split(s, sep)[i]
    decreases |s|
  {
    if s != [] {
      SplitPiecesHaveNoSeparator(s[1..], sep);
    }
  }

  /** Joining the pieces with the separator gives the string back. */
  lemma {:induction false} JoinSplit(s: string, sep: char)
    ensures Join(Split(s, sep), [sep]) == s
    decreases |s|
  {
    if s != [] {
      var rest := Split(s[1..], sep);
      JoinSplit(s[1..], sep);
      if s[0] == sep {
        assert Split(s, sep) == [[]] + rest;
        assert ([[]] + rest)[1..] == rest;
      } else {
        var parts := Split(s, sep);
        assert parts == [[s[0]] + rest[0]] + rest[1..];
        if |rest| == 1 {
          assert Join(rest, [sep]) == rest[0];
        } else {
          assert parts[1..] == rest[1..];
          assert Join(rest, [sep]) == rest[0] + [sep] + Join(rest[1..], [sep]);
        }
      }
    }
  }

  /** A string without the separator is one piece. */
  lemma {:induction false} SplitWithoutSeparator(s: string, sep: char)
    requires sep !in s
    ensures Split(s, sep) == [s]
    decreases |s|
  {
    if s != [] {
      SplitWithoutSeparator(s[1..], sep);
      assert [s[0]] + s[1..] == s;
    }
  }

  /** Splitting around one separator splits each side on its own. */
  lemma {:induction false} SplitAround(a: string, b: string, sep: char)
    ensures Split(a + [sep] + b, sep) == Split(a, sep) + Split(b, sep)
    decreases |a|
  {
    var s := a + [sep] + b;
    if a == [] {
      assert s == [sep] + b && s[1..] == b;
    } else {
      assert s[0] == a[0] && s[1..] == a[1..] + [sep] + b;
      SplitAround(a[1..], b, sep);
      var rest := Split(a[1..], sep) + Split(b, sep);
      if a[0] != sep {
        assert rest[0] == Split(a[1..], sep)[0];
        assert rest[1..] == Split(a[1..], sep)[1..] + Split(b, sep);
      }
    }
  }

  // ---------------------------------------------------------------------------
  // Stripping whitespace

  /** str.lstrip(): drops the leading whitespace. */
  function LStrip(s: string): (r: string)
    ensures |r| <= |s| && r == s[|s| - |r|..]
    ensures forall i :: 0 <= i < |s| - |r| ==> IsSpace(s[i])
    ensures r == [] || !IsSpace(r[0])
    decreases |s|
  {
    if s != [] && IsSpace(s[0]) then LStrip(s[1..]) else s
  }

  /** str.rstrip(): drops the trailing whitespace. */
  function RStrip(s: string): (r: string)
    ensures |r| <= |s| && r == s[..|r|]
    ensures forall i :: |r| <= i < |s| ==> IsSpace(s[i])
    ensures r == [] || !IsSpace(r[|r| - 1])
    decreases |s|
  {
    if s != [] && IsSpace(s[|s| - 1]) then RStrip(s[..|s| - 1]) else s
  }

  /** str.strip(). */
  function Strip(s: string): (r: string)
    ensures r == [] || (!IsSpace(r[0]) && !IsSpace(r[|r| - 1]))
  {
    RStrip(LStrip(s))
  }

  /** Stripping twice strips no more than once. */
  lemma StripIdempotent(s: string)
    ensures Strip(Strip(s)) == Strip(s)
  {
    StripTrimmed(Strip(s));
  }

  /** A text that starts and ends with a digit has nothing to strip. */
  lemma DigitEndsTrimmed(s: string)
    requires s != [] && IsDigit(s[0]) && IsDigit(s[|s| - 1])
    ensures Strip(s) == s
  {
    StripTrimmed(s);
  }

  /** A text that strips to nothing is all whitespace. */
  lemma BlankIsAllSpace(s: string)
    requires Strip(s) == []
    ensures forall i :: 0 <= i < |s| ==> IsSpace(s[i])
  {
    assert RStrip(LStrip(s)) == [];
  }

  /** Stripping a string with no whitespace at either end changes nothing. */
  lemma StripTrimmed(s: string)
    requires s == [] || (!IsSpace(s[0]) && !IsSpace(s[|s| - 1]))
    ensures Strip(s) == s
  {
  }

  // ---------------------------------------------------------------------------
  // re.sub(r"\s+", " ", s)

  /** The characters of `s` that are not whitespace, in order. */
  function NonSpace(s: string): string
    decreases |s|
  {
    if s == [] then []
    else if IsSpace(s[0]) then NonSpace(s[1..])
    else [s[0]] + NonSpace(s[1..])
  }

  function DropSpaces(s: string): (r: string)
    ensures |r| <= |s| && r == s[|s| - |r|..]
    ensures r == [] || !IsSpace(r[0])
    ensures NonSpace(r) == NonSpace(s)
    decreases |s|
  {
    if s != [] && IsSpace(s[0]) then DropSpaces(s[1..]) else s
  }

  /** Each maximal run of whitespace becomes one space. */
  function CollapseWhitespace(s: string): (r: string)
    ensures forall i :: 0 <= i < |r| && IsSpace(r[i]) ==> r[i] == ' '
    ensures forall i :: 0 <= i < |r| - 1 ==> !(IsSpace(r[i]) && IsSpace(r[i + 1]))
    ensures s == [] <==> r == []
    ensures r != [] ==> (IsSpace(r[0]) <==> IsSpace(s[0]))
    ensures NonSpace(r) == NonSpace(s)
    decreases |s|
  {
    if s == [] then []
    else if IsSpace(s[0]) then
      var rest := CollapseWhitespace(DropSpaces(s));
      assert ([' '] + rest)[1..] == rest;
      [' '] + rest
    else
      var rest := CollapseWhitespace(s[1..]);
      assert ([s[0]] + rest)[1..] == rest;
      [s[0]] + rest
  }

  /** A string is normalised when it has no leading, trailing or doubled whitespace and
      its only whitespace character is the plain space. */
  predicate Normalised(s: string)
  {
    && (s == [] || (!IsSpace(s[0]) && !IsSpace(s[|s| - 1])))
    && (forall i :: 0 <= i < |s| && IsSpace(s[i]) ==> s[i] == ' ')
    && (forall i :: 0 <= i < |s| - 1 ==> !(IsSpace(s[i]) && IsSpace(s[i + 1])))
  }

  /** A string whose only whitespace is single plain spaces. */
  predicate SingleSpaced(c: string)
  {
    && (forall i :: 0 <= i < |c| && IsSpace(c[i]) ==> c[i] == ' ')
    && (forall i :: 0 <= i < |c| - 1 ==> !(IsSpace(c[i]) && IsSpace(c[i + 1])))
  }

  /** A suffix of a single-spaced string is single-spaced. */
  lemma SuffixSingleSpaced(c: string, k: nat)
    requires k <= |c| && SingleSpaced(c)
    ensures SingleSpaced(c[k..])
  {
    var r := c[k..];
    forall i | 0 <= i < |r| ensures r[i] == c[k + i] {
    }
  }

  /** A prefix of a single-spaced string is single-spaced. */
  lemma PrefixSingleSpaced(c: string, n: nat)
    requires n <= |c| && SingleSpaced(c)
    ensures SingleSpaced(c[..n])
  {
  }

  /** Collapsing whitespace and stripping leaves a normalised string. */
  lemma CollapseStripNormalised(s: string)
    ensures Normalised(Strip(CollapseWhitespace(s)))
  {
    var c := CollapseWhitespace(s);
    assert SingleSpaced(c);
    StripSingleSpaced(c);
  }

  /** Stripping a single-spaced string leaves a normalised string. */
  lemma StripSingleSpaced(c: string)
    requires SingleSpaced(c)
    ensures Normalised(Strip(c))
  {
    var l := LStrip(c);
    var r := RStrip(l);
    assert SingleSpaced(c);
    SuffixSingleSpaced(c, |c| - |l|);
    assert SingleSpaced(l);
    PrefixSingleSpaced(l, |r|);
    assert SingleSpaced(r);
    assert Strip(c) == r;
  }

  // ---------------------------------------------------------------------------
  // UTF-8

  predicate IsScalar(n: int)
  {
    (0 <= n < 0xD800) || (0xE000 <= n < 0x110000)
  }

  predicate IsCont(b: byte) { 0x80 <= b <= 0xBF }

  /** The UTF-8 encoding of one character (section 3.9 of the Unicode Standard). */
  function EncodeChar(c: char): (r: seq<byte>)
    ensures 1 <= |r| <= 4
    ensures (c as int < 0x80) <==> |r| == 1
  {
    var n := c as int;
    if n < 0x80 then [n as byte]
    else if n < 0x800 then [(0xC0 + n / 64) as byte, (0x80 + n % 64) as byte]
    else if n < 0x10000 then
      [(0xE0 + n / 4096) as byte, (0x80 + (n / 64) % 64) as byte, (0x80 + n % 64) as byte]
    else
      [(0xF0 + n / 262144) as byte, (0x80 + (n / 4096) % 64) as byte,
       (0x80 + (n / 64) % 64) as byte, (0x80 + n % 64) as byte]
  }

  /** str.encode("utf-8"). */
  function Encode(s: string): (r: seq<byte>)
    ensures |r| >= |s|
    decreases |s|
  {
    if s == [] then [] else EncodeChar(s[0]) + Encode(s[1..])
  }

  function Cp2(b0: byte, b1: byte): int { (b0 as int - 0xC0) * 64 + (b1 as int - 0x80) }

  function Cp3(b0: byte, b1: byte, b2: byte): int
  {
    (b0 as int - 0xE0) * 4096 + (b1 as int - 0x80) * 64 + (b2 as int - 0x80)
  }

  function Cp4(b0: byte, b1: byte, b2: byte, b3: byte): int
  {
    (b0 as int - 0xF0) * 262144 + (b1 as int - 0x80) * 4096 + (b2 as int - 0x80) * 64
    + (b3 as int - 0x80)
  }

  /** Decodes the well-formed UTF-8 sequence at the start of `b` (Table 3-7 of the Unicode
      Standard), giving the character and the number of bytes it takes; None when the
      bytes at the start are not a well-formed sequence. */
  function DecodeFirst(b: seq<byte>): (r: Option<(char, nat)>)
    ensures r.Some? ==> 1 <= r.value.1 <= 4 && r.value.1 <= |b|
  {
    if b == [] then None
    else if b[0] < 0x80 then Some((b[0] as int as char, 1))
    else if 0xC2 <= b[0] <= 0xDF && |b| >= 2 && IsCont(b[1]) then
      Some((Cp2(b[0], b[1]) as char, 2))
    else if 0xE0 <= b[0] <= 0xEF && |b| >= 3 && IsCont(b[1]) && IsCont(b[2])
      && (b[0] != 0xE0 || b[1] >= 0xA0) && (b[0] != 0xED || b[1] <= 0x9F) then
      Some((Cp3(b[0], b[1], b[2]) as char, 3))
    else if 0xF0 <= b[0] <= 0xF4 && |b| >= 4 && IsCont(b[1]) && IsCont(b[2]) && IsCont(b[3])
      && (b[0] != 0xF0 || b[1] >= 0x90) && (b[0] != 0xF4 || b[1] <= 0x8F) then
      Some((Cp4(b[0], b[1], b[2], b[3]) as char, 4))
    else None
  }

  /** bytes.decode("utf-8"): None where Python raises UnicodeDecodeError. */
  function DecodeStrict(b: seq<byte>): (r: Option<string>)
    decreases |b|
  {
    match DecodeFirst(b)
    case None => if b == [] then Some([]) else None
    case Some((c, n)) =>
      match DecodeStrict(b[n..])
      case None => None
      case Some(rest) => Some([c] + rest)
  }

  /** bytes.decode("utf-8", errors="ignore"): bytes that do not start a well-formed sequence
      are dropped one at a time, which drops exactly the maximal ill-formed subparts that
      Python's decoder skips. */
  function DecodeIgnore(b: seq<byte>): (r: string)
    ensures |r| <= |b|
    decreases |b|
  {
    if b == [] then []
    else
      match DecodeFirst(b)
      case None => DecodeIgnore(b[1..])
      case Some((c, n)) => [c] + DecodeIgnore(b[n..])
  }

  lemma DecodeFirstEncodeChar(c: char, rest: seq<byte>)
    ensures DecodeFirst(EncodeChar(c) + rest) == Some((c, |EncodeChar(c)|))
  {
    var n := c as int;
    var e := EncodeChar(c);
    var b := e + rest;
    if n < 0x80 {
    } else if n < 0x800 {
      assert b[0] == e[0] && b[1] == e[1];
      assert Cp2(e[0], e[1]) == n;
    } else if n < 0x10000 {
      assert b[0] == e[0] && b[1] == e[1] && b[2] == e[2];
      var q := n / 64;
      assert n == q * 64 + n % 64;
      assert q == (n / 4096) * 64 + q % 64;
      assert Cp3(e[0], e[1], e[2]) == n;
    } else {
      assert b[0] == e[0] && b[1] == e[1] && b[2] == e[2] && b[3] == e[3];
      var q := n / 64;
      var p := n / 4096;
      assert n == q * 64 + n % 64;
      assert q == p * 64 + q % 64 by { assert q / 64 == p; }
      assert p == (n / 262144) * 64 + p % 64 by { assert p / 64 == n / 262144; }
      assert Cp4(e[0], e[1], e[2], e[3]) == n;
    }
  }

  /** Decoding what Encode produced gives the string back, in both decoding modes. */
  lemma {:induction false} DecodeEncode(s: string)
    ensures DecodeStrict(Encode(s)) == Some(s)
    ensures DecodeIgnore(Encode(s)) == s
    decreases |s|
  {
    if s != [] {
      var e := EncodeChar(s[0]);
      var b := Encode(s);
      assert b == e + Encode(s[1..]);
      DecodeFirstEncodeChar(s[0], Encode(s[1..]));
      DecodeEncode(s[1..]);
      assert b[|e|..] == Encode(s[1..]);
      assert DecodeFirst(b) == Some((s[0], |e|));
      assert DecodeStrict(b) == Some([s[0]] + s[1..]);
      assert [s[0]] + s[1..] == s;
    }
  }

  /** Where strict decoding succeeds, ignoring errors decodes to the same text. */
  lemma {:induction false} DecodeStrictIgnore(b: seq<byte>)
    requires DecodeStrict(b).Some?
    ensures DecodeIgnore(b) == DecodeStrict(b).value
    decreases |b|
  {
    match DecodeFirst(b)
    case None =>
    case Some((c, n)) =>
      DecodeStrictIgnore(b[n..]);
  }

  /** An ASCII string encodes to one byte per character. */
  lemma {:induction false} EncodeAscii(s: string)
    requires forall i :: 0 <= i < |s| ==> s[i] as int < 0x80
    ensures Encode(s) == seq(|s|, i requires 0 <= i < |s| => s[i] as int as byte)
    decreases |s|
  {
    if s != [] {
      EncodeAscii(s[1..]);
    }
  }
}
