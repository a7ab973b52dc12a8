/** The numeric conversions the editor borrows from Python: float() on decimal text,
    int() on a float (truncation toward zero) and round() on a float (half to even).
    Floats are modelled as exact reals. */
module PyFloat {
  import opened Common

  function Pow10(n: nat): (r: nat)
    ensures r >= 1
  {
    if n == 0 then 1 else 10 * Pow10(n - 1)
  }

  /** The length of the run of ASCII digits at the start of `s`. */
  function DigitRun(s: string): (n: nat)
    ensures n <= |s|
    ensures forall i :: 0 <= i < n ==> IsDigit(s[i])
    ensures n == |s| || !IsDigit(s[n])
    decreases |s|
  {
    if s != [] && IsDigit(s[0]) then 1 + DigitRun(s[1..]) else 0
  }

  predicate AllDigits(s: string)
  {
    forall i :: 0 <= i < |s| ==> IsDigit(s[i])
  }

  /** The number written by a string of decimal digits. */
  function DigitsValue(s: string): (v: nat)
    requires AllDigits(s)
    ensures v < Pow10(|s|)
    decreases |s|
  {
    if s == [] then 0 else DigitsValue(s[..|s| - 1]) * 10 + DigitValue(s[|s| - 1])
  }

  /** The optional exponent part `[eE][+-]?digits` that ends the text. */
  function ParseExponent(s: string): (r: Option<int>)
  {
    if s == [] then Some(0)
    else if s[0] != 'e' && s[0] != 'E' then None
    else
      var t := s[1..];
      var neg := t != [] && t[0] == '-';
      var body := if t != [] && (t[0] == '+' || t[0] == '-') then t[1..] else t;
      if body != [] && AllDigits(body) then
        Some(if neg then -(DigitsValue(body) as int) else DigitsValue(body) as int)
      else None
  }

  /** m times ten to the power e, one factor of ten at a time. */
  function Scale(m: real, e: int): (r: real)
    ensures m >= 0.0 ==> r >= 0.0
    decreases if e >= 0 then e else -e
  {
    if e == 0 then m else if e > 0 then Scale(m, e - 1) * 10.0 else Scale(m, e + 1) / 10.0
  }

  /** An unsigned decimal `digits[.digits][exponent]` with at least one digit. */
  function ParseUnsigned(s: string): (r: Option<real>)
    ensures r.Some? ==> r.value >= 0.0
  {
    var a := DigitRun(s);
    var whole := s[..a];
    var rest := s[a..];
    var f := if rest != [] && rest[0] == '.' then DigitRun(rest[1..]) else 0;
    var frac := if rest != [] && rest[0] == '.' then rest[1..][..f] else [];
    var tail := if rest != [] && rest[0] == '.' then rest[1 + f..] else rest;
    if a + f == 0 then None
    else
      match ParseExponent(tail)
      case None => None
      case Some(e) =>
        assert AllDigits(whole + frac);
        Some(Scale(DigitsValue(whole + frac) as real, e - f))
  }

  /** float(s) for decimal text: surrounding whitespace, an optional sign, digits with an
      optional point, an optional exponent. None where Python raises ValueError. */
  function ParseFloat(s: string): (r: Option<real>)
    ensures r.Some? ==> Strip(s) != []
  {
    ParseSigned(Strip(s))
  }

  /** An optional sign followed by an unsigned decimal. */
  function ParseSigned(t: string): (r: Option<real>)
    ensures r.Some? ==> t != []
  {
    if t == [] then None
    else if t[0] == '-' then
      match ParseUnsigned(t[1..])
      case None => None
      case Some(v) => Some(-v)
    else if t[0] == '+' then ParseUnsigned(t[1..])
    else ParseUnsigned(t)
  }

  /** float() strips its argument itself. */
  lemma ParseFloatStripped(s: string)
    ensures ParseFloat(Strip(s)) == ParseFloat(s)
  {
    StripIdempotent(s);
  }

  /** int(x) for a float: truncation toward zero. */
  function Trunc(x: real): (r: int)
    ensures x >= 0.0 ==> r >= 0 && r as real <= x < r as real + 1.0
    ensures x < 0.0 ==> r <= 0 && r as real - 1.0 < x <= r as real
  {
    if x >= 0.0 then x.Floor else -((-x).Floor)
  }

  /** round(x): the nearest integer, ties going to the even one. */
  function RoundHalfEven(x: real): (r: int)
    ensures x - 0.5 <= r as real <= x + 0.5
    ensures r as real - x == 0.5 || x - r as real == 0.5 ==> r % 2 == 0
  {
    var f := x.Floor;
    var d := x - f as real;
    if d < 0.5 then f
    else if d > 0.5 then f + 1
    else if f % 2 == 0 then f else f + 1
  }

  /** Decimal digits of a natural number, most significant first, without padding. */
  function NatText(n: nat): (s: string)
    ensures s != [] && AllDigits(s)
    decreases n
  {
    if n < 10 then [DigitChar(n)] else NatText(n / 10) + [DigitChar(n % 10)]
  }

  lemma {:induction false} NatTextValue(n: nat)
    ensures DigitsValue(NatText(n)) == n
    decreases n
  {
    if n >= 10 {
      NatTextValue(n / 10);
      var s := NatText(n);
      assert s[..|s| - 1] == NatText(n / 10);
    }
  }

  lemma {:induction false} DigitRunAll(s: string)
    requires AllDigits(s)
    ensures DigitRun(s) == |s|
    decreases |s|
  {
    if s != [] {
      DigitRunAll(s[1..]);
    }
  }

  /** A plain run of digits parses to the number it writes. */
  lemma UnsignedDigits(s: string)
    requires s != [] && AllDigits(s)
    ensures ParseUnsigned(s) == Some(DigitsValue(s) as real)
  {
    DigitRunAll(s);
    assert s[..|s|] == s;
    assert s[|s|..] == [];
    assert s + [] == s;
  }

  /** float() of a text with nothing to strip reads the signed number directly. */
  lemma {:induction false} ParseFloatTrimmed(t: string)
    requires t != [] && !IsSpace(t[0]) && !IsSpace(t[|t| - 1])
    ensures ParseFloat(t) == ParseSigned(t)
  {
    StripTrimmed(t);
  }

  /** A run of digits parses to its value. */
  lemma {:induction false} DigitsParse(body: string)
    requires body != [] && AllDigits(body)
    ensures ParseFloat(body) == Some(DigitsValue(body) as real)
  {
    UnsignedDigits(body);
    assert IsDigit(body[0]) && IsDigit(body[|body| - 1]);
    ParseFloatTrimmed(body);
  }

  /** A run of digits after a minus sign parses to the negated value. */
  lemma {:induction false} NegatedDigitsParse(body: string)
    requires body != [] && AllDigits(body)
    ensures ParseFloat(['-'] + body) == Some(-(DigitsValue(body) as real))
  {
    UnsignedDigits(body);
    var t := ['-'] + body;
    assert IsDigit(t[|t| - 1]) && t[1..] == body;
    ParseFloatTrimmed(t);
  }

  /** float(str(n)) == n for a natural number n. */
  lemma {:induction false} NatTextParses(n: nat)
    ensures ParseFloat(NatText(n)) == Some(n as real)
  {
    NatTextValue(n);
    DigitsParse(NatText(n));
  }

  /** float(str(-n)) == -n for a natural number n. */
  lemma {:induction false} NegatedNatTextParses(n: nat)
    ensures ParseFloat(['-'] + NatText(n)) == Some(-(n as real))
  {
    var t := NatText(n);
    NatTextValue(n);
    NegatedDigitsParse(t);
    assert (DigitsValue(t) as real) == n as real;
  }
}
