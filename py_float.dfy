/**
 * Python floats, modelled exactly: a finite float is a decimal number
 * (-1)^negative * mag / 10^scale, and there are the two infinities and NaN.
 * `ParseFloat` is float() applied to a string; `RenderNumber` is the string
 * str() / repr() gives for a float, in fixed-point notation.
 */
module PyFloat {
  import opened Optional
  import opened PyStr

  datatype Decimal = Decimal(negative: bool, mag: nat, scale: nat)

  datatype Number = Finite(d: Decimal) | Infinite(negative: bool) | NaN

  function Pow10(n: nat): (r: nat)
    ensures r >= 1
  {
    if n == 0 then 1 else 10 * Pow10(n - 1)
  }

  /** The exact value of a decimal. */
  function Value(d: Decimal): real {
    var m := d.mag as real / Pow10(d.scale) as real;
    if d.negative then -m else m
  }

  /** A decimal written with no superfluous trailing fraction zero. */
  predicate Normal(d: Decimal) {
    d.scale == 0 || d.mag % 10 != 0
  }

  /** Dividing numerator and denominator by ten keeps the value. */
  lemma ScaleDown(mag: nat, scale: nat)
    requires scale > 0 && mag % 10 == 0
    ensures (mag / 10) as real / Pow10(scale - 1) as real == mag as real / Pow10(scale) as real
  {
    var q, p := mag / 10, Pow10(scale - 1);
    assert mag == 10 * q;
    assert Pow10(scale) == 10 * p;
    assert mag as real == 10.0 * q as real;
    assert Pow10(scale) as real == 10.0 * p as real;
  }

  function Normalize(d: Decimal): (r: Decimal)
    ensures Normal(r) && r.negative == d.negative && Value(r) == Value(d)
    decreases d.scale
  {
    if d.scale > 0 && d.mag % 10 == 0 then
      ScaleDown(d.mag, d.scale);
      Normalize(Decimal(d.negative, d.mag / 10, d.scale - 1))
    else d
  }

  /** Integer division with a positive divisor (a helper that keeps the solver's work small). */
  function Quot(a: nat, b: nat): nat
    requires b >= 1
  {
    a / b
  }

  /** The value of a string of decimal digits. */
  function DigitsValue(s: string): nat
    requires AllDigits(s)
  {
    if s == [] then 0 else DigitsValue(s[..|s| - 1]) * 10 + (s[|s| - 1] as int - '0' as int)
  }

  lemma ShiftDigit(x: int, e: int, y: int, c: int)
    ensures (x * e + y) * 10 + c == x * (10 * e) + (y * 10 + c)
  {
  }

  lemma {:induction false} DigitsValueAppend(a: string, b: string)
    requires AllDigits(a) && AllDigits(b)
    ensures AllDigits(a + b)
    ensures DigitsValue(a + b) == DigitsValue(a) * Pow10(|b|) + DigitsValue(b)
  {
    assert AllDigits(a + b);
    if b == [] {
      assert a + b == a;
    } else {
      var b' := b[..|b| - 1];
      assert (a + b)[..|a + b| - 1] == a + b';
      DigitsValueAppend(a, b');
      ShiftDigit(DigitsValue(a), Pow10(|b'|), DigitsValue(b'), b[|b| - 1] as int - '0' as int);
    }
  }

  /** Reading the digits str() writes gives the number back. */
  lemma {:induction false} NatToStringValue(n: nat)
    ensures DigitsValue(NatToString(n)) == n
    decreases n
  {
    if n >= 10 {
      NatToStringValue(n / 10);
      var s := NatToString(n);
      assert s[..|s| - 1] == NatToString(n / 10);
    }
  }

  lemma {:induction false} NatToStringLength(n: nat, w: nat)
    requires w >= 1 && n < Pow10(w)
    ensures |NatToString(n)| <= w
    decreases n
  {
    if n >= 10 {
      assert Pow10(1) == 10;
      assert w >= 2;
      assert n / 10 < Pow10(w - 1);
      NatToStringLength(n / 10, w - 1);
    }
  }

  function Zeros(k: nat): (r: string)
    ensures |r| == k && AllDigits(r)
  {
    seq(k, i => '0')
  }

  lemma {:induction false} ZerosValue(k: nat)
    ensures DigitsValue(Zeros(k)) == 0
  {
    if k > 0 {
      assert Zeros(k)[..k - 1] == Zeros(k - 1);
      ZerosValue(k - 1);
    }
  }

  /** Left-pad with '0' to the given width. */
  function ZeroPad(s: string, width: nat): (r: string)
  {
    if |s| >= width then s else Zeros(width - |s|) + s
  }

  /** The integer part of a decimal's magnitude. */
  function IntPart(d: Decimal): nat {
    Quot(d.mag, Pow10(d.scale))
  }

  /** The digits after the decimal point that Python prints (at least one). */
  function FracDigits(d: Decimal): string {
    if d.scale == 0 then "0" else ZeroPad(NatToString(d.mag % Pow10(d.scale)), d.scale)
  }

  lemma FracDigitsFacts(d: Decimal)
    ensures AllDigits(FracDigits(d)) && |FracDigits(d)| >= 1
    ensures d.scale > 0 ==> |FracDigits(d)| == d.scale
    ensures DigitsValue(FracDigits(d)) == if d.scale == 0 then 0 else d.mag % Pow10(d.scale)
  {
    if d.scale > 0 {
      var f := d.mag % Pow10(d.scale);
      var s := NatToString(f);
      NatToStringLength(f, d.scale);
      NatToStringValue(f);
      if |s| < d.scale {
        DigitsValueAppend(Zeros(d.scale - |s|), s);
        ZerosValue(d.scale - |s|);
      }
    } else {
      assert "0"[..0] == [];
    }
  }

  /** The unsigned text of a decimal: integer digits, ".", fraction digits. */
  function DecimalBody(d: Decimal): string {
    NatToString(IntPart(d)) + "." + FracDigits(d)
  }

  /** repr() of a finite float, in fixed-point form ("1299.0", "-0.5"). */
  function RenderDecimal(d: Decimal): string {
    (if d.negative then "-" else "") + DecimalBody(d)
  }

  /**
   * str() of a float: never empty, no white space at either end, and made
   * only of float characters (`ParseRenderNumber` reads it back).
   */
  function RenderNumber(n: Number): (r: string)
    ensures r != "" && IsTrimmed(r)
    ensures AllFloatChars(r)
  {
    match n
    case Finite(d) => RenderDecimalShape(d); RenderDecimal(d)
    case Infinite(neg) => if neg then "-inf" else "inf"
    case NaN => "nan"
  }

  lemma RenderDecimalShape(d: Decimal)
    ensures RenderDecimal(d) != "" && IsTrimmed(RenderDecimal(d)) && AllFloatChars(RenderDecimal(d))
  {
    var body := DecimalBody(d);
    var s := RenderDecimal(d);
    DecimalBodyShape(d);
    assert s[|s| - 1] == body[|body| - 1];
    forall i | 0 <= i < |s| ensures IsFloatChar(s[i]) {
      if d.negative && i > 0 {
        assert s[i] == body[i - 1];
      } else if !d.negative {
        assert s[i] == body[i];
      }
    }
  }

  /** Splits at the first character in `cs`: (before, Some(after)), or (s, None). */
  function SplitAtFirst(s: string, cs: set<char>): (string, Option<string>)
  {
    if s == [] then ("", None)
    else if s[0] in cs then ("", Some(s[1..]))
    else
      var rest := SplitAtFirst(s[1..], cs);
      ([s[0]] + rest.0, rest.1)
  }

  lemma {:induction false} SplitAtFirstMiss(s: string, cs: set<char>)
    requires forall i | 0 <= i < |s| :: s[i] !in cs
    ensures SplitAtFirst(s, cs) == (s, None)
  {
    if s != [] {
      SplitAtFirstMiss(s[1..], cs);
      assert [s[0]] + s[1..] == s;
    }
  }

  lemma {:induction false} SplitAtFirstHit(a: string, c: char, b: string, cs: set<char>)
    requires forall i | 0 <= i < |a| :: a[i] !in cs
    requires c in cs
    ensures SplitAtFirst(a + [c] + b, cs) == (a, Some(b))
  {
    if a != [] {
      var s := a + [c] + b;
      assert s[0] == a[0] && s[1..] == a[1..] + [c] + b;
      SplitAtFirstHit(a[1..], c, b, cs);
      assert [a[0]] + a[1..] == a;
    } else {
      assert (a + [c] + b)[1..] == b;
    }
  }

  /** digits, or digits "." digits with at least one digit in all (unsigned). */
  function ParseMantissa(m: string): (r: Option<Decimal>)
    ensures r.Some? ==> !r.value.negative
  {
    var (ip, fp) := SplitAtFirst(m, {'.'});
    match fp
    case None =>
      if |ip| >= 1 && AllDigits(ip) then Some(Decimal(false, DigitsValue(ip), 0)) else None
    case Some(f) =>
      if AllDigits(ip) && AllDigits(f) && |ip| + |f| >= 1 then
        DigitsValueAppend(ip, f);
        Some(Decimal(false, DigitsValue(ip + f), |f|))
      else None
  }

  /** An exponent: an optional sign followed by at least one digit. */
  function ParseExponent(e: string): Option<int> {
    var signed := |e| > 0 && (e[0] == '-' || e[0] == '+');
    var digits := if signed then e[1..] else e;
    if |digits| >= 1 && AllDigits(digits) then
      Some(if signed && e[0] == '-' then -(DigitsValue(digits) as int) else DigitsValue(digits))
    else None
  }

  /** Multiplies by 10^x. */
  function Shift(d: Decimal, x: int): Decimal {
    if x >= d.scale then Decimal(d.negative, d.mag * Pow10(x - d.scale), 0)
    else Decimal(d.negative, d.mag, d.scale - x)
  }

  /** An unsigned decimal literal with an optional exponent. */
  function ParseScientific(body: string): Option<Decimal> {
    var (m, e) := SplitAtFirst(body, {'e', 'E'});
    match ParseMantissa(m)
    case None => None
    case Some(d) =>
      match e
      case None => Some(d)
      case Some(et) =>
        match ParseExponent(et)
        case None => None
        case Some(x) => Some(Shift(d, x))
  }

  predicate IsInfName(body: string) {
    var low := Lower(body);
    low == "inf" || low == "infinity"
  }

  predicate IsNanName(body: string) {
    Lower(body) == "nan"
  }

  /** float() of what follows the sign. */
  function ParseUnsigned(neg: bool, body: string): (r: Option<Number>)
    ensures r.Some? && r.value.Finite? ==> Normal(r.value.d)
  {
    if IsInfName(body) then Some(Infinite(neg))
    else if IsNanName(body) then Some(NaN)
    else
      match ParseScientific(body)
      case None => None
      case Some(d) => Some(Finite(Normalize(Decimal(neg, d.mag, d.scale))))
  }

  /**
   * The value of a decimal digit of any script (Unicode 15.0, general
   * category Nd), None for any other character.
   */
  function DecimalDigit(c: char): (r: Option<nat>)
    ensures r.Some? ==> r.value < 10
    ensures c < '\U{7F}' ==> (r.Some? <==> IsDigit(c))
    ensures IsDigit(c) ==> r == Some(c as int - '0' as int)
  {
    if c < '\U{7F}' then
      (if IsDigit(c) then Some(c as int - '0' as int) else None)
    else OtherScriptDigit(c as int)
  }

  /** The decimal digits beyond ASCII. */
  function OtherScriptDigit(x: int): (r: Option<nat>)
    ensures r.Some? ==> r.value < 10
  {
    var z := BlockZero(x);
    if 0 <= z <= x < z + 10 then Some(x - z) else None
  }

  /**
   * The code point of the zero of the block of decimal digits holding `x`,
   * or -1. Every script's digits are a block of ten consecutive code
   * points, zero to nine.
   */
  function BlockZero(x: int): int {
    if 0x660 <= x < 0x660 + 10 then 0x660
    else if 0x6F0 <= x < 0x6F0 + 10 then 0x6F0
    else if 0x7C0 <= x < 0x7C0 + 10 then 0x7C0
    else if 0x966 <= x < 0x966 + 10 then 0x966
    else if 0x9E6 <= x < 0x9E6 + 10 then 0x9E6
    else if 0xA66 <= x < 0xA66 + 10 then 0xA66
    else if 0xAE6 <= x < 0xAE6 + 10 then 0xAE6
    else if 0xB66 <= x < 0xB66 + 10 then 0xB66
    else if 0xBE6 <= x < 0xBE6 + 10 then 0xBE6
    else if 0xC66 <= x < 0xC66 + 10 then 0xC66
    else if 0xCE6 <= x < 0xCE6 + 10 then 0xCE6
    else if 0xD66 <= x < 0xD66 + 10 then 0xD66
    else if 0xDE6 <= x < 0xDE6 + 10 then 0xDE6
    else if 0xE50 <= x < 0xE50 + 10 then 0xE50
    else if 0xED0 <= x < 0xED0 + 10 then 0xED0
    else if 0xF20 <= x < 0xF20 + 10 then 0xF20
    else if 0x1040 <= x < 0x1040 + 10 then 0x1040
    else if 0x1090 <= x < 0x1090 + 10 then 0x1090
    else if 0x17E0 <= x < 0x17E0 + 10 then 0x17E0
    else if 0x1810 <= x < 0x1810 + 10 then 0x1810
    else if 0x1946 <= x < 0x1946 + 10 then 0x1946
    else if 0x19D0 <= x < 0x19D0 + 10 then 0x19D0
    else if 0x1A80 <= x < 0x1A80 + 10 then 0x1A80
    else if 0x1A90 <= x < 0x1A90 + 10 then 0x1A90
    else if 0x1B50 <= x < 0x1B50 + 10 then 0x1B50
    else if 0x1BB0 <= x < 0x1BB0 + 10 then 0x1BB0
    else if 0x1C40 <= x < 0x1C40 + 10 then 0x1C40
    else if 0x1C50 <= x < 0x1C50 + 10 then 0x1C50
    else if 0xA620 <= x < 0xA620 + 10 then 0xA620
    else if 0xA8D0 <= x < 0xA8D0 + 10 then 0xA8D0
    else if 0xA900 <= x < 0xA900 + 10 then 0xA900
    else if 0xA9D0 <= x < 0xA9D0 + 10 then 0xA9D0
    else if 0xA9F0 <= x < 0xA9F0 + 10 then 0xA9F0
    else if 0xAA50 <= x < 0xAA50 + 10 then 0xAA50
    else if 0xABF0 <= x < 0xABF0 + 10 then 0xABF0
    else if 0xFF10 <= x < 0xFF10 + 10 then 0xFF10
    else if 0x104A0 <= x < 0x104A0 + 10 then 0x104A0
    else if 0x10D30 <= x < 0x10D30 + 10 then 0x10D30
    else if 0x11066 <= x < 0x11066 + 10 then 0x11066
    else if 0x110F0 <= x < 0x110F0 + 10 then 0x110F0
    else if 0x11136 <= x < 0x11136 + 10 then 0x11136
    else if 0x111D0 <= x < 0x111D0 + 10 then 0x111D0
    else if 0x112F0 <= x < 0x112F0 + 10 then 0x112F0
    else if 0x11450 <= x < 0x11450 + 10 then 0x11450
    else if 0x114D0 <= x < 0x114D0 + 10 then 0x114D0
    else if 0x11650 <= x < 0x11650 + 10 then 0x11650
    else if 0x116C0 <= x < 0x116C0 + 10 then 0x116C0
    else if 0x11730 <= x < 0x11730 + 10 then 0x11730
    else if 0x118E0 <= x < 0x118E0 + 10 then 0x118E0
    else if 0x11950 <= x < 0x11950 + 10 then 0x11950
    else if 0x11C50 <= x < 0x11C50 + 10 then 0x11C50
    else if 0x11D50 <= x < 0x11D50 + 10 then 0x11D50
    else if 0x11DA0 <= x < 0x11DA0 + 10 then 0x11DA0
    else if 0x11F50 <= x < 0x11F50 + 10 then 0x11F50
    else if 0x16A60 <= x < 0x16A60 + 10 then 0x16A60
    else if 0x16AC0 <= x < 0x16AC0 + 10 then 0x16AC0
    else if 0x16B50 <= x < 0x16B50 + 10 then 0x16B50
    else if 0x1D7CE <= x < 0x1D7CE + 10 then 0x1D7CE
    else if 0x1D7D8 <= x < 0x1D7D8 + 10 then 0x1D7D8
    else if 0x1D7E2 <= x < 0x1D7E2 + 10 then 0x1D7E2
    else if 0x1D7EC <= x < 0x1D7EC + 10 then 0x1D7EC
    else if 0x1D7F6 <= x < 0x1D7F6 + 10 then 0x1D7F6
    else if 0x1E140 <= x < 0x1E140 + 10 then 0x1E140
    else if 0x1E2F0 <= x < 0x1E2F0 + 10 then 0x1E2F0
    else if 0x1E4F0 <= x < 0x1E4F0 + 10 then 0x1E4F0
    else if 0x1E950 <= x < 0x1E950 + 10 then 0x1E950
    else if 0x1FBF0 <= x < 0x1FBF0 + 10 then 0x1FBF0
    else -1
  }

  /**
   * What float() reads in place of one character before it parses: ASCII
   * is kept, any other white space reads as a blank and any other decimal
   * digit as the ASCII digit of the same value; any other character makes
   * the whole text unreadable (None).
   */
  function AsciiOf(c: char): (r: Option<char>)
    ensures r.Some? ==> r.value < '\U{7F}'
  {
    if c < '\U{7F}' then Some(c)
    else if IsSpace(c) then Some(' ')
    else
      match DecimalDigit(c)
      case Some(d) => Some(DigitChar(d))
      case None => None
  }

  /** The ASCII text float() reads in place of `s`, or None when one character has no reading. */
  function ToAscii(s: string): (r: Option<string>)
    ensures r.Some? ==> |r.value| == |s|
  {
    if s == [] then Some([])
    else
      var c := AsciiOf(s[0]);
      var rest := ToAscii(s[1..]);
      if c.Some? && rest.Some? then Some([c.value] + rest.value) else None
  }

  /** Texts read character by character as `t` are read as `t`. */
  lemma {:induction false} ToAsciiOfReadings(s: string, t: string)
    requires |s| == |t| && forall i | 0 <= i < |s| :: AsciiOf(s[i]) == Some(t[i])
    ensures ToAscii(s) == Some(t)
  {
    if s != [] {
      ToAsciiOfReadings(s[1..], t[1..]);
      assert [t[0]] + t[1..] == t;
    }
  }

  /** Each character of the reading is the reading of the character in its place. */
  lemma {:induction false} ToAsciiPointwise(s: string)
    requires ToAscii(s).Some?
    ensures forall i | 0 <= i < |s| :: Some(ToAscii(s).value[i]) == AsciiOf(s[i])
  {
    if s != [] {
      ToAsciiPointwise(s[1..]);
      var r := ToAscii(s).value;
      assert r == [AsciiOf(s[0]).value] + ToAscii(s[1..]).value;
      forall i | 1 <= i < |s| ensures Some(r[i]) == AsciiOf(s[i]) {
        assert r[i] == ToAscii(s[1..]).value[i - 1];
        assert s[i] == s[1..][i - 1];
      }
    }
  }

  /** Every underscore stands between two ASCII digits. */
  predicate UnderscoresBetweenDigits(a: string) {
    forall i | 0 <= i < |a| :: UnderscoreAt(a, i)
  }

  /** Position i holds no underscore, or one with an ASCII digit on either side. */
  predicate UnderscoreAt(a: string, i: int)
    requires 0 <= i < |a|
  {
    a[i] == '_' ==> 0 < i < |a| - 1 && IsDigit(a[i - 1]) && IsDigit(a[i + 1])
  }

  /**
   * The four information separators U+001C..U+001F: str.isspace() counts
   * them as white space, but the isspace() of the C library, which float()
   * strips with once the text is ASCII, does not.
   */
  predicate IsInfoSeparator(c: char) {
    '\U{1C}' <= c <= '\U{1F}'
  }

  predicate HasInfoSeparator(a: string) {
    a != [] && (IsInfoSeparator(a[0]) || HasInfoSeparator(a[1..]))
  }

  lemma {:induction false} NoInfoSeparator(a: string)
    requires forall i | 0 <= i < |a| :: !IsInfoSeparator(a[i])
    ensures !HasInfoSeparator(a)
  {
    if a != [] {
      assert forall i | 0 <= i < |a[1..]| :: a[1..][i] == a[i + 1];
      NoInfoSeparator(a[1..]);
    }
  }

  lemma {:induction false} InfoSeparatorAt(a: string, i: int)
    requires 0 <= i < |a| && IsInfoSeparator(a[i])
    ensures HasInfoSeparator(a)
  {
    if i > 0 {
      assert a[1..][i - 1] == a[i];
      InfoSeparatorAt(a[1..], i - 1);
    }
  }

  /**
   * The parser float() runs once the text is ASCII and free of underscores:
   * surrounding C white space is ignored, then an optional sign, then "inf",
   * "infinity" or "nan" in any case, or a decimal literal. On ASCII text, C
   * white space is str.isspace() without the information separators, which
   * are then left in place, where no float character matches them: so a
   * text holding one is rejected, and any other is stripped with str.strip().
   */
  function ParseNumeral(a: string): (r: Option<Number>)
    ensures r.Some? && r.value.Finite? ==> Normal(r.value.d)
  {
    if HasInfoSeparator(a) then None else ParseSigned(Trim(a))
  }

  /** An optional sign, then what follows it. */
  function ParseSigned(t: string): (r: Option<Number>)
    ensures r.Some? && r.value.Finite? ==> Normal(r.value.d)
  {
    if |t| > 0 && t[0] == '-' then ParseUnsigned(true, t[1..])
    else if |t| > 0 && t[0] == '+' then ParseUnsigned(false, t[1..])
    else ParseUnsigned(false, t)
  }

  /**
   * float(s) for a string. Every character is first read as ASCII
   * (`AsciiOf`); underscores are then allowed only between two digits and
   * are dropped; what is left goes to `ParseNumeral`. None stands for the
   * ValueError float() raises.
   */
  function ParseFloat(s: string): (r: Option<Number>)
    ensures r.Some? && r.value.Finite? ==> Normal(r.value.d)
  {
    match ToAscii(s)
    case None => None
    case Some(a) =>
      if '_' !in a then ParseNumeral(a)
      else if UnderscoresBetweenDigits(a) then ParseNumeral(ReplaceChar(a, '_', ""))
      else None
  }

  /** ASCII throughout, with no underscore and no information separator: the text float() parses as it stands. */
  predicate IsBareAscii(s: string) {
    forall i | 0 <= i < |s| :: s[i] < '\U{7F}' && s[i] != '_' && !IsInfoSeparator(s[i])
  }

  /** A bare ASCII text is handed to the parser unchanged. */
  lemma ParseFloatOfBare(s: string)
    requires IsBareAscii(s)
    ensures ParseFloat(s) == ParseNumeral(s)
  {
    ToAsciiOfReadings(s, s);
  }

  /**
   * Characters read alike give the same float: a text of decimal digits
   * and white space of any script reads as its ASCII counterpart.
   */
  lemma ParseFloatTransliterated(s: string, t: string)
    requires |s| == |t| && IsBareAscii(t)
    requires forall i | 0 <= i < |s| :: AsciiOf(s[i]) == Some(t[i])
    ensures ParseFloat(s) == ParseFloat(t)
  {
    ToAsciiOfReadings(s, t);
    ParseFloatOfBare(t);
  }

  /**
   * The characters a string float() accepts can hold once stripped:
   * digits, the point, signs, and the letters of "e", "inf", "infinity"
   * and "nan" in either case.
   */
  predicate IsFloatChar(c: char) {
    IsDigit(c) || c == '.' || c == '+' || c == '-' || LowerChar(c) in {'e', 'i', 'n', 'f', 't', 'y', 'a'}
  }

  predicate AllFloatChars(s: string) {
    forall i | 0 <= i < |s| :: IsFloatChar(s[i])
  }

  /** Each character ends up before the split point, is the separator, or comes after it. */
  lemma {:induction false} SplitAtFirstCovers(s: string, cs: set<char>)
    ensures var (a, b) := SplitAtFirst(s, cs);
      forall i | 0 <= i < |s| :: s[i] in cs || s[i] in a || (b.Some? && s[i] in b.value)
  {
    if s != [] && s[0] !in cs {
      SplitAtFirstCovers(s[1..], cs);
      var rest := SplitAtFirst(s[1..], cs);
      forall i | 0 <= i < |s| ensures s[i] in cs || s[i] in [s[0]] + rest.0 || (rest.1.Some? && s[i] in rest.1.value) {
        if i > 0 {
          assert s[i] == s[1..][i - 1];
        }
      }
    } else if s != [] {
      forall i | 1 <= i < |s| ensures s[i] in s[1..] {
        assert s[i] == s[1..][i - 1];
      }
    }
  }

  lemma DigitsAreFloatChars(s: string)
    requires AllDigits(s)
    ensures AllFloatChars(s)
  {
  }

  lemma MantissaChars(m: string)
    requires ParseMantissa(m).Some?
    ensures AllFloatChars(m)
  {
    SplitAtFirstCovers(m, {'.'});
  }

  lemma ExponentChars(e: string)
    requires ParseExponent(e).Some?
    ensures AllFloatChars(e)
  {
    var signed := |e| > 0 && (e[0] == '-' || e[0] == '+');
    if signed {
      forall i | 1 <= i < |e| ensures IsFloatChar(e[i]) {
        assert e[i] == e[1..][i - 1];
      }
    }
  }

  lemma ScientificChars(body: string)
    requires ParseScientific(body).Some?
    ensures AllFloatChars(body)
  {
    var (m, e) := SplitAtFirst(body, {'e', 'E'});
    SplitAtFirstCovers(body, {'e', 'E'});
    MantissaChars(m);
    if e.Some? {
      ExponentChars(e.value);
    }
    forall i | 0 <= i < |body| ensures IsFloatChar(body[i]) {
      if body[i] in m {
        var j :| 0 <= j < |m| && m[j] == body[i];
      } else if e.Some? && body[i] in e.value {
        var j :| 0 <= j < |e.value| && e.value[j] == body[i];
      }
    }
  }

  lemma NameChars(body: string)
    requires IsInfName(body) || IsNanName(body)
    ensures AllFloatChars(body)
  {
    var low := Lower(body);
    forall i | 0 <= i < |body| ensures IsFloatChar(body[i]) {
      assert low[i] == LowerChar(body[i]);
      assert low[i] in low;
    }
  }

  lemma UnsignedChars(neg: bool, body: string)
    requires ParseUnsigned(neg, body).Some?
    ensures AllFloatChars(body)
  {
    if IsInfName(body) || IsNanName(body) {
      NameChars(body);
    } else {
      ScientificChars(body);
    }
  }

  /** The parser accepts a text only if its stripped form is made of float characters. */
  lemma NumeralChars(a: string)
    requires ParseNumeral(a).Some?
    ensures AllFloatChars(Trim(a))
  {
    var t := Trim(a);
    if |t| > 0 && (t[0] == '-' || t[0] == '+') {
      UnsignedChars(t[0] == '-', t[1..]);
      forall i | 1 <= i < |t| ensures IsFloatChar(t[i]) {
        assert t[i] == t[1..][i - 1];
      }
    } else {
      UnsignedChars(false, t);
    }
  }

  /**
   * Every character of a text float() accepts is white space, a float
   * character, an underscore, or a decimal digit of some script.
   */
  lemma ParseFloatChars(s: string)
    requires ParseFloat(s).Some?
    ensures forall i | 0 <= i < |s| :: IsSpace(s[i]) || IsFloatChar(s[i]) || s[i] == '_' || DecimalDigit(s[i]).Some?
  {
    var a := ToAscii(s).value;
    var b := Ununderscored(a);
    assert ParseNumeral(b).Some?;
    forall i | 0 <= i < |s| ensures IsSpace(s[i]) || IsFloatChar(s[i]) || s[i] == '_' || DecimalDigit(s[i]).Some? {
      ReadingChar(s, a, i);
    }
  }

  /** The text handed to the parser: the reading with its underscores dropped. */
  function Ununderscored(a: string): string {
    if '_' in a then ReplaceChar(a, '_', "") else a
  }

  /** A character of a text whose reading the parser accepts. */
  lemma ReadingChar(s: string, a: string, i: int)
    requires ToAscii(s) == Some(a) && ParseNumeral(Ununderscored(a)).Some? && 0 <= i < |s|
    ensures IsSpace(s[i]) || IsFloatChar(s[i]) || s[i] == '_' || DecimalDigit(s[i]).Some?
  {
    var c := s[i];
    var b := Ununderscored(a);
    ToAsciiPointwise(s);
    assert Some(a[i]) == AsciiOf(c);
    if c < '\U{7F}' && c != '_' && !IsSpace(c) {
      assert c in a;
      if '_' in a {
        ReplaceCharKeeps(a, '_', "", c);
      }
      NumeralChars(b);
      TrimKeeps(b, c);
      var j :| 0 <= j < |Trim(b)| && Trim(b)[j] == c;
    }
  }

  /**
   * A text holding a character that is neither white space, a float
   * character, an underscore nor a decimal digit is rejected.
   */
  lemma ParseFloatRejects(s: string, c: char)
    requires c in s && !IsSpace(c) && !IsFloatChar(c) && c != '_' && DecimalDigit(c).None?
    ensures ParseFloat(s) == None
  {
    if ParseFloat(s).Some? {
      ParseFloatChars(s);
      assert false;
    }
  }

  lemma DollarCommaNoFloatChars()
    ensures !IsFloatChar('$') && !IsSpace('$') && DecimalDigit('$').None?
    ensures !IsFloatChar(',') && !IsSpace(',') && DecimalDigit(',').None?
  {
  }

  /** A stripped ASCII text that starts with a digit carries no sign. */
  lemma ParseFloatOfDigitStart(t: string)
    requires IsTrimmed(t) && IsBareAscii(t) && t != [] && IsDigit(t[0])
    ensures ParseFloat(t) == ParseUnsigned(false, t)
  {
    ParseFloatOfBare(t);
    NoInfoSeparator(t);
    NumeralOfTrimmed(t);
  }

  /** An underscore at either end, or beside anything but a digit, makes the text unreadable. */
  lemma ParseFloatRejectsStrayUnderscore(s: string, i: int)
    requires 0 <= i < |s| && s[i] == '_'
    requires i == 0 || i == |s| - 1 || DecimalDigit(s[i - 1]).None? || DecimalDigit(s[i + 1]).None?
    ensures ParseFloat(s) == None
  {
    if ToAscii(s).Some? {
      var a := ToAscii(s).value;
      ToAsciiPointwise(s);
      assert a[i] == '_';
      assert !UnderscoreAt(a, i) by {
        if 0 < i < |s| - 1 {
          assert Some(a[i - 1]) == AsciiOf(s[i - 1]);
          assert Some(a[i + 1]) == AsciiOf(s[i + 1]);
        }
      }
    }
  }

  /**
   * An information separator anywhere makes the text unreadable, although
   * str.strip() would remove one at either end.
   */
  lemma ParseFloatRejectsInfoSeparator(s: string, i: int)
    requires 0 <= i < |s| && IsInfoSeparator(s[i])
    ensures ParseFloat(s) == None
  {
    if ToAscii(s).Some? {
      var a := ToAscii(s).value;
      ToAsciiPointwise(s);
      assert Some(a[i]) == AsciiOf(s[i]);
      var b := Ununderscored(a);
      assert s[i] in a;
      if '_' in a {
        ReplaceCharKeeps(a, '_', "", s[i]);
      }
      var j :| 0 <= j < |b| && b[j] == s[i];
      InfoSeparatorAt(b, j);
    }
  }

  /** "١٢٣", one two three in Arabic-Indic digits. */
  const ArabicIndicDigits: string := "\U{661}\U{662}\U{663}"

  /** float("\u0661\u0662\u0663"), Arabic-Indic digits, is 123. */
  lemma ParseFloatOfArabicIndic()
    ensures ParseFloat(ArabicIndicDigits) == Some(Finite(Decimal(false, 123, 0)))
  {
    var s := ArabicIndicDigits;
    assert AsciiOf(s[0]) == Some('1') && AsciiOf(s[1]) == Some('2') && AsciiOf(s[2]) == Some('3');
    ParseFloatTransliterated(s, "123");
    ParseFloatOfDigits("123");
    assert DigitsValue("123") == 123 by {
      assert "123"[..2] == "12" && "12"[..1] == "1" && "1"[..0] == "";
    }
  }

  /** An underscore between two runs of digits is dropped: float("1_000") == float("1000"). */
  lemma ParseFloatOfUnderscored(a: string, b: string)
    requires a != [] && AllDigits(a) && b != [] && AllDigits(b)
    ensures ParseFloat(a + "_" + b) == ParseFloat(a + b)
  {
    var s := a + "_" + b;
    assert s == a + ['_'] + b;
    forall i | 0 <= i < |s| ensures AsciiOf(s[i]) == Some(s[i]) && UnderscoreAt(s, i) {
      if i < |a| {
        assert s[i] == a[i];
      } else if i > |a| {
        assert s[i] == b[i - |a| - 1];
      } else {
        assert s[i - 1] == a[|a| - 1] && s[i + 1] == b[0];
      }
    }
    ToAsciiOfReadings(s, s);
    assert s[|a|] == '_';
    ReplaceCharOnce(a, '_', b, "");
    assert a + "" + b == a + b;
    AllDigitsAppend(a, b);
    ParseFloatOfBare(a + b);
  }

  /** A text without an exponent marker is read as a bare mantissa. */
  lemma ScientificOfPlain(t: string)
    requires forall i | 0 <= i < |t| :: t[i] != 'e' && t[i] != 'E'
    ensures ParseScientific(t) == ParseMantissa(t)
  {
    SplitAtFirstMiss(t, {'e', 'E'});
  }

  /** A digit-led text is never a name, so it is read as a decimal literal. */
  lemma UnsignedOfDigitStart(t: string)
    requires t != [] && IsDigit(t[0])
    ensures ParseUnsigned(false, t) ==
              match ParseScientific(t)
              case None => None
              case Some(d) => Some(Finite(Normalize(Decimal(false, d.mag, d.scale))))
  {
    DigitFirstIsNoName(t);
  }

  lemma MantissaOfDigits(t: string)
    requires t != [] && AllDigits(t)
    ensures ParseMantissa(t) == Some(Decimal(false, DigitsValue(t), 0))
  {
    SplitAtFirstMiss(t, {'.'});
  }

  lemma MantissaOfPointed(a: string, f: string)
    requires a != [] && AllDigits(a) && f != [] && AllDigits(f)
    ensures AllDigits(a + f)
    ensures ParseMantissa(a + "." + f) == Some(Decimal(false, DigitsValue(a + f), |f|))
  {
    assert a + "." + f == a + ['.'] + f;
    SplitAtFirstHit(a, '.', f, {'.'});
    DigitsValueAppend(a, f);
  }

  /** float() of a run of digits. */
  lemma ParseFloatOfDigits(t: string)
    requires t != [] && AllDigits(t)
    ensures ParseFloat(t) == Some(Finite(Normalize(Decimal(false, DigitsValue(t), 0))))
  {
    assert IsDigit(t[0]) && IsDigit(t[|t| - 1]);
    ParseFloatOfDigitStart(t);
    UnsignedOfDigitStart(t);
    ScientificOfPlain(t);
    MantissaOfDigits(t);
  }

  /** float() of digits, a point and more digits. */
  lemma ParseFloatOfPointed(a: string, f: string)
    requires a != [] && AllDigits(a) && f != [] && AllDigits(f)
    ensures AllDigits(a + f)
    ensures ParseFloat(a + "." + f) == Some(Finite(Normalize(Decimal(false, DigitsValue(a + f), |f|))))
  {
    var t := a + "." + f;
    assert t[0] == a[0] && t[|t| - 1] == f[|f| - 1];
    forall i | 0 <= i < |t| ensures t[i] != 'e' && t[i] != 'E' {
      if i < |a| { assert t[i] == a[i]; }
      else if i > |a| { assert t[i] == f[i - |a| - 1]; }
    }
    ParseFloatOfDigitStart(t);
    UnsignedOfDigitStart(t);
    ScientificOfPlain(t);
    MantissaOfPointed(a, f);
  }

  lemma DigitFirstIsNoName(body: string)
    requires |body| > 0 && IsDigit(body[0])
    ensures !IsInfName(body) && !IsNanName(body)
  {
    assert Lower(body)[0] == body[0];
  }

  lemma DecimalBodyShape(d: Decimal)
    ensures |DecimalBody(d)| >= 3
    ensures IsDigit(DecimalBody(d)[0]) && IsDigit(DecimalBody(d)[|DecimalBody(d)| - 1])
    ensures forall i | 0 <= i < |DecimalBody(d)| :: DecimalBody(d)[i] !in {'e', 'E'}
    ensures forall i | 0 <= i < |DecimalBody(d)| :: IsDigit(DecimalBody(d)[i]) || DecimalBody(d)[i] == '.'
  {
    var ip := NatToString(IntPart(d));
    var fp := FracDigits(d);
    FracDigitsFacts(d);
    var body := ip + "." + fp;
    assert body == DecimalBody(d);
    forall i | 0 <= i < |body| ensures body[i] !in {'e', 'E'} && (IsDigit(body[i]) || body[i] == '.') {
      if i < |ip| { assert body[i] == ip[i]; }
      else if i > |ip| { assert body[i] == fp[i - |ip| - 1]; }
    }
  }

  lemma DecimalBodySplit(d: Decimal)
    ensures SplitAtFirst(DecimalBody(d), {'.'}) == (NatToString(IntPart(d)), Some(FracDigits(d)))
  {
    var ip := NatToString(IntPart(d));
    assert DecimalBody(d) == ip + ['.'] + FracDigits(d);
    SplitAtFirstHit(ip, '.', FracDigits(d), {'.'});
  }

  lemma IntFracCombine(d: Decimal)
    requires d.scale > 0
    ensures IntPart(d) * Pow10(d.scale) + d.mag % Pow10(d.scale) == d.mag
  {
  }

  /** The digits around the point read back as the same magnitude and scale. */
  lemma MantissaOfBody(d: Decimal)
    ensures ParseMantissa(DecimalBody(d))
      == Some(if d.scale == 0 then Decimal(false, d.mag * 10, 1) else Decimal(false, d.mag, d.scale))
  {
    var ip := NatToString(IntPart(d));
    var fp := FracDigits(d);
    DecimalBodySplit(d);
    FracDigitsFacts(d);
    DigitsValueAppend(ip, fp);
    NatToStringValue(IntPart(d));
    if d.scale == 0 {
      assert Pow10(0) == 1;
      assert DigitsValue(ip + fp) == d.mag * 10;
    } else {
      IntFracCombine(d);
    }
  }

  lemma ScientificOfBody(d: Decimal)
    ensures ParseScientific(DecimalBody(d)) == ParseMantissa(DecimalBody(d))
  {
    DecimalBodyShape(d);
    SplitAtFirstMiss(DecimalBody(d), {'e', 'E'});
  }

  /** float() of a sign followed by a stripped ASCII body that does not itself start with a sign. */
  lemma ParseFloatOfSigned(neg: bool, body: string)
    requires IsTrimmed(body) && IsBareAscii(body) && |body| > 0 && body[0] != '-' && body[0] != '+'
    ensures ParseFloat((if neg then "-" else "") + body) == ParseUnsigned(neg, body)
  {
    var s := (if neg then "-" else "") + body;
    SignedShape(neg, body);
    ParseFloatOfBare(s);
    NumeralOfSigned(neg, body);
  }

  lemma SignedShape(neg: bool, body: string)
    requires IsTrimmed(body) && IsBareAscii(body) && |body| > 0
    ensures IsTrimmed((if neg then "-" else "") + body) && IsBareAscii((if neg then "-" else "") + body)
  {
    var s := (if neg then "-" else "") + body;
    assert s[|s| - 1] == body[|body| - 1];
    forall i | 0 <= i < |s| ensures s[i] < '\U{7F}' && s[i] != '_' && !IsInfoSeparator(s[i]) {
      if neg && i > 0 { assert s[i] == body[i - 1]; }
    }
  }

  lemma NumeralOfSigned(neg: bool, body: string)
    requires IsTrimmed(body) && IsBareAscii(body) && |body| > 0 && body[0] != '-' && body[0] != '+'
    ensures ParseNumeral((if neg then "-" else "") + body) == ParseUnsigned(neg, body)
  {
    var s := (if neg then "-" else "") + body;
    SignedShape(neg, body);
    NoInfoSeparator(s);
    NumeralOfTrimmed(s);
    SignedOfBody(neg, body);
  }

  /** A stripped text without information separators goes straight to the sign. */
  lemma NumeralOfTrimmed(s: string)
    requires IsTrimmed(s) && !HasInfoSeparator(s)
    ensures ParseNumeral(s) == ParseSigned(s)
  {
    TrimOfTrimmed(s);
  }

  lemma SignedOfBody(neg: bool, body: string)
    requires |body| > 0 && body[0] != '-' && body[0] != '+'
    ensures ParseSigned((if neg then "-" else "") + body) == ParseUnsigned(neg, body)
  {
    var s := (if neg then "-" else "") + body;
    if neg {
      assert s[1..] == body;
    } else {
      assert s == body;
    }
  }

  lemma UnsignedOfBody(d: Decimal)
    requires Normal(d)
    ensures ParseUnsigned(d.negative, DecimalBody(d)) == Some(Finite(d))
  {
    var body := DecimalBody(d);
    DecimalBodyShape(d);
    DigitFirstIsNoName(body);
    ScientificOfBody(d);
    MantissaOfBody(d);
    if d.scale == 0 {
      NormalizeTenth(d.negative, d.mag);
    }
  }

  /** A whole number written with one zero decimal normalises back to itself. */
  lemma NormalizeTenth(negative: bool, mag: nat)
    ensures Normalize(Decimal(negative, mag * 10, 1)) == Decimal(negative, mag, 0)
  {
    var m := mag * 10;
    assert m % 10 == 0 && m / 10 == mag;
  }

  /** float(repr(x)) == x for every finite float written in normal form. */
  lemma ParseRender(d: Decimal)
    requires Normal(d)
    ensures ParseFloat(RenderDecimal(d)) == Some(Finite(d))
  {
    DecimalBodyShape(d);
    UnsignedOfBody(d);
    ParseFloatOfSigned(d.negative, DecimalBody(d));
  }

  lemma ParseRenderInfinite(neg: bool)
    ensures ParseFloat(RenderNumber(Infinite(neg))) == Some(Infinite(neg))
  {
    var body := "inf";
    UnsignedOfInf(neg);
    assert RenderNumber(Infinite(neg)) == (if neg then "-" else "") + body;
    ParseFloatOfSigned(neg, body);
  }

  lemma UnsignedOfInf(neg: bool)
    ensures ParseUnsigned(neg, "inf") == Some(Infinite(neg))
  {
    assert Lower("inf") == "inf";
  }

  /** float(str(x)) == x for every float but NaN (NaN is not equal to itself). */
  lemma ParseRenderNumber(n: Number)
    requires n.Finite? ==> Normal(n.d)
    ensures ParseFloat(RenderNumber(n)) == Some(n)
  {
    match n
    case Finite(d) => ParseRender(d);
    case Infinite(neg) => ParseRenderInfinite(neg);
    case NaN => ParseRenderNaN();
  }

  lemma ParseRenderNaN()
    ensures ParseFloat(RenderNumber(NaN)) == Some(NaN)
  {
    var body := "nan";
    UnsignedOfNan();
    assert RenderNumber(NaN) == "" + body;
    ParseFloatOfSigned(false, body);
  }

  lemma UnsignedOfNan()
    ensures ParseUnsigned(false, "nan") == Some(NaN)
  {
    assert Lower("nan") == "nan";
  }
}
