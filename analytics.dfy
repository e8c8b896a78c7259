/**
 * The analytics summary: the price coercion that turns price texts such
 * as "₹1,299–₹1,499" into numbers, the first-present column rules, and
 * the category, label and brand histograms of the summary endpoint.
 */
module Analytics {
  import opened Optional
  import opened PyStr
  import opened PyFloat
  import opened Values
  import opened Ranking
  import opened Frames
  import opened ValueCounts
  import VectorStore

  // ---------------------------------------------------------------------
  // _range_to_mean
  // ---------------------------------------------------------------------

  const EnDash: char := '\U{2013}'
  const EmDash: char := '\U{2014}'

  /** x.replace("–", "-").replace("—", "-") */
  function ReplaceDashes(x: string): (r: string)
    ensures EnDash !in r && EmDash !in r
  {
    var y := ReplaceChar(x, EnDash, "-");
    ReplaceCharAvoids(y, EmDash, "-", EnDash);
    ReplaceChar(y, EmDash, "-")
  }

  /** Only the two dashes change, each into "-", and nothing moves. */
  lemma ReplaceDashesPointwise(x: string)
    ensures |ReplaceDashes(x)| == |x|
    ensures forall i | 0 <= i < |x| ::
              ReplaceDashes(x)[i] == if x[i] == EnDash || x[i] == EmDash then '-' else x[i]
  {
    ReplaceCharWithChar(x, EnDash, '-');
    var y := ReplaceChar(x, EnDash, "-");
    ReplaceCharWithChar(y, EmDash, '-');
  }

  predicate IsSep(c: char) {
    c == '.' || c == ','
  }

  /**
   * A match of [0-9]+(?:[.,][0-9]+)?: digits and at most one "." or ",",
   * starting and ending with a digit.
   */
  predicate IsNumericToken(t: string) {
    && |t| >= 1 && IsDigit(t[0]) && IsDigit(t[|t| - 1])
    && (forall i | 0 <= i < |t| :: IsDigit(t[i]) || IsSep(t[i]))
    && (forall i, j | 0 <= i < j < |t| :: !(IsSep(t[i]) && IsSep(t[j])))
  }

  /** The length of the run of digits `s` starts with. */
  function DigitRun(s: string): (n: nat)
    ensures n <= |s|
    ensures forall i | 0 <= i < n :: IsDigit(s[i])
    ensures n == |s| || !IsDigit(s[n])
    decreases |s|
  {
    if s != [] && IsDigit(s[0]) then 1 + DigitRun(s[1..]) else 0
  }

  /**
   * The length of the leftmost match at the start of `s`: the greedy digit
   * run, extended by a separator and the digits after it when a digit
   * follows the separator.
   */
  function MatchLength(s: string): (n: nat)
    requires s != [] && IsDigit(s[0])
    ensures 1 <= n <= |s| && IsNumericToken(s[..n])
    ensures n == |s| || !IsDigit(s[n])
    ensures (forall i | 0 <= i < n :: !IsSep(s[i])) ==>
              !(n + 1 < |s| && IsSep(s[n]) && IsDigit(s[n + 1]))
  {
    var k := DigitRun(s);
    if k + 1 < |s| && IsSep(s[k]) && IsDigit(s[k + 1]) then
      var n := k + 1 + DigitRun(s[k + 1..]);
      assert forall i | k < i < n :: IsDigit(s[i]) by {
        forall i | k < i < n ensures IsDigit(s[i]) {
          assert s[i] == s[k + 1..][i - k - 1];
        }
      }
      assert !IsSep(s[n - 1]);
      n
    else
      k
  }

  /** re.findall(r"[0-9]+(?:[.,][0-9]+)?", s): the matches, left to right, not overlapping. */
  function Tokens(s: string): (r: seq<string>)
    ensures forall i | 0 <= i < |r| :: IsNumericToken(r[i])
    decreases |s|
  {
    if s == [] then []
    else if IsDigit(s[0]) then
      var n := MatchLength(s);
      [s[..n]] + Tokens(s[n..])
    else Tokens(s[1..])
  }

  /** A text finds no number exactly when it holds no digit. */
  lemma {:induction false} TokensEmpty(s: string)
    ensures Tokens(s) == [] <==> forall i | 0 <= i < |s| :: !IsDigit(s[i])
    decreases |s|
  {
    if s != [] && !IsDigit(s[0]) {
      TokensEmpty(s[1..]);
      assert forall i | 1 <= i < |s| :: s[i] == s[1..][i - 1];
    }
  }

  /** Leading characters that are not digits are skipped. */
  lemma {:induction false} TokensSkip(a: string, b: string)
    requires forall i | 0 <= i < |a| :: !IsDigit(a[i])
    ensures Tokens(a + b) == Tokens(b)
    decreases |a|
  {
    if a != [] {
      assert (a + b)[1..] == a[1..] + b;
      TokensSkip(a[1..], b);
    } else {
      assert a + b == b;
    }
  }

  /** A token followed by a character that neither a digit nor a separator ends the match. */
  lemma TokensAfter(t: string, c: char, b: string)
    requires IsNumericToken(t) && !IsDigit(c) && !IsSep(c)
    ensures Tokens(t + [c] + b) == [t] + Tokens([c] + b)
  {
    var s := t + [c] + b;
    assert s[..|t|] == t && s[|t|] == c;
    MatchOfToken(t, s);
    assert s[|t|..] == [c] + b;
  }

  /** A token alone is its own single match. */
  lemma TokensOfToken(t: string)
    ensures IsNumericToken(t) ==> Tokens(t) == [t]
  {
    if IsNumericToken(t) {
      MatchOfToken(t, t);
      assert t[..|t|] == t && t[|t|..] == [];
    }
  }

  /**
   * A prefix that is a token and is not followed by a digit, nor by a
   * separator when it has none, is the match.
   */
  lemma MatchOfToken(t: string, s: string)
    requires IsNumericToken(t) && |t| <= |s| && s[..|t|] == t
    requires |t| == |s| || (!IsDigit(s[|t|]) && !IsSep(s[|t|]))
    ensures MatchLength(s) == |t|
  {
    assert s[0] == t[0];
    var k := DigitRun(s);
    var kt := DigitRun(t);
    DigitRunPrefix(t, s);
    if kt < |t| {
      assert t[kt] == s[kt];
      assert kt + 1 < |t| by { assert !IsDigit(t[kt]); }
      DigitRunAfterSep(t, kt);
      DigitRunPrefix(t[kt + 1..], s[kt + 1..]);
      assert s[kt + 1..][..|t| - kt - 1] == t[kt + 1..];
    }
  }

  /** The digit run of a token stops at its end or at its separator. */
  lemma DigitRunAfterSep(t: string, k: nat)
    requires IsNumericToken(t) && k == DigitRun(t) && k < |t|
    ensures IsSep(t[k]) && k + 1 < |t| && DigitRun(t[k + 1..]) == |t| - k - 1
  {
    var f := t[k + 1..];
    forall i | 0 <= i < |f| ensures IsDigit(f[i]) {
      assert f[i] == t[k + 1 + i];
    }
    DigitRunAll(f);
  }

  lemma {:induction false} DigitRunAll(s: string)
    requires AllDigits(s)
    ensures DigitRun(s) == |s|
    decreases |s|
  {
    if s != [] {
      DigitRunAll(s[1..]);
    }
  }

  /**
   * A text and a longer one extending it have the same digit run, when
   * the digit run of the first stops before its end or the longer one
   * goes on with a non-digit.
   */
  lemma {:induction false} DigitRunPrefix(t: string, s: string)
    requires |t| <= |s| && s[..|t|] == t
    requires |t| == |s| || !IsDigit(s[|t|]) || DigitRun(t) < |t|
    ensures DigitRun(s) == DigitRun(t)
    decreases |t|
  {
    if t != [] && IsDigit(t[0]) {
      assert s[0] == t[0];
      assert s[1..][..|t| - 1] == t[1..];
      DigitRunPrefix(t[1..], s[1..]);
    } else if t == [] {
      assert |s| == 0 || !IsDigit(s[0]);
    } else {
      assert s[0] == t[0];
    }
  }

  /** A token starts with a run of at least one digit. */
  lemma TokenHead(t: string)
    requires IsNumericToken(t)
    ensures 1 <= DigitRun(t) && AllDigits(t[..DigitRun(t)])
  {
  }

  /** Past its leading digits, a token has its one separator and then digits only. */
  lemma TokenTail(t: string, k: nat)
    requires IsNumericToken(t) && k == DigitRun(t) && k < |t|
    ensures IsSep(t[k]) && k + 1 < |t| && AllDigits(t[k + 1..])
    ensures forall i | 0 <= i < |t| && i != k :: !IsSep(t[i])
  {
    DigitRunAfterSep(t, k);
    var f := t[k + 1..];
    forall i | 0 <= i < |f| ensures IsDigit(f[i]) {
      assert f[i] == t[k + 1 + i];
    }
    forall i | 0 <= i < |t| && i != k ensures !IsSep(t[i]) {
      if i > k {
        assert !(IsSep(t[k]) && IsSep(t[i]));
      }
    }
  }

  lemma SplitAround(t: string, k: nat)
    requires k < |t|
    ensures t == t[..k] + [t[k]] + t[k + 1..]
  {
  }

  /** nums[i].replace(",", "") */
  function Uncomma(t: string): string {
    ReplaceChar(t, ',', "")
  }

  /**
   * The number a token denotes once its comma is removed: a "," joins two
   * digit groups, a "." starts the fraction.
   */
  function TokenValue(t: string): (x: real)
    requires IsNumericToken(t)
    ensures x >= 0.0
  {
    var k := DigitRun(t);
    TokenHead(t);
    if k == |t| then DigitsValue(t) as real
    else
      TokenTail(t, k);
      AllDigitsAppend(t[..k], t[k + 1..]);
      if t[k] == ',' then DigitsValue(t[..k] + t[k + 1..]) as real
      else PointNumber(t[..k], t[k + 1..])
  }

  /** The number digits "." digits stands for. */
  function PointNumber(a: string, f: string): (x: real)
    requires AllDigits(a) && AllDigits(f)
    ensures x >= DigitsValue(a) as real
  {
    var frac := DigitsValue(f) as real / Pow10(|f|) as real;
    assert frac >= 0.0;
    DigitsValue(a) as real + frac
  }

  lemma DivSplit(x: real, y: real, p: real)
    requires p > 0.0
    ensures (x * p + y) / p == x + y / p
  {
  }

  /** What float() gives for a token, comma removed: a non-negative finite value. */
  ghost predicate ParsesTo(t: string, v: real) {
    ReadsAs(Uncomma(t), v)
  }

  /** float(u) succeeds with the non-negative finite value v. */
  ghost predicate ReadsAs(u: string, v: real) {
    var p := ParseFloat(u);
    p.Some? && p.value.Finite? && !p.value.d.negative && PyFloat.Value(p.value.d) == v
  }

  /** float() of a comma-free token never fails: it gives the token's value. */
  lemma TokenParses(t: string)
    requires IsNumericToken(t)
    ensures ParsesTo(t, TokenValue(t))
  {
    var k := DigitRun(t);
    TokenHead(t);
    if k == |t| {
      WholeTokenParses(t);
    } else {
      TokenTail(t, k);
      SplitAround(t, k);
      if t[k] == ',' {
        CommaTokenParses(t, k);
      } else {
        PointTokenParses(t, k);
      }
    }
  }

  lemma WholeTokenParses(t: string)
    requires t != [] && AllDigits(t)
    ensures ParsesTo(t, DigitsValue(t) as real)
  {
    ReplaceCharAbsent(t, ',', "");
    DigitsReadAs(t);
  }

  lemma DigitsReadAs(u: string)
    requires u != [] && AllDigits(u)
    ensures ReadsAs(u, DigitsValue(u) as real)
  {
    ParseFloatOfDigits(u);
    WholeValue(DigitsValue(u));
  }

  lemma CommaTokenParses(t: string, k: nat)
    requires k < |t| && t[k] == ','
    requires t == t[..k] + [t[k]] + t[k + 1..]
    requires k >= 1 && AllDigits(t[..k]) && AllDigits(t[k + 1..])
    ensures AllDigits(t[..k] + t[k + 1..])
    ensures ParsesTo(t, DigitsValue(t[..k] + t[k + 1..]) as real)
  {
    var a, f := t[..k], t[k + 1..];
    assert t == a + [','] + f;
    ReplaceCharOnce(a, ',', f, "");
    assert Uncomma(t) == a + f;
    AllDigitsAppend(a, f);
    DigitsReadAs(a + f);
  }

  lemma WholeValue(m: nat)
    ensures PyFloat.Value(Normalize(Decimal(false, m, 0))) == m as real
  {
    assert Pow10(0) == 1;
  }

  lemma PointTokenParses(t: string, k: nat)
    requires k + 1 < |t| && t[k] == '.'
    requires t == t[..k] + [t[k]] + t[k + 1..]
    requires k >= 1 && AllDigits(t[..k]) && AllDigits(t[k + 1..])
    ensures ParsesTo(t, PointNumber(t[..k], t[k + 1..]))
  {
    var a, f := t[..k], t[k + 1..];
    assert Uncomma(t) == t by {
      assert ',' !in t;
      ReplaceCharAbsent(t, ',', "");
    }
    assert a + "." + f == t by {
      assert [t[k]] == ".";
    }
    PointedReadsAs(a, f);
  }

  lemma PointedReadsAs(a: string, f: string)
    requires a != [] && AllDigits(a) && f != [] && AllDigits(f)
    ensures ReadsAs(a + "." + f, PointNumber(a, f))
  {
    ParseFloatOfPointed(a, f);
    DigitsValueAppend(a, f);
    PointValue(DigitsValue(a), DigitsValue(f), |f|, DigitsValue(a + f));
  }

  lemma PointValue(x: nat, y: nat, n: nat, m: nat)
    requires m == x * Pow10(n) + y
    ensures PyFloat.Value(Normalize(Decimal(false, m, n))) == x as real + y as real / Pow10(n) as real
  {
    ScaledValue(m, n);
    ShiftedQuotient(x, y, Pow10(n), m);
  }

  lemma ScaledValue(m: nat, n: nat)
    ensures PyFloat.Value(Normalize(Decimal(false, m, n))) == m as real / Pow10(n) as real
  {
  }

  lemma ShiftedQuotient(x: nat, y: nat, p: nat, m: nat)
    requires p >= 1 && m == x * p + y
    ensures m as real / p as real == x as real + y as real / p as real
  {
    CastMul(x, p);
    DivSplit(x as real, y as real, p as real);
  }

  lemma CastMul(a: nat, b: nat)
    ensures (a * b) as real == a as real * b as real
  {
  }

  function Abs(i: int): nat {
    if i < 0 then -i else i
  }

  /** The magnitude with the sign applied. */
  function SignedMag(d: Decimal): int {
    if d.negative then -(d.mag as int) else d.mag
  }

  lemma ValueSigned(d: Decimal)
    ensures PyFloat.Value(d) == SignedMag(d) as real / Pow10(d.scale) as real
  {
    if d.negative {
      NegDiv(d.mag as real, Pow10(d.scale) as real);
    }
  }

  lemma NegDiv(a: real, q: real)
    requires q > 0.0
    ensures -(a / q) == (-a) / q
  {
  }

  /** The same value written with k more decimal places. */
  function Rescale(d: Decimal, k: nat): (r: Decimal)
    ensures r.scale == d.scale + k && r.negative == d.negative
    ensures PyFloat.Value(r) == PyFloat.Value(d)
    decreases k
  {
    if k == 0 then d
    else
      var e := Rescale(d, k - 1);
      TenfoldValue(e);
      Decimal(e.negative, e.mag * 10, e.scale + 1)
  }

  lemma TenfoldValue(e: Decimal)
    ensures PyFloat.Value(Decimal(e.negative, e.mag * 10, e.scale + 1)) == PyFloat.Value(e)
  {
    ScaleDown(e.mag * 10, e.scale + 1);
    assert e.mag * 10 / 10 == e.mag;
  }

  /**
   * (a + b) / 2.0 computed exactly: both values brought to the larger
   * scale, added, and halved (times 5 over one more decimal place).
   */
  function Mean(x: Decimal, y: Decimal): (m: Decimal)
    ensures Normal(m)
    ensures PyFloat.Value(m) == Midpoint(PyFloat.Value(x), PyFloat.Value(y))
    ensures !x.negative && !y.negative ==> !m.negative
  {
    var s := if x.scale >= y.scale then x.scale else y.scale;
    var x', y' := Rescale(x, s - x.scale), Rescale(y, s - y.scale);
    var t := SignedMag(x') + SignedMag(y');
    MeanValue(x', y', s, t);
    Normalize(Decimal(t < 0, Abs(t) * 5, s + 1))
  }

  lemma MeanValue(x: Decimal, y: Decimal, s: nat, t: int)
    requires x.scale == s && y.scale == s && t == SignedMag(x) + SignedMag(y)
    ensures PyFloat.Value(Decimal(t < 0, Abs(t) * 5, s + 1)) == (PyFloat.Value(x) + PyFloat.Value(y)) / 2.0
  {
    ValueSigned(x);
    ValueSigned(y);
    HalfValue(t, s);
    RealMean(SignedMag(x) as real, SignedMag(y) as real, Pow10(s) as real);
  }

  lemma RealMean(a: real, b: real, p: real)
    requires p > 0.0
    ensures (a + b) / (2.0 * p) == (a / p + b / p) / 2.0
  {
  }

  lemma RealHalf(a: real, p: real)
    requires p > 0.0
    ensures (a * 5.0) / (10.0 * p) == a / (2.0 * p)
  {
  }

  /** The decimal `t` times 5 at one more place is t / (2 * 10^s). */
  lemma HalfValue(t: int, s: nat)
    ensures PyFloat.Value(Decimal(t < 0, Abs(t) * 5, s + 1)) == t as real / (2.0 * Pow10(s) as real)
  {
    var p := Pow10(s) as real;
    var a := Abs(t) as real;
    assert Pow10(s + 1) as real == 10.0 * p;
    assert (Abs(t) * 5) as real == a * 5.0;
    var v := (a * 5.0) / (10.0 * p);
    assert PyFloat.Value(Decimal(t < 0, Abs(t) * 5, s + 1)) == if t < 0 then -v else v;
    RealHalf(a, p);
    SignedQuotient(t as real, a, 2.0 * p);
  }

  lemma SignedQuotient(t: real, a: real, q: real)
    requires q > 0.0 && (a == t || a == -t) && a >= 0.0
    ensures (if t < 0.0 then -(a / q) else a / q) == t / q
  {
  }

  /** (a + b) / 2.0 */
  function Midpoint(a: real, b: real): real {
    (a + b) / 2.0
  }

  /**
   * _range_to_mean: with two or more numbers in the text, str() of the
   * exact mean of the first two, commas removed; otherwise the text with
   * its dashes rewritten. A failing float() would return that text too,
   * but no token makes float() fail (TokenParses).
   */
  function RangeToMean(x: string): (r: string)
    ensures |Tokens(ReplaceDashes(x))| < 2 ==> r == ReplaceDashes(x)
  {
    var y := ReplaceDashes(x);
    var nums := Tokens(y);
    if |nums| >= 2 then
      match (ParseFloat(Uncomma(nums[0])), ParseFloat(Uncomma(nums[1])))
      case (Some(Finite(a)), Some(Finite(b))) => RenderNumber(Finite(Mean(a, b)))
      case _ => y
    else y
  }

  /**
   * With two or more numbers, the result reads back as the mean of the
   * first two token values and is written with digits and a point only.
   */
  lemma RangeToMeanOfTwo(x: string)
    requires |Tokens(ReplaceDashes(x))| >= 2
    ensures var nums := Tokens(ReplaceDashes(x));
      ReadsAs(RangeToMean(x), Midpoint(TokenValue(nums[0]), TokenValue(nums[1])))
    ensures forall i | 0 <= i < |RangeToMean(x)| :: IsDigit(RangeToMean(x)[i]) || RangeToMean(x)[i] == '.'
  {
    var nums := Tokens(ReplaceDashes(x));
    TokenParses(nums[0]);
    TokenParses(nums[1]);
    var a := ParseFloat(Uncomma(nums[0])).value.d;
    var b := ParseFloat(Uncomma(nums[1])).value.d;
    assert RangeToMean(x) == RenderDecimal(Mean(a, b));
    MeanReadsAs(a, b);
  }

  /** str() of the mean of two non-negative numbers reads back as their midpoint, in digits and a point. */
  lemma MeanReadsAs(a: Decimal, b: Decimal)
    requires !a.negative && !b.negative
    ensures ReadsAs(RenderDecimal(Mean(a, b)), Midpoint(PyFloat.Value(a), PyFloat.Value(b)))
    ensures var r := RenderDecimal(Mean(a, b));
      forall i | 0 <= i < |r| :: IsDigit(r[i]) || r[i] == '.'
  {
    var m := Mean(a, b);
    assert RenderDecimal(m) == DecimalBody(m);
    ParseRender(m);
    DecimalBodyShape(m);
  }

  // ---------------------------------------------------------------------
  // _coerce_price_series
  // ---------------------------------------------------------------------

  const DigitsAndPoint: set<char> := {'0', '1', '2', '3', '4', '5', '6', '7', '8', '9', '.'}
  const PriceKeep: set<char> := DigitsAndPoint + {','}

  /**
   * .str.replace(r"[^0-9.,]", "").str.replace(",", ""): the digits and
   * points of the text, in order.
   */
  function CleanPriceText(s: string): (r: string)
    ensures r == KeepOnly(s, DigitsAndPoint)
    ensures forall i | 0 <= i < |r| :: IsDigit(r[i]) || r[i] == '.'
  {
    KeepThenDrop(s, PriceKeep, ',');
    assert PriceKeep - {','} == DigitsAndPoint;
    ReplaceChar(KeepOnly(s, PriceKeep), ',', "")
  }

  lemma DigitOrPointKept(c: char)
    requires IsDigit(c) || c == '.'
    ensures c in DigitsAndPoint
  {
    if c != '.' {
      assert c == '0' || c == '1' || c == '2' || c == '3' || c == '4'
          || c == '5' || c == '6' || c == '7' || c == '8' || c == '9';
    }
  }

  /** pd.to_numeric(errors="coerce") on one text: its number, or NaN when it is none. */
  function ToNumeric(t: string): (v: Value)
    ensures v.Num?
  {
    match ParseFloat(t)
    case Some(n) => Num(n)
    case None => Missing
  }

  /** One cell through astype(str), _range_to_mean, the cleaning and to_numeric. */
  function CoercePriceCell(v: Value): (r: Value)
    ensures r.Num?
  {
    ToNumeric(CleanPriceText(RangeToMean(ToStr(v))))
  }

  /** A price range text coerces to the exact mean of its first two numbers. */
  lemma CoercedRange(x: string)
    requires |Tokens(ReplaceDashes(x))| >= 2
    ensures var nums := Tokens(ReplaceDashes(x));
      var c := CoercePriceCell(Str(x));
      c.n.Finite? && PyFloat.Value(c.n.d) == Midpoint(TokenValue(nums[0]), TokenValue(nums[1]))
  {
    var nums := Tokens(ReplaceDashes(x));
    var r := RangeToMean(x);
    RangeToMeanOfTwo(x);
    CoercedPlain(r, Midpoint(TokenValue(nums[0]), TokenValue(nums[1])));
    assert CoercePriceCell(Str(x)) == ToNumeric(CleanPriceText(r)) by {
      ToStrOfStr(x);
    }
  }

  /** A text of digits and points that float() reads survives the cleaning and reads the same. */
  lemma CoercedPlain(r: string, v: real)
    requires forall i | 0 <= i < |r| :: IsDigit(r[i]) || r[i] == '.'
    requires ReadsAs(r, v)
    ensures var c := ToNumeric(CleanPriceText(r));
      c.n.Finite? && PyFloat.Value(c.n.d) == v
  {
    forall i | 0 <= i < |r| ensures r[i] in DigitsAndPoint {
      DigitOrPointKept(r[i]);
    }
    KeepOnlyAll(r, DigitsAndPoint);
  }

  /** A range written with an en dash between two dash-free texts. */
  lemma DashesOfRange(a: string, b: string)
    requires EnDash !in a && EnDash !in b && EmDash !in a && EmDash !in b
    ensures ReplaceDashes(a + [EnDash] + b) == a + "-" + b
  {
    ReplaceCharOnce(a, EnDash, b, "-");
    ReplaceCharAbsent(a + "-" + b, EmDash, "-");
  }

  /** A currency sign, a number, "-", the sign again and a number: the two numbers. */
  lemma TokensOfRange(cur: char, a: string, b: string)
    requires !IsDigit(cur) && IsNumericToken(a) && IsNumericToken(b)
    ensures Tokens([cur] + a + "-" + [cur] + b) == [a, b]
  {
    var rest := [cur] + b;
    assert [cur] + a + "-" + [cur] + b == [cur] + (a + ['-'] + rest);
    TokensSkip([cur], a + ['-'] + rest);
    TokensAfter(a, '-', rest);
    TokensOfSigned(cur, b);
  }

  lemma TokensOfSigned(cur: char, b: string)
    requires !IsDigit(cur) && IsNumericToken(b)
    ensures Tokens(['-'] + ([cur] + b)) == [b]
  {
    assert ['-'] + ([cur] + b) == ['-', cur] + b;
    TokensSkip(['-', cur], b);
    TokensOfToken(b);
  }

  /** A thousands group: one digit, ",", three digits. */
  lemma GroupedValue(t: string)
    requires |t| == 5 && t[1] == ','
    requires IsDigit(t[0]) && IsDigit(t[2]) && IsDigit(t[3]) && IsDigit(t[4])
    ensures IsNumericToken(t)
    ensures TokenValue(t) == DigitsValue([t[0], t[2], t[3], t[4]]) as real
  {
    assert DigitRun(t[1..]) == 0;
    assert t[..1] + t[2..] == [t[0], t[2], t[3], t[4]];
  }

  const Rupee: char := '\U{20B9}'

  /** "₹1,299–₹1,499" coerces to 1399, the mean of 1299 and 1499. */
  lemma RupeeRangeCoerced()
    ensures var c := CoercePriceCell(Str(RupeeRange));
      c.n.Finite? && PyFloat.Value(c.n.d) == 1399.0
  {
    RupeeRangeTokens();
    RupeeRangeValues();
    CoercedRange(RupeeRange);
  }

  /** "₹1,299–₹1,499" */
  const RupeeRange: string := [Rupee] + "1,299" + [EnDash] + [Rupee] + "1,499"

  lemma RupeeRangeTokens()
    ensures Tokens(ReplaceDashes(RupeeRange)) == ["1,299", "1,499"]
  {
    var a, b := "1,299", "1,499";
    assert RupeeRange == ([Rupee] + a) + [EnDash] + ([Rupee] + b);
    DashesOfRange([Rupee] + a, [Rupee] + b);
    GroupedValue(a);
    GroupedValue(b);
    TokensOfRange(Rupee, a, b);
    assert ([Rupee] + a) + "-" + ([Rupee] + b) == [Rupee] + a + "-" + [Rupee] + b;
  }

  /** "₹1,299", a single price: the sign and the comma are dropped and it coerces to 1299. */
  lemma RupeePriceCoerced()
    ensures CoercePriceCell(Str(RupeePrice)) == Num(Finite(Decimal(false, 1299, 0)))
  {
    RupeePriceTokens();
    ToStrOfStr(RupeePrice);
    assert RangeToMean(RupeePrice) == RupeePrice;
    RupeePriceKept();
    RupeePriceRead();
  }

  /** "₹1,299" */
  const RupeePrice: string := [Rupee] + "1,299"

  /** "1299" */
  const RupeeDigits: string := "1299"

  lemma RupeePriceKept()
    ensures CleanPriceText(RupeePrice) == RupeeDigits
  {
    assert RupeePrice == [Rupee] + "1" + [','] + "299";
    KeepGrouped(Rupee, "1", "299");
    assert "1" + "299" == RupeeDigits;
  }

  lemma RupeePriceRead()
    ensures ParseFloat(RupeeDigits) == Some(Finite(Decimal(false, 1299, 0)))
  {
    assert RupeeDigits == ['1', '2', '9', '9'];
    ParseFloatOfFourDigits('1', '2', '9', '9');
    FourDigitValue('1', '2', '9', '9');
  }

  /** float() of four digits. */
  lemma ParseFloatOfFourDigits(p: char, q: char, r: char, s: char)
    requires IsDigit(p) && IsDigit(q) && IsDigit(r) && IsDigit(s)
    ensures ParseFloat([p, q, r, s]) == Some(Finite(Decimal(false, DigitsValue([p, q, r, s]), 0)))
  {
    var t := [p, q, r, s];
    assert AllDigits(t) by {
      assert forall i | 0 <= i < |t| :: t[i] in {p, q, r, s};
    }
    ParseFloatOfDigits(t);
  }

  lemma RupeePriceTokens()
    ensures ReplaceDashes(RupeePrice) == RupeePrice
    ensures |Tokens(RupeePrice)| == 1
  {
    var x := RupeePrice;
    ReplaceCharAbsent(x, EnDash, "-");
    ReplaceCharAbsent(x, EmDash, "-");
    TokensSkip([Rupee], "1,299");
    GroupedValue("1,299");
    TokensOfToken("1,299");
  }

  /** A sign that is no digit, digits, a comma and digits: the cleaning keeps the digits. */
  lemma KeepGrouped(cur: char, a: string, b: string)
    requires cur !in DigitsAndPoint && AllDigits(a) && AllDigits(b)
    ensures KeepOnly([cur] + a + [','] + b, DigitsAndPoint) == a + b
  {
    var x, y := [cur] + a, [cur] + a + [','];
    KeepOnlyAppend(y, b, DigitsAndPoint);
    KeepOnlyAppend(x, [','], DigitsAndPoint);
    KeepOnlyAppend([cur], a, DigitsAndPoint);
    KeepDigits(a);
    KeepDigits(b);
    KeepOnlyOne(cur, DigitsAndPoint);
    KeepOnlyOne(',', DigitsAndPoint);
    assert KeepOnly(x, DigitsAndPoint) == a;
    assert KeepOnly(y, DigitsAndPoint) == a;
  }

  /** The cleaning keeps a run of digits whole. */
  lemma KeepDigits(a: string)
    requires AllDigits(a)
    ensures KeepOnly(a, DigitsAndPoint) == a
  {
    forall i | 0 <= i < |a| ensures a[i] in DigitsAndPoint {
      DigitOrPointKept(a[i]);
    }
    KeepOnlyAll(a, DigitsAndPoint);
  }


  lemma RupeeRangeValues()
    ensures IsNumericToken("1,299") && IsNumericToken("1,499")
    ensures Midpoint(TokenValue("1,299"), TokenValue("1,499")) == 1399.0
  {
    GroupedValue("1,299");
    GroupedValue("1,499");
    FourDigitValue('1', '2', '9', '9');
    FourDigitValue('1', '4', '9', '9');
  }

  lemma FourDigitValue(p: char, q: char, r: char, s: char)
    requires IsDigit(p) && IsDigit(q) && IsDigit(r) && IsDigit(s)
    ensures DigitsValue([p, q, r, s]) == (p as int - '0' as int) * 1000 + (q as int - '0' as int) * 100
                                        + (r as int - '0' as int) * 10 + (s as int - '0' as int)
  {
    assert [p][..0] == [];
    assert DigitsValue([p]) == p as int - '0' as int;
    assert [p, q][..1] == [p];
    assert DigitsValue([p, q]) == DigitsValue([p]) * 10 + (q as int - '0' as int);
    assert [p, q, r][..2] == [p, q];
    assert DigitsValue([p, q, r]) == DigitsValue([p, q]) * 10 + (r as int - '0' as int);
    assert [p, q, r, s][..3] == [p, q, r];
  }

  // ---------------------------------------------------------------------
  // Column choice
  // ---------------------------------------------------------------------

  const PriceColumns: seq<string> := ["price", "sale_price", "mrp", "list_price"]
  const BrandColumns: seq<string> := ["brand", "Brand", "manufacturer"]
  const ImageColumns: seq<string> := ["images", "image_url", "image"]

  /** [c for c in cands if c in df.columns] */
  function Present(cands: seq<string>, columns: set<string>): (r: seq<string>)
    ensures |r| <= |cands|
    ensures forall c :: c in r <==> c in cands && c in columns
  {
    if cands == [] then []
    else (if cands[0] in columns then [cands[0]] else []) + Present(cands[1..], columns)
  }

  /** The position of the first candidate that is a column, or None when none is. */
  function FirstPresent(cands: seq<string>, columns: set<string>): (r: Option<nat>)
    ensures r.Some? ==> r.value < |cands| && cands[r.value] in columns
    ensures r.Some? ==> forall i | 0 <= i < r.value :: cands[i] !in columns
    ensures r.None? <==> forall i | 0 <= i < |cands| :: cands[i] !in columns
  {
    if cands == [] then None
    else if cands[0] in columns then Some(0)
    else
      match FirstPresent(cands[1..], columns)
      case None => None
      case Some(j) => Some(j + 1)
  }

  /** cand_cols is empty exactly when no candidate is present, and cand_cols[0] is the first present one. */
  lemma {:induction false} PresentHead(cands: seq<string>, columns: set<string>)
    ensures Present(cands, columns) == [] <==> FirstPresent(cands, columns).None?
    ensures Present(cands, columns) != [] ==>
              Present(cands, columns)[0] == cands[FirstPresent(cands, columns).value]
  {
    if cands != [] && cands[0] !in columns {
      PresentHead(cands[1..], columns);
      assert Present(cands, columns) == Present(cands[1..], columns);
    }
  }

  /**
   * _coerce_price_series: the first present price column, every cell
   * through astype(str), _range_to_mean, the cleaning and to_numeric;
   * an empty series when no price column is present or the frame is empty.
   */
  method CoercePriceSeries(columns: map<string, seq<Value>>, length: nat) returns (prices: seq<Value>)
    requires Rectangular(columns, length)
    ensures var j := FirstPresent(PriceColumns, columns.Keys);
      if j.None? || length == 0 then prices == []
      else (|prices| == length
        && forall i | 0 <= i < length :: prices[i] == CoercePriceCell(columns[PriceColumns[j.value]][i]))
  {
    var candCols := Present(PriceColumns, columns.Keys);
    PresentHead(PriceColumns, columns.Keys);
    if candCols == [] || length == 0 {
      return [];
    }
    var col := columns[candCols[0]];
    var s := seq(length, i requires 0 <= i < length => ToStr(col[i]));
    s := seq(length, i requires 0 <= i < length => RangeToMean(s[i]));
    s := seq(length, i requires 0 <= i < length => CleanPriceText(s[i]));
    prices := seq(length, i requires 0 <= i < length => ToNumeric(s[i]));
  }

  // ---------------------------------------------------------------------
  // Missing cells
  // ---------------------------------------------------------------------

  /** series.notna().sum() */
  function NotNaCount(cells: seq<Value>): (r: nat)
    ensures r <= |cells|
    ensures r == |cells| <==> forall i | 0 <= i < |cells| :: !IsNa(cells[i])
    ensures r == 0 <==> forall i | 0 <= i < |cells| :: IsNa(cells[i])
  {
    if cells == [] then 0
    else
      assert forall i | 1 <= i < |cells| :: cells[i] == cells[1..][i - 1];
      (if IsNa(cells[0]) then 0 else 1) + NotNaCount(cells[1..])
  }

  /** series.dropna(): the cells that are not missing, in order. */
  function DropNa(cells: seq<Value>): (r: seq<Value>)
    ensures |r| == NotNaCount(cells)
    ensures forall i | 0 <= i < |r| :: !IsNa(r[i])
    ensures forall v :: v in r <==> v in cells && !IsNa(v)
  {
    if cells == [] then []
    else
      assert forall v :: v in cells <==> v == cells[0] || v in cells[1..];
      (if IsNa(cells[0]) then [] else [cells[0]]) + DropNa(cells[1..])
  }

  /** With no missing cell, dropna() keeps the series as it is. */
  lemma {:induction false} DropNaNone(cells: seq<Value>)
    requires forall i | 0 <= i < |cells| :: !IsNa(cells[i])
    ensures DropNa(cells) == cells
  {
    if cells != [] {
      assert !IsNa(cells[0]);
      DropNaNone(cells[1..]);
    }
  }

  // ---------------------------------------------------------------------
  // Histogram tokens
  // ---------------------------------------------------------------------

  const CategorySeparators: set<char> := {'|', ',', ';', '/'}

  /** A token after strip() and lower(): no surrounding space, no upper-case letter. */
  predicate IsLabel(t: string) {
    IsTrimmed(t) && forall i | 0 <= i < |t| :: !('A' <= t[i] <= 'Z')
  }

  predicate SeparatorFree(t: string) {
    forall c | c in t :: c !in CategorySeparators
  }

  /** A category token: a non-empty label free of the separators. */
  predicate IsCategory(t: string) {
    t != [] && IsLabel(t) && SeparatorFree(t)
  }

  /** s.strip().lower() */
  function Normalized(s: string): (r: string)
    ensures IsLabel(r)
    ensures |r| == |Trim(s)|
  {
    var t := Trim(s);
    LowerTrimmed(t);
    LowerNoUpper(t);
    Lower(t)
  }

  /** A label is its own stripped, lower-cased form. */
  lemma NormalizedOfLabel(t: string)
    requires IsLabel(t)
    ensures Normalized(t) == t
  {
    TrimOfTrimmed(t);
    LowerOfLower(t);
  }

  /** Stripping and lower-casing bring in no separator. */
  lemma NormalizedSeparatorFree(s: string)
    ensures SeparatorFree(s) ==> SeparatorFree(Normalized(s))
  {
    if SeparatorFree(s) {
      var t := Trim(s);
      var r := Lower(t);
      TrimInfix(s);
      forall i | 0 <= i < |r|
        ensures r[i] !in CategorySeparators
      {
        assert t[i] in s;
        LowerCharKeepsOut(t[i]);
      }
      SeparatorFreeByIndex(r);
    }
  }

  lemma LowerCharKeepsOut(c: char)
    requires c !in CategorySeparators
    ensures LowerChar(c) !in CategorySeparators
  {
    var d := LowerChar(c);
    if 'A' <= c <= 'Z' {
      assert d != '|' && d != ',' && d != ';' && d != '/';
    }
  }

  lemma SeparatorFreeByIndex(r: string)
    requires forall i | 0 <= i < |r| :: r[i] !in CategorySeparators
    ensures SeparatorFree(r)
  {
    forall c | c in r
      ensures c !in CategorySeparators
    {
      var i :| 0 <= i < |r| && r[i] == c;
    }
  }

  /** fillna("").astype(str) on one cell. */
  function CellText(v: Value): string {
    if IsNa(v) then "" else ToStr(v)
  }

  /** A filled cell is "" exactly when it was missing or was the empty string; a text cell is itself. */
  lemma CellTextEmpty(v: Value)
    ensures CellText(v) == "" <==> IsNa(v) || v == Str("")
    ensures v.Str? ==> CellText(v) == v.s
  {
    ToStrShape(v);
  }

  /** [c.strip().lower() for c in pieces if c.strip()] */
  function CategoryPieces(pieces: seq<string>): (r: seq<string>)
    ensures |r| <= |pieces|
    ensures forall i | 0 <= i < |r| :: r[i] != [] && IsLabel(r[i])
  {
    if pieces == [] then []
    else
      var head := if Trim(pieces[0]) != [] then [Normalized(pieces[0])] else [];
      var rest := CategoryPieces(pieces[1..]);
      LabelsAppend(head, rest);
      head + rest
  }

  lemma SeparatorFreeAppend(a: seq<string>, b: seq<string>)
    requires forall i | 0 <= i < |a| :: SeparatorFree(a[i])
    requires forall i | 0 <= i < |b| :: SeparatorFree(b[i])
    ensures forall i | 0 <= i < |a + b| :: SeparatorFree((a + b)[i])
  {
    forall i | 0 <= i < |a + b|
      ensures SeparatorFree((a + b)[i])
    {
      if i >= |a| {
        assert (a + b)[i] == b[i - |a|];
      }
    }
  }

  ghost predicate AllLabels(ts: seq<string>) {
    forall i | 0 <= i < |ts| :: ts[i] != [] && IsLabel(ts[i])
  }

  lemma LabelsAppend(a: seq<string>, b: seq<string>)
    requires AllLabels(a) && AllLabels(b)
    ensures AllLabels(a + b)
  {
    forall i | 0 <= i < |a + b|
      ensures (a + b)[i] != [] && IsLabel((a + b)[i])
    {
      if i >= |a| {
        assert (a + b)[i] == b[i - |a|];
      }
    }
  }

  /** Pieces free of separators stay free of them. */
  lemma {:induction false} PiecesSeparatorFree(pieces: seq<string>)
    requires forall i | 0 <= i < |pieces| :: SeparatorFree(pieces[i])
    ensures forall i | 0 <= i < |CategoryPieces(pieces)| :: SeparatorFree(CategoryPieces(pieces)[i])
  {
    if pieces != [] {
      var head := if Trim(pieces[0]) != [] then [Normalized(pieces[0])] else [];
      var rest := CategoryPieces(pieces[1..]);
      assert SeparatorFree(pieces[0]);
      NormalizedSeparatorFree(pieces[0]);
      assert forall i | 0 <= i < |pieces[1..]| :: pieces[1..][i] == pieces[i + 1];
      PiecesSeparatorFree(pieces[1..]);
      SeparatorFreeAppend(head, rest);
      assert CategoryPieces(pieces) == head + rest;
    }
  }

  /** The categories of one cell: its text split on | , ; or /, then the pieces kept as above. */
  function CellCategories(v: Value): (r: seq<string>)
    ensures forall i | 0 <= i < |r| :: IsCategory(r[i])
  {
    var pieces := SplitOn(CellText(v), CategorySeparators);
    assert forall i | 0 <= i < |pieces| :: SeparatorFree(pieces[i]);
    PiecesSeparatorFree(pieces);
    CategoryPieces(pieces)
  }

  /** The category tokens of a series: the categories of every cell, in order. */
  function CategoryTokens(cells: seq<Value>): (r: seq<string>)
    ensures forall i | 0 <= i < |r| :: IsCategory(r[i])
  {
    if cells == [] then [] else CellCategories(cells[0]) + CategoryTokens(cells[1..])
  }

  /** Tokens found in one cell and in the cells after it, in that order. */
  lemma CategoryTokensCons(v: Value, cells: seq<Value>)
    ensures CategoryTokens([v] + cells) == CellCategories(v) + CategoryTokens(cells)
  {
    assert ([v] + cells)[1..] == cells;
  }

  /** A series of one cell written as category tokens joined by "|" gives those tokens back. */
  lemma CategoriesOfJoined(ts: seq<string>)
    requires forall i | 0 <= i < |ts| :: IsCategory(ts[i])
    ensures CategoryTokens([Str(Join("|", ts))]) == ts
  {
    CategoryTokensOne(Str(Join("|", ts)));
    CellOfJoined(ts);
  }

  /** A series of one cell has that cell's tokens. */
  lemma CategoryTokensOne(v: Value)
    ensures CategoryTokens([v]) == CellCategories(v)
  {
    CategoryTokensCons(v, []);
    assert [v] + [] == [v];
    assert CellCategories(v) + [] == CellCategories(v);
  }

  lemma CellOfJoined(ts: seq<string>)
    requires forall i | 0 <= i < |ts| :: IsCategory(ts[i])
    ensures CellCategories(Str(Join("|", ts))) == ts
  {
    var x := Join("|", ts);
    assert CellCategories(Str(x)) == CategoryPieces(SplitOn(x, CategorySeparators)) by {
      assert CellText(Str(x)) == x by { ToStrOfStr(x); }
    }
    if ts == [] {
      NoCategoriesOfBlank();
    } else {
      assert SplitOn(x, CategorySeparators) == ts by {
        assert forall i | 0 <= i < |ts| :: SeparatorFree(ts[i]);
        SplitJoin('|', ts, CategorySeparators);
      }
      PiecesOfCategories(ts);
    }
  }

  /** An empty cell has no categories. */
  lemma NoCategoriesOfBlank()
    ensures CategoryPieces(SplitOn("", CategorySeparators)) == []
  {
    assert SplitOn("", CategorySeparators) == [""];
    assert Trim("") == "";
  }

  lemma {:induction false} PiecesOfCategories(ts: seq<string>)
    requires forall i | 0 <= i < |ts| :: IsCategory(ts[i])
    ensures CategoryPieces(ts) == ts
  {
    if ts != [] {
      var t, rest := ts[0], ts[1..];
      assert IsCategory(t);
      PiecesOfCategories(rest);
      CategoryPiecesCons(t, rest);
      assert [t] + rest == ts;
    }
  }

  /** A category in front of the pieces is kept as it is. */
  lemma CategoryPiecesCons(t: string, rest: seq<string>)
    requires IsCategory(t)
    ensures CategoryPieces([t] + rest) == [t] + CategoryPieces(rest)
  {
    assert Trim(t) != [] && Normalized(t) == t by {
      TrimOfTrimmed(t);
      NormalizedOfLabel(t);
    }
    assert ([t] + rest)[1..] == rest;
  }

  /** series.dropna().astype(str).str.strip().str.lower() */
  function LabelTokens(cells: seq<Value>): (r: seq<string>)
    ensures |r| == NotNaCount(cells)
    ensures forall i | 0 <= i < |r| :: IsLabel(r[i])
  {
    var kept := DropNa(cells);
    seq(|kept|, i requires 0 <= i < |kept| => Normalized(ToStr(kept[i])))
  }

  /** A series of labels already stripped and lower-cased is its own label series. */
  lemma LabelsOfLabels(ts: seq<string>)
    requires forall i | 0 <= i < |ts| :: IsLabel(ts[i])
    ensures LabelTokens(Strs(ts)) == ts
  {
    DropNaNone(Strs(ts));
    forall i | 0 <= i < |ts|
      ensures LabelTokens(Strs(ts))[i] == ts[i]
    {
      ToStrOfStr(ts[i]);
      NormalizedOfLabel(ts[i]);
    }
  }

  // ---------------------------------------------------------------------
  // summary
  // ---------------------------------------------------------------------

  /**
   * The top-brands loop: the labels of the first brand column present,
   * counted and cut to ten; no entries when none is present or the frame
   * has no rows.
   */
  method TopBrands(columns: map<string, seq<Value>>, length: nat) returns (top: seq<Entry>)
    ensures var j := FirstPresent(BrandColumns, columns.Keys);
      if j.Some? && length > 0 then IsValueCounts(LabelTokens(columns[BrandColumns[j.value]]), 10, top)
      else top == []
  {
    top := [];
    var k := 0;
    while k < |BrandColumns|
      invariant 0 <= k <= |BrandColumns|
      invariant forall i | 0 <= i < k :: !(BrandColumns[i] in columns && length > 0)
      invariant top == []
    {
      var col := BrandColumns[k];
      if col in columns && length > 0 {
        top := ValueCountsHead(LabelTokens(columns[col]), 10);
        break;
      }
      k := k + 1;
    }
  }

  /** The image-coverage loop: the non-missing cells of the first image column present, or 0. */
  method ImagesWith(columns: map<string, seq<Value>>) returns (count: nat)
    ensures var j := FirstPresent(ImageColumns, columns.Keys);
      count == if j.Some? then NotNaCount(columns[ImageColumns[j.value]]) else 0
  {
    count := 0;
    var k := 0;
    while k < |ImageColumns|
      invariant 0 <= k <= |ImageColumns|
      invariant forall i | 0 <= i < k :: ImageColumns[i] !in columns
      invariant count == 0
    {
      var col := ImageColumns[k];
      if col in columns {
        count := NotNaCount(columns[col]);
        break;
      }
      k := k + 1;
    }
  }

  /** The categories histogram: the category tokens counted and cut to twenty. */
  method CategoryHistogram(columns: map<string, seq<Value>>, length: nat) returns (categories: seq<Entry>)
    ensures if "categories" in columns && length > 0
      then IsValueCounts(CategoryTokens(columns["categories"]), 20, categories)
      else categories == []
  {
    categories := [];
    if "categories" in columns && length > 0 {
      var flat := CategoryTokens(columns["categories"]);
      if flat != [] {
        categories := ValueCountsHead(flat, 20);
      } else {
        ValueCountsOfNothing(20, []);
      }
    }
  }

  /** The cv_label histogram: the labels counted and cut to twenty. */
  method LabelHistogram(columns: map<string, seq<Value>>, length: nat) returns (cvLabels: seq<Entry>)
    ensures if "cv_label" in columns && length > 0
      then IsValueCounts(LabelTokens(columns["cv_label"]), 20, cvLabels)
      else cvLabels == []
  {
    cvLabels := [];
    if "cv_label" in columns && length > 0 {
      cvLabels := ValueCountsHead(LabelTokens(columns["cv_label"]), 20);
    }
  }

  /** _coerce_price_series(df).dropna() */
  method CleanPrices(columns: map<string, seq<Value>>, length: nat) returns (clean: seq<Value>)
    requires Rectangular(columns, length)
    ensures var j := FirstPresent(PriceColumns, columns.Keys);
      if j.None? || length == 0 then clean == []
      else clean == DropNa(seq(length, i requires 0 <= i < length => CoercePriceCell(columns[PriceColumns[j.value]][i])))
  {
    var series := CoercePriceSeries(columns, length);
    var j := FirstPresent(PriceColumns, columns.Keys);
    if j.Some? && length > 0 {
      assert series == seq(length, i requires 0 <= i < length => CoercePriceCell(columns[PriceColumns[j.value]][i]));
    }
    clean := DropNa(series);
  }

  /**
   * What the summary endpoint reports. The price statistics are computed
   * from `prices`, the coerced prices that are not NaN.
   */
  datatype Summary = Summary(
    total: nat,
    prices: seq<Value>,
    categories: seq<Entry>,
    cvLabels: seq<Entry>,
    topBrands: seq<Entry>,
    imagesWith: nat)

  /** summary() on a frame given by its columns. */
  method Summarize(columns: map<string, seq<Value>>, length: nat) returns (s: Summary)
    requires Rectangular(columns, length)
    ensures s.total == length
    ensures var j := FirstPresent(PriceColumns, columns.Keys);
      if j.None? || length == 0 then s.prices == []
      else s.prices == DropNa(seq(length, i requires 0 <= i < length => CoercePriceCell(columns[PriceColumns[j.value]][i])))
    ensures if "categories" in columns && length > 0
      then IsValueCounts(CategoryTokens(columns["categories"]), 20, s.categories)
      else s.categories == []
    ensures if "cv_label" in columns && length > 0
      then IsValueCounts(LabelTokens(columns["cv_label"]), 20, s.cvLabels)
      else s.cvLabels == []
    ensures var j := FirstPresent(BrandColumns, columns.Keys);
      if j.Some? && length > 0 then IsValueCounts(LabelTokens(columns[BrandColumns[j.value]]), 10, s.topBrands)
      else s.topBrands == []
    ensures var j := FirstPresent(ImageColumns, columns.Keys);
      s.imagesWith == if j.Some? then NotNaCount(columns[ImageColumns[j.value]]) else 0
  {
    var clean := CleanPrices(columns, length);
    var categories := CategoryHistogram(columns, length);
    var cvLabels := LabelHistogram(columns, length);
    var topBrands := TopBrands(columns, length);
    var imagesWith := ImagesWith(columns);
    s := Summary(length, clean, categories, cvLabels, topBrands, imagesWith);
  }
}
