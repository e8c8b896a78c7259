/**
 * A restricted ast.literal_eval, enough for the cells the ingest step
 * parses: a list or tuple of scalar literals, or a single scalar literal.
 * Scalars are quoted strings (no escapes, no prefixes, no triple quotes),
 * plain decimal numbers and the names True, False and None. What falls
 * outside this grammar is a parse failure.
 */
module Literal {
  import opened Optional
  import opened PyStr

  /** A scalar literal; only whether it is a string, and which, matters downstream. */
  datatype Scalar = Text(s: string) | NonText

  datatype Literal =
    | Atom(x: Scalar)
    | ListLit(items: seq<Scalar>)
    | TupleLit(items: seq<Scalar>)

  /** Whitespace between tokens; line breaks only inside brackets. */
  predicate IsBlank(c: char, nested: bool) {
    c == ' ' || c == '\t' || c == '\U{0C}' || (nested && (c == '\n' || c == '\r'))
  }

  function SkipBlank(s: string, nested: bool): (r: string)
    ensures |r| <= |s| && r == s[|s| - |r|..]
    ensures r == [] || !IsBlank(r[0], nested)
  {
    if s != [] && IsBlank(s[0], nested) then SkipBlank(s[1..], nested) else s
  }

  predicate IsIdentChar(c: char) {
    ('a' <= c <= 'z') || ('A' <= c <= 'Z') || IsDigit(c) || c == '_'
  }

  /** The body of a string literal up to its closing quote q, and what follows it. */
  function StringBody(s: string, q: char): (r: Option<(string, string)>)
    ensures r.Some? ==> |r.value.1| < |s|
    ensures r.Some? ==> q !in r.value.0
  {
    if s == [] then None
    else if s[0] == q then Some(("", s[1..]))
    else if s[0] == '\\' || s[0] == '\n' || s[0] == '\r' then None
    else
      match StringBody(s[1..], q)
      case None => None
      case Some(p) => Some(([s[0]] + p.0, p.1))
  }

  /** The longest prefix of decimal digits. */
  function DigitRun(s: string): (r: nat)
    ensures r <= |s| && AllDigits(s[..r])
    ensures r == |s| || !IsDigit(s[r])
  {
    if s != [] && IsDigit(s[0]) then
      assert s[..1 + DigitRun(s[1..])] == [s[0]] + s[1..][..DigitRun(s[1..])];
      1 + DigitRun(s[1..])
    else 0
  }

  /** The number of leading '0' characters. */
  function ZeroRun(s: string): (r: nat)
    ensures r <= |s|
  {
    if s != [] && s[0] == '0' then 1 + ZeroRun(s[1..]) else 0
  }

  /**
   * An optionally signed number: digits, then optionally a point and more
   * digits. An integer with a leading zero must be all zeros. The number
   * must not run into a letter, digit, underscore or point.
   */
  function NumberEnd(s: string): (r: Option<nat>)
    ensures r.Some? ==> 0 < r.value <= |s|
  {
    var sign := if s != [] && (s[0] == '-' || s[0] == '+') then 1 else 0;
    var n := DigitRun(s[sign..]);
    if n == 0 then None
    else
      var intEnd := sign + n;
      var hasPoint := intEnd < |s| && s[intEnd] == '.';
      var end := if hasPoint then intEnd + 1 + DigitRun(s[intEnd + 1..]) else intEnd;
      var leadingZero := !hasPoint && ZeroRun(s[sign..]) != 0 && ZeroRun(s[sign..]) < n;
      if leadingZero || (end < |s| && (IsIdentChar(s[end]) || s[end] == '.')) then None
      else Some(end)
  }

  /** `w` is a prefix of `s`. */
  predicate StartsWith(s: string, w: string) {
    w == [] || (s != [] && s[0] == w[0] && StartsWith(s[1..], w[1..]))
  }

  /** True, False or None, not followed by an identifier character. */
  function NameEnd(s: string): (r: Option<nat>)
    ensures r.Some? ==> 0 < r.value <= |s|
  {
    var n := if StartsWith(s, "True") || StartsWith(s, "None") then 4
             else if StartsWith(s, "False") then 5 else 0;
    if n == 0 || n > |s| || (n < |s| && IsIdentChar(s[n])) then None else Some(n)
  }

  /** One scalar literal at the start of `s`, and what follows it. */
  function ScalarLit(s: string): (r: Option<(Scalar, string)>)
    ensures r.Some? ==> |r.value.1| < |s|
  {
    if s == [] then None
    else if s[0] == '\'' || s[0] == '"' then
      match StringBody(s[1..], s[0])
      case None => None
      case Some(p) => Some((Text(p.0), p.1))
    else
      match NumberEnd(s)
      case Some(e) => Some((NonText, s[e..]))
      case None =>
        match NameEnd(s)
        case Some(e) => Some((NonText, s[e..]))
        case None => None
  }

  /** At the closing bracket `close`, or at the end of the input when there is none. */
  predicate AtClose(s: string, close: Option<char>) {
    if close.None? then s == [] else s != [] && s[0] == close.value
  }

  /** What follows the closing bracket (nothing is consumed at the end of the input). */
  function AfterClose(t: string): string {
    if t == [] then [] else t[1..]
  }

  /**
   * Comma-separated scalars up to `close`, starting at a non-blank
   * character, an optional trailing comma allowed: the items, whether a
   * comma was seen, and what follows the closing bracket.
   */
  function Elements(t: string, close: Option<char>): (r: Option<(seq<Scalar>, bool, string)>)
    ensures r.Some? ==> |r.value.2| <= |t|
    ensures r.Some? && !r.value.1 ==> |r.value.0| <= 1
    decreases |t|
  {
    if AtClose(t, close) then Some(([], false, AfterClose(t)))
    else
      match ScalarLit(t)
      case None => None
      case Some(p) =>
        var u := SkipBlank(p.1, close.Some?);
        if AtClose(u, close) then Some(([p.0], false, AfterClose(u)))
        else if u != [] && u[0] == ',' then
          match Elements(SkipBlank(u[1..], close.Some?), close)
          case None => None
          case Some(e) => Some(([p.0] + e.0, true, e.2))
        else None
  }

  /** What follows a closing bracket must be blank to the end of the input. */
  function Bracketed(s: string, close: char): Option<(seq<Scalar>, bool)> {
    match Elements(SkipBlank(s, true), Some(close))
    case None => None
    case Some(e) => if SkipBlank(e.2, false) == [] then Some((e.0, e.1)) else None
  }

  /** Parenthesised or bare: one item without a comma is that item; otherwise a tuple. */
  function Grouped(e: (seq<Scalar>, bool)): Literal {
    if |e.0| == 1 && !e.1 then Atom(e.0[0]) else TupleLit(e.0)
  }

  /** ast.literal_eval on a stripped string; None is the exception it raises. */
  function LiteralEval(s: string): (r: Option<Literal>)
    ensures s == [] ==> r == None
  {
    if s == [] then None
    else if s[0] == '[' then
      match Bracketed(s[1..], ']')
      case None => None
      case Some(e) => Some(ListLit(e.0))
    else if s[0] == '(' then
      match Bracketed(s[1..], ')')
      case None => None
      case Some(e) => Some(Grouped(e))
    else
      match Elements(SkipBlank(s, false), None)
      case None => None
      case Some(e) => if e.0 == [] then None else Some(Grouped((e.0, e.1)))
  }

  /**
   * Texts that repr() writes as they are between single quotes: printable
   * ASCII with no quote and no backslash. repr() escapes every other
   * control or non-printable character, and switches to double quotes for a
   * text holding a single quote.
   */
  predicate IsPlain(x: string) {
    forall i | 0 <= i < |x| :: ' ' <= x[i] <= '~' && x[i] != '\'' && x[i] != '\\'
  }

  /** repr() of a plain string. */
  function Quote(x: string): string {
    "'" + x + "'"
  }

  function Quoted(xs: seq<string>): (r: seq<string>)
    ensures |r| == |xs|
    ensures forall i | 0 <= i < |xs| :: r[i] == Quote(xs[i])
  {
    seq(|xs|, i requires 0 <= i < |xs| => Quote(xs[i]))
  }

  function Texts(xs: seq<string>): (r: seq<Scalar>)
    ensures |r| == |xs|
    ensures forall i | 0 <= i < |xs| :: r[i] == Text(xs[i])
  {
    seq(|xs|, i requires 0 <= i < |xs| => Text(xs[i]))
  }

  /** The body of a plain string literal runs exactly to its closing quote. */
  lemma {:induction false} StringBodyOfPlain(x: string, rest: string)
    requires IsPlain(x)
    ensures StringBody(x + "'" + rest, '\'') == Some((x, rest))
  {
    var s := x + "'" + rest;
    if x == [] {
      assert s == "'" + rest;
    } else {
      assert s[0] == x[0];
      assert s[1..] == x[1..] + "'" + rest;
      StringBodyOfPlain(x[1..], rest);
      assert [x[0]] + x[1..] == x;
    }
  }

  /** A quoted plain string followed by `rest` reads as that string. */
  lemma ScalarOfQuote(x: string, rest: string)
    requires IsPlain(x)
    ensures ScalarLit(Quote(x) + rest) == Some((Text(x), rest))
  {
    var s := Quote(x) + rest;
    assert s[1..] == x + "'" + rest;
    StringBodyOfPlain(x, rest);
  }

  /** A closing bracket of a list or tuple display. */
  predicate IsCloser(close: char) {
    close == ']' || close == ')'
  }

  /** The repr() of a list or tuple of strings, from just after its opening bracket, starts with a quote or with the closing bracket. */
  lemma QuotedJoinStart(xs: seq<string>, close: char)
    ensures var t := Join(", ", Quoted(xs)) + [close]; t[0] == (if xs == [] then close else '\'')
  {
    if |xs| > 1 {
      assert Quoted(xs)[0] == Quote(xs[0]);
    }
  }

  /** A last scalar: the elements end at the bracket after it. */
  lemma ElementsLast(t: string, close: char, x: Scalar, rest: string)
    requires !AtClose(t, Some(close)) && ScalarLit(t) == Some((x, rest))
    requires AtClose(SkipBlank(rest, true), Some(close))
    ensures Elements(t, Some(close)) == Some(([x], false, AfterClose(SkipBlank(rest, true))))
  {
    var r := Elements(t, Some(close));
    var p := ScalarLit(t).value;
    assert p == (x, rest);
    var u := SkipBlank(p.1, true);
    assert AtClose(u, Some(close));
    assert r == Some(([p.0], false, AfterClose(u)));
  }

  /** A scalar followed by a comma: the elements continue after the comma. */
  lemma ElementsComma(t: string, close: char, x: Scalar, rest: string)
    requires !AtClose(t, Some(close)) && ScalarLit(t) == Some((x, rest))
    requires rest != [] && rest[0] == ',' && close != ','
    ensures Elements(t, Some(close)) ==
      match Elements(SkipBlank(rest[1..], true), Some(close))
      case None => None
      case Some(e) => Some(([x] + e.0, true, e.2))
  {
    var p := ScalarLit(t).value;
    assert p == (x, rest);
    var u := SkipBlank(p.1, true);
    assert u == rest;
    assert !AtClose(u, Some(close));
  }

  /** One quoted string, then the closing bracket. */
  lemma ElementsOfOne(x: string, close: char)
    requires IsPlain(x) && IsCloser(close)
    ensures Elements(Quote(x) + [close], Some(close)) == Some(([Text(x)], false, ""))
  {
    var t := Quote(x) + [close];
    ScalarOfQuote(x, [close]);
    SkipBlankClose(close);
    ElementsLast(t, close, Text(x), [close]);
  }

  /** After the ", " between two elements comes the next quote. */
  lemma CommaSpace(tail: string)
    requires tail != [] && tail[0] == '\''
    ensures (", " + tail)[0] == ','
    ensures SkipBlank((", " + tail)[1..], true) == tail
  {
    assert (", " + tail)[1..] == " " + tail;
    assert (" " + tail)[1..] == tail;
  }

  lemma SkipBlankClose(close: char)
    requires IsCloser(close)
    ensures SkipBlank([close], true) == [close] && AtClose([close], Some(close)) && AfterClose([close]) == ""
  {
  }

  /** One quoted string, then ", " and more elements. */
  lemma ElementsOfCons(x: string, tail: string, close: char)
    requires IsPlain(x) && tail != [] && tail[0] == '\'' && IsCloser(close)
    ensures Elements(Quote(x) + (", " + tail), Some(close)) ==
      match Elements(tail, Some(close))
      case None => None
      case Some(e) => Some(([Text(x)] + e.0, true, e.2))
  {
    var t := Quote(x) + (", " + tail);
    ScalarOfQuote(x, ", " + tail);
    CommaSpace(tail);
    ElementsComma(t, close, Text(x), ", " + tail);
  }

  lemma TextsCons(xs: seq<string>)
    requires xs != []
    ensures Texts(xs) == [Text(xs[0])] + Texts(xs[1..])
  {
  }

  lemma JoinQuotedCons(xs: seq<string>, close: char)
    requires |xs| > 1
    ensures Join(", ", Quoted(xs)) + [close] == Quote(xs[0]) + (", " + (Join(", ", Quoted(xs[1..])) + [close]))
  {
    assert Quoted(xs)[1..] == Quoted(xs[1..]);
  }

  /**
   * The text repr() gives a list or tuple of plain strings, from just after
   * its opening bracket, reads back as exactly those strings.
   */
  lemma {:induction false} ElementsOfQuoted(xs: seq<string>, close: char)
    requires forall i | 0 <= i < |xs| :: IsPlain(xs[i])
    requires IsCloser(close)
    ensures Elements(Join(", ", Quoted(xs)) + [close], Some(close)) == Some((Texts(xs), |xs| > 1, ""))
  {
    if xs == [] {
      assert Join(", ", Quoted(xs)) + [close] == [close];
      SkipBlankClose(close);
    } else if |xs| == 1 {
      SingleQuoted(xs, close);
      ElementsOfOne(xs[0], close);
    } else {
      var tail := Join(", ", Quoted(xs[1..])) + [close];
      JoinQuotedCons(xs, close);
      QuotedJoinStart(xs[1..], close);
      ElementsOfCons(xs[0], tail, close);
      ElementsOfQuoted(xs[1..], close);
      TextsCons(xs);
    }
  }

  lemma SingleQuoted(xs: seq<string>, close: char)
    requires |xs| == 1
    ensures Join(", ", Quoted(xs)) + [close] == Quote(xs[0]) + [close]
    ensures Texts(xs) == [Text(xs[0])]
  {
  }

  lemma OpenBracket(open: char, body: string)
    ensures ([open] + body) != [] && ([open] + body)[0] == open && ([open] + body)[1..] == body
  {
  }

  lemma NotBlankStart(s: string, close: char)
    requires IsCloser(close)
    requires s != [] && (s[0] == close || s[0] == '\'')
    ensures SkipBlank(s, true) == s
  {
  }

  /** literal_eval(repr(xs)) == xs for a list of plain strings. */
  lemma EvalOfListRepr(xs: seq<string>)
    requires forall i | 0 <= i < |xs| :: IsPlain(xs[i])
    ensures LiteralEval("[" + (Join(", ", Quoted(xs)) + "]")) == Some(ListLit(Texts(xs)))
  {
    var body := Join(", ", Quoted(xs)) + "]";
    OpenBracket('[', body);
    BracketedOfQuoted(xs, ']');
  }

  /**
   * literal_eval(repr(t)) == t for a tuple of plain strings other than a
   * one-element tuple, whose repr has a trailing comma.
   */
  lemma EvalOfTupleRepr(xs: seq<string>)
    requires forall i | 0 <= i < |xs| :: IsPlain(xs[i])
    requires |xs| != 1
    ensures LiteralEval("(" + (Join(", ", Quoted(xs)) + ")")) == Some(TupleLit(Texts(xs)))
  {
    var body := Join(", ", Quoted(xs)) + ")";
    OpenBracket('(', body);
    BracketedOfQuoted(xs, ')');
  }

  /** The bracketed body of repr(xs), up to and including its closer. */
  lemma BracketedOfQuoted(xs: seq<string>, close: char)
    requires forall i | 0 <= i < |xs| :: IsPlain(xs[i])
    requires IsCloser(close)
    ensures Bracketed(Join(", ", Quoted(xs)) + [close], close) == Some((Texts(xs), |xs| > 1))
  {
    var body := Join(", ", Quoted(xs)) + [close];
    QuotedJoinStart(xs, close);
    NotBlankStart(body, close);
    ElementsOfQuoted(xs, close);
    assert SkipBlank("", false) == [];
  }

  /** literal_eval("('x',)") is the one-element tuple. */
  lemma EvalOfSingletonTuple(x: string)
    requires IsPlain(x)
    ensures LiteralEval("(" + (Quote(x) + ",)")) == Some(TupleLit([Text(x)]))
  {
    var body := Quote(x) + [',', ')'];
    assert body == Quote(x) + ",)";
    OpenBracket('(', body);
    QuoteStart(x, [',', ')']);
    NotBlankStart(body, ')');
    ElementsOfTrailingComma(x, ')');
    assert SkipBlank("", false) == [];
  }

  lemma QuoteStart(x: string, rest: string)
    ensures Quote(x) + rest != [] && (Quote(x) + rest)[0] == '\''
  {
  }

  /** One quoted string, a trailing comma and the closing bracket. */
  lemma ElementsOfTrailingComma(x: string, close: char)
    requires IsPlain(x) && IsCloser(close)
    ensures Elements(Quote(x) + [',', close], Some(close)) == Some(([Text(x)], true, ""))
  {
    var rest := [',', close];
    var t := Quote(x) + rest;
    ScalarOfQuote(x, rest);
    QuoteStart(x, rest);
    assert rest[1..] == [close];
    SkipBlankClose(close);
    ElementsAtClose([close], close);
    var e := Elements(SkipBlank(rest[1..], true), Some(close));
    assert e == Some(([], false, ""));
    ElementsComma(t, close, Text(x), rest);
    assert [Text(x)] + [] == [Text(x)];
  }

  lemma ElementsAtClose(t: string, close: char)
    requires AtClose(t, Some(close))
    ensures Elements(t, Some(close)) == Some(([], false, t[1..]))
  {
  }

  /** One scalar and nothing after it: the whole input is that scalar. */
  lemma ElementsAlone(t: string, x: Scalar)
    requires t != [] && ScalarLit(t) == Some((x, ""))
    ensures Elements(t, None) == Some(([x], false, ""))
  {
    var p := ScalarLit(t).value;
    assert p == (x, "");
    assert SkipBlank(p.1, false) == "";
  }

  /** literal_eval of a quoted plain string is that string, not a list. */
  lemma EvalOfQuote(x: string)
    requires IsPlain(x)
    ensures LiteralEval(Quote(x)) == Some(Atom(Text(x)))
  {
    var s := Quote(x);
    assert s == Quote(x) + "";
    ScalarOfQuote(x, "");
    QuoteStart(x, "");
    NotBlankStart'(s);
    ElementsAlone(s, Text(x));
  }

  lemma NotBlankStart'(s: string)
    requires s != [] && s[0] == '\''
    ensures SkipBlank(s, false) == s
  {
  }
}
