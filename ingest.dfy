/**
 * The ingest step: parse_list and parse_price applied to the CSV file's
 * list and price columns, and build_indices, which turns the parsed rows
 * into a saved vector store with one metadata record and one vector per
 * product.
 */
module Ingest {
  import opened Optional
  import opened PyStr
  import opened PyFloat
  import opened Values
  import opened Literal
  import opened Frames
  import opened VectorStore
  import opened Embed

  // ---------------------------------------------------------------------
  // parse_list
  // ---------------------------------------------------------------------

  /** x.strip() on an element of a parsed literal; only strings have it. */
  function StripScalar(x: Scalar): Option<string> {
    if x.Text? then Some(Trim(x.s)) else None
  }

  /**
   * [x.strip() for x in v]: every element stripped, in order, or None (the
   * AttributeError) when some element is not a string.
   */
  function StripAll(items: seq<Scalar>): (r: Option<seq<string>>)
    ensures r.Some? <==> forall i | 0 <= i < |items| :: items[i].Text?
    ensures r.Some? ==> |r.value| == |items|
    ensures r.Some? ==> forall i | 0 <= i < |items| :: r.value[i] == Trim(items[i].s)
  {
    MapAll(items, StripScalar)
  }

  /** One piece stripped, or nothing when it strips to "". */
  function StripPiece(p: string): (r: seq<string>)
    ensures |r| <= 1
    ensures forall i | 0 <= i < |r| :: r[i] != "" && IsTrimmed(r[i])
  {
    if Trim(p) != "" then [Trim(p)] else []
  }

  /** Stripped pieces, with the empty ones dropped, in order. */
  function TrimmedPieces(ps: seq<string>): (r: seq<string>)
    ensures |r| <= |ps|
    ensures forall i | 0 <= i < |r| :: r[i] != "" && IsTrimmed(r[i])
  {
    if ps == [] then [] else StripPiece(ps[0]) + TrimmedPieces(ps[1..])
  }

  lemma TrimmedPiecesCons(p: string, ps: seq<string>)
    ensures TrimmedPieces([p] + ps) == StripPiece(p) + TrimmedPieces(ps)
  {
    assert ([p] + ps)[1..] == ps;
  }

  /** A character no piece holds is not in any stripped piece either. */
  lemma {:induction false} TrimmedPiecesAvoid(ps: seq<string>, c: char)
    requires forall i | 0 <= i < |ps| :: c !in ps[i]
    ensures forall i | 0 <= i < |TrimmedPieces(ps)| :: c !in TrimmedPieces(ps)[i]
  {
    if ps != [] {
      TrimmedPiecesAvoid(ps[1..], c);
      TrimInfix(ps[0]);
      assert TrimmedPieces(ps) == StripPiece(ps[0]) + TrimmedPieces(ps[1..]);
    }
  }

  /** What the comma fallback yields: a non-empty stripped text without commas. */
  predicate IsPiece(x: string) {
    x != "" && IsTrimmed(x) && ',' !in x
  }

  /**
   * The fallback of parse_list: the comma-separated pieces, each
   * stripped, the empty ones dropped.
   */
  function CommaFallback(s: string): (r: seq<string>)
    ensures forall i | 0 <= i < |r| :: IsPiece(r[i])
  {
    TrimmedPiecesAvoid(SplitOn(s, {','}), ',');
    TrimmedPieces(SplitOn(s, {','}))
  }

  /** The list or tuple branch: stripped strings, or the fallback when an element is not a string. */
  function StripOrSplit(items: seq<Scalar>, s: string): (r: seq<string>)
    requires IsTrimmed(s)
    ensures forall i | 0 <= i < |r| :: IsTrimmed(r[i])
  {
    match StripAll(items)
    case Some(xs) => xs
    case None => CommaFallback(s)
  }

  /** parse_list on one CSV cell. */
  function ParseList(cell: Value): (r: seq<string>)
    requires IsScalar(cell)
    ensures IsNa(cell) ==> r == []
    ensures forall i | 0 <= i < |r| :: IsTrimmed(r[i])
  {
    if IsNa(cell) then [] else ParseText(Trim(ToStr(cell)))
  }

  /** parse_list once the cell's text is stripped: the literal, else the comma fallback. */
  function ParseText(s: string): (r: seq<string>)
    requires IsTrimmed(s)
    ensures forall i | 0 <= i < |r| :: IsTrimmed(r[i])
  {
    match LiteralEval(s)
    case Some(Atom(_)) => [s]
    case Some(ListLit(items)) => StripOrSplit(items, s)
    case Some(TupleLit(items)) => StripOrSplit(items, s)
    case None => CommaFallback(s)
  }

  /** A text cell is parsed by its stripped text. */
  lemma ParseListOfStr(t: string)
    ensures ParseList(Str(t)) == ParseText(Trim(t))
  {
    ToStrOfStr(t);
  }

  function TrimEach(xs: seq<string>): (r: seq<string>)
    ensures |r| == |xs| && forall i | 0 <= i < |xs| :: r[i] == Trim(xs[i])
  {
    seq(|xs|, i requires 0 <= i < |xs| => Trim(xs[i]))
  }

  /** repr() of a list or tuple element that is a plain string. */
  lemma RenderQuotes(xs: seq<string>)
    ensures seq(|xs|, i requires 0 <= i < |xs| => Render(Strs(xs)[i], true)) == Quoted(xs)
  {
  }

  /** str() of a list of strings. */
  lemma ListReprText(xs: seq<string>)
    ensures ToStr(List(Strs(xs))) == "[" + (Join(", ", Quoted(xs)) + "]")
  {
    RenderQuotes(xs);
    var body := Join(", ", Quoted(xs));
    assert "[" + body + "]" == "[" + (body + "]");
  }

  /** str() of a tuple of strings: a one-element tuple keeps a trailing comma. */
  lemma TupleReprText(xs: seq<string>)
    ensures |xs| == 1 ==> ToStr(Tuple(Strs(xs))) == "(" + (Quote(xs[0]) + ",)")
    ensures |xs| != 1 ==> ToStr(Tuple(Strs(xs))) == "(" + (Join(", ", Quoted(xs)) + ")")
  {
    if |xs| == 1 {
      var q := Quote(xs[0]);
      assert Render(Strs(xs)[0], true) == q;
      assert "(" + (q + ",") + ")" == "(" + (q + ",)");
    } else {
      RenderQuotes(xs);
      var body := Join(", ", Quoted(xs));
      assert "(" + body + ")" == "(" + (body + ")");
    }
  }

  /** A text that opens and closes with brackets is already stripped. */
  lemma BracketedTrimmed(open: char, body: string, close: char)
    requires open == '[' || open == '('
    requires close == ']' || close == ')'
    ensures Trim([open] + (body + [close])) == [open] + (body + [close])
  {
    var s := [open] + (body + [close]);
    assert s[0] == open && s[|s| - 1] == close;
    TrimOfTrimmed(s);
  }

  /** The stripped strings of a list of string literals. */
  lemma StripTexts(xs: seq<string>)
    ensures StripAll(Texts(xs)) == Some(TrimEach(xs))
  {
    var r := StripAll(Texts(xs));
    assert r.Some?;
    assert r.value == TrimEach(xs);
  }

  /** A cell whose text is a literal list or tuple of strings gives those strings stripped. */
  lemma ParseListOfTexts(t: string, lit: Literal, xs: seq<string>)
    requires Trim(t) == t
    requires lit == ListLit(Texts(xs)) || lit == TupleLit(Texts(xs))
    requires LiteralEval(t) == Some(lit)
    ensures ParseList(Str(t)) == TrimEach(xs)
  {
    ParseListOfStr(t);
    assert IsTrimmed(t);
    assert ParseText(t) == StripOrSplit(Texts(xs), t);
    assert StripOrSplit(Texts(xs), t) == TrimEach(xs) by { StripTexts(xs); }
  }

  /** str() of a list of plain strings is stripped and evaluates to the list. */
  lemma ListReprEval(xs: seq<string>)
    requires forall i | 0 <= i < |xs| :: IsPlain(xs[i])
    ensures LiteralEval(ToStr(List(Strs(xs)))) == Some(ListLit(Texts(xs)))
  {
    ListReprText(xs);
    EvalOfListRepr(xs);
  }

  lemma ListReprTrimmed(xs: seq<string>)
    ensures Trim(ToStr(List(Strs(xs)))) == ToStr(List(Strs(xs)))
  {
    ListReprText(xs);
    BracketedTrimmed('[', Join(", ", Quoted(xs)), ']');
  }

  /** str() of a tuple of plain strings evaluates to the tuple. */
  lemma TupleReprEval(xs: seq<string>)
    requires forall i | 0 <= i < |xs| :: IsPlain(xs[i])
    ensures LiteralEval(ToStr(Tuple(Strs(xs)))) == Some(TupleLit(Texts(xs)))
  {
    TupleReprText(xs);
    if |xs| == 1 {
      SingleQuoted(xs, ')');
      EvalOfSingletonTuple(xs[0]);
    } else {
      EvalOfTupleRepr(xs);
    }
  }

  lemma TupleReprTrimmed(xs: seq<string>)
    ensures Trim(ToStr(Tuple(Strs(xs)))) == ToStr(Tuple(Strs(xs)))
  {
    TupleReprText(xs);
    if |xs| == 1 {
      SingletonTupleTrimmed(xs[0]);
    } else {
      BracketedTrimmed('(', Join(", ", Quoted(xs)), ')');
    }
  }

  /** A list of plain strings, written by str(), parses back to those strings stripped, empty ones kept. */
  lemma ParseListOfListRepr(xs: seq<string>)
    requires forall i | 0 <= i < |xs| :: IsPlain(xs[i])
    ensures ParseList(Str(ToStr(List(Strs(xs))))) == TrimEach(xs)
  {
    ListReprEval(xs);
    ListReprTrimmed(xs);
    ParseListOfTexts(ToStr(List(Strs(xs))), ListLit(Texts(xs)), xs);
  }

  /** The same for a tuple of plain strings, including the one-element form "('x',)". */
  lemma ParseListOfTupleRepr(xs: seq<string>)
    requires forall i | 0 <= i < |xs| :: IsPlain(xs[i])
    ensures ParseList(Str(ToStr(Tuple(Strs(xs))))) == TrimEach(xs)
  {
    TupleReprEval(xs);
    TupleReprTrimmed(xs);
    ParseListOfTexts(ToStr(Tuple(Strs(xs))), TupleLit(Texts(xs)), xs);
  }

  lemma SingletonTupleTrimmed(x: string)
    ensures Trim("(" + (Quote(x) + ",)")) == "(" + (Quote(x) + ",)")
  {
    assert Quote(x) + ",)" == (Quote(x) + ",") + [')'];
    BracketedTrimmed('(', Quote(x) + ",", ')');
  }

  /** A cell holding one quoted string is a literal but not a list: it is kept whole, quotes included. */
  lemma ParseListOfQuote(x: string)
    requires IsPlain(x)
    ensures ParseList(Str(Quote(x))) == [Quote(x)]
  {
    var s := Quote(x);
    assert Trim(s) == s by {
      assert s[0] == '\'' && s[|s| - 1] == '\'';
      TrimOfTrimmed(s);
    }
    ParseListOfStr(s);
    EvalOfQuote(x);
    ParseTextOfAtom(s, Text(x));
  }

  /** A text that evaluates to a single scalar is kept whole. */
  lemma ParseTextOfAtom(s: string, a: Scalar)
    requires IsTrimmed(s) && LiteralEval(s) == Some(Atom(a))
    ensures ParseText(s) == [s]
  {
  }

  /** A word that is not True, False or None is no literal: literal_eval raises. */
  lemma EvalOfWord(s: string)
    requires s != [] && ('a' <= s[0] <= 'z' || 'A' <= s[0] <= 'Z')
    requires s[0] != 'T' && s[0] != 'F' && s[0] != 'N'
    ensures LiteralEval(s) == None
  {
    assert SkipBlank(s, false) == s;
    assert ScalarLit(s) == None by {
      assert NumberEnd(s) == None by { assert DigitRun(s) == 0; }
      assert NameEnd(s) == None by {
        assert !StartsWith(s, "True") && !StartsWith(s, "None") && !StartsWith(s, "False");
      }
    }
    assert Elements(s, None) == None;
  }

  lemma StripPieceOfPiece(x: string)
    requires x != "" && IsTrimmed(x)
    ensures StripPiece(x) == [x]
  {
    TrimOfTrimmed(x);
  }

  /** Joining with ", " and falling back to the comma split gives the pieces back. */
  lemma {:induction false} CommaFallbackOfJoin(xs: seq<string>)
    requires forall i | 0 <= i < |xs| :: IsPiece(xs[i])
    ensures CommaFallback(Join(", ", xs)) == xs
  {
    if xs == [] {
      CommaFallbackOfEmpty();
    } else if |xs| == 1 {
      CommaFallbackOfPiece(xs[0]);
    } else {
      var rest := xs[1..];
      CommaFallbackOfJoin(rest);
      CommaFallbackCons(xs[0], Join(", ", rest));
      assert [xs[0]] + rest == xs;
    }
  }

  /** A single piece without commas comes back as itself. */
  lemma CommaFallbackOfPiece(x: string)
    requires IsPiece(x)
    ensures CommaFallback(x) == [x]
  {
    SplitOnNone(x, {','});
    StripPieceOfPiece(x);
    TrimmedPiecesCons(x, []);
  }

  /** The piece before the first ", " comes first; the rest splits on its own. */
  lemma CommaFallbackCons(x: string, j: string)
    requires IsPiece(x)
    ensures CommaFallback(x + ", " + j) == [x] + CommaFallback(j)
  {
    assert x + ", " + j == x + [','] + (" " + j);
    SplitOnFirst(x, ',', " " + j, {','});
    StripPieceOfPiece(x);
    TrimmedPiecesCons(x, SplitOn(" " + j, {','}));
    SpaceBeforePieces(j);
  }

  lemma StripPieceSpace(h: string)
    ensures StripPiece(" " + h) == StripPiece(h)
  {
    TrimSpaceCons(h);
  }

  /** A blank before the first piece is stripped away with it. */
  lemma SpaceBeforePieces(j: string)
    ensures TrimmedPieces(SplitOn(" " + j, {','})) == TrimmedPieces(SplitOn(j, {','}))
  {
    var rest := SplitOn(j, {','});
    var h, tl := rest[0], rest[1..];
    assert rest == [h] + tl;
    SplitOnNonSep(' ', j, {','});
    StripPieceSpace(h);
    TrimmedPiecesCons(" " + h, tl);
    TrimmedPiecesCons(h, tl);
  }

  /**
   * A comma-separated text (one that does not start a literal) goes
   * through the fallback and gives exactly its pieces.
   */
  lemma ParseListOfJoin(xs: seq<string>)
    requires xs != [] && xs[0] != ""
    requires forall i | 0 <= i < |xs| :: IsPiece(xs[i])
    requires 'a' <= xs[0][0] <= 'z' || 'A' <= xs[0][0] <= 'Z'
    requires xs[0][0] != 'T' && xs[0][0] != 'F' && xs[0][0] != 'N'
    ensures ParseList(Str(Join(", ", xs))) == xs
  {
    var s := Join(", ", xs);
    assert s != [] && s[0] == xs[0][0] by { JoinEnds(", ", xs); }
    assert IsTrimmed(s) && Trim(s) == s by {
      JoinOfTrimmed(", ", xs);
      TrimOfTrimmed(s);
    }
    ParseListOfStr(s);
    EvalOfWord(s);
    ParseTextOfNone(s);
    CommaFallbackOfJoin(xs);
  }

  /** A text that is no literal goes to the comma fallback. */
  lemma ParseTextOfNone(s: string)
    requires IsTrimmed(s) && LiteralEval(s) == None
    ensures ParseText(s) == CommaFallback(s)
  {
  }

  lemma CommaFallbackOfEmpty()
    ensures CommaFallback("") == []
  {
    assert SplitOn("", {','}) == [""];
    TrimmedPiecesCons("", []);
    assert Trim("") == "";
  }

  /** A cell whose stripped text is empty gives no elements. */
  lemma ParseListOfBlank(s: string)
    requires Trim(s) == ""
    ensures ParseList(Str(s)) == []
  {
    ParseListOfStr(s);
    assert LiteralEval("") == None;
    CommaFallbackOfEmpty();
  }

  /** The repr of ['a', 'b'] reads back as the two strings. */
  lemma ParseListOfListExample()
    ensures ParseList(Str("['a', 'b']")) == ["a", "b"]
  {
    var xs := ["a", "b"];
    ListExampleText();
    PlainExample();
    ParseListOfListRepr(xs);
    TrimEachExample();
  }

  lemma PlainExample()
    ensures forall i | 0 <= i < |["a", "b"]| :: IsPlain(["a", "b"][i])
  {
    assert IsPlain("a") && IsPlain("b");
  }

  lemma TrimEachExample()
    ensures TrimEach(["a", "b"]) == ["a", "b"]
  {
    var xs := ["a", "b"];
    assert IsTrimmed(xs[0]) && IsTrimmed(xs[1]);
    TrimEachOfTrimmed(xs);
  }

  /** Stripping texts that are already stripped changes nothing. */
  lemma TrimEachOfTrimmed(xs: seq<string>)
    requires forall i | 0 <= i < |xs| :: IsTrimmed(xs[i])
    ensures TrimEach(xs) == xs
  {
    forall i | 0 <= i < |xs|
      ensures TrimEach(xs)[i] == xs[i]
    {
      TrimOfTrimmed(xs[i]);
    }
  }

  lemma ListExampleText()
    ensures ToStr(List(Strs(["a", "b"]))) == "['a', 'b']"
  {
    var xs := ["a", "b"];
    ListReprText(xs);
    assert Quote("a") == "'a'" && Quote("b") == "'b'";
    assert Quoted(xs) == ["'a'", "'b'"];
    assert Join(", ", Quoted(xs)) == "'a', 'b'";
  }

  /** "a, b" is no literal and splits into its two words. */
  lemma ParseListOfTextExample()
    ensures ParseList(Str("a, b")) == ["a", "b"]
  {
    var xs := ["a", "b"];
    assert Join(", ", xs) == "a, b";
    ParseListOfJoin(xs);
  }

  /**
   * The literal path and the comma fallback disagree on "'a,b'": the cell
   * is one string literal and stays whole, quotes included.
   */
  lemma QuotedCommaKeepsWhole()
    ensures ParseList(Str("'a,b'")) == ["'a,b'"]
  {
    assert IsPlain("a,b");
    assert Quote("a,b") == "'a,b'";
    ParseListOfQuote("a,b");
  }

  /** Splitting the same text on its comma would give two pieces. */
  lemma QuotedCommaSplits()
    ensures CommaFallback("'a,b'") == ["'a", "b'"]
  {
    assert "'a,b'" == "'a" + [','] + "b'";
    SplitOnFirst("'a", ',', "b'", {','});
    SplitOnNone("b'", {','});
    PieceExamples();
    TrimmedPiecesCons("'a", ["b'"]);
    TrimmedPiecesCons("b'", []);
  }

  lemma PieceExamples()
    ensures StripPiece("'a") == ["'a"] && StripPiece("b'") == ["b'"]
  {
    TrimOfTrimmed("'a");
    TrimOfTrimmed("b'");
  }

  // ---------------------------------------------------------------------
  // parse_price
  // ---------------------------------------------------------------------

  /** float() of an integer (exactly: no rounding to binary64). */
  function IntNumber(i: int): (n: Number)
    ensures n.Finite? && Normal(n.d) && PyFloat.Value(n.d) == i as real
  {
    Finite(Decimal(i < 0, if i < 0 then -i else i, 0))
  }

  /** The text a price string is left with: "$" and "," removed, then stripped. */
  function PriceText(s: string): string {
    Trim(ReplaceChar(ReplaceChar(s, '$', ""), ',', ""))
  }

  /** The price text has no dollar sign, no comma and no white space at either end. */
  lemma PriceTextShape(s: string)
    ensures '$' !in PriceText(s) && ',' !in PriceText(s)
    ensures IsTrimmed(PriceText(s))
  {
    var a := ReplaceChar(s, '$', "");
    var b := ReplaceChar(a, ',', "");
    ReplaceCharAvoids(a, ',', "", '$');
    TrimInfix(b);
  }

  /**
   * The nested parse_price: None for a missing cell and for a text float()
   * rejects, the number itself for a numeric cell.
   */
  function ParsePrice(x: Value): (r: Option<Number>)
    requires IsScalar(x)
    ensures IsNa(x) ==> r == None
    ensures x.Str? ==> r == ParseFloat(PriceText(x.s))
  {
    if IsNa(x) then None
    else if x.Str? then ParseFloat(PriceText(x.s))
    else if x.Int? then Some(IntNumber(x.i))
    else Some(x.n)
  }

  /** A character that is neither removed nor whitespace survives into the price text. */
  lemma PriceTextKeeps(s: string, c: char)
    requires c in s && c != '$' && c != ',' && !IsSpace(c)
    ensures c in PriceText(s)
  {
    var u := ReplaceChar(s, '$', "");
    ReplaceCharKeeps(s, '$', "", c);
    ReplaceCharKeeps(u, ',', "", c);
    TrimKeeps(ReplaceChar(u, ',', ""), c);
  }

  /**
   * Only "$" and "," are removed, so a text holding any other character
   * float() cannot read (another currency sign, say) gives None.
   */
  lemma ParsePriceOfForeignSymbol(s: string, c: char)
    requires c in s && c != '$' && c != ',' && !IsSpace(c) && !IsFloatChar(c)
    requires c != '_' && DecimalDigit(c).None?
    ensures ParsePrice(Str(s)) == None
  {
    PriceTextKeeps(s, c);
    ParseFloatRejects(PriceText(s), c);
  }

  /** The rupee sign: a price written in rupees is not read. */
  lemma ParsePriceOfRupees()
    ensures ParsePrice(Str("\U{20B9}1,299")) == None
  {
    var s := "\U{20B9}1,299";
    assert s[0] == '\U{20B9}';
    assert !IsFloatChar('\U{20B9}') && !IsSpace('\U{20B9}') && DecimalDigit('\U{20B9}').None?;
    ParsePriceOfForeignSymbol(s, '\U{20B9}');
  }

  /** str() of a float holds no "$" and no ",". */
  lemma RenderNumberPlain(n: Number)
    requires n.Finite? ==> Normal(n.d)
    ensures '$' !in RenderNumber(n) && ',' !in RenderNumber(n)
  {
    ParseRenderNumber(n);
    DollarCommaNoFloatChars();
    ParseFloatChars(RenderNumber(n));
  }

  /** A dollar sign before str() of a float: the price is that float (NaN aside, which equals nothing). */
  lemma ParsePriceOfDollars(n: Number)
    requires n.Finite? ==> Normal(n.d)
    ensures ParsePrice(Str("$" + RenderNumber(n))) == Some(n)
  {
    var r := RenderNumber(n);
    assert PriceText("$" + r) == Trim(r) by {
      RenderNumberPlain(n);
      assert ("$" + r)[0] == '$' && ("$" + r)[1..] == r;
      ReplaceCharAbsent(r, '$', "");
      assert ReplaceChar("$" + r, '$', "") == r;
      ReplaceCharAbsent(r, ',', "");
    }
    assert ParseFloat(Trim(r)) == Some(n) by {
      TrimOfTrimmed(r);
      ParseRenderNumber(n);
    }
  }

  /** "$1,299.00" is 1299. */
  lemma ParsePriceExample()
    ensures ParsePrice(Str("$1,299.00")) == Some(Finite(Decimal(false, 1299, 0)))
  {
    PriceTextExample();
    ParseFloatExample();
  }

  /** "١٢٣", Arabic-Indic digits: float() reads them as 123. */
  lemma ParsePriceOfArabicIndic()
    ensures ParsePrice(Str(ArabicIndicDigits)) == Some(Finite(Decimal(false, 123, 0)))
  {
    var s := ArabicIndicDigits;
    assert s == ['\U{661}', '\U{662}', '\U{663}'];
    assert '$' !in s && ',' !in s && IsTrimmed(s);
    PriceTextOfPlain(s);
    ParseFloatOfArabicIndic();
  }

  /** A stripped text with no dollar sign and no comma is its own price text. */
  lemma PriceTextOfPlain(s: string)
    requires '$' !in s && ',' !in s && IsTrimmed(s)
    ensures PriceText(s) == s
  {
    ReplaceCharAbsent(s, '$', "");
    ReplaceCharAbsent(s, ',', "");
    TrimOfTrimmed(s);
  }

  lemma PriceTextExample()
    ensures PriceText("$1,299.00") == "1299.00"
  {
    DollarRemoved();
    CommaRemoved();
    TrimmedExample();
  }

  lemma DollarRemoved()
    ensures ReplaceChar("$1,299.00", '$', "") == "1,299.00"
  {
    assert "$1,299.00" == "" + ['$'] + "1,299.00";
    ReplaceCharOnce("", '$', "1,299.00", "");
  }

  lemma CommaRemoved()
    ensures ReplaceChar("1,299.00", ',', "") == "1299.00"
  {
    assert "1,299.00" == "1" + [','] + "299.00";
    ReplaceCharOnce("1", ',', "299.00", "");
    assert "1" + "" + "299.00" == "1299.00";
  }

  lemma TrimmedExample()
    ensures Trim("1299.00") == "1299.00"
  {
    TrimOfTrimmed("1299.00");
  }

  lemma ParseFloatExample()
    ensures ParseFloat("1299.00") == Some(Finite(Decimal(false, 1299, 0)))
  {
    var t := "1299.00";
    assert IsTrimmed(t) && IsBareAscii(t) && IsDigit(t[0]);
    ParseFloatOfDigitStart(t);
    UnsignedExample();
  }

  lemma UnsignedExample()
    ensures ParseUnsigned(false, "1299.00") == Some(Finite(Decimal(false, 1299, 0)))
  {
    DigitFirstIsNoName("1299.00");
    ScientificExample();
    NormalizeExample();
  }

  lemma NormalizeExample()
    ensures Normalize(Decimal(false, 129900, 2)) == Decimal(false, 1299, 0)
  {
  }

  lemma ScientificExample()
    ensures ParseScientific("1299.00") == Some(Decimal(false, 129900, 2))
  {
    SplitAtFirstMiss("1299.00", {'e', 'E'});
    MantissaExample();
  }

  lemma MantissaExample()
    ensures ParseMantissa("1299.00") == Some(Decimal(false, 129900, 2))
  {
    assert "1299.00" == "1299" + ['.'] + "00";
    SplitAtFirstHit("1299", '.', "00", {'.'});
    assert "1299" + "00" == "129900";
    assert AllDigits("1299") && AllDigits("00");
    DigitsValueExample();
  }

  lemma DigitsValueExample()
    ensures AllDigits("129900") && DigitsValue("129900") == 129900
  {
    assert "129900"[..5] == "12990";
    assert "12990"[..4] == "1299";
    assert "1299"[..3] == "129";
    assert "129"[..2] == "12";
    assert "12"[..1] == "1";
    assert "1"[..0] == "";
  }

  // ---------------------------------------------------------------------
  // load_products and build_indices
  // ---------------------------------------------------------------------

  /** One cell after parse_list: the list of its stripped strings. */
  function ListCell(cell: Value): (r: Value)
    requires IsScalar(cell)
    ensures r.List? && TupleFree(r)
    ensures forall j | 0 <= j < |r.items| :: r.items[j].Str? && IsTrimmed(r.items[j].s)
    ensures IsNa(cell) ==> r == List([])
  {
    List(Strs(ParseList(cell)))
  }

  /** df[col].apply(parse_list): every cell replaced by its parsed list, in place order. */
  function ListColumn(cells: seq<Value>): (r: seq<Value>)
    requires forall i | 0 <= i < |cells| :: IsScalar(cells[i])
    ensures |r| == |cells|
    ensures forall i | 0 <= i < |cells| :: r[i] == ListCell(cells[i])
  {
    seq(|cells|, i requires 0 <= i < |cells| => ListCell(cells[i]))
  }

  /**
   * df["price"].apply(parse_price). pandas makes the result a float column
   * when some cell parsed, so a None there is stored as NaN; when no cell
   * parsed the column keeps the None values themselves.
   */
  function PriceColumn(cells: seq<Value>): (r: seq<Value>)
    requires forall i | 0 <= i < |cells| :: IsScalar(cells[i])
    ensures |r| == |cells|
    ensures forall i | 0 <= i < |cells| && ParsePrice(cells[i]).Some? :: r[i] == Num(ParsePrice(cells[i]).value)
    ensures forall i | 0 <= i < |cells| && ParsePrice(cells[i]).None? :: IsNa(r[i]) && TupleFree(r[i])
    ensures (exists i | 0 <= i < |cells| :: ParsePrice(cells[i]).Some?) ==>
              forall i | 0 <= i < |cells| :: r[i].Num?
  {
    var numeric := exists i | 0 <= i < |cells| :: ParsePrice(cells[i]).Some?;
    seq(|cells|, i requires 0 <= i < |cells| =>
      var p := ParsePrice(cells[i]);
      if p.Some? then Num(p.value) else if numeric then Missing else PyNone)
  }

  /** The columns load_products rewrites; the others pass through as read. */
  const ParsedColumns: set<string> := {"categories", "images", "price"}

  /** The CSV table has the columns load_products indexes (a KeyError otherwise). */
  predicate HasProductColumns(columns: map<string, seq<Value>>) {
    "categories" in columns && "images" in columns && "price" in columns
  }

  /**
   * Row i of the records load_products returns: the table's columns, the
   * given parsed list and price cells, every other cell as read.
   */
  ghost predicate LoadedRow(columns: map<string, seq<Value>>, i: nat, row: Record,
                            categories: Value, images: Value, price: Value)
  {
    HasProductColumns(columns)
    && row.Keys == columns.Keys
    && row["categories"] == categories
    && row["images"] == images
    && row["price"] == price
    && forall c | c in columns && c !in ParsedColumns :: i < |columns[c]| && row[c] == columns[c][i]
  }

  /**
   * The records load_products returns for a table: one per row, with its
   * list cells parsed by parse_list and its price cell by parse_price.
   */
  ghost predicate IsLoaded(columns: map<string, seq<Value>>, length: nat, products: seq<Record>)
    requires FromCsv(columns, length) && HasProductColumns(columns)
  {
    |products| == length
    && forall i | 0 <= i < length ::
         LoadedRow(columns, i, products[i], ListColumn(columns["categories"])[i],
                   ListColumn(columns["images"])[i], PriceColumn(columns["price"])[i])
  }

  /** The table after the three column assignments of load_products. */
  function ParsedTable(columns: map<string, seq<Value>>, length: nat): (m: map<string, seq<Value>>)
    requires FromCsv(columns, length) && HasProductColumns(columns)
    ensures m.Keys == columns.Keys && Rectangular(m, length)
  {
    columns["categories" := ListColumn(columns["categories"])]
           ["images" := ListColumn(columns["images"])]
           ["price" := PriceColumn(columns["price"])]
  }

  /** The rows of the parsed table are the loaded records. */
  lemma RowsOfParsedTable(columns: map<string, seq<Value>>, length: nat)
    requires FromCsv(columns, length) && HasProductColumns(columns)
    ensures IsLoaded(columns, length, RowsOf(ParsedTable(columns, length), length))
  {
    var m := ParsedTable(columns, length);
    var rs := RowsOf(m, length);
    forall i | 0 <= i < length
      ensures LoadedRow(columns, i, rs[i], ListColumn(columns["categories"])[i],
                        ListColumn(columns["images"])[i], PriceColumn(columns["price"])[i])
    {
      forall c | c in columns && c !in ParsedColumns
        ensures i < |columns[c]| && rs[i][c] == columns[c][i]
      {
        assert m[c] == columns[c];
      }
    }
  }

  /** load_products on the table pd.read_csv gave. */
  method LoadProducts(columns: map<string, seq<Value>>, length: nat) returns (products: seq<Record>)
    requires FromCsv(columns, length) && HasProductColumns(columns)
    ensures IsLoaded(columns, length, products)
  {
    var df := new DataFrame(columns, length);
    df.SetColumn("categories", ListColumn(df.columns["categories"]));
    assert df.columns["images"] == columns["images"];
    df.SetColumn("images", ListColumn(df.columns["images"]));
    assert df.columns["price"] == columns["price"];
    df.SetColumn("price", PriceColumn(df.columns["price"]));
    assert df.columns == ParsedTable(columns, length);
    products := df.Records();
    RowsOfUnique(df.columns, length, products);
    RowsOfParsedTable(columns, length);
  }

  /** A cell pd.read_csv gives holds no tuple. */
  lemma ScalarTupleFree(v: Value)
    requires IsScalar(v)
    ensures TupleFree(v)
  {
  }

  /** A loaded row holds no tuple when its parsed cells hold none. */
  lemma LoadedRowTupleFree(columns: map<string, seq<Value>>, i: nat, row: Record,
                           categories: Value, images: Value, price: Value)
    requires LoadedRow(columns, i, row, categories, images, price)
    requires TupleFree(categories) && TupleFree(images) && TupleFree(price)
    requires forall c | c in columns :: i < |columns[c]| && IsScalar(columns[c][i])
    ensures RecordTupleFree(row)
  {
    forall c | c in row ensures TupleFree(row[c]) {
      if c !in ParsedColumns {
        ScalarTupleFree(columns[c][i]);
      }
    }
  }

  /** Loaded records hold no tuples, so their JSON image is themselves. */
  lemma LoadedTupleFree(columns: map<string, seq<Value>>, length: nat, products: seq<Record>)
    requires FromCsv(columns, length) && HasProductColumns(columns)
    requires IsLoaded(columns, length, products)
    ensures forall i | 0 <= i < |products| :: RecordTupleFree(products[i])
    ensures JsonRecords(products) == products
  {
    var categories := ListColumn(columns["categories"]);
    var images := ListColumn(columns["images"]);
    var prices := PriceColumn(columns["price"]);
    forall i | 0 <= i < |products| ensures RecordTupleFree(products[i]) {
      LoadedRowTupleFree(columns, i, products[i], categories[i], images[i], prices[i]);
    }
    JsonRecordsOfTupleFree(products);
  }

  /**
   * A categories cell the CSV holds as str() of a list of plain strings
   * loads as that list, each string stripped.
   */
  lemma LoadedCategoriesOfRepr(columns: map<string, seq<Value>>, length: nat, products: seq<Record>,
                               i: nat, xs: seq<string>)
    requires FromCsv(columns, length) && HasProductColumns(columns)
    requires IsLoaded(columns, length, products) && i < length
    requires columns["categories"][i] == Str(ToStr(List(Strs(xs))))
    requires forall j | 0 <= j < |xs| :: IsPlain(xs[j])
    ensures products[i]["categories"] == List(Strs(TrimEach(xs)))
  {
    assert products[i]["categories"] == ListColumn(columns["categories"])[i];
    ParseListOfListRepr(xs);
  }

  /** The sentence encoder: one vector of dimension `dim` per text. */
  ghost predicate IsEncoder(encode: seq<string> -> seq<Vector>, dim: nat) {
    forall texts: seq<string> ::
      |encode(texts)| == |texts| && forall j | 0 <= j < |encode(texts)| :: |encode(texts)[j]| == dim
  }

  /**
   * build_indices: the records load_products gives, one vector per record
   * for its product text, and a store of dimension vecs.shape[1] holding
   * them, saved under `idxPath`. The outputs are the values the Python
   * function keeps in its locals.
   */
  method BuildIndices(columns: map<string, seq<Value>>, length: nat, idxPath: string,
                      encode: seq<string> -> seq<Vector>, ghost dim: nat, disk: Disk)
    returns (products: seq<Record>, vecs: seq<Vector>)
    requires FromCsv(columns, length) && HasProductColumns(columns)
    requires length >= 1
    requires IsEncoder(encode, dim)
    requires disk.Valid()
    modifies disk
    ensures IsLoaded(columns, length, products)
    ensures vecs == EncodeProducts(products, encode).0 && |vecs| == |products|
    ensures disk.indexFiles == old(disk.indexFiles)[idxPath + ".index" := FlatIndex(dim, vecs)]
    ensures disk.metaFiles == old(disk.metaFiles)[idxPath + ".meta.json" := products]
    ensures disk.Valid()
  {
    products := LoadProducts(columns, length);
    var texts;
    vecs, texts := EncodeProducts(products, encode).0, EncodeProducts(products, encode).1;
    var store := new FaissStore(|vecs[0]|, idxPath);
    store.Add(vecs, products);
    assert |vecs[0]| == dim && [] + vecs == vecs && [] + products == products;
    store.Save(disk);
    LoadedTupleFree(columns, length, products);
  }
}
