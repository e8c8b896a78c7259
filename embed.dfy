/**
 * The record-to-text normaliser: each product dictionary becomes the one
 * string that is embedded for it. The sentence-embedding model itself is a
 * function parameter (`encode`), since it is a neural network.
 */
module Embed {
  import opened PyStr
  import opened PyFloat
  import opened Values

  /**
   * Any value to a clean string: None and the textual null markers "nan",
   * "none", "null" (any case, any surrounding whitespace) give "", anything
   * else its stripped str().
   */
  function SafeStr(v: Value): (r: string)
    ensures IsTrimmed(r) && !IsNullToken(r)
  {
    if v.PyNone? then "" else CleanText(ToStr(v))
  }

  /** The text part of SafeStr: stripped, with the null markers collapsed to "". */
  function CleanText(s: string): (r: string)
    ensures IsTrimmed(r) && !IsNullToken(r)
  {
    var t := Trim(s);
    EmptyIsNoNullToken();
    if IsNullToken(t) then "" else t
  }

  /** A pandas missing cell prints as "nan", and so cleans to "". */
  lemma SafeStrOfMissing()
    ensures SafeStr(Missing) == ""
  {
    assert ToStr(Missing) == "nan";
    TrimOfTrimmed("nan");
    assert Lower("nan") == "nan";
  }

  /** A string that is not a null marker cleans to its stripped self. */
  lemma SafeStrOfText(s: string)
    requires !IsNullToken(Trim(s))
    ensures SafeStr(Str(s)) == Trim(s)
  {
  }

  /** Cleaning a cleaned value changes nothing. */
  lemma SafeStrIdempotent(v: Value)
    ensures SafeStr(Str(SafeStr(v))) == SafeStr(v)
  {
    TrimOfTrimmed(SafeStr(v));
  }

  /** The elements that clean to non-empty strings, cleaned, in their original order. */
  function Cleaned(xs: seq<Value>): (r: seq<string>)
    ensures |r| <= |xs|
    ensures forall i | 0 <= i < |r| :: IsClean(r[i])
  {
    if xs == [] then []
    else
      var head := SafeStr(xs[0]);
      var rest := Cleaned(xs[1..]);
      if head == "" then rest
      else
        assert IsTrimmed(head);
        [head] + rest
  }

  lemma {:induction false} CleanedAppend(xs: seq<Value>, ys: seq<Value>)
    ensures Cleaned(xs + ys) == Cleaned(xs) + Cleaned(ys)
  {
    if xs == [] {
      assert xs + ys == ys;
    } else {
      assert (xs + ys)[0] == xs[0];
      assert (xs + ys)[1..] == xs[1..] + ys;
      CleanedAppend(xs[1..], ys);
    }
  }

  /** Cleaned is empty exactly when every element cleans to "". */
  lemma {:induction false} CleanedEmpty(xs: seq<Value>)
    ensures Cleaned(xs) == [] <==> forall i | 0 <= i < |xs| :: SafeStr(xs[i]) == ""
  {
    if xs != [] {
      CleanedEmpty(xs[1..]);
      assert forall i | 1 <= i < |xs| :: xs[i] == xs[1..][i - 1];
    }
  }

  /** Iterating over a string yields its characters, each a one-character string. */
  function Chars(s: string): seq<Value> {
    seq(|s|, i requires 0 <= i < |s| => Str([s[i]]))
  }

  /**
   * A list-like value to one space-separated string. None, a number (zero is
   * falsy; iterating any other number raises and is caught) and an empty
   * container give ""; a string is iterated character by character.
   */
  function ListToStr(v: Value): (r: string)
    ensures IsTrimmed(r)
  {
    var parts :=
      match v
      case Str(s) => Cleaned(Chars(s))
      case List(xs) => Cleaned(xs)
      case Tuple(xs) => Cleaned(xs)
      case _ => [];
    JoinOfTrimmed(" ", parts);
    Join(" ", parts)
  }

  /** A list value joins exactly its non-empty cleaned elements; it is "" when there are none. */
  lemma ListToStrOfList(xs: seq<Value>)
    ensures ListToStr(List(xs)) == Join(" ", Cleaned(xs))
    ensures ListToStr(List(xs)) == "" <==> forall i | 0 <= i < |xs| :: SafeStr(xs[i]) == ""
  {
    JoinOfTrimmed(" ", Cleaned(xs));
    CleanedEmpty(xs);
  }

  const Separator: string := " | "

  /** The six fields that make up the embedded text, in this order. */
  const TextKeys: seq<string> := ["title", "description", "categories", "brand", "material", "color"]

  /** The six cleaned fields of a product, in the order they are joined. */
  function Fields(p: Record): (f: seq<string>)
    ensures |f| == 6
  {
    [ SafeStr(Get(p, "title")),
      SafeStr(Get(p, "description")),
      ListToStr(Get(p, "categories")),
      SafeStr(Get(p, "brand")),
      SafeStr(Get(p, "material")),
      SafeStr(Get(p, "color")) ]
  }

  lemma FieldsTrimmed(p: Record)
    ensures forall i | 0 <= i < 6 :: IsTrimmed(Fields(p)[i])
  {
    var f := Fields(p);
    assert IsTrimmed(f[0]) && IsTrimmed(f[1]) && IsTrimmed(f[2]);
    assert IsTrimmed(f[3]) && IsTrimmed(f[4]) && IsTrimmed(f[5]);
  }

  /** The non-empty strings of `parts`, in order. */
  function NonEmpty(parts: seq<string>): (r: seq<string>)
    ensures |r| <= |parts|
    ensures forall i | 0 <= i < |r| :: r[i] != "" && r[i] in parts
  {
    if parts == [] then []
    else
      var rest := NonEmpty(parts[1..]);
      if parts[0] != "" then [parts[0]] + rest else rest
  }

  lemma {:induction false} NonEmptyOfNonEmpty(parts: seq<string>)
    requires forall i | 0 <= i < |parts| :: parts[i] != ""
    ensures NonEmpty(parts) == parts
  {
    if parts != [] {
      NonEmptyOfNonEmpty(parts[1..]);
    }
  }

  lemma {:induction false} NonEmptyNil(parts: seq<string>)
    ensures NonEmpty(parts) == [] <==> forall i | 0 <= i < |parts| :: parts[i] == ""
  {
    if parts != [] {
      NonEmptyNil(parts[1..]);
      assert forall i | 1 <= i < |parts| :: parts[i] == parts[1..][i - 1];
    }
  }

  /** TextEmbedder.product_text */
  function ProductText(p: Record): string {
    Join(Separator, NonEmpty(Fields(p)))
  }

  /** The text is "" exactly when all six cleaned fields are empty. */
  lemma ProductTextEmpty(p: Record)
    ensures ProductText(p) == "" <==> forall i | 0 <= i < 6 :: Fields(p)[i] == ""
  {
    var f := Fields(p);
    FieldsTrimmed(p);
    NonEmptyNil(f);
    JoinOfTrimmed(Separator, NonEmpty(f));
  }

  /**
   * The text has no surrounding whitespace, so it neither starts nor ends
   * with the separator: no empty field ever leaves a dangling " | ".
   */
  lemma ProductTextEnds(p: Record)
    ensures IsTrimmed(ProductText(p))
    ensures !(|ProductText(p)| >= 3 && ProductText(p)[..3] == Separator)
    ensures !(|ProductText(p)| >= 3 && ProductText(p)[|ProductText(p)| - 3..] == Separator)
  {
    var f := Fields(p);
    FieldsTrimmed(p);
    var parts := NonEmpty(f);
    assert forall i | 0 <= i < |parts| :: IsTrimmed(parts[i]);
    JoinOfTrimmed(Separator, parts);
    var t := ProductText(p);
    if |t| >= 3 {
      assert t[..3][0] == t[0];
      assert t[|t| - 3..][2] == t[|t| - 1];
    }
  }

  /** Only the six text fields matter: price and every other key are ignored. */
  lemma ProductTextDependsOnTextFields(p: Record, q: Record)
    requires forall k | k in TextKeys :: Get(p, k) == Get(q, k)
    ensures ProductText(p) == ProductText(q)
  {
    assert Get(p, "title") == Get(q, "title") by { assert "title" == TextKeys[0]; }
    assert Get(p, "description") == Get(q, "description") by { assert "description" == TextKeys[1]; }
    assert Get(p, "categories") == Get(q, "categories") by { assert "categories" == TextKeys[2]; }
    assert Get(p, "brand") == Get(q, "brand") by { assert "brand" == TextKeys[3]; }
    assert Get(p, "material") == Get(q, "material") by { assert "material" == TextKeys[4]; }
    assert Get(p, "color") == Get(q, "color") by { assert "color" == TextKeys[5]; }
  }

  /** With all six fields present, nothing is dropped: they are joined in the fixed order. */
  lemma ProductTextAllPresent(p: Record)
    requires forall i | 0 <= i < 6 :: Fields(p)[i] != ""
    ensures ProductText(p) == Join(Separator, Fields(p))
  {
    NonEmptyOfNonEmpty(Fields(p));
  }

  /**
   * TextEmbedder.encode_products: one text per product, in order, and the
   * vectors the model gives for exactly those texts.
   */
  function EncodeProducts(products: seq<Record>, encode: seq<string> -> seq<Vector>)
    : (r: (seq<Vector>, seq<string>))
    ensures |r.1| == |products|
    ensures forall i | 0 <= i < |products| :: r.1[i] == ProductText(products[i])
    ensures r.0 == encode(r.1)
  {
    var texts := seq(|products|, i requires 0 <= i < |products| => ProductText(products[i]));
    (encode(texts), texts)
  }
}
