/**
 * The heterogeneous cells and dictionary values the ingest, retrieval and
 * analytics code handles: what pandas reads from a CSV file and what
 * json.load gives back, with str() and the effect of a JSON round trip.
 */
module Values {
  import opened PyStr
  import opened PyFloat

  /**
   * A Python value as found in a record. A pandas missing cell is the float
   * NaN, `Num(NaN)`.
   */
  datatype Value =
    | PyNone
    | Str(s: string)
    | Int(i: int)
    | Num(n: Number)
    | List(items: seq<Value>)
    | Tuple(items: seq<Value>)

  /** A product dictionary: field name to value. */
  type Record = map<string, Value>

  /** An embedding: a vector of (exact) reals. */
  type Vector = seq<real>

  /** The cell pandas gives for a missing entry. */
  const Missing: Value := Num(NaN)

  /** dict.get(key): None for an absent key. */
  function Get(r: Record, key: string): Value {
    if key in r then r[key] else PyNone
  }

  /** pd.isna for a scalar cell. */
  predicate IsNa(v: Value) {
    v == PyNone || v == Num(NaN)
  }

  /** What pandas can put in a CSV cell: no lists and no tuples. */
  predicate IsScalar(v: Value) {
    !v.List? && !v.Tuple?
  }

  /**
   * str(v) when `quoted` is false, repr(v) when it is true. Strings are
   * quoted with ' and their characters are not escaped.
   */
  function Render(v: Value, quoted: bool): string
    decreases v
  {
    match v
    case PyNone => "None"
    case Str(s) => if quoted then "'" + s + "'" else s
    case Int(i) => IntToString(i)
    case Num(n) => RenderNumber(n)
    case List(xs) =>
      "[" + Join(", ", seq(|xs|, i requires 0 <= i < |xs| => Render(xs[i], true))) + "]"
    case Tuple(xs) =>
      "(" + (if |xs| == 1 then Render(xs[0], true) + ","
             else Join(", ", seq(|xs|, i requires 0 <= i < |xs| => Render(xs[i], true)))) + ")"
  }

  /** str(v) */
  function ToStr(v: Value): string {
    Render(v, false)
  }

  /** str() of a string is the string itself. */
  lemma ToStrOfStr(s: string)
    ensures ToStr(Str(s)) == s
  {
  }

  /** str() is the text itself for a string, and never "" for anything else. */
  lemma ToStrShape(v: Value)
    ensures v.Str? ==> ToStr(v) == v.s
    ensures !v.Str? ==> ToStr(v) != ""
  {
    match v
    case List(xs) =>
      assert ToStr(v)[0] == '[';
    case Tuple(xs) =>
      assert ToStr(v)[0] == '(';
    case _ =>
  }

  /**
   * pd.isna on a cell: only None and NaN are missing; a string (even ""),
   * an integer, an infinity or a finite float is not.
   */
  lemma IsNaCases(v: Value)
    ensures IsNa(v) ==> IsScalar(v) && (v.PyNone? || v.Num?)
    ensures v.Num? ==> (IsNa(v) <==> v.n.NaN?)
    ensures v.Str? || v.Int? ==> !IsNa(v)
  {
  }

  lemma StrsSnoc(ys: seq<string>, y: string)
    ensures Strs(ys + [y]) == Strs(ys) + [Str(y)]
  {
    var a, b := Strs(ys + [y]), Strs(ys) + [Str(y)];
    assert |a| == |b|;
    forall i | 0 <= i < |a|
      ensures a[i] == b[i]
    {
      if i < |ys| {
        assert a[i] == Str(ys[i]) == b[i];
      }
    }
  }

  /** Strings as a sequence of string values. */
  function Strs(ys: seq<string>): (r: seq<Value>)
    ensures |r| == |ys|
    ensures forall i | 0 <= i < |ys| :: r[i] == Str(ys[i])
  {
    seq(|ys|, i requires 0 <= i < |ys| => Str(ys[i]))
  }

  /** The value json.load gives back after json.dump: tuples become lists. */
  function JsonImage(v: Value): (r: Value)
    decreases v
  {
    match v
    case List(xs) => List(seq(|xs|, i requires 0 <= i < |xs| => JsonImage(xs[i])))
    case Tuple(xs) => List(seq(|xs|, i requires 0 <= i < |xs| => JsonImage(xs[i])))
    case _ => v
  }

  predicate TupleFree(v: Value)
    decreases v
  {
    match v
    case Tuple(_) => false
    case List(xs) => forall i | 0 <= i < |xs| :: TupleFree(xs[i])
    case _ => true
  }

  /** A JSON round trip leaves a value without tuples exactly as it was. */
  lemma {:induction false} JsonImageOfTupleFree(v: Value)
    requires TupleFree(v)
    ensures JsonImage(v) == v
    decreases v
  {
    if v.List? {
      var xs := v.items;
      forall i | 0 <= i < |xs| ensures JsonImage(xs[i]) == xs[i] {
        JsonImageOfTupleFree(xs[i]);
      }
      assert JsonImage(v).items == xs;
    }
  }

  /** What comes back from JSON has no tuples, so a second round trip changes nothing. */
  lemma {:induction false} JsonImageTupleFree(v: Value)
    ensures TupleFree(JsonImage(v))
    ensures JsonImage(JsonImage(v)) == JsonImage(v)
    decreases v
  {
    if v.List? || v.Tuple? {
      var xs := v.items;
      forall i | 0 <= i < |xs| ensures TupleFree(JsonImage(xs[i])) {
        JsonImageTupleFree(xs[i]);
      }
      JsonImageOfTupleFree(JsonImage(v));
    }
  }

  /** The dictionary json.load gives back after json.dump. */
  function JsonRecord(r: Record): (r': Record)
    ensures r'.Keys == r.Keys
  {
    map k | k in r :: JsonImage(r[k])
  }

  function JsonRecords(rs: seq<Record>): (rs': seq<Record>)
    ensures |rs'| == |rs|
  {
    seq(|rs|, i requires 0 <= i < |rs| => JsonRecord(rs[i]))
  }

  predicate RecordTupleFree(r: Record) {
    forall k | k in r :: TupleFree(r[k])
  }

  /** Records without tuples survive a JSON round trip unchanged. */
  lemma JsonRecordsOfTupleFree(rs: seq<Record>)
    requires forall i | 0 <= i < |rs| :: RecordTupleFree(rs[i])
    ensures JsonRecords(rs) == rs
  {
    forall i | 0 <= i < |rs| ensures JsonRecord(rs[i]) == rs[i] {
      forall k | k in rs[i] ensures JsonImage(rs[i][k]) == rs[i][k] {
        JsonImageOfTupleFree(rs[i][k]);
      }
    }
  }
}
