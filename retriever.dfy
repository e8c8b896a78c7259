/**
 * The hydration layer of the recommender: lenient coercions of stored
 * metadata values, the projection of a metadata record onto the twelve
 * product fields, and the search that turns store hits into scored products.
 */
module Retriever {
  import opened Optional
  import opened PyStr
  import opened PyFloat
  import opened Values
  import opened VectorStore
  import Embed

  /** The retriever's own _safe_str: None and the null markers give "", anything else its stripped str(). */
  function SafeStr(v: Value): (r: string)
    ensures IsTrimmed(r) && !IsNullToken(r)
  {
    if v.PyNone? then ""
    else
      var s := Trim(ToStr(v));
      if IsNullToken(s) then "" else s
  }

  /** It agrees with the normaliser's _safe_str on every value. */
  lemma SafeStrAgrees(v: Value)
    ensures SafeStr(v) == Embed.SafeStr(v)
  {
  }

  /** A string that is already clean is its own SafeStr. */
  lemma SafeStrOfClean(t: string)
    requires IsTrimmed(t) && !IsNullToken(t)
    ensures SafeStr(Str(t)) == t
  {
    TrimOfTrimmed(t);
  }

  /** What the loop of _safe_list has collected after the elements `xs`. */
  function Kept(xs: seq<Value>): (r: seq<string>)
    ensures |r| <= |xs|
  {
    if xs == [] then []
    else
      var init := Kept(xs[..|xs| - 1]);
      var s := SafeStr(xs[|xs| - 1]);
      if s == "" then init else init + [s]
  }

  /** The loop collects exactly the normaliser's cleaned elements. */
  lemma {:induction false} KeptIsCleaned(xs: seq<Value>)
    ensures Kept(xs) == Embed.Cleaned(xs)
  {
    if xs != [] {
      var init := xs[..|xs| - 1];
      var last := xs[|xs| - 1];
      KeptIsCleaned(init);
      SafeStrAgrees(last);
      var s := SafeStr(last);
      assert Embed.Cleaned([last]) == (if s == "" then [] else [s]) by {
        assert [last][1..] == [];
      }
      assert xs[|xs| - 1..] == [last];
      assert init + xs[|xs| - 1..] == xs;
      Embed.CleanedAppend(init, [last]);
    }
  }

  /** A non-empty string that SafeStr leaves as it is. */
  predicate Clean(t: string) {
    t != "" && IsTrimmed(t) && !IsNullToken(t)
  }

  /** Every collected string is a SafeStr result, so it is clean. */
  lemma {:induction false} KeptClean(xs: seq<Value>)
    ensures forall i | 0 <= i < |Kept(xs)| :: Clean(Kept(xs)[i])
  {
    if xs != [] {
      var init := xs[..|xs| - 1];
      KeptClean(init);
      var s := SafeStr(xs[|xs| - 1]);
      var k, k0 := Kept(xs), Kept(init);
      assert k == if s == "" then k0 else k0 + [s];
      forall i | 0 <= i < |k|
        ensures Clean(k[i])
      {
        if i < |k0| {
          assert k[i] == k0[i];
        }
      }
    }
  }

  lemma InitLast<T>(s: seq<T>)
    requires |s| > 0
    ensures s == s[..|s| - 1] + [s[|s| - 1]]
  {
  }

  lemma TakeSnoc<T>(s: seq<T>, i: nat)
    requires i < |s|
    ensures s[..i + 1] == s[..i] + [s[i]]
  {
  }

  lemma TakeAll<T>(s: seq<T>)
    ensures s[..|s|] == s
  {
  }

  /** One more element: collected when it cleans to a non-empty string. */
  lemma KeptSnoc(xs: seq<Value>, x: Value)
    ensures Kept(xs + [x]) == if SafeStr(x) == "" then Kept(xs) else Kept(xs) + [SafeStr(x)]
  {
    assert (xs + [x])[..|xs|] == xs;
  }

  /** Clean strings pass through the loop unchanged. */
  lemma {:induction false} KeptOfClean(ys: seq<string>)
    requires forall i | 0 <= i < |ys| :: Clean(ys[i])
    ensures Kept(Strs(ys)) == ys
  {
    if ys != [] {
      var init, last := ys[..|ys| - 1], ys[|ys| - 1];
      assert Clean(last);
      SafeStrOfClean(last);
      InitLast(ys);
      StrsSnoc(init, last);
      KeptSnoc(Strs(init), Str(last));
      KeptOfClean(init);
    }
  }

  /**
   * _safe_list: a list gives its non-empty cleaned elements in order;
   * anything else, a tuple or a string included, gives [].
   */
  function CleanList(v: Value): (r: seq<string>)
    ensures !v.List? ==> r == []
    ensures v.List? ==> r == Embed.Cleaned(v.items) && |r| <= |v.items|
    ensures forall i | 0 <= i < |r| :: r[i] != "" && IsTrimmed(r[i])
  {
    if v.List? then KeptIsCleaned(v.items); Kept(v.items) else []
  }

  method SafeList(v: Value) returns (out: seq<string>)
    ensures out == CleanList(v)
  {
    out := [];
    if v.List? {
      var xs := v.items;
      for i := 0 to |xs|
        invariant out == Kept(xs[..i])
      {
        var sx := SafeStr(xs[i]);
        assert xs[..i + 1][..i] == xs[..i];
        if sx != "" {
          out := out + [sx];
        }
      }
      assert xs[..|xs|] == xs;
    }
  }

  /**
   * _safe_float: None when the stripped str() is empty or a null marker, or
   * when float() rejects it; otherwise float() of it. It never raises.
   */
  function SafeFloat(v: Value): (r: Option<Number>)
    ensures r.Some? ==> r == ParseFloat(Trim(ToStr(v)))
    ensures r.Some? && r.value.Finite? ==> Normal(r.value.d)
  {
    var s := Trim(ToStr(v));
    if IsNullToken(s) || s == "" then None else ParseFloat(s)
  }

  /** None, a missing cell and any null marker or blank text give None. */
  lemma SafeFloatOfNull(s: string)
    requires Trim(s) == "" || IsNullToken(Trim(s))
    ensures SafeFloat(Str(s)) == None
    ensures SafeFloat(PyNone) == None
    ensures SafeFloat(Missing) == None
  {
    assert SafeFloat(PyNone) == None by {
      NoneTextIsNull();
    }
    assert SafeFloat(Missing) == None by {
      NanTextIsNull();
    }
  }

  lemma NoneTextIsNull()
    ensures IsNullToken(Trim(ToStr(PyNone)))
  {
    assert ToStr(PyNone) == "None";
    TrimOfTrimmed("None");
    assert Lower("None") == "none";
  }

  lemma NanTextIsNull()
    ensures IsNullToken(Trim(ToStr(Missing)))
  {
    assert ToStr(Missing) == "nan";
    TrimOfTrimmed("nan");
    assert Lower("nan") == "nan";
  }

  /** Any other text is handed to float(), so unparsable text gives None. */
  lemma SafeFloatOfText(s: string)
    requires Trim(s) != "" && !IsNullToken(Trim(s))
    ensures SafeFloat(Str(s)) == ParseFloat(Trim(s))
  {
  }

  /** The text of any float but NaN is clean and is not a null marker. */
  lemma RenderNumberClean(n: Number)
    requires !n.NaN?
    ensures RenderNumber(n) != "" && IsTrimmed(RenderNumber(n)) && !IsNullToken(RenderNumber(n))
  {
    var s := RenderNumber(n);
    if n.Finite? {
      var body := DecimalBody(n.d);
      DecimalBodyShape(n.d);
      assert s == (if n.d.negative then "-" else "") + body;
      assert s[|s| - 1] == body[|body| - 1];
      assert s[0] == '-' || IsDigit(s[0]);
      assert Lower(s)[0] == s[0];
    } else {
      assert s == "inf" || s == "-inf";
      assert Lower(s)[|s| - 1] == 'f';
    }
  }

  /** A stored float comes back as itself, except NaN, which reads as missing. */
  lemma SafeFloatOfNumber(n: Number)
    requires n.Finite? ==> Normal(n.d)
    ensures SafeFloat(Num(n)) == if n.NaN? then None else Some(n)
  {
    if n.NaN? {
      SafeFloatOfNull("");
    } else {
      SafeFloatOfRendered(n);
    }
  }

  lemma SafeFloatOfRendered(n: Number)
    requires !n.NaN? && (n.Finite? ==> Normal(n.d))
    ensures SafeFloat(Num(n)) == Some(n)
  {
    var s := RenderNumber(n);
    assert Trim(ToStr(Num(n))) == s && s != "" && !IsNullToken(s) by {
      assert ToStr(Num(n)) == s;
      RenderNumberClean(n);
      TrimOfTrimmed(s);
    }
    SafeFloatOfClean(Num(n));
    ParseRenderNumber(n);
  }

  /** A value whose stripped text is neither blank nor a null marker is read by float(). */
  lemma SafeFloatOfClean(v: Value)
    requires Trim(ToStr(v)) != "" && !IsNullToken(Trim(ToStr(v)))
    ensures SafeFloat(v) == ParseFloat(Trim(ToStr(v)))
  {
  }

  /** The product the API returns. */
  datatype Product = Product(
    uniqId: string,
    title: string,
    brand: string,
    description: string,
    price: Option<Number>,
    categories: seq<string>,
    images: seq<string>,
    manufacturer: string,
    packageDimensions: string,
    countryOfOrigin: string,
    material: string,
    color: string)

  /** The twelve keys _to_product reads. */
  const ProductKeys: seq<string> := [
    "uniq_id", "title", "brand", "description", "price", "categories", "images",
    "manufacturer", "package_dimensions", "country_of_origin", "material", "color"]

  /**
   * Recommender._to_product: the cleaned twelve fields of a metadata record;
   * an empty cleaned uniq_id is replaced by the fallback.
   */
  function ToProduct(raw: Record, fallbackId: string): (p: Product)
    ensures fallbackId != "" ==> p.uniqId != ""
    ensures SafeStr(Get(raw, "uniq_id")) != "" ==> p.uniqId == SafeStr(Get(raw, "uniq_id"))
    ensures SafeStr(Get(raw, "uniq_id")) == "" ==> p.uniqId == fallbackId
  {
    var id := SafeStr(Get(raw, "uniq_id"));
    Product(
      uniqId := if id != "" then id else fallbackId,
      title := SafeStr(Get(raw, "title")),
      brand := SafeStr(Get(raw, "brand")),
      description := SafeStr(Get(raw, "description")),
      price := SafeFloat(Get(raw, "price")),
      categories := CleanList(Get(raw, "categories")),
      images := CleanList(Get(raw, "images")),
      manufacturer := SafeStr(Get(raw, "manufacturer")),
      packageDimensions := SafeStr(Get(raw, "package_dimensions")),
      countryOfOrigin := SafeStr(Get(raw, "country_of_origin")),
      material := SafeStr(Get(raw, "material")),
      color := SafeStr(Get(raw, "color")))
  }

  /** Only the twelve keys matter: records that agree on them give the same product. */
  lemma ToProductOnlyKeys(raw: Record, raw': Record, fallbackId: string)
    requires forall k | k in ProductKeys :: Get(raw, k) == Get(raw', k)
    ensures ToProduct(raw, fallbackId) == ToProduct(raw', fallbackId)
  {
    AgreeOnFirstKeys(raw, raw');
    AgreeOnMiddleKeys(raw, raw');
    AgreeOnLastKeys(raw, raw');
  }

  lemma AgreeOnFirstKeys(raw: Record, raw': Record)
    requires forall k | k in ProductKeys :: Get(raw, k) == Get(raw', k)
    ensures Get(raw, "uniq_id") == Get(raw', "uniq_id")
    ensures Get(raw, "title") == Get(raw', "title")
    ensures Get(raw, "brand") == Get(raw', "brand")
    ensures Get(raw, "description") == Get(raw', "description")
  {
    assert Get(raw, "uniq_id") == Get(raw', "uniq_id") by { assert "uniq_id" == ProductKeys[0]; }
    assert Get(raw, "title") == Get(raw', "title") by { assert "title" == ProductKeys[1]; }
    assert Get(raw, "brand") == Get(raw', "brand") by { assert "brand" == ProductKeys[2]; }
    assert Get(raw, "description") == Get(raw', "description") by { assert "description" == ProductKeys[3]; }
  }

  lemma AgreeOnMiddleKeys(raw: Record, raw': Record)
    requires forall k | k in ProductKeys :: Get(raw, k) == Get(raw', k)
    ensures Get(raw, "price") == Get(raw', "price")
    ensures Get(raw, "categories") == Get(raw', "categories")
    ensures Get(raw, "images") == Get(raw', "images")
    ensures Get(raw, "manufacturer") == Get(raw', "manufacturer")
  {
    assert Get(raw, "price") == Get(raw', "price") by { assert "price" == ProductKeys[4]; }
    assert Get(raw, "categories") == Get(raw', "categories") by { assert "categories" == ProductKeys[5]; }
    assert Get(raw, "images") == Get(raw', "images") by { assert "images" == ProductKeys[6]; }
    assert Get(raw, "manufacturer") == Get(raw', "manufacturer") by { assert "manufacturer" == ProductKeys[7]; }
  }

  lemma AgreeOnLastKeys(raw: Record, raw': Record)
    requires forall k | k in ProductKeys :: Get(raw, k) == Get(raw', k)
    ensures Get(raw, "package_dimensions") == Get(raw', "package_dimensions")
    ensures Get(raw, "country_of_origin") == Get(raw', "country_of_origin")
    ensures Get(raw, "material") == Get(raw', "material")
    ensures Get(raw, "color") == Get(raw', "color")
  {
    assert Get(raw, "package_dimensions") == Get(raw', "package_dimensions") by { assert "package_dimensions" == ProductKeys[8]; }
    assert Get(raw, "country_of_origin") == Get(raw', "country_of_origin") by { assert "country_of_origin" == ProductKeys[9]; }
    assert Get(raw, "material") == Get(raw', "material") by { assert "material" == ProductKeys[10]; }
    assert Get(raw, "color") == Get(raw', "color") by { assert "color" == ProductKeys[11]; }
  }

  /** An absent key behaves exactly like a key holding None. */
  lemma ToProductAbsentIsNone(raw: Record, key: string, fallbackId: string)
    ensures ToProduct(raw - {key}, fallbackId) == ToProduct(raw[key := PyNone], fallbackId)
  {
    forall k | k in ProductKeys
      ensures Get(raw - {key}, k) == Get(raw[key := PyNone], k)
    {
    }
    ToProductOnlyKeys(raw - {key}, raw[key := PyNone], fallbackId);
  }

  /** A cleaned list read again as a list of strings cleans to itself. */
  lemma CleanListIdempotent(v: Value)
    ensures CleanList(List(Strs(CleanList(v)))) == CleanList(v)
  {
    if v.List? {
      KeptClean(v.items);
    }
    KeptOfClean(CleanList(v));
  }

  /** An optional float as the value it is stored as: the float, or None. */
  function OptionalNumber(o: Option<Number>): Value {
    if o.Some? then Num(o.value) else PyNone
  }

  /** A coerced price read again gives the same price, except NaN, which reads back as missing. */
  lemma SafeFloatIdempotent(v: Value)
    requires SafeFloat(v) != Some(NaN)
    ensures SafeFloat(OptionalNumber(SafeFloat(v))) == SafeFloat(v)
  {
    var o := SafeFloat(v);
    if o.Some? {
      SafeFloatOfNumber(o.value);
    } else {
      SafeFloatOfNull("");
    }
  }

  /** One search result: the hydrated product and its score. */
  datatype Item = Item(product: Product, score: real)

  /** f"row_{idx}" */
  function FallbackId(idx: int): (r: string)
    ensures r != "" && IsTrimmed(r) && !IsNullToken(r)
  {
    var digits := IntToString(idx);
    var r := "row_" + digits;
    assert r[|r| - 1] == digits[|digits| - 1];
    assert Lower(r)[3] == '_';
    r
  }

  /** Python list indexing: negative positions count from the end; None is the IndexError. */
  function PyIndex<T>(xs: seq<T>, idx: int): (r: Option<T>)
    ensures r.Some? <==> -|xs| <= idx < |xs|
    ensures r.Some? ==> r.value in xs
    ensures 0 <= idx < |xs| ==> r == Some(xs[idx])
  {
    if 0 <= idx < |xs| then Some(xs[idx])
    else if -|xs| <= idx < 0 then Some(xs[|xs| + idx])
    else None
  }

  /** A negative position is the same as that position counted back from the length. */
  lemma PyIndexFromEnd<T>(xs: seq<T>, idx: int)
    requires -|xs| <= idx < 0
    ensures PyIndex(xs, idx) == PyIndex(xs, |xs| + idx)
    ensures idx == -1 ==> PyIndex(xs, idx) == Some(xs[|xs| - 1])
  {
  }

  /** The item for one hit, built from the record at its position (negative positions count from the end). */
  function HydrateOne(meta: seq<Record>, h: Hit): (r: Option<Item>)
    ensures r.Some? <==> PyIndex(meta, h.idx).Some?
    ensures r.Some? ==> r.value.score == h.score
    ensures r.Some? ==> r.value.product == ToProduct(PyIndex(meta, h.idx).value, FallbackId(h.idx))
  {
    match PyIndex(meta, h.idx)
    case None => None
    case Some(raw) => Some(Item(ToProduct(raw, FallbackId(h.idx)), h.score))
  }

  /**
   * The items built for `hits`, in order, or None when some hit's position
   * is not an index of the metadata (Python raises IndexError).
   */
  function Hydrate(meta: seq<Record>, hits: seq<Hit>): (r: Option<seq<Item>>)
    ensures r.Some? <==> forall i | 0 <= i < |hits| :: -|meta| <= hits[i].idx < |meta|
    ensures r.Some? ==> |r.value| == |hits|
    ensures r.Some? ==> forall i | 0 <= i < |hits| :: r.value[i].score == hits[i].score
    ensures r.Some? ==> forall i | 0 <= i < |hits| ::
      r.value[i].product == ToProduct(PyIndex(meta, hits[i].idx).value, FallbackId(hits[i].idx))
  {
    MapAll(hits, h => HydrateOne(meta, h))
  }

  lemma HydrateSnoc(meta: seq<Record>, hits: seq<Hit>, h: Hit)
    ensures Hydrate(meta, hits + [h]) ==
      if Hydrate(meta, hits).None? || HydrateOne(meta, h).None? then None
      else Some(Hydrate(meta, hits).value + [HydrateOne(meta, h).value])
  {
    MapAllSnoc(hits, h, h => HydrateOne(meta, h));
  }

  /**
   * Over an aligned, non-empty store every search hydrates; each padding
   * slot repeats the last record (meta[-1]), with fallback id "row_-1",
   * which becomes its uniq_id only when that record has none.
   */
  lemma HydrateAlignedSearch(ix: FlatIndex, q: Vector, k: nat, hits: seq<Hit>, meta: seq<Record>)
    requires WellFormed(ix) && |q| == ix.d
    requires IsSearchResult(ix, q, k, hits)
    requires |meta| == |ix.vectors| > 0
    ensures Hydrate(meta, hits).Some?
    ensures |Hydrate(meta, hits).value| == k
    ensures forall i | |meta| <= i < k ::
      Hydrate(meta, hits).value[i].product == ToProduct(meta[|meta| - 1], FallbackId(-1))
  {
    SearchPadding(ix, q, k, hits);
    var f := h => HydrateOne(meta, h);
    forall i | 0 <= i < |hits|
      ensures f(hits[i]).Some?
    {
      assert PyIndex(meta, hits[i].idx).Some?;
    }
    var r := Hydrate(meta, hits).value;
    forall i | |meta| <= i < k
      ensures r[i].product == ToProduct(meta[|meta| - 1], FallbackId(-1))
    {
      assert Some(r[i]) == f(hits[i]);
      assert hits[i].idx == -1;
    }
  }

  /** Searching an empty store raises IndexError: the padding label -1 has nothing to index. */
  lemma HydrateEmptyStore(ix: FlatIndex, q: Vector, k: nat, hits: seq<Hit>)
    requires WellFormed(ix) && |q| == ix.d && k >= 1
    requires IsSearchResult(ix, q, k, hits)
    requires |ix.vectors| == 0
    ensures Hydrate([], hits) == None
  {
    assert hits[0].idx == PadLabel;
  }

  /** The hydration loop of search: one item per hit, in order, stopping at the first hit with no record. */
  method HydrateAll(meta: seq<Record>, hs: seq<Hit>) returns (items: Option<seq<Item>>)
    ensures items == Hydrate(meta, hs)
    ensures items.Some? ==> |items.value| == |hs|
  {
    var out: seq<Item> := [];
    for i := 0 to |hs|
      invariant Hydrate(meta, hs[..i]) == Some(out)
    {
      var item := HydrateOne(meta, hs[i]);
      HydrateSnoc(meta, hs[..i], hs[i]);
      TakeSnoc(hs, i);
      if item.None? {
        assert !HydrateOne(meta, hs[i]).Some?;
        return None;
      }
      out := out + [item.value];
    }
    TakeAll(hs);
    items := Some(out);
  }

  /** The dimension of the sentence-embedding model the recommender uses. */
  const ModelDim: nat := 384

  class Recommender {
    const encode: string -> Vector
    const store: FaissStore

    /**
     * Opens the index at idxPath. Loading raises when either file is
     * missing, so both must exist.
     */
    constructor (encode: string -> Vector, idxPath: string, disk: Disk)
      requires disk.Valid()
      requires idxPath + ".index" in disk.indexFiles && idxPath + ".meta.json" in disk.metaFiles
      ensures this.encode == encode && fresh(store)
      ensures store.dim == ModelDim && store.path == idxPath
      ensures store.index == disk.indexFiles[idxPath + ".index"]
      ensures store.meta == disk.metaFiles[idxPath + ".meta.json"]
      ensures store.Valid()
    {
      this.encode := encode;
      var s := new FaissStore(ModelDim, idxPath);
      var outcome := s.Load(disk);
      store := s;
    }

    /**
     * The items for the k best stored vectors, one per hit in hit order, or
     * None (IndexError) when a hit has no metadata record.
     */
    method Search(query: string, k: nat) returns (items: Option<seq<Item>>, ghost hits: seq<Hit>)
      requires store.Valid() && |encode(query)| == store.index.d && k >= 1
      ensures IsSearchResult(store.index, encode(query), k, hits)
      ensures items == Hydrate(store.meta, hits)
      ensures items.Some? ==> |items.value| == k
    {
      var qv := encode(query);
      var hs := store.Search(qv, k);
      hits := hs;
      items := HydrateAll(store.meta, hs);
    }
  }
}
