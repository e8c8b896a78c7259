# Product recommender core, in Dafny

This project models the data path of a furniture-product recommender backend.

1. **Ingest.** A product CSV file is read with pandas. Its `categories` and `images` cells are parsed into lists of strings, and its `price` cells into floats. Every row is turned into a product dictionary.
2. **Embedding text.** The normaliser cleans six text fields of each product and joins the non-empty ones with `" | "`. A sentence-embedding model turns that text into a vector.
3. **Vector store.** The vectors go into an exact inner-product index (faiss `IndexFlatIP`). Beside it sits a metadata list kept position by position. The store is saved to and loaded from two files.
4. **Search.** The recommender encodes a query and asks the store for the `k` best positions. It then turns each position's metadata record into a product with twelve cleaned fields: text fields stripped, lists cleaned, and the price read leniently or left as `None`.
5. **Analytics.** The analytics summary endpoint coerces price texts such as `"₹1,299–₹1,499"` to numbers, keeping the mean of the first two numbers of a range. It then counts categories, labels, brands and images.

## Modules and what they model

| Module | Models |
|---|---|
| `Values` | The Python values a record holds, a pandas missing cell (the float NaN), `str()`, and the effect of a JSON round trip (tuples come back as lists). |
| `Optional` | The `Option` datatype. |
| `PyStr` | The string built-ins the core relies on: `strip`, `lower`, `join`, `split` and `re.split` on a character class, single-character `replace`, and `str()` of an integer. |
| `PyFloat` | Python `float()` on text, `repr()` of a float, and the round trip between them, over exact decimals. |
| `Literal` | `ast.literal_eval`, restricted to string, number and name literals and to lists and tuples of them. |
| `Ranking` | Exact top-m selection. Both the flat index's search and `value_counts().head(n)` use it. |
| `Frames` | A DataFrame as a class whose columns are overwritten in place. |
| `ValueCounts` | `value_counts().head(n)`. |
| `Embed` | `embed.py`. |
| `VectorStore` | `vector_store.py`: the classes `FaissStore` and `Disk`. |
| `Ingest` | `ingest.py`. |
| `Retriever` | `retriever.py`: the class `Recommender`. |
| `Analytics` | `analytics.py`. |

The sentence-embedding model is a function parameter, and so is the query encoder of `Recommender`. The file system is a `Disk` object that maps file names to an index or to a list of records.

### Search results and padding

- **`FaissStore.search` always returns exactly `k` pairs.** The code slices `range(min(k, I.shape[1]))`, and faiss always gives `I.shape[1] == k`. When fewer than `k` vectors are stored, the extra slots are faiss padding: label `-1` and score `-FLT_MAX`.
- **`Recommender.search` hydrates padding slots too.** It looks them up as `meta[-1]`, so each padding slot repeats the last record. Its fallback id is `"row_-1"`, which becomes its `uniq_id` only when that record has none (retriever.py:44). On an empty store the lookup raises `IndexError`, which the model writes as `None`.
- **So a search gives exactly `k` results, not at most `k`.** This is stated by `VectorStore.IsSearchResult`, `Retriever.HydrateAlignedSearch` and `Retriever.HydrateEmptyStore`.

### Python `float()` on text

`PyFloat.ParseFloat` follows CPython's `float(str)`, in four steps:

1. Every character below U+007F is kept. A Unicode white-space character becomes `" "`. A decimal digit of any script (Unicode category Nd) becomes its ASCII digit. Any other character makes the call fail.
2. If the text holds `_`, every `_` must sit between two ASCII digits, and all of them are removed. Otherwise the text fails.
3. White space is stripped from both ends. A text holding one of the information separators U+001C to U+001F fails: CPython's C-level strip does not count them as white space, although `str.strip()` does.
4. An optional sign, then `inf`, `infinity` or `nan` in any case, or a decimal literal with an optional exponent.

## Model

| member | source | states |
|---|---|---|
| `PyStr.Trim` | ikarus-backend/backend/app/services/embed.py:9-13 | `str.strip()`: the result has no whitespace at either end and is no longer than the input |
| `PyStr.TrimLeft` | ikarus-backend/backend/app/services/embed.py:13 | the result is a suffix of the input that starts with a non-space; every dropped character is whitespace |
| `PyStr.TrimRight` | ikarus-backend/backend/app/services/embed.py:13 | the result is a prefix of the input that ends with a non-space; every dropped character is whitespace |
| `PyStr.TrimIdempotent` | ikarus-backend/backend/app/services/embed.py:13 | stripping twice is stripping once |
| `PyStr.TrimKeeps` | ikarus-backend/backend/app/services/embed.py:13 | every non-whitespace character of the input survives stripping |
| `PyStr.TrimAllSpace` | ikarus-backend/backend/app/services/embed.py:10-12 | a string made only of whitespace strips to "" |
| `PyStr.Lower` | ikarus-backend/backend/app/services/embed.py:10 | `lower()` keeps the length and lower-cases character by character |
| `PyStr.LowerNoUpper` | ikarus-backend/backend/app/services/embed.py:10 | after `lower()` no upper-case ASCII letter is left |
| `PyStr.JoinShape` | ikarus-backend/backend/app/services/embed.py:41-42 | `sep.join(parts)`: "" for no parts; otherwise its length is the parts' lengths plus one separator between each two, it starts with the first part and ends with the last |
| `PyStr.JoinOfTrimmed` | ikarus-backend/backend/app/services/embed.py:41-42 | joining non-empty stripped parts gives a stripped text, and gives "" exactly when there are no parts |
| `PyStr.SplitOn` | analytics.py:62 | `re.split` on a character class: at least one piece, and no piece holds a separator |
| `PyStr.JoinSplit` | ikarus-backend/backend/app/services/ingest.py:13 | joining the pieces of `s.split(c)` with `c` gives `s` back |
| `PyStr.SplitJoin` | analytics.py:62 | splitting a join of separator-free parts gives the parts back |
| `PyStr.ReplaceChar` | ikarus-backend/backend/app/services/ingest.py:22 | after `s.replace(c, repl)` with `c` not in `repl`, `c` no longer occurs |
| `PyStr.ReplaceCharKeeps` | ikarus-backend/backend/app/services/ingest.py:22 | every character other than the replaced one survives |
| `PyStr.ReplaceCharAvoids` | ikarus-backend/backend/app/services/ingest.py:22 | replacing brings in no character that was in neither the text nor the replacement |
| `PyStr.ReplaceCharOnce` | ikarus-backend/backend/app/services/ingest.py:22 | one occurrence is replaced in place and the rest of the text is kept |
| `PyStr.KeepOnly` | analytics.py:41 | no longer than the text, and every kept character is in the kept set |
| `PyStr.KeepOnlyMembers` | analytics.py:41 | a character survives exactly when it was in the text and is in the kept set |
| `PyStr.KeepOnlyAppend` | analytics.py:41 | keeping works piece by piece: keeping a concatenation concatenates the kept pieces |
| `PyStr.KeepOnlyOne` | analytics.py:41 | a single character is kept exactly when it is in the set |
| `PyStr.KeepOnlyAll` | analytics.py:41 | a text whose every character is in the set is kept whole |
| `PyStr.KeepThenDrop` | analytics.py:41 | removing "," after keeping `[0-9.,]` is the same as keeping `[0-9.]` |
| `PyStr.NatToString` | ikarus-backend/backend/app/services/retriever.py:64 | `str()` of a natural number is a non-empty run of digits |
| `PyFloat.NatToStringValue` | ikarus-backend/backend/app/services/retriever.py:64 | reading back the digits `str()` writes gives the number |
| `PyFloat.Normalize` | ikarus-backend/backend/app/services/ingest.py:23 | the canonical form of a decimal has the same sign and the same value |
| `PyFloat.ParseFloat` | ikarus-backend/backend/app/services/ingest.py:23 | `float()` on text: every finite result is in canonical form |
| `PyFloat.DecimalDigit` | ikarus-backend/backend/app/services/ingest.py:23 | the digit value of a character: below 10; among ASCII characters exactly the digits `0`-`9`, each with its own value |
| `PyFloat.AsciiOf` | ikarus-backend/backend/app/services/ingest.py:23 | the ASCII stand-in `float()` reads for a character, when there is one |
| `PyFloat.ToAscii` | ikarus-backend/backend/app/services/ingest.py:23 | the transliterated text has the original's length |
| `PyFloat.ToAsciiPointwise` | ikarus-backend/backend/app/services/ingest.py:23 | a transliteration replaces each character by its own stand-in, in place |
| `PyFloat.ToAsciiOfReadings` | ikarus-backend/backend/app/services/ingest.py:23 | a text whose every character has a stand-in transliterates to those stand-ins |
| `PyFloat.ParseFloatChars` | ikarus-backend/backend/app/services/ingest.py:23 | every character of an accepted text is white space, a float character, `_` or a decimal digit of some script |
| `PyFloat.ParseFloatRejects` | ikarus-backend/backend/app/services/ingest.py:23-24 | a text holding any other character is rejected |
| `PyFloat.ParseFloatRejectsStrayUnderscore` | ikarus-backend/backend/app/services/ingest.py:23-24 | an `_` at either end, or next to something that is not a digit, makes `float()` fail |
| `PyFloat.ParseFloatRejectsInfoSeparator` | ikarus-backend/backend/app/services/ingest.py:23-24 | a text holding U+001C to U+001F makes `float()` fail |
| `PyFloat.ParseFloatOfBare` | ikarus-backend/backend/app/services/ingest.py:23 | on ASCII text without `_` or information separators, `float()` is strip, sign and literal |
| `PyFloat.ParseFloatTransliterated` | ikarus-backend/backend/app/services/ingest.py:23 | a text reads like the ASCII text its characters stand for |
| `PyFloat.ParseFloatOfArabicIndic` | ikarus-backend/backend/app/services/ingest.py:23 | `float("١٢٣")` is 123 |
| `PyFloat.ParseFloatOfUnderscored` | ikarus-backend/backend/app/services/ingest.py:23 | an `_` between two runs of digits is ignored |
| `PyFloat.ParseFloatOfSigned` | ikarus-backend/backend/app/services/ingest.py:23 | an optional `-` before a stripped ASCII body reads as the signed body |
| `PyFloat.ParseFloatOfDigits` | ikarus-backend/backend/app/services/ingest.py:23 | `float()` of a run of digits is that integer |
| `PyFloat.ParseFloatOfPointed` | ikarus-backend/backend/app/services/ingest.py:23 | `float()` of digits "." digits is that decimal |
| `PyFloat.ParseRender` | analytics.py:34 | `float(repr(x)) == x` for every finite float |
| `PyFloat.RenderNumber` | ikarus-backend/backend/app/services/retriever.py:29 | `str()` of a float is never empty, has no white space at either end, and is made of float characters only |
| `PyFloat.ParseRenderNumber` | ikarus-backend/backend/app/services/retriever.py:29-32 | `float(str(x)) == x` for every float but NaN, infinities included |
| `Literal.LiteralEval` | ikarus-backend/backend/app/services/ingest.py:10 | `ast.literal_eval` rejects the empty text (it raises) |
| `Literal.EvalOfListRepr` | ikarus-backend/backend/app/services/ingest.py:10-11 | `literal_eval(repr(xs))` gives the list back for a list of plain strings (printable ASCII without quote or backslash, which `repr()` writes unescaped) |
| `Literal.EvalOfTupleRepr` | ikarus-backend/backend/app/services/ingest.py:10-11 | the same for a tuple of plain strings that does not have exactly one element |
| `Literal.EvalOfSingletonTuple` | ikarus-backend/backend/app/services/ingest.py:10-11 | `literal_eval("('x',)")` is the one-element tuple |
| `Literal.EvalOfQuote` | ikarus-backend/backend/app/services/ingest.py:10-11 | a quoted string evaluates to that string, not to a list |
| `Values.ToStrOfStr` | ikarus-backend/backend/app/services/ingest.py:8 | `str()` of a string is the string itself |
| `Values.ToStrShape` | analytics.py:24 | `str()` is the text itself for a string and is never "" for any other value |
| `Values.IsNaCases` | ikarus-backend/backend/app/services/ingest.py:20 | `pd.isna` on a cell: only None and NaN are missing; strings (even ""), integers, infinities and finite floats are not |
| `Values.JsonImageOfTupleFree` | ikarus-backend/backend/app/services/vector_store.py:23-31 | a JSON round trip leaves a value without tuples unchanged |
| `Values.JsonImageTupleFree` | ikarus-backend/backend/app/services/vector_store.py:23-31 | what comes back from JSON holds no tuple, so a second round trip changes nothing |
| `Values.JsonRecord` | ikarus-backend/backend/app/services/vector_store.py:26 | a dictionary keeps its keys through JSON |
| `Values.JsonRecordsOfTupleFree` | ikarus-backend/backend/app/services/vector_store.py:23-31 | records without tuples survive `json.dump` followed by `json.load` unchanged |
| `Ranking.ArgMax` | ikarus-backend/backend/app/services/vector_store.py:20 | returns a position among the remaining ones whose score is the highest of them |
| `Ranking.SelectTop` | ikarus-backend/backend/app/services/vector_store.py:20 | picks `m` distinct valid positions, best first; no position left out scores higher than a picked one |
| `Ranking.PickStep` | ikarus-backend/backend/app/services/vector_store.py:20 | moving a best remaining position to the picks keeps the ranking invariants |
| `Frames.RowsOf` | ikarus-backend/backend/app/services/ingest.py:26 | `to_dict(orient="records")`: one dictionary per row, with the table's columns as keys, cell for cell |
| `Frames.DataFrame.constructor` | ikarus-backend/backend/app/services/ingest.py:16 | the frame holds the columns `read_csv` produced |
| `Frames.DataFrame.SetColumn` | ikarus-backend/backend/app/services/ingest.py:17-18 | `df[name] = col` replaces that column, changes nothing else, and keeps the table rectangular |
| `Frames.RowsOfUnique` | ikarus-backend/backend/app/services/ingest.py:26 | the rows are determined by the columns: any rows that agree with them cell for cell are these |
| `Frames.DataFrame.Records` | ikarus-backend/backend/app/services/ingest.py:26 | one dictionary per row of the current columns, keyed by the column names, cell for cell |
| `ValueCounts.Uniques` | analytics.py:65 | the distinct texts, without repeats, exactly those of the series |
| `ValueCounts.ValueCountsHead` | analytics.py:65-66 | `value_counts().head(n)`: min(n, distinct) entries, each a text of the series with its exact count, none twice, counts non-increasing, and no omitted text is more frequent than a listed one |
| `ValueCounts.ValueCountsComplete` | analytics.py:65-66 | with room for every distinct text, the histogram names exactly the texts of the series |
| `ValueCounts.ValueCountsBounds` | analytics.py:65-66 | every count is between 1 and the series length, and there are at most n entries |
| `ValueCounts.ValueCountsOfNothing` | analytics.py:64-66 | the histogram of an empty series is the empty one, whatever n is |
| `ValueCounts.EmptyHistogram` | analytics.py:64-66 | with room for at least one entry, the histogram is empty exactly when the series is |
| `Embed.SafeStr` | ikarus-backend/backend/app/services/embed.py:4-15 | the result is stripped and is never a null marker ("nan", "none", "null" in any case) |
| `Embed.CleanText` | ikarus-backend/backend/app/services/embed.py:9-13 | stripped text with the null markers collapsed to "" |
| `Embed.SafeStrOfMissing` | ikarus-backend/backend/app/services/embed.py:9-12 | a pandas missing cell prints as "nan" and cleans to "" |
| `Embed.SafeStrOfText` | ikarus-backend/backend/app/services/embed.py:9-13 | a string that is not a null marker cleans to its stripped self |
| `Embed.SafeStrIdempotent` | ikarus-backend/backend/app/services/embed.py:4-15 | cleaning a cleaned value changes nothing |
| `Embed.Cleaned` | ikarus-backend/backend/app/services/embed.py:21 | the elements that clean to non-empty text, cleaned; none of them empty or padded, and no more of them than the elements |
| `Embed.CleanedAppend` | ikarus-backend/backend/app/services/embed.py:21 | cleaning works element by element: concatenation is preserved |
| `Embed.CleanedEmpty` | ikarus-backend/backend/app/services/embed.py:21 | nothing is kept exactly when every element cleans to "" |
| `Embed.ListToStr` | ikarus-backend/backend/app/services/embed.py:17-23 | `_list_to_str`: falsy values and values that are not iterable give ""; the result is always stripped |
| `Embed.ListToStrOfList` | ikarus-backend/backend/app/services/embed.py:17-23 | a list joins exactly its non-empty cleaned elements with " ", and gives "" exactly when none is left |
| `Embed.Fields` | ikarus-backend/backend/app/services/embed.py:30-39 | the six cleaned fields, in the fixed order |
| `Embed.FieldsTrimmed` | ikarus-backend/backend/app/services/embed.py:30-39 | each of the six fields is stripped |
| `Embed.NonEmpty` | ikarus-backend/backend/app/services/embed.py:41 | keeps only non-empty parts, each one from the input |
| `Embed.NonEmptyOfNonEmpty` | ikarus-backend/backend/app/services/embed.py:41 | the filter keeps every part when none is empty |
| `Embed.NonEmptyNil` | ikarus-backend/backend/app/services/embed.py:41 | the filter keeps nothing exactly when every part is empty |
| `Embed.ProductTextEmpty` | ikarus-backend/backend/app/services/embed.py:29-42 | the product text is "" exactly when all six fields clean to "" |
| `Embed.ProductTextEnds` | ikarus-backend/backend/app/services/embed.py:40-42 | the product text is stripped and neither starts nor ends with " \| " |
| `Embed.ProductTextDependsOnTextFields` | ikarus-backend/backend/app/services/embed.py:30-39 | products that agree on the six text fields give the same text; price and every other key are ignored |
| `Embed.ProductTextAllPresent` | ikarus-backend/backend/app/services/embed.py:40-42 | with all six fields present, the text is their " \| " join in the fixed order |
| `Embed.EncodeProducts` | ikarus-backend/backend/app/services/embed.py:47-49 | one text per product, in order, and the encoder's vectors for exactly those texts |
| `VectorStore.Scores` | ikarus-backend/backend/app/services/vector_store.py:20 | the inner product of the query with every stored vector |
| `VectorStore.SearchPadding` | ikarus-backend/backend/app/services/vector_store.py:20-21 | a slot carries the padding label exactly when its rank is at or past the number of stored vectors; other labels are valid positions |
| `VectorStore.SearchScoresNonIncreasing` | ikarus-backend/backend/app/services/vector_store.py:20-21 | scores never increase along the real results, nor along the padding when no inner product is below -FLT_MAX |
| `VectorStore.Disk.constructor` | ikarus-backend/backend/app/services/vector_store.py:23-31 | an empty file system |
| `VectorStore.FaissStore.constructor` | ikarus-backend/backend/app/services/vector_store.py:5-9 | an empty index of the given dimension, and no metadata |
| `VectorStore.FaissStore.Add` | ikarus-backend/backend/app/services/vector_store.py:11-15 | append only: the vectors and records are appended, nothing stored before moves or changes, and metadata alignment survives equal-length batches |
| `VectorStore.FaissStore.Search` | ikarus-backend/backend/app/services/vector_store.py:17-21 | exactly k pairs: the best min(k, n) stored positions, best first, each with its inner product, then padding; the store is unchanged |
| `VectorStore.FaissStore.Save` | ikarus-backend/backend/app/services/vector_store.py:23-26 | writes the index and the JSON image of the metadata under their two names; the store is unchanged |
| `VectorStore.FaissStore.Load` | ikarus-backend/backend/app/services/vector_store.py:28-31 | a missing index file changes nothing; a missing metadata file leaves the index replaced and the metadata kept; otherwise both are replaced |
| `VectorStore.SaveThenLoad` | ikarus-backend/backend/app/services/vector_store.py:23-31 | loading right after saving succeeds and gives back the same index and the metadata's JSON image, which is the metadata itself when it holds no tuples |
| `Ingest.StripAll` | ikarus-backend/backend/app/services/ingest.py:11 | `[x.strip() for x in v]`: succeeds exactly when every element is a string, and then strips each one in order |
| `Ingest.StripPiece` | ikarus-backend/backend/app/services/ingest.py:13 | one stripped piece, or nothing when it strips to "" |
| `Ingest.TrimmedPieces` | ikarus-backend/backend/app/services/ingest.py:13 | every kept piece is non-empty and stripped |
| `Ingest.CommaFallback` | ikarus-backend/backend/app/services/ingest.py:13 | every piece of the comma fallback is non-empty, stripped and free of commas |
| `Ingest.StripOrSplit` | ikarus-backend/backend/app/services/ingest.py:11-13 | the list or tuple branch yields stripped strings |
| `Ingest.ParseList` | ikarus-backend/backend/app/services/ingest.py:6-13 | `parse_list`: a missing cell gives []; every element of the result is stripped |
| `Ingest.ParseText` | ikarus-backend/backend/app/services/ingest.py:9-13 | every element parsed from a stripped text is stripped |
| `Ingest.ParseListOfStr` | ikarus-backend/backend/app/services/ingest.py:8 | a text cell is parsed by its stripped text |
| `Ingest.ParseListOfTexts` | ikarus-backend/backend/app/services/ingest.py:10-11 | a literal list or tuple of strings gives those strings stripped, in order |
| `Ingest.ParseListOfListRepr` | ikarus-backend/backend/app/services/ingest.py:6-11 | `str()` of a list of plain strings (printable ASCII without quote or backslash) parses back to those strings stripped, empty ones kept |
| `Ingest.ParseListOfTupleRepr` | ikarus-backend/backend/app/services/ingest.py:6-11 | the same for a tuple, one-element tuples included |
| `Ingest.ParseListOfQuote` | ikarus-backend/backend/app/services/ingest.py:11 | a cell holding one quoted string is kept whole, quotes included |
| `Ingest.ParseTextOfAtom` | ikarus-backend/backend/app/services/ingest.py:11 | a text that evaluates to something other than a list or tuple is kept whole |
| `Ingest.EvalOfWord` | ikarus-backend/backend/app/services/ingest.py:10 | a bare word that is not True, False or None is no literal |
| `Ingest.ParseTextOfNone` | ikarus-backend/backend/app/services/ingest.py:12-13 | a text that is no literal goes to the comma fallback |
| `Ingest.CommaFallbackOfJoin` | ikarus-backend/backend/app/services/ingest.py:13 | joining comma-free stripped pieces with ", " and splitting on commas gives the pieces back |
| `Ingest.ParseListOfJoin` | ikarus-backend/backend/app/services/ingest.py:6-13 | a comma-separated text that does not start a literal parses to exactly its pieces |
| `Ingest.ParseListOfBlank` | ikarus-backend/backend/app/services/ingest.py:8-13 | a blank cell gives [] |
| `Ingest.ParseListOfListExample` | ikarus-backend/backend/app/services/ingest.py:6-11 | "['a', 'b']" parses to ["a", "b"] |
| `Ingest.ParseListOfTextExample` | ikarus-backend/backend/app/services/ingest.py:12-13 | "a, b" parses to ["a", "b"] |
| `Ingest.QuotedCommaKeepsWhole` | ikarus-backend/backend/app/services/ingest.py:10-11 | "'a,b'" is one string literal and is kept whole |
| `Ingest.QuotedCommaSplits` | ikarus-backend/backend/app/services/ingest.py:13 | on the same text the fallback would give two pieces, so the literal path takes precedence |
| `Ingest.TrimEachOfTrimmed` | ikarus-backend/backend/app/services/ingest.py:11 | stripping texts that are already stripped changes nothing |
| `Ingest.IntNumber` | ikarus-backend/backend/app/services/ingest.py:23 | `float()` of an integer is finite, canonical and has the same value |
| `Ingest.ParsePrice` | ikarus-backend/backend/app/services/ingest.py:19-24 | `parse_price`: a missing cell gives None; text is `float()` of itself with "$" and "," removed and then stripped |
| `Ingest.PriceTextKeeps` | ikarus-backend/backend/app/services/ingest.py:22 | only "$", "," and surrounding whitespace are removed |
| `Ingest.ParsePriceOfForeignSymbol` | ikarus-backend/backend/app/services/ingest.py:22-24 | a text holding a character that is not white space, a float character, `_` or a decimal digit of some script, such as a foreign currency sign, gives None |
| `Ingest.PriceTextShape` | ikarus-backend/backend/app/services/ingest.py:22 | the price text holds no "$" and no "," and is stripped |
| `Ingest.PriceTextOfPlain` | ikarus-backend/backend/app/services/ingest.py:22 | a stripped text without "$" or "," is its own price text |
| `Ingest.ParsePriceOfArabicIndic` | ikarus-backend/backend/app/services/ingest.py:22-24 | a price written in Arabic-Indic digits, "١٢٣", is 123 |
| `Ingest.ParsePriceOfRupees` | ikarus-backend/backend/app/services/ingest.py:22-24 | "₹1,299" gives None |
| `Ingest.ParsePriceOfDollars` | ikarus-backend/backend/app/services/ingest.py:19-24 | "$" followed by `str()` of a float gives that float back |
| `Ingest.ParsePriceExample` | ikarus-backend/backend/app/services/ingest.py:19-24 | "$1,299.00" is 1299 |
| `Ingest.ListCell` | ikarus-backend/backend/app/services/ingest.py:17-18 | the parsed cell is a list of stripped strings, and [] for a missing cell |
| `Ingest.ListColumn` | ikarus-backend/backend/app/services/ingest.py:17-18 | `apply(parse_list)` parses every cell in place order |
| `Ingest.PriceColumn` | ikarus-backend/backend/app/services/ingest.py:25 | a parsed price is stored as its float and an unparsed one as a missing cell; pandas' column dtype decides between NaN and None |
| `Ingest.ParsedTable` | ikarus-backend/backend/app/services/ingest.py:17-25 | the three assignments keep the column set and the row count |
| `Ingest.RowsOfParsedTable` | ikarus-backend/backend/app/services/ingest.py:17-26 | the rows of the parsed table are the loaded records |
| `Ingest.LoadProducts` | ikarus-backend/backend/app/services/ingest.py:15-26 | one record per row: list columns parsed, price parsed, every other cell as read |
| `Ingest.LoadedTupleFree` | ikarus-backend/backend/app/services/ingest.py:26 | loaded records hold no tuples, so their JSON image is themselves |
| `Ingest.LoadedCategoriesOfRepr` | ikarus-backend/backend/app/services/ingest.py:17 | a categories cell holding `str()` of a list of plain strings loads as that list, stripped |
| `Ingest.BuildIndices` | ikarus-backend/backend/app/services/ingest.py:28-34 | the loaded records, one vector per record for its product text, and both files written: the index holds the vectors, the metadata the records |
| `Retriever.SafeStr` | ikarus-backend/backend/app/services/retriever.py:6-15 | the result is stripped and never a null marker |
| `Retriever.SafeStrAgrees` | ikarus-backend/backend/app/services/retriever.py:6-15 | the retriever's `_safe_str` agrees with the normaliser's on every value |
| `Retriever.SafeStrOfClean` | ikarus-backend/backend/app/services/retriever.py:10-13 | a clean string is its own `_safe_str` |
| `Retriever.KeptIsCleaned` | ikarus-backend/backend/app/services/retriever.py:19-24 | the loop of `_safe_list` collects exactly the normaliser's cleaned elements |
| `Retriever.KeptClean` | ikarus-backend/backend/app/services/retriever.py:21-23 | every collected string is non-empty and unchanged by `_safe_str` |
| `Retriever.KeptOfClean` | ikarus-backend/backend/app/services/retriever.py:19-24 | clean strings pass through the loop unchanged |
| `Retriever.CleanList` | ikarus-backend/backend/app/services/retriever.py:17-25 | a list gives its cleaned non-empty elements; anything else, tuples and strings included, gives [] |
| `Retriever.SafeList` | ikarus-backend/backend/app/services/retriever.py:17-25 | the loop computes `CleanList` |
| `Retriever.CleanListIdempotent` | ikarus-backend/backend/app/services/retriever.py:17-25 | a cleaned list read back as a list of strings cleans to itself |
| `Retriever.SafeFloat` | ikarus-backend/backend/app/services/retriever.py:27-34 | `_safe_float` never raises; a result is `float()` of the value's stripped text and is canonical |
| `Retriever.SafeFloatOfNull` | ikarus-backend/backend/app/services/retriever.py:29-31 | None, a missing cell, blank text and any null marker give None |
| `Retriever.SafeFloatOfText` | ikarus-backend/backend/app/services/retriever.py:29-34 | any other text is `float()` of its stripped form, so unparsable text gives None |
| `Retriever.SafeFloatOfNumber` | ikarus-backend/backend/app/services/retriever.py:27-34 | a stored float comes back as itself, except NaN, which gives None |
| `Retriever.SafeFloatIdempotent` | ikarus-backend/backend/app/services/retriever.py:27-34 | a coerced price read again gives the same price |
| `Retriever.ToProduct` | ikarus-backend/backend/app/services/retriever.py:42-56 | the uniq_id is the cleaned one, or the fallback when that is empty, so it is never empty when the fallback is not |
| `Retriever.ToProductOnlyKeys` | ikarus-backend/backend/app/services/retriever.py:42-56 | only the twelve keys matter: records that agree on them give the same product |
| `Retriever.ToProductAbsentIsNone` | ikarus-backend/backend/app/services/retriever.py:44-55 | an absent key behaves exactly like a key holding None (`dict.get`) |
| `Retriever.FallbackId` | ikarus-backend/backend/app/services/retriever.py:64 | `f"row_{idx}"` is non-empty, stripped and no null marker |
| `Retriever.PyIndex` | ikarus-backend/backend/app/services/retriever.py:63 | `meta[idx]` succeeds exactly for `-len <= idx < len`; the element is one of the list's, and a non-negative position gives the element there |
| `Retriever.PyIndexFromEnd` | ikarus-backend/backend/app/services/retriever.py:63 | a negative position counts back from the length; `-1` is the last element |
| `Retriever.HydrateOne` | ikarus-backend/backend/app/services/retriever.py:63-65 | an item exists exactly when `meta[idx]` is a valid Python index; it carries the hit's score and the product of that record |
| `Retriever.HydrateAlignedSearch` | ikarus-backend/backend/app/services/retriever.py:58-66 | over an aligned, non-empty store every search hydrates to k items; each padding slot repeats the last record (`meta[-1]`), with fallback id "row_-1", which becomes its uniq_id only when that record has none |
| `Retriever.HydrateEmptyStore` | ikarus-backend/backend/app/services/retriever.py:63 | searching an empty store raises IndexError |
| `Retriever.Hydrate` | ikarus-backend/backend/app/services/retriever.py:61-66 | the items exist exactly when every hit's position is a valid Python index; then one item per hit, in order, with the hit's score and the product of its record |
| `Retriever.HydrateAll` | ikarus-backend/backend/app/services/retriever.py:61-66 | the hydration loop: one item per hit in order, or failure at the first hit with no record |
| `Retriever.Recommender.constructor` | ikarus-backend/backend/app/services/retriever.py:37-40 | a store of dimension 384 at the given path, holding the loaded index and metadata |
| `Retriever.Recommender.Search` | ikarus-backend/backend/app/services/retriever.py:58-66 | the store's k-result search for the encoded query, hydrated hit by hit; exactly k items when it succeeds |
| `Analytics.ReplaceDashes` | analytics.py:28 | no en or em dash is left |
| `Analytics.ReplaceDashesPointwise` | analytics.py:28 | only the two dashes change, each into "-", and nothing moves |
| `Analytics.DigitRun` | analytics.py:29 | the maximal run of leading digits |
| `Analytics.MatchLength` | analytics.py:29 | the leftmost greedy match is a numeric token and is not followed by a digit |
| `Analytics.Tokens` | analytics.py:29 | `re.findall`: every match is a numeric token |
| `Analytics.TokensEmpty` | analytics.py:29-30 | no number is found exactly when the text holds no digit |
| `Analytics.TokensSkip` | analytics.py:29 | leading characters that are not digits are skipped |
| `Analytics.TokensOfToken` | analytics.py:29 | a token alone is its own single match |
| `Analytics.TokensOfRange` | analytics.py:26-29 | a sign, a number, "-", the sign and a number gives the two numbers |
| `Analytics.TokenValue` | analytics.py:29-33 | the number a token stands for is never negative (the pattern admits no sign) |
| `Analytics.TokenParses` | analytics.py:31-35 | `float()` of a token with its comma removed never fails, so the `except` branch cannot be taken |
| `Analytics.Mean` | analytics.py:34 | `(a + b) / 2.0`, computed exactly, in canonical form and non-negative for non-negative inputs |
| `Analytics.RangeToMean` | analytics.py:27-37 | with fewer than two numbers, the text with its dashes rewritten |
| `Analytics.RangeToMeanOfTwo` | analytics.py:30-34 | with two or more numbers, the result reads back as the mean of the first two and holds only digits and a point |
| `Analytics.MeanReadsAs` | analytics.py:34 | `str()` of the mean of two non-negative numbers reads back as their midpoint |
| `Analytics.CleanPriceText` | analytics.py:41 | the digits and points of the text, in order |
| `Analytics.ToNumeric` | analytics.py:42 | `to_numeric(errors="coerce")` always gives a number, NaN included |
| `Analytics.CoercePriceCell` | analytics.py:24-42 | one cell coerced: always a number |
| `Analytics.CoercedRange` | analytics.py:24-42 | a price range coerces to the exact mean of its first two numbers |
| `Analytics.CoercedPlain` | analytics.py:41-42 | a text of digits and points that `float()` reads survives the cleaning with the same value |
| `Analytics.RupeeRangeCoerced` | analytics.py:26 | "₹1,299–₹1,499" coerces to 1399 |
| `Analytics.RupeePriceCoerced` | analytics.py:24-42 | "₹1,299", a single price, loses its sign and comma and coerces to 1299 |
| `Analytics.KeepGrouped` | analytics.py:41 | a sign that is no digit, digits, "," and digits cleans to the digits alone |
| `Analytics.ParseFloatOfFourDigits` | analytics.py:42 | `float()` of four digits is their value |
| `Analytics.Present` | analytics.py:21 | `cand_cols`: the candidates that are columns, and only them |
| `Analytics.FirstPresent` | analytics.py:21 | the first candidate that is a column; none exactly when no candidate is |
| `Analytics.PresentHead` | analytics.py:21-24 | `cand_cols` is empty exactly when no candidate is present, and `cand_cols[0]` is the first present one |
| `Analytics.CoercePriceSeries` | analytics.py:19-42 | empty when no price column is present or the frame is empty; otherwise every cell of the first present column, coerced |
| `Analytics.NotNaCount` | analytics.py:86 | `notna().sum()`: the full length exactly when nothing is missing, and 0 exactly when everything is |
| `Analytics.DropNa` | analytics.py:50 | `dropna()`: exactly the cells that are not missing, as many as `notna().sum()` |
| `Analytics.DropNaNone` | analytics.py:50 | with nothing missing, `dropna()` keeps the series |
| `Analytics.Normalized` | analytics.py:63 | `strip().lower()` is a label of the stripped length |
| `Analytics.NormalizedOfLabel` | analytics.py:63 | a label is its own normal form |
| `Analytics.NormalizedSeparatorFree` | analytics.py:63 | normalising brings in no separator |
| `Analytics.CategoryPieces` | analytics.py:63 | the kept pieces are non-empty labels, no more of them than there were pieces |
| `Analytics.CellCategories` | analytics.py:62-63 | every category token is a non-empty label free of the separators |
| `Analytics.CategoryTokens` | analytics.py:62-63 | the same for the whole column |
| `Analytics.CategoryTokensCons` | analytics.py:63 | tokens come cell by cell, in order |
| `Analytics.CategoriesOfJoined` | analytics.py:62-63 | categories joined by "\|" are split back into exactly those categories |
| `Analytics.PiecesOfCategories` | analytics.py:63 | pieces that are already categories are kept unchanged |
| `Analytics.CellTextEmpty` | analytics.py:62 | `fillna("").astype(str)` gives "" exactly for a missing cell or the empty string, and a text cell is itself |
| `Analytics.LabelTokens` | analytics.py:71 | one label per non-missing cell |
| `Analytics.LabelsOfLabels` | analytics.py:71 | labels already stripped and lower-cased are kept unchanged |
| `Analytics.TopBrands` | analytics.py:75-80 | the top ten labels of the first brand column present, or none when no brand column is present or the frame is empty |
| `Analytics.ImagesWith` | analytics.py:83-87 | the non-missing count of the first image column present, or 0 |
| `Analytics.CategoryHistogram` | analytics.py:60-66 | the top twenty category tokens, or none without the column or rows |
| `Analytics.LabelHistogram` | analytics.py:69-72 | the top twenty cv labels, or none without the column or rows |
| `Analytics.CleanPrices` | analytics.py:50 | the coerced prices that are not NaN |
| `Analytics.Summarize` | analytics.py:45-96 | `summary()`: the row count, the clean prices, the three histograms and the image count, each as stated above |

## Left out

- **The sentence-embedding model.** The model (all-MiniLM-L6-v2), its `normalize_embeddings=True` and the float32 conversion are left out. `encode` is a parameter, and vectors and scores are exact reals.
- **faiss internals.** Index serialisation, SIMD arithmetic and float32 rounding of inner products are left out. Ties among equal scores may come in either order.
- **Float rounding.** `PyFloat` reads and writes decimals exactly. It does not model binary64 rounding or `repr()`'s exponent form (at 1e16 and above, or below 1e-4). `float(repr(x)) == x` is proved for the exact decimals only.
- **Unicode tables.** `PyFloat.DecimalDigit` holds the 68 blocks of ten Nd digits of Unicode 15.0. Later Unicode versions add more blocks, and those are not modelled.
- **`repr()` escaping.** `Values.Render` writes each string between single quotes as it is. Python's `repr()` escapes backslashes, tab, line breaks, the other C0 controls, DEL, the C1 controls and non-printable characters such as U+00A0 and U+200B, writes non-ASCII printable characters as they are, and switches to double quotes for a text holding `'` but no `"`. So `Values.ToStr`, and through it `Embed.SafeStr` and `Retriever.SafeStr`, differ from `str()` on a list or tuple holding such a string. The round-trip lemmas (`Literal.EvalOfListRepr` and those built on it) are stated for "plain" strings (`Literal.IsPlain`): printable ASCII with no quote and no backslash, on which the model's rendering is exactly `repr()`.
- **`ast.literal_eval` coverage.** `Literal.LiteralEval` covers string, integer and decimal literals, `True`, `False`, `None`, and flat lists and tuples of them. Dicts, sets, nested containers, arithmetic, escapes, prefixes, triple quotes, implicit string concatenation (Python reads `"['a' 'b,c']"` as `['ab,c']`, where the model falls back to `["['a' 'b", "c']"]`) and comments inside a literal are not modelled. A NUL character makes `ast.parse` reject the text, which the model's string bodies accept inside quotes. Anything outside that grammar is rejected, which sends it to the comma fallback as an exception would.
- `Analytics.Normalized`: `str.lower()` lower-cases ASCII letters only (`PyStr.Lower`). Python also lower-cases other letters, and the lowered text is the histogram key at analytics.py:63, 71 and 78. So `Analytics.CategoryHistogram`, `Analytics.LabelHistogram` and `Analytics.TopBrands` count "Éa" and "éa" as two keys, where Python counts one. In the null-marker comparison of `_safe_str` (embed.py and retriever.py) the difference does not matter, because no non-ASCII letter lower-cases into "nan", "none" or "null".
- **File I/O.** `pd.read_csv` is the `columns`/`length` pair a method receives (`Frames.FromCsv`). The analytics `_read_df` file search (analytics.py:1-17) is not part of this model. `json` files are `Disk` entries. `open`, encodings and `indent` are left out.
- **Price statistics.** Mean, median and percentiles (analytics.py:51-57) are floating-point statistics. The model stops at the clean price list they are computed from (`Analytics.Summary.prices`).
- **Outside the core.** The HTTP layer (FastAPI routers, `recommend.py`, `main.py`), the LLM description generator and the response schemas are not part of this model.
- **Concurrency** is not modelled: the service is treated as single-threaded.
- **`pd.to_numeric` coverage.** `Analytics.ToNumeric` is `float()` on the cleaned text, with NaN for failure. pandas' other spellings (such as an empty string giving NaN) agree with that on the cleaned digit-and-point texts.
- `Ingest.HasProductColumns`: the `KeyError` that `load_products` raises for a CSV file without `categories`, `images` or `price` is a precondition, not an error path.
- `Ingest.BuildIndices`: requires at least one product. With none, `vecs.shape[1]` raises, and that failure is not modelled.
- `Retriever.Recommender.constructor`: requires both files to exist. `load()` raises otherwise, so there is no constructed object to model.
- `VectorStore.FaissStore.Search`: `k >= 1` and a query of the index's dimension are preconditions. faiss asserts both and they are not error paths of the Python code.
- `Retriever.Recommender.Search`: the same preconditions, on the encoded query.
- `Analytics.Mean`: the mean is exact. The float `(a + b) / 2.0` and `str()` of it can round for long inputs, and that rounding is not modelled. For a mean of 1e16 or more, or below 1e-4, Python's `str()` writes exponent form, and the `[^0-9.,]` filter at analytics.py:41 then mangles it ("1.5e-05" becomes "1.505"). `Analytics.RangeToMean` writes fixed-point text instead, which reads back as the true mean, so `Analytics.CoercedRange` does not hold for such means in Python.
- `Analytics.CellCategories`: a cell that is `str()` of a list keeps its brackets and quotes in its first and last pieces, exactly as the code does. No lemma states what that text means.
- `ValueCounts.ValueCountsHead`: the order among texts with equal counts is left open. pandas' tie order depends on its hashing and is not modelled.
- `Values.Value`: there is no bool variant. A `True` or `False` cell of a CSV file or a record is not modelled, and `Literal.LiteralEval` reads the names `True` and `False` as non-text scalars (`Literal.NonText`), which is all that the ingest step tells apart.
- `Retriever.Recommender.Search`: `k` is an explicit argument. The default `k = 8` of `search` (retriever.py:58) is not modelled.
- `PyFloat.ParseFloatRejects` and `Ingest.ParsePriceOfForeignSymbol`: they say nothing about decimal digits of other scripts, because `float()` reads those rather than rejecting them. `PyFloat.ParseFloatTransliterated` and `Ingest.ParsePriceOfArabicIndic` state what happens instead.
