/**
 * The Python string primitives the ingest, retrieval and analytics code
 * relies on: str.strip(), str.lower() (on ASCII letters), str.join,
 * str.split / re.split on a character class, str.replace of one character,
 * and str() of an integer.
 */
module PyStr {

  /** str.isspace() for a single character: the characters str.strip() removes. */
  predicate IsSpace(c: char) {
    c == ' ' || ('\t' <= c <= '\r') || ('\U{1C}' <= c <= '\U{1F}')
    || c == '\U{85}' || c == '\U{A0}' || c == '\U{1680}'
    || ('\U{2000}' <= c <= '\U{200A}') || c == '\U{2028}' || c == '\U{2029}'
    || c == '\U{202F}' || c == '\U{205F}' || c == '\U{3000}'
  }

  /** No whitespace at either end. */
  predicate IsTrimmed(s: string) {
    s == [] || (!IsSpace(s[0]) && !IsSpace(s[|s| - 1]))
  }

  /** A stripped text with something left in it. */
  predicate IsClean(s: string) {
    s != [] && IsTrimmed(s)
  }

  /** str.lstrip() */
  function TrimLeft(s: string): (r: string)
    ensures |r| <= |s| && r == s[|s| - |r|..]
    ensures r == [] || !IsSpace(r[0])
    ensures forall i | 0 <= i < |s| - |r| :: IsSpace(s[i])
  {
    if s != [] && IsSpace(s[0]) then TrimLeft(s[1..]) else s
  }

  /** str.rstrip() */
  function TrimRight(s: string): (r: string)
    ensures |r| <= |s| && r == s[..|r|]
    ensures r == [] || !IsSpace(r[|r| - 1])
    ensures forall i | |r| <= i < |s| :: IsSpace(s[i])
  {
    if s != [] && IsSpace(s[|s| - 1]) then TrimRight(s[..|s| - 1]) else s
  }

  /** str.strip(): the longest infix of `s` with no whitespace at either end. */
  function Trim(s: string): (r: string)
    ensures IsTrimmed(r)
    ensures |r| <= |s|
  {
    TrimRight(TrimLeft(s))
  }

  lemma TrimOfTrimmed(s: string)
    requires IsTrimmed(s)
    ensures Trim(s) == s
  {
  }

  /** Stripping twice is stripping once. */
  lemma TrimIdempotent(s: string)
    ensures Trim(Trim(s)) == Trim(s)
  {
    TrimOfTrimmed(Trim(s));
  }

  /** A string all of whose characters are whitespace strips to "". */
  lemma TrimAllSpace(s: string)
    requires forall i | 0 <= i < |s| :: IsSpace(s[i])
    ensures Trim(s) == ""
  {
  }

  /** Stripping removes only whitespace: every other character survives it. */
  lemma TrimKeeps(s: string, d: char)
    requires d in s && !IsSpace(d)
    ensures d in Trim(s)
  {
    var i :| 0 <= i < |s| && s[i] == d;
    var l := TrimLeft(s);
    var off := |s| - |l|;
    assert i >= off;
    assert l[i - off] == d;
    var r := TrimRight(l);
    assert i - off < |r|;
    assert r[i - off] == d;
  }

  /** Every character of the stripped string occurs in the original. */
  lemma TrimInfix(s: string)
    ensures forall i | 0 <= i < |Trim(s)| :: Trim(s)[i] in s
  {
    var l := TrimLeft(s);
    var t := Trim(s);
    var off := |s| - |l|;
    assert forall i | 0 <= i < |t| :: t[i] == s[off + i] by {
      assert t == l[..|t|] && l == s[off..];
    }
    forall i | 0 <= i < |t| ensures t[i] in s {
      assert t[i] == s[off + i];
    }
  }

  /** A leading blank makes no difference once stripped. */
  lemma TrimSpaceCons(x: string)
    ensures Trim(" " + x) == Trim(x)
  {
    assert (" " + x)[1..] == x;
  }

  function LowerChar(c: char): char {
    if 'A' <= c <= 'Z' then (c as int + 32) as char else c
  }

  /**
   * str.lower() on ASCII letters. In the comparison with "nan", "none" and
   * "null" that suffices, since no non-ASCII character lower-cases to one of
   * their letters; the lowered text is also a histogram key, where it does
   * not (README, "Left out", under Analytics.Normalized).
   */
  function Lower(s: string): (r: string)
    ensures |r| == |s|
    ensures forall i | 0 <= i < |s| :: r[i] == LowerChar(s[i])
  {
    seq(|s|, i requires 0 <= i < |s| => LowerChar(s[i]))
  }

  /** Lower-casing leaves no upper-case ASCII letter. */
  lemma LowerNoUpper(s: string)
    ensures forall i | 0 <= i < |Lower(s)| :: !('A' <= Lower(s)[i] <= 'Z')
  {
  }

  /** Lower-casing a trimmed text keeps it trimmed: letters are not white space. */
  lemma LowerTrimmed(s: string)
    requires IsTrimmed(s)
    ensures IsTrimmed(Lower(s))
  {
    if s != [] {
      assert Lower(s)[0] == LowerChar(s[0]);
      assert Lower(s)[|s| - 1] == LowerChar(s[|s| - 1]);
    }
  }

  /** The textual null markers both coercion layers collapse to "". */
  predicate IsNullToken(s: string) {
    var l := Lower(s);
    l == "nan" || l == "none" || l == "null"
  }

  /** The empty text is no null marker. */
  lemma EmptyIsNoNullToken()
    ensures !IsNullToken("")
  {
    assert |Lower("")| == 0;
  }

  /** The number of characters in all the parts together. */
  function TotalLength(parts: seq<string>): nat {
    if parts == [] then 0 else |parts[0]| + TotalLength(parts[1..])
  }

  /** sep.join(parts) */
  function Join(sep: string, parts: seq<string>): (r: string)
  {
    if |parts| == 0 then ""
    else if |parts| == 1 then parts[0]
    else parts[0] + sep + Join(sep, parts[1..])
  }

  /**
   * A join is "" for no parts; otherwise it holds the parts' characters
   * and one separator between each two, starts with the first part and
   * ends with the last.
   */
  lemma {:induction false} JoinShape(sep: string, parts: seq<string>)
    ensures parts == [] ==> Join(sep, parts) == ""
    ensures parts != [] ==> |Join(sep, parts)| == TotalLength(parts) + (|parts| - 1) * |sep|
    ensures parts != [] ==> |parts[0]| <= |Join(sep, parts)| && Join(sep, parts)[..|parts[0]|] == parts[0]
    ensures parts != [] ==> var r, last := Join(sep, parts), parts[|parts| - 1];
      |last| <= |r| && r[|r| - |last|..] == last
  {
    if |parts| > 1 {
      var rest := parts[1..];
      JoinShape(sep, rest);
      assert rest[|rest| - 1] == parts[|parts| - 1];
      var j := Join(sep, rest);
      var r := parts[0] + sep + j;
      assert Join(sep, parts) == r;
      assert r[|r| - |j|..] == j;
    }
  }

  /**
   * A join of non-empty parts starts with the first part's first character
   * and ends with the last part's last character.
   */
  lemma {:induction false} JoinEnds(sep: string, parts: seq<string>)
    requires |parts| > 0 && forall i | 0 <= i < |parts| :: parts[i] != []
    ensures |Join(sep, parts)| > 0
    ensures Join(sep, parts)[0] == parts[0][0]
    ensures Join(sep, parts)[|Join(sep, parts)| - 1] == parts[|parts| - 1][|parts[|parts| - 1]| - 1]
  {
    if |parts| > 1 {
      var rest := parts[1..];
      JoinEnds(sep, rest);
      var j := Join(sep, rest);
      assert Join(sep, parts) == parts[0] + sep + j;
      assert rest[|rest| - 1] == parts[|parts| - 1];
    }
  }

  /** A join of non-empty, trimmed parts is trimmed, and is "" exactly when there are no parts. */
  lemma JoinOfTrimmed(sep: string, parts: seq<string>)
    requires forall i | 0 <= i < |parts| :: parts[i] != [] && IsTrimmed(parts[i])
    ensures IsTrimmed(Join(sep, parts))
    ensures Join(sep, parts) == "" <==> parts == []
  {
    if |parts| > 0 {
      JoinEnds(sep, parts);
    }
  }

  /** re.split on a character class (str.split(c) when `seps` is {c}). */
  function SplitOn(s: string, seps: set<char>): (r: seq<string>)
    ensures |r| >= 1
    ensures forall i | 0 <= i < |r| :: forall c | c in r[i] :: c !in seps
  {
    if s == [] then [""]
    else
      var rest := SplitOn(s[1..], seps);
      if s[0] in seps then [""] + rest
      else [[s[0]] + rest[0]] + rest[1..]
  }

  /** A string without separators splits into itself alone. */
  lemma {:induction false} SplitOnNone(a: string, seps: set<char>)
    requires forall i | 0 <= i < |a| :: a[i] !in seps
    ensures SplitOn(a, seps) == [a]
  {
    if a != [] {
      SplitOnNone(a[1..], seps);
      assert [a[0]] + a[1..] == a;
    }
  }

  /** A character that is no separator joins the first piece. */
  lemma SplitOnNonSep(c: char, s: string, seps: set<char>)
    requires c !in seps
    ensures SplitOn([c] + s, seps) == [[c] + SplitOn(s, seps)[0]] + SplitOn(s, seps)[1..]
  {
    assert ([c] + s)[1..] == s;
  }

  /** The first separator ends the first piece; the rest splits on its own. */
  lemma {:induction false} SplitOnFirst(a: string, c: char, b: string, seps: set<char>)
    requires forall i | 0 <= i < |a| :: a[i] !in seps
    requires c in seps
    ensures SplitOn(a + [c] + b, seps) == [a] + SplitOn(b, seps)
  {
    var s := a + [c] + b;
    if a == [] {
      assert s[1..] == b;
    } else {
      assert s[0] == a[0] && s[1..] == a[1..] + [c] + b;
      SplitOnFirst(a[1..], c, b, seps);
      assert [a[0]] + a[1..] == a;
    }
  }

  lemma JoinConsFirst(sep: string, x: string, y: string, ys: seq<string>)
    ensures Join(sep, [x + y] + ys) == x + Join(sep, [y] + ys)
  {
    if |ys| > 0 {
      assert ([x + y] + ys)[1..] == ys;
      assert ([y] + ys)[1..] == ys;
    }
  }

  /** Joining the pieces of str.split(c) with c gives the string back. */
  lemma {:induction false} JoinSplit(s: string, c: char)
    ensures Join([c], SplitOn(s, {c})) == s
  {
    if s != [] {
      var rest := SplitOn(s[1..], {c});
      JoinSplit(s[1..], c);
      if s[0] == c {
        assert ([""] + rest)[1..] == rest;
        assert Join([c], [""] + rest) == "" + [c] + Join([c], rest);
      } else {
        assert rest == [rest[0]] + rest[1..];
        JoinConsFirst([c], [s[0]], rest[0], rest[1..]);
        assert s == [s[0]] + s[1..];
      }
    }
  }

  /** Splitting a join of separator-free parts on a separator gives the parts back. */
  lemma {:induction false} SplitJoin(c: char, parts: seq<string>, seps: set<char>)
    requires c in seps && |parts| >= 1
    requires forall i | 0 <= i < |parts| :: forall d | d in parts[i] :: d !in seps
    ensures SplitOn(Join([c], parts), seps) == parts
  {
    if |parts| == 1 {
      SplitOnNone(parts[0], seps);
    } else {
      SplitJoin(c, parts[1..], seps);
      SplitOnFirst(parts[0], c, Join([c], parts[1..]), seps);
      assert parts == [parts[0]] + parts[1..];
    }
  }

  /** A text with no upper-case ASCII letter is its own lower-case form. */
  lemma LowerOfLower(s: string)
    requires forall i | 0 <= i < |s| :: !('A' <= s[i] <= 'Z')
    ensures Lower(s) == s
  {
  }

  /** s.replace(c, repl) for a single character c. */
  function ReplaceChar(s: string, c: char, repl: string): (r: string)
    ensures c !in repl ==> c !in r
  {
    if s == [] then ""
    else (if s[0] == c then repl else [s[0]]) + ReplaceChar(s[1..], c, repl)
  }

  /** Replacing one character leaves every other character in place. */
  lemma {:induction false} ReplaceCharKeeps(s: string, c: char, repl: string, d: char)
    requires d in s && d != c
    ensures d in ReplaceChar(s, c, repl)
  {
    assert s == [s[0]] + s[1..];
    if s[0] != d {
      ReplaceCharKeeps(s[1..], c, repl, d);
    }
  }

  /** Replacing works piece by piece. */
  lemma {:induction false} ReplaceCharAppend(a: string, b: string, c: char, repl: string)
    ensures ReplaceChar(a + b, c, repl) == ReplaceChar(a, c, repl) + ReplaceChar(b, c, repl)
  {
    if a != [] {
      assert (a + b)[0] == a[0] && (a + b)[1..] == a[1..] + b;
      ReplaceCharAppend(a[1..], b, c, repl);
    } else {
      assert a + b == b;
    }
  }

  /** Replacing a character that does not occur changes nothing. */
  lemma {:induction false} ReplaceCharAbsent(s: string, c: char, repl: string)
    requires c !in s
    ensures ReplaceChar(s, c, repl) == s
  {
    if s != [] {
      assert s == [s[0]] + s[1..];
      ReplaceCharAbsent(s[1..], c, repl);
    }
  }

  /** A character that occurs once is replaced at that one place. */
  lemma ReplaceCharOnce(a: string, c: char, b: string, repl: string)
    requires c !in a && c !in b
    ensures ReplaceChar(a + [c] + b, c, repl) == a + repl + b
  {
    ReplaceCharAppend(a + [c], b, c, repl);
    ReplaceCharAppend(a, [c], c, repl);
    ReplaceCharAbsent(a, c, repl);
    ReplaceCharAbsent(b, c, repl);
  }

  /** The characters of `s` that are in `keep`, in order. */
  function KeepOnly(s: string, keep: set<char>): (r: string)
    ensures |r| <= |s|
    ensures forall i | 0 <= i < |r| :: r[i] in keep
  {
    if s == [] then ""
    else (if s[0] in keep then [s[0]] else "") + KeepOnly(s[1..], keep)
  }

  /** A character survives exactly when it was in the text and is kept. */
  lemma {:induction false} KeepOnlyMembers(s: string, keep: set<char>, c: char)
    ensures c in KeepOnly(s, keep) <==> c in s && c in keep
  {
    if s != [] {
      KeepOnlyMembers(s[1..], keep, c);
      assert c in s <==> c == s[0] || c in s[1..] by {
        assert s == [s[0]] + s[1..];
      }
    }
  }

  /** One character is kept or dropped. */
  lemma KeepOnlyOne(c: char, keep: set<char>)
    ensures KeepOnly([c], keep) == if c in keep then [c] else ""
  {
    assert [c][1..] == [];
  }

  /** Keeping works piece by piece. */
  lemma {:induction false} KeepOnlyAppend(a: string, b: string, keep: set<char>)
    ensures KeepOnly(a + b, keep) == KeepOnly(a, keep) + KeepOnly(b, keep)
  {
    if a != [] {
      assert (a + b)[1..] == a[1..] + b;
      KeepOnlyAppend(a[1..], b, keep);
    } else {
      assert a + b == b;
    }
  }

  /** Replacing never brings in a character that was in neither the text nor the replacement. */
  lemma {:induction false} ReplaceCharAvoids(s: string, c: char, repl: string, d: char)
    requires d !in s && d !in repl
    ensures d !in ReplaceChar(s, c, repl)
  {
    if s != [] {
      assert s == [s[0]] + s[1..];
      ReplaceCharAvoids(s[1..], c, repl, d);
    }
  }

  /** Replacing a character by one character rewrites it in place and keeps the length. */
  lemma {:induction false} ReplaceCharWithChar(s: string, c: char, d: char)
    ensures ReplaceChar(s, c, [d]) == seq(|s|, i requires 0 <= i < |s| => if s[i] == c then d else s[i])
  {
    if s != [] {
      ReplaceCharWithChar(s[1..], c, d);
    }
  }

  /** Dropping one kept character afterwards is the same as never keeping it. */
  lemma {:induction false} KeepThenDrop(s: string, keep: set<char>, c: char)
    ensures ReplaceChar(KeepOnly(s, keep), c, "") == KeepOnly(s, keep - {c})
  {
    if s != [] {
      var head := if s[0] in keep then [s[0]] else "";
      ReplaceCharAppend(head, KeepOnly(s[1..], keep), c, "");
      KeepThenDrop(s[1..], keep, c);
      if s[0] in keep {
        assert head == [s[0]] + "";
      }
    }
  }

  /** Keeping a superset of the characters present keeps the whole text. */
  lemma {:induction false} KeepOnlyAll(s: string, keep: set<char>)
    requires forall i | 0 <= i < |s| :: s[i] in keep
    ensures KeepOnly(s, keep) == s
  {
    if s != [] {
      KeepOnlyAll(s[1..], keep);
      assert [s[0]] + s[1..] == s;
    }
  }

  predicate IsDigit(c: char) {
    '0' <= c <= '9'
  }

  predicate AllDigits(s: string) {
    forall i | 0 <= i < |s| :: IsDigit(s[i])
  }

  lemma AllDigitsAppend(a: string, b: string)
    requires AllDigits(a) && AllDigits(b)
    ensures AllDigits(a + b)
  {
    forall i | 0 <= i < |a + b| ensures IsDigit((a + b)[i]) {
      if i < |a| { assert (a + b)[i] == a[i]; } else { assert (a + b)[i] == b[i - |a|]; }
    }
  }

  function DigitChar(d: nat): (c: char)
    requires d < 10
    ensures IsDigit(c)
  {
    ('0' as int + d) as char
  }

  /** str() of a natural number: its decimal digits, without leading zeros. */
  function NatToString(n: nat): (r: string)
    ensures |r| >= 1 && AllDigits(r)
    decreases n
  {
    if n < 10 then [DigitChar(n)] else NatToString(n / 10) + [DigitChar(n % 10)]
  }

  /** str() of an integer. */
  function IntToString(i: int): (r: string)
    ensures |r| >= 1
  {
    if i < 0 then "-" + NatToString(-i) else NatToString(i)
  }
}
