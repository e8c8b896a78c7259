/**
 * pandas' Series.value_counts().head(n) on a series of texts: each
 * distinct text with the number of times it occurs, most frequent first,
 * the n most frequent kept.
 */
module ValueCounts {
  import opened Ranking

  /** One row of a histogram: {"name": k, "count": int(v)}. */
  datatype Entry = Entry(name: string, count: nat)

  predicate Unique(s: seq<string>) {
    forall i, j | 0 <= i < j < |s| :: s[i] != s[j]
  }

  /** The distinct texts of `xs`, in order of first appearance. */
  function Uniques(xs: seq<string>): (u: seq<string>)
    ensures Unique(u)
    ensures forall v :: v in u <==> v in xs
  {
    if xs == [] then []
    else
      var init := xs[..|xs| - 1];
      var x := xs[|xs| - 1];
      assert xs == init + [x];
      var u := Uniques(init);
      if x in u then u else u + [x]
  }

  /** Some entry of the histogram is named v. */
  ghost predicate Named(hist: seq<Entry>, v: string) {
    exists i | 0 <= i < |hist| :: hist[i].name == v
  }

  /**
   * `hist` is value_counts().head(n) of `xs`: as many entries as there are
   * distinct texts, at most n; each a text of `xs` with its number of
   * occurrences; no text twice; counts non-increasing; and no text left
   * out occurs more often than a listed one. Equal counts may come in
   * either order.
   */
  ghost predicate IsValueCounts(xs: seq<string>, n: nat, hist: seq<Entry>) {
    && |hist| == Min(n, |Uniques(xs)|)
    && (forall i | 0 <= i < |hist| :: hist[i].name in xs && hist[i].count == multiset(xs)[hist[i].name])
    && (forall i, j | 0 <= i < j < |hist| :: hist[i].name != hist[j].name)
    && (forall i, j | 0 <= i < j < |hist| :: hist[i].count >= hist[j].count)
    && (forall v, i | v in xs && 0 <= i < |hist| && !Named(hist, v) :: multiset(xs)[v] <= hist[i].count)
  }

  /** value_counts().head(n): counts every distinct text and keeps the n most frequent. */
  method ValueCountsHead(xs: seq<string>, n: nat) returns (hist: seq<Entry>)
    ensures IsValueCounts(xs, n, hist)
  {
    var u := Uniques(xs);
    var scores := seq(|u|, i requires 0 <= i < |u| => multiset(xs)[u[i]] as real);
    var picks := SelectTop(scores, Min(n, |u|));
    hist := seq(|picks|, i requires 0 <= i < |picks| => Entry(u[picks[i]], multiset(xs)[u[picks[i]]]));
    HistogramOfTop(xs, n, scores, picks, hist);
  }

  /** The entries of the best-scoring distinct texts, scored by count, form the histogram. */
  lemma HistogramOfTop(xs: seq<string>, n: nat, scores: seq<real>, picks: seq<int>, hist: seq<Entry>)
    requires |scores| == |Uniques(xs)|
    requires forall i | 0 <= i < |scores| :: scores[i] == multiset(xs)[Uniques(xs)[i]] as real
    requires |picks| == Min(n, |Uniques(xs)|) && IsTop(scores, picks)
    requires |hist| == |picks|
    requires forall i | 0 <= i < |picks| :: hist[i] == Entry(Uniques(xs)[picks[i]], multiset(xs)[Uniques(xs)[picks[i]]])
    ensures IsValueCounts(xs, n, hist)
  {
    var u := Uniques(xs);
    forall i, j | 0 <= i < j < |hist|
      ensures hist[i].count >= hist[j].count
    {
      assert scores[picks[i]] >= scores[picks[j]];
    }
    forall i, j | 0 <= i < j < |hist|
      ensures hist[i].name != hist[j].name
    {
      assert picks[i] != picks[j];
    }
    forall v, i | v in xs && 0 <= i < |hist| && !Named(hist, v)
      ensures multiset(xs)[v] <= hist[i].count
    {
      var p :| 0 <= p < |u| && u[p] == v;
      assert scores[p] <= scores[picks[i]];
    }
  }

  /** The distinct texts of a sequence without repeats are as many as its elements. */
  lemma {:induction false} UniqueCard(s: seq<string>)
    requires Unique(s)
    ensures |set x | x in s| == |s|
  {
    if s != [] {
      var init := s[..|s| - 1];
      UniqueCard(init);
      assert s == init + [s[|s| - 1]];
      assert (set x | x in s) == (set x | x in init) + {s[|s| - 1]};
    }
  }

  /** With room for every distinct text, the histogram names each text of the series. */
  lemma ValueCountsComplete(xs: seq<string>, n: nat, hist: seq<Entry>)
    requires IsValueCounts(xs, n, hist) && |Uniques(xs)| <= n
    ensures forall v :: v in xs <==> Named(hist, v)
  {
    var u := Uniques(xs);
    var names := seq(|hist|, i requires 0 <= i < |hist| => hist[i].name);
    UniqueCard(names);
    UniqueCard(u);
    var ns, us := set x | x in names, set x | x in u;
    SubsetOfSameSize(ns, us);
    forall v | v in xs
      ensures Named(hist, v)
    {
      assert v in us;
      var i :| 0 <= i < |names| && names[i] == v;
      assert hist[i].name == v;
    }
  }

  lemma SubsetOfSameSize(a: set<string>, b: set<string>)
    requires a <= b && |a| == |b|
    ensures a == b
  {
    if !(b <= a) {
      var x :| x in b && x !in a;
      assert a <= b - {x};
      SubsetSize(a, b - {x});
    }
  }

  lemma {:induction false} SubsetSize(a: set<string>, b: set<string>)
    requires a <= b
    ensures |a| <= |b|
    decreases |b|
  {
    if b != {} {
      var x :| x in b;
      SubsetSize(a - {x}, b - {x});
    }
  }

  /** Every entry counts at least one occurrence, and no entry counts more than the whole series. */
  lemma ValueCountsBounds(xs: seq<string>, n: nat, hist: seq<Entry>)
    requires IsValueCounts(xs, n, hist)
    ensures forall i | 0 <= i < |hist| :: 1 <= hist[i].count <= |xs|
    ensures |hist| <= n
  {
    forall i | 0 <= i < |hist|
      ensures 1 <= hist[i].count <= |xs|
    {
      assert hist[i].name in multiset(xs);
      MultiplicityBound(xs, hist[i].name);
    }
  }

  lemma {:induction false} MultiplicityBound(xs: seq<string>, v: string)
    ensures multiset(xs)[v] <= |xs|
  {
    if xs != [] {
      var init := xs[..|xs| - 1];
      assert xs == init + [xs[|xs| - 1]];
      MultiplicityBound(init, v);
    }
  }

  /** A histogram of nothing is empty, and the empty histogram is the one of nothing. */
  lemma ValueCountsOfNothing(n: nat, hist: seq<Entry>)
    ensures IsValueCounts([], n, hist) <==> hist == []
  {
  }

  /** With room for at least one entry, the histogram is empty exactly when the series is. */
  lemma EmptyHistogram(xs: seq<string>, n: nat)
    requires n >= 1
    ensures IsValueCounts(xs, n, []) <==> xs == []
  {
    if xs != [] {
      assert xs[0] in Uniques(xs);
    }
  }
}
