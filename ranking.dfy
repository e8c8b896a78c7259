/**
 * Exact top-m selection by score. It is the ranking an exhaustive
 * inner-product index performs, and the ordering step of pandas'
 * value_counts().head(n).
 */
module Ranking {

  /** How many picks there are room for: the smaller of the two. */
  function Min(a: nat, b: nat): nat {
    if a <= b then a else b
  }

  /** Every element of `s` is a valid position of a sequence of length n. */
  ghost predicate InRange(s: seq<int>, n: nat) {
    forall i | 0 <= i < |s| :: 0 <= s[i] < n
  }

  ghost predicate Distinct(s: seq<int>) {
    forall i, j | 0 <= i < j < |s| :: s[i] != s[j]
  }

  /**
   * `picks` are |picks| best positions of `scores`: valid, distinct, in
   * non-increasing score order, and no position left out scores higher
   * than a picked one. Ties among equal scores may be broken either way.
   */
  ghost predicate IsTop(scores: seq<real>, picks: seq<int>) {
    && InRange(picks, |scores|)
    && Distinct(picks)
    && (forall i, j | 0 <= i < j < |picks| :: scores[picks[i]] >= scores[picks[j]])
    && (forall p, i | 0 <= p < |scores| && p !in picks && 0 <= i < |picks| :: scores[p] <= scores[picks[i]])
  }

  /** `rest` lists exactly the positions not yet picked, each scoring at most every picked one. */
  ghost predicate Remaining(scores: seq<real>, picks: seq<int>, rest: seq<int>) {
    && InRange(picks, |scores|)
    && InRange(rest, |scores|)
    && Distinct(rest)
    && |picks| + |rest| == |scores|
    && (forall p | 0 <= p < |scores| :: p in picks <==> p !in rest)
    && (forall r, i | 0 <= r < |rest| && 0 <= i < |picks| :: scores[rest[r]] <= scores[picks[i]])
  }

  /** `s` with its element at position b taken out. */
  function Without(s: seq<int>, b: nat): (r: seq<int>)
    requires b < |s|
    ensures |r| == |s| - 1
    ensures forall i | 0 <= i < |r| :: r[i] == if i < b then s[i] else s[i + 1]
  {
    s[..b] + s[b + 1..]
  }

  lemma WithoutMembers(s: seq<int>, b: nat)
    requires b < |s| && Distinct(s)
    ensures Distinct(Without(s, b))
    ensures forall p :: p in Without(s, b) <==> p in s && p != s[b]
  {
    var r := Without(s, b);
    forall i, j | 0 <= i < j < |r|
      ensures r[i] != r[j]
    {
      var i0 := if i < b then i else i + 1;
      var j0 := if j < b then j else j + 1;
      assert r[i] == s[i0] && r[j] == s[j0] && i0 < j0;
    }
    forall p | p in s && p != s[b]
      ensures p in r
    {
      var k :| 0 <= k < |s| && s[k] == p;
      assert k != b;
      assert r[if k < b then k else k - 1] == p;
    }
  }

  /** Moving a best remaining position to the end of `picks` keeps both invariants. */
  lemma PickStep(scores: seq<real>, picks: seq<int>, rest: seq<int>, b: nat)
    requires Remaining(scores, picks, rest) && IsTop(scores, picks)
    requires b < |rest|
    requires forall r | 0 <= r < |rest| :: scores[rest[r]] <= scores[rest[b]]
    ensures Remaining(scores, picks + [rest[b]], Without(rest, b))
    ensures IsTop(scores, picks + [rest[b]])
  {
    WithoutMembers(rest, b);
    PickStepRemaining(scores, picks, rest, b);
    PickStepTop(scores, picks, rest, b);
  }

  lemma PickStepRemaining(scores: seq<real>, picks: seq<int>, rest: seq<int>, b: nat)
    requires Remaining(scores, picks, rest)
    requires b < |rest|
    requires forall r | 0 <= r < |rest| :: scores[rest[r]] <= scores[rest[b]]
    requires Distinct(Without(rest, b))
    requires forall p :: p in Without(rest, b) <==> p in rest && p != rest[b]
    ensures Remaining(scores, picks + [rest[b]], Without(rest, b))
  {
    var x := rest[b];
    var p' := picks + [x];
    var r' := Without(rest, b);
    forall p | 0 <= p < |scores|
      ensures p in p' <==> p !in r'
    {
      assert p in p' <==> p in picks || p == x;
    }
    forall r, i | 0 <= r < |r'| && 0 <= i < |p'|
      ensures scores[r'[r]] <= scores[p'[i]]
    {
      assert r'[r] in rest;
      if i == |picks| {
        assert p'[i] == x;
      } else {
        assert p'[i] == picks[i];
      }
    }
  }

  lemma PickStepTop(scores: seq<real>, picks: seq<int>, rest: seq<int>, b: nat)
    requires Remaining(scores, picks, rest) && IsTop(scores, picks)
    requires b < |rest|
    requires forall r | 0 <= r < |rest| :: scores[rest[r]] <= scores[rest[b]]
    requires forall p :: p in Without(rest, b) <==> p in rest && p != rest[b]
    ensures IsTop(scores, picks + [rest[b]])
  {
    var x := rest[b];
    var p' := picks + [x];
    var r' := Without(rest, b);
    assert x !in picks;
    assert forall i | 0 <= i < |picks| :: scores[x] <= scores[picks[i]];
    forall p, i | 0 <= p < |scores| && p !in p' && 0 <= i < |p'|
      ensures scores[p] <= scores[p'[i]]
    {
      assert p in r';
      assert scores[p] <= scores[x];
    }
    assert Distinct(p');
  }

  /** The position in `rest` of a highest score among `rest`. */
  method ArgMax(scores: seq<real>, rest: seq<int>) returns (b: nat)
    requires |rest| > 0
    requires InRange(rest, |scores|)
    ensures b < |rest|
    ensures forall r | 0 <= r < |rest| :: scores[rest[r]] <= scores[rest[b]]
  {
    b := 0;
    for r := 1 to |rest|
      invariant b < |rest|
      invariant forall r' | 0 <= r' < r :: scores[rest[r']] <= scores[rest[b]]
    {
      if scores[rest[r]] > scores[rest[b]] {
        b := r;
      }
    }
  }

  /** Picks the m best positions, best first. */
  method SelectTop(scores: seq<real>, m: nat) returns (picks: seq<int>)
    requires m <= |scores|
    ensures |picks| == m && IsTop(scores, picks)
  {
    picks := [];
    var rest := seq(|scores|, i => i);
    assert |rest| == |scores|;
    assert forall p | 0 <= p < |scores| :: rest[p] == p;
    forall p | 0 <= p < |scores|
      ensures p in rest
    {
      assert rest[p] == p;
    }
    assert InRange(rest, |scores|) && Distinct(rest);
    while |picks| < m
      invariant |picks| <= m
      invariant Remaining(scores, picks, rest)
      invariant IsTop(scores, picks)
    {
      var b := ArgMax(scores, rest);
      PickStep(scores, picks, rest, b);
      picks, rest := picks + [rest[b]], Without(rest, b);
    }
  }
}
