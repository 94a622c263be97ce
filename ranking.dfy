/**
 Ranking of search results: the stable descending sort by similarity score
 that Python's `list.sort(key=..., reverse=True)` performs, and Python's
 `xs[:k]` slice that truncates the ranked list.
 */
module Ranking {
  import opened CorpusTypes

  ghost predicate SortedDesc(xs: seq<SearchResult>) {
    forall i, j :: 0 <= i < j < |xs| ==> xs[i].similarityScore >= xs[j].similarityScore
  }

  /** The results whose score is `s`, in their order in `xs`. Stability of a
      sort means this subsequence is the same before and after sorting. */
  function WithScore(xs: seq<SearchResult>, s: int): seq<SearchResult> {
    if xs == [] then []
    else (if xs[0].similarityScore == s then [xs[0]] else []) + WithScore(xs[1..], s)
  }

  /** Inserts `x` into a list sorted by descending score, after every element
      whose score is at least that of `x`. */
  function InsertByScore(sorted: seq<SearchResult>, x: SearchResult): (r: seq<SearchResult>)
    ensures multiset(r) == multiset(sorted) + multiset{x}
    ensures SortedDesc(sorted) ==> SortedDesc(r)
  {
    if sorted == [] then [x]
    else if sorted[0].similarityScore >= x.similarityScore then
      var rest := InsertByScore(sorted[1..], x);
      assert sorted == [sorted[0]] + sorted[1..];
      assert SortedDesc(sorted) ==> SortedDesc([sorted[0]] + rest) by {
        if SortedDesc(sorted) {
          forall j | 0 <= j < |rest|
            ensures rest[j].similarityScore <= sorted[0].similarityScore
          {
            assert rest[j] in multiset(rest);
            assert rest[j] in sorted[1..] || rest[j] == x;
          }
        }
      }
      [sorted[0]] + rest
    else
      [x] + sorted
  }

  /** The stable sort by descending score: elements are inserted in input
      order, so equal scores keep the order they had. */
  function SortByScore(xs: seq<SearchResult>): (r: seq<SearchResult>)
    ensures multiset(r) == multiset(xs)
    ensures SortedDesc(r)
  {
    if xs == [] then []
    else
      assert xs == xs[..|xs| - 1] + [xs[|xs| - 1]];
      InsertByScore(SortByScore(xs[..|xs| - 1]), xs[|xs| - 1])
  }

  /** Python's `xs[:k]`: the first `k` elements, or all but the last `-k`
      elements when `k` is negative. */
  function SliceTo<T>(xs: seq<T>, k: int): (r: seq<T>)
    ensures k >= 0 ==> |r| == Min(k, |xs|)
    ensures k < 0 ==> |r| == Max(0, |xs| + k)
    ensures r == xs[..|r|]
  {
    if k >= 0 then (if k <= |xs| then xs[..k] else xs)
    else if |xs| + k >= 0 then xs[..|xs| + k]
    else []
  }

  /** The ranked, truncated list search returns: `results.sort(...)` then
      `results[:k]`. */
  function TopResults(xs: seq<SearchResult>, k: int): seq<SearchResult> {
    SliceTo(SortByScore(xs), k)
  }

  lemma {:induction false} WithScoreConcat(a: seq<SearchResult>, b: seq<SearchResult>, s: int)
    ensures WithScore(a + b, s) == WithScore(a, s) + WithScore(b, s)
  {
    if a != [] {
      var head := if a[0].similarityScore == s then [a[0]] else [];
      assert (a + b)[0] == a[0];
      assert (a + b)[1..] == a[1..] + b;
      calc {
        WithScore(a + b, s);
        head + WithScore(a[1..] + b, s);
        { WithScoreConcat(a[1..], b, s); }
        head + (WithScore(a[1..], s) + WithScore(b, s));
        WithScore(a, s) + WithScore(b, s);
      }
    } else {
      assert a + b == b;
    }
  }

  lemma {:induction false} WithScoreAbsent(xs: seq<SearchResult>, s: int)
    requires forall e :: e in xs ==> e.similarityScore < s
    ensures WithScore(xs, s) == []
  {
    if xs != [] {
      WithScoreAbsent(xs[1..], s);
    }
  }

  /** Inserting `x` adds it to the end of its score class and changes no
      other score class. */
  lemma {:induction false} InsertByScoreStable(sorted: seq<SearchResult>, x: SearchResult, s: int)
    requires SortedDesc(sorted)
    ensures WithScore(InsertByScore(sorted, x), s) == WithScore(sorted, s) + WithScore([x], s)
  {
    if sorted == [] {
    } else if sorted[0].similarityScore >= x.similarityScore {
      var head, tail := sorted[0], sorted[1..];
      assert sorted == [head] + tail;
      InsertByScoreStable(tail, x, s);
      WithScoreConcat([head], InsertByScore(tail, x), s);
      WithScoreConcat([head], tail, s);
    } else {
      InsertInFrontStable(sorted, x, s);
    }
  }

  lemma InsertInFrontStable(sorted: seq<SearchResult>, x: SearchResult, s: int)
    requires SortedDesc(sorted) && sorted != [] && sorted[0].similarityScore < x.similarityScore
    ensures WithScore([x] + sorted, s) == WithScore(sorted, s) + WithScore([x], s)
  {
    WithScoreConcat([x], sorted, s);
    if x.similarityScore == s {
      forall e | e in sorted
        ensures e.similarityScore < s
      {
        var j :| 0 <= j < |sorted| && sorted[j] == e;
        assert sorted[j].similarityScore <= sorted[0].similarityScore;
      }
      WithScoreAbsent(sorted, s);
    } else {
      assert WithScore([x], s) == [];
    }
  }

  /** The sort is stable: within every score, results keep their input order. */
  lemma {:induction false} SortByScoreStable(xs: seq<SearchResult>, s: int)
    ensures WithScore(SortByScore(xs), s) == WithScore(xs, s)
  {
    if xs != [] {
      var init, last := xs[..|xs| - 1], xs[|xs| - 1];
      SortByScoreStable(init, s);
      InsertByScoreStable(SortByScore(init), last, s);
      assert xs == init + [last];
      WithScoreConcat(init, [last], s);
    }
  }

  /** Everything left out of a prefix of a sorted list scores no higher
      than anything kept. */
  lemma PrefixOfSortedDominates(sorted: seq<SearchResult>, n: nat)
    requires SortedDesc(sorted) && n <= |sorted|
    ensures forall c, y :: c in sorted && c !in sorted[..n] && y in sorted[..n] ==>
      c.similarityScore <= y.similarityScore
  {
    forall c, y | c in sorted && c !in sorted[..n] && y in sorted[..n]
      ensures c.similarityScore <= y.similarityScore
    {
      var j :| 0 <= j < |sorted| && sorted[j] == c;
      var i :| 0 <= i < n && sorted[..n][i] == y;
      if j < n {
        assert sorted[..n][j] == c;
      }
    }
  }

  /** Truncating the ranked list keeps the best results: everything left out
      scores no higher than anything kept, and within one score the kept
      results are the first ones in input order. */
  lemma TopK(xs: seq<SearchResult>, k: int)
    ensures SortedDesc(TopResults(xs, k))
    ensures multiset(TopResults(xs, k)) <= multiset(xs)
    ensures k >= 0 ==> |TopResults(xs, k)| == Min(k, |xs|)
    ensures forall c, y :: c in xs && c !in TopResults(xs, k) && y in TopResults(xs, k) ==>
      c.similarityScore <= y.similarityScore
    ensures forall s :: WithScore(TopResults(xs, k), s) <= WithScore(xs, s)
  {
    var sorted := SortByScore(xs);
    var r := SliceTo(sorted, k);
    assert sorted == r + sorted[|r|..];
    assert multiset(sorted) == multiset(r) + multiset(sorted[|r|..]);
    PrefixOfSortedDominates(sorted, |r|);
    forall c | c in xs
      ensures c in sorted
    {
      assert c in multiset(xs);
    }
    forall s
      ensures WithScore(r, s) <= WithScore(xs, s)
    {
      SortByScoreStable(xs, s);
      WithScoreConcat(r, sorted[|r|..], s);
    }
  }
}
