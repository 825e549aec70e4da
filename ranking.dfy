/** The ranked path's post-processing of full-text hits: sort by descending
    score with the source's comparator `b.score - a.score` (a stable sort), then
    keep the first five with `splice(0, 5)`. */
module Ranking {
  import opened JsStrings

  /** One full-text hit: the reference of the matched document and its relevance. */
  datatype Hit = Hit(ref: JsString, score: int)

  /** How many hits a ranked search returns. */
  const MaxResults: nat := 5

  predicate SortedDesc(s: seq<Hit>) {
    forall i, j :: 0 <= i < j < |s| ==> s[i].score >= s[j].score
  }

  /** A hit that scores at least as high as every hit of a sorted sequence
      may go in front of it. */
  lemma ConsSorted(x: Hit, s: seq<Hit>)
    requires SortedDesc(s)
    requires forall y :: y in s ==> x.score >= y.score
    ensures SortedDesc([x] + s)
  {
    forall i, j | 0 <= i < j < |[x] + s| ensures ([x] + s)[i].score >= ([x] + s)[j].score {
      assert ([x] + s)[j] == s[j - 1];
      if i > 0 {
        assert ([x] + s)[i] == s[i - 1];
      }
    }
  }

  /** Puts `h` in front of the first hit that does not score higher, so `h`
      precedes the hits of equal score that came after it in the input. */
  function InsertDesc(h: Hit, s: seq<Hit>): (r: seq<Hit>)
    ensures |r| == |s| + 1
    ensures multiset(r) == multiset(s) + multiset{h}
    ensures forall x :: x in r ==> x == h || x in s
  {
    if s == [] || s[0].score <= h.score then [h] + s
    else
      assert s == [s[0]] + s[1..];
      [s[0]] + InsertDesc(h, s[1..])
  }

  lemma {:induction false} InsertDescSorted(h: Hit, s: seq<Hit>)
    requires SortedDesc(s)
    ensures SortedDesc(InsertDesc(h, s))
  {
    if s == [] || s[0].score <= h.score {
      ConsSorted(h, s);
    } else {
      InsertDescSorted(h, s[1..]);
      assert forall y :: y in s[1..] ==> s[0].score >= y.score;
      ConsSorted(s[0], InsertDesc(h, s[1..]));
    }
  }

  /** `hits.sort((a, b) => b.score - a.score)`: the same hits, by descending score. */
  function SortDesc(hits: seq<Hit>): (r: seq<Hit>)
    ensures |r| == |hits|
    ensures multiset(r) == multiset(hits)
    ensures SortedDesc(r)
  {
    if hits == [] then []
    else
      assert hits == [hits[0]] + hits[1..];
      InsertDescSorted(hits[0], SortDesc(hits[1..]));
      InsertDesc(hits[0], SortDesc(hits[1..]))
  }

  /** Cutting a sorted sequence at `n`: the prefix is sorted, it and the
      suffix split the multiset, and each hit of the prefix scores at least as
      high as each hit of the suffix. */
  lemma SplitSorted(sorted: seq<Hit>, n: nat)
    requires SortedDesc(sorted) && n <= |sorted|
    ensures SortedDesc(sorted[..n])
    ensures multiset(sorted[..n]) <= multiset(sorted)
    ensures multiset(sorted) - multiset(sorted[..n]) == multiset(sorted[n..])
    ensures forall x, y :: x in sorted[..n] && y in sorted[n..] ==> x.score >= y.score
  {
    assert sorted == sorted[..n] + sorted[n..];
    forall x, y | x in sorted[..n] && y in sorted[n..] ensures x.score >= y.score {
      var i :| 0 <= i < n && sorted[..n][i] == x;
      var j :| 0 <= j < |sorted| - n && sorted[n..][j] == y;
      assert sorted[i] == x && sorted[n + j] == y;
    }
  }

  /** The ranked hits the worker reconciles: `min(5, |hits|)` of the given hits,
      by descending score, none scoring below a hit that was dropped. */
  function TopHits(hits: seq<Hit>): (r: seq<Hit>)
    ensures |r| == if |hits| < MaxResults then |hits| else MaxResults
    ensures SortedDesc(r)
    ensures multiset(r) <= multiset(hits)
    ensures forall x, y :: x in r && y in multiset(hits) - multiset(r) ==> x.score >= y.score
  {
    var sorted := SortDesc(hits);
    var n := if |sorted| < MaxResults then |sorted| else MaxResults;
    SplitSorted(sorted, n);
    sorted[..n]
  }
}
