/**
 * Ordering and capping the matches of `find_near_duplicates`:
 * `results.sort(key=lambda x: x[2], reverse=True)` followed by
 * `results[:max_pairs]` (find_duplicate_wording.py:266-267, 301-302).
 *
 * Python's `list.sort` is stable, also with `reverse=True`: matches with
 * equal scores keep the order in which they were found.
 */
module Ranking {

  /** A match: the indices of two blocks, `first < second`, and their
      Jaccard score. */
  datatype Match = Match(first: nat, second: nat, score: real)

  /** Scores never increase along `s`. */
  predicate SortedDesc(s: seq<Match>) {
    forall i, j :: 0 <= i < j < |s| ==> s[i].score >= s[j].score
  }

  /** The matches of `s` with score `v`, in order. */
  function WithScore(s: seq<Match>, v: real): (r: seq<Match>)
    ensures |r| <= |s|
  {
    if s == [] then [] else WithScore(s[..|s| - 1], v) + Keep(s[|s| - 1], v)
  }

  /** `[m]` if `m` scores `v`, else nothing. */
  function Keep(m: Match, v: real): seq<Match> {
    if m.score == v then [m] else []
  }

  /** Puts `x` into the descending `s` after every match scoring at least as
      much as `x`. */
  function Insert(s: seq<Match>, x: Match): (r: seq<Match>)
    ensures multiset(r) == multiset(s) + multiset{x}
    ensures |r| == |s| + 1
    decreases |s|
  {
    if s == [] || s[|s| - 1].score >= x.score then s + [x]
    else
      var init := s[..|s| - 1];
      assert s == init + [s[|s| - 1]];
      Insert(init, x) + [s[|s| - 1]]
  }

  /** The stable descending sort: each match, in the order given, goes
      after all earlier ones that score at least as much. */
  function SortDesc(s: seq<Match>): (r: seq<Match>)
    ensures multiset(r) == multiset(s)
    ensures |r| == |s|
  {
    if s == [] then []
    else
      assert s == s[..|s| - 1] + [s[|s| - 1]];
      Insert(SortDesc(s[..|s| - 1]), s[|s| - 1])
  }

  /** Insertion keeps the order descending. */
  lemma {:induction false} InsertSorted(s: seq<Match>, x: Match)
    requires SortedDesc(s)
    ensures SortedDesc(Insert(s, x))
    decreases |s|
  {
    if s != [] && s[|s| - 1].score < x.score {
      var init := s[..|s| - 1];
      InsertSorted(init, x);
      var r := Insert(init, x);
      var last := s[|s| - 1];
      forall y | y in r
        ensures y.score >= last.score
      {
        assert y in multiset(r);
        if y != x {
          assert y in multiset(init);
          var k :| 0 <= k < |init| && init[k] == y;
          assert s[k] == y;
        }
      }
      forall i, j | 0 <= i < j < |r + [last]|
        ensures (r + [last])[i].score >= (r + [last])[j].score
      {
        if j == |r| {
          assert r[i] in r;
        }
      }
    }
  }

  /** The sort orders by score, highest first. */
  lemma {:induction false} SortDescSorted(s: seq<Match>)
    ensures SortedDesc(SortDesc(s))
  {
    if s != [] {
      SortDescSorted(s[..|s| - 1]);
      InsertSorted(SortDesc(s[..|s| - 1]), s[|s| - 1]);
    }
  }

  /** Every match after the inserted one scores strictly less, so it comes
      after all the matches with its score. */
  lemma {:induction false} InsertStable(s: seq<Match>, x: Match, v: real)
    ensures WithScore(Insert(s, x), v) == WithScore(s, v) + Keep(x, v)
    decreases |s|
  {
    if s == [] || s[|s| - 1].score >= x.score {
      WithScoreSnoc(s, x, v);
    } else {
      var init := s[..|s| - 1];
      assert s == init + [s[|s| - 1]];
      var last := s[|s| - 1];
      InsertStable(init, x, v);
      assert Insert(s, x) == Insert(init, x) + [last];
      WithScoreSnoc(Insert(init, x), last, v);
      WithScoreSnoc(init, last, v);
      KeepCommute(WithScore(init, v), x, last, v);
    }
  }

  /** A match scoring more than `v`-scoring ones commutes with them. */
  lemma {:induction false} KeepCommute(a: seq<Match>, x: Match, last: Match, v: real)
    requires last.score < x.score
    ensures a + Keep(x, v) + Keep(last, v) == a + Keep(last, v) + Keep(x, v)
  {
    if x.score == v {
      assert Keep(last, v) == [];
    } else {
      assert Keep(x, v) == [];
    }
  }

  lemma {:induction false} WithScoreSnoc(s: seq<Match>, y: Match, v: real)
    ensures WithScore(s + [y], v) == WithScore(s, v) + Keep(y, v)
  {
    assert (s + [y])[..|s|] == s;
  }

  /** The sort is stable: the matches of any one score keep their order. */
  lemma {:induction false} SortDescStable(s: seq<Match>, v: real)
    ensures WithScore(SortDesc(s), v) == WithScore(s, v)
  {
    if s != [] {
      SortDescStable(s[..|s| - 1], v);
      InsertStable(SortDesc(s[..|s| - 1]), s[|s| - 1], v);
    }
  }

  /** `s[:n]` in Python: a negative `n` counts from the end. */
  function PySlicePrefix(s: seq<Match>, n: int): (r: seq<Match>)
    ensures n >= 0 ==> |r| == if n <= |s| then n else |s|
    ensures n < 0 ==> |r| == if -n <= |s| then |s| + n else 0
    ensures r == s[..|r|]
  {
    if n >= 0 then (if n <= |s| then s[..n] else s)
    else if -n <= |s| then s[..|s| + n]
    else []
  }

  /** The final step of both modes: sort best first, then cap at
      `max_pairs`. */
  function Rank(results: seq<Match>, maxPairs: int): (r: seq<Match>)
    ensures SortedDesc(r)
    ensures multiset(r) <= multiset(results)
    ensures maxPairs >= 0 ==> |r| == if maxPairs <= |results| then maxPairs else |results|
  {
    var sorted := SortDesc(results);
    SortDescSorted(results);
    var r := PySlicePrefix(sorted, maxPairs);
    PrefixSubMultiset(sorted, |r|);
    r
  }

  lemma {:induction false} PrefixSubMultiset(s: seq<Match>, k: nat)
    requires k <= |s|
    ensures multiset(s[..k]) <= multiset(s)
  {
    assert s == s[..k] + s[k..];
  }

  /** What is kept beats what is cut: a match of `results` left out of the
      ranking scores no more than any match kept. */
  lemma {:induction false} RankKeepsBest(results: seq<Match>, maxPairs: int, x: Match, y: Match)
    requires x in Rank(results, maxPairs)
    requires y in multiset(results) - multiset(Rank(results, maxPairs))
    ensures y.score <= x.score
  {
    var sorted := SortDesc(results);
    SortDescSorted(results);
    var r := Rank(results, maxPairs);
    var k := |r|;
    assert r == sorted[..k];
    assert sorted == r + sorted[k..];
    assert y in multiset(sorted[k..]) by {
      assert multiset(sorted) == multiset(r) + multiset(sorted[k..]);
    }
    var i :| 0 <= i < k && r[i] == x;
    var j :| 0 <= j < |sorted[k..]| && sorted[k..][j] == y;
    assert sorted[k + j] == y;
  }
}
