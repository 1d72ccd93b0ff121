/**
 * `sorted(category_scores.items(), key=lambda x: x[1], reverse=True)[:3]`:
 * a stable sort by descending score, then the first three entries.
 *
 * Python's sort is stable also with `reverse=True`, so entries with equal
 * scores keep the order they had in the input.
 */
module Ranking {
  import opened Seqs

  /** A `(category, score)` item of the scores dictionary. */
  type Scored = (string, real)

  /** Non-increasing by score. */
  predicate SortedDesc(s: seq<Scored>)
  {
    forall i, j :: 0 <= i < j < |s| ==> s[i].1 >= s[j].1
  }

  /** The entries of `s` whose score is exactly `v`, in their order in `s`. */
  function WithScore(s: seq<Scored>, v: real): (r: seq<Scored>)
    ensures |r| <= |s|
  {
    if s == [] then []
    else (if s[0].1 == v then [s[0]] else []) + WithScore(s[1..], v)
  }

  /** Places `x` after every entry scoring strictly more and before the rest. */
  function Insert(x: Scored, s: seq<Scored>): (r: seq<Scored>)
    ensures multiset(r) == multiset(s) + multiset{x}
  {
    if s == [] then [x]
    else
      assert s == [s[0]] + s[1..];
      if s[0].1 > x.1 then [s[0]] + Insert(x, s[1..]) else [x] + s
  }

  /** The stable descending sort, as an insertion sort from the back of the list. */
  function SortByScore(s: seq<Scored>): (r: seq<Scored>)
    ensures multiset(r) == multiset(s)
    ensures |r| == |s|
  {
    if s == [] then []
    else
      assert s == [s[0]] + s[1..];
      Insert(s[0], SortByScore(s[1..]))
  }

  lemma {:induction false} InsertSorted(x: Scored, s: seq<Scored>)
    requires SortedDesc(s)
    ensures SortedDesc(Insert(x, s))
  {
    if s != [] && s[0].1 > x.1 {
      InsertSorted(x, s[1..]);
      var r := Insert(x, s[1..]);
      assert multiset(r) == multiset(s[1..]) + multiset{x};
      forall j | 0 <= j < |r| ensures s[0].1 >= r[j].1 {
        assert r[j] in multiset(r);
        if r[j] != x {
          assert r[j] in multiset(s[1..]);
          var k :| 0 <= k < |s[1..]| && s[1..][k] == r[j];
          assert s[k + 1] == r[j];
        }
      }
    }
  }

  /**
   * Inserting `x` puts it before the existing entries of its own score and
   * leaves the other scores' entries alone.
   */
  lemma {:induction false} InsertWithScore(x: Scored, s: seq<Scored>, v: real)
    requires SortedDesc(s)
    ensures WithScore(Insert(x, s), v) == if x.1 == v then [x] + WithScore(s, v) else WithScore(s, v)
  {
    if s == [] {
    } else if s[0].1 > x.1 {
      InsertWithScore(x, s[1..], v);
      if x.1 == v {
        assert s[0].1 != v;
      }
    } else if x.1 == v {
      assert WithScore([x] + s, v) == [x] + WithScore(s, v) by {
        assert ([x] + s)[1..] == s;
      }
    } else {
      assert ([x] + s)[1..] == s;
    }
  }

  /**
   * The sort's promises: non-increasing, a permutation, and stable: for every
   * score the entries carrying it come out in the order they went in.
   */
  lemma {:induction false} SortByScoreCorrect(s: seq<Scored>)
    ensures SortedDesc(SortByScore(s))
    ensures multiset(SortByScore(s)) == multiset(s)
    ensures forall v :: WithScore(SortByScore(s), v) == WithScore(s, v)
  {
    if s != [] {
      SortByScoreCorrect(s[1..]);
      InsertSorted(s[0], SortByScore(s[1..]));
      forall v ensures WithScore(SortByScore(s), v) == WithScore(s, v) {
        InsertWithScore(s[0], SortByScore(s[1..]), v);
      }
    }
  }

  /** Selecting from a prefix keeps a prefix of the selection. */
  lemma {:induction false} WithScorePrefix(s: seq<Scored>, k: nat, v: real)
    requires k <= |s|
    ensures |WithScore(s[..k], v)| <= |WithScore(s, v)|
    ensures WithScore(s[..k], v) == WithScore(s, v)[..|WithScore(s[..k], v)|]
  {
    if k > 0 {
      assert s[..k][1..] == s[1..][..k - 1];
      WithScorePrefix(s[1..], k - 1, v);
    }
  }

  /** `[:3]` of the sorted items. */
  function TopCategories(scores: seq<Scored>): (r: seq<Scored>)
    ensures |r| == Min(3, |scores|)
    ensures multiset(r) <= multiset(scores)
  {
    var sorted := SortByScore(scores);
    var k := Min(3, |scores|);
    assert sorted == sorted[..k] + sorted[k..];
    sorted[..k]
  }

  /** In a sorted list, nothing after position `k` scores above anything before it. */
  lemma SortedSplit(sorted: seq<Scored>, k: nat)
    requires SortedDesc(sorted) && k <= |sorted|
    ensures forall p, t :: p in sorted[k..] && t in sorted[..k] ==> p.1 <= t.1
  {
  }

  /**
   * The top categories: `min(3, n)` entries, non-increasing, drawn from the
   * scores, no left-out entry scoring above a chosen one, and equal scores in
   * input order (a prefix of the input's entries with that score).
   */
  lemma TopCategoriesCorrect(scores: seq<Scored>)
    ensures |TopCategories(scores)| == Min(3, |scores|)
    ensures SortedDesc(TopCategories(scores))
    ensures multiset(TopCategories(scores)) <= multiset(scores)
    ensures forall p, t :: (p in multiset(scores) - multiset(TopCategories(scores))
              && t in TopCategories(scores)) ==> p.1 <= t.1
    ensures forall v :: |WithScore(TopCategories(scores), v)| <= |WithScore(scores, v)|
              && WithScore(TopCategories(scores), v)
                 == WithScore(scores, v)[..|WithScore(TopCategories(scores), v)|]
  {
    var sorted := SortByScore(scores);
    var k := Min(3, |scores|);
    var top := sorted[..k];
    var rest := sorted[k..];
    SortByScoreCorrect(scores);
    assert sorted == top + rest;
    assert multiset(scores) == multiset(top) + multiset(rest);
    assert multiset(scores) - multiset(top) == multiset(rest);
    SortedSplit(sorted, k);
    forall v ensures |WithScore(top, v)| <= |WithScore(scores, v)|
                     && WithScore(top, v) == WithScore(scores, v)[..|WithScore(top, v)|] {
      WithScorePrefix(sorted, k, v);
    }
  }
}
