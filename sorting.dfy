/**
 * The two sorts the source asks the JavaScript runtime for, written out as
 * insertion sorts so that their results can be stated exactly:
 *  - `Array.prototype.sort()` with no comparator on distinct strings
 *    (ascending by character, see `Text.Less`), and
 *  - `Array.prototype.sort((a, b) => b.score - a.score)`, which the
 *    language requires to be stable: descending by score, and records with
 *    equal scores keep their original order.
 */
module Sorting {
  import opened Text

  // ---------------------------------------------------------------------
  // descending by score, stable
  // ---------------------------------------------------------------------

  /** Inserts `x` before the first element whose score is not above its own,
      so `x` precedes every element of equal score. */
  function InsertByScore<T>(x: T, ys: seq<T>, score: T -> real): (r: seq<T>)
    ensures |r| == |ys| + 1
  {
    if ys == [] || score(ys[0]) <= score(x) then [x] + ys
    else [ys[0]] + InsertByScore(x, ys[1..], score)
  }

  /** Stable sort by descending score. */
  function SortByScoreDesc<T>(xs: seq<T>, score: T -> real): (r: seq<T>)
    ensures |r| == |xs|
  {
    if xs == [] then [] else InsertByScore(xs[0], SortByScoreDesc(xs[1..], score), score)
  }

  predicate SortedDesc<T>(xs: seq<T>, score: T -> real) {
    forall i, j :: 0 <= i < j < |xs| ==> score(xs[i]) >= score(xs[j])
  }

  /** The elements of `xs` whose score is `k`, in their order in `xs`. */
  function WithScore<T>(xs: seq<T>, score: T -> real, k: real): seq<T> {
    if xs == [] then []
    else (if score(xs[0]) == k then [xs[0]] else []) + WithScore(xs[1..], score, k)
  }

  lemma {:induction false} InsertByScoreSorted<T>(x: T, ys: seq<T>, score: T -> real)
    requires SortedDesc(ys, score)
    ensures SortedDesc(InsertByScore(x, ys, score), score)
    ensures InsertByScore(x, ys, score) == [] || score(InsertByScore(x, ys, score)[0]) == score(x)
                                            || InsertByScore(x, ys, score)[0] == ys[0]
    decreases |ys|
  {
    if ys != [] && score(ys[0]) > score(x) {
      InsertByScoreSorted(x, ys[1..], score);
      var r := InsertByScore(x, ys, score);
      var tail := InsertByScore(x, ys[1..], score);
      assert r == [ys[0]] + tail;
      forall j | 0 < j < |r| ensures score(r[0]) >= score(r[j]) {
        InsertByScoreMembers(x, ys[1..], score, j - 1);
      }
    }
  }

  /** Every element of an insertion is `x` or an element of `ys`. */
  lemma {:induction false} InsertByScoreMembers<T>(x: T, ys: seq<T>, score: T -> real, j: nat)
    requires j < |ys| + 1
    ensures InsertByScore(x, ys, score)[j] == x || InsertByScore(x, ys, score)[j] in ys
    decreases |ys|
  {
    if ys != [] && score(ys[0]) > score(x) && j > 0 {
      InsertByScoreMembers(x, ys[1..], score, j - 1);
    }
  }

  lemma {:induction false} InsertByScoreMultiset<T>(x: T, ys: seq<T>, score: T -> real)
    ensures multiset(InsertByScore(x, ys, score)) == multiset([x]) + multiset(ys)
    decreases |ys|
  {
    if ys != [] && score(ys[0]) > score(x) {
      InsertByScoreMultiset(x, ys[1..], score);
      assert ys == [ys[0]] + ys[1..];
    }
  }

  /** Inserting `x` puts it first among the elements of its own score. */
  lemma {:induction false} InsertByScoreWithScore<T>(x: T, ys: seq<T>, score: T -> real, k: real)
    ensures WithScore(InsertByScore(x, ys, score), score, k)
            == (if score(x) == k then [x] else []) + WithScore(ys, score, k)
    decreases |ys|
  {
    if ys == [] || score(ys[0]) <= score(x) {
      assert ([x] + ys)[1..] == ys;
    } else {
      var tail := InsertByScore(x, ys[1..], score);
      InsertByScoreWithScore(x, ys[1..], score, k);
      var r := [ys[0]] + tail;
      assert r[1..] == tail;
      var head := if score(ys[0]) == k then [ys[0]] else [];
      assert WithScore(r, score, k) == head + WithScore(tail, score, k);
      assert WithScore(ys, score, k) == head + WithScore(ys[1..], score, k);
      if score(x) == k {
        assert head == [];
      } else {
        assert WithScore(tail, score, k) == WithScore(ys[1..], score, k);
      }
    }
  }

  /** The result is ordered by descending score. */
  lemma {:induction false} SortByScoreDescSorted<T>(xs: seq<T>, score: T -> real)
    ensures SortedDesc(SortByScoreDesc(xs, score), score)
    decreases |xs|
  {
    if xs != [] {
      SortByScoreDescSorted(xs[1..], score);
      InsertByScoreSorted(xs[0], SortByScoreDesc(xs[1..], score), score);
    }
  }

  /** The result is a permutation of the input. */
  lemma {:induction false} SortByScoreDescPermutes<T>(xs: seq<T>, score: T -> real)
    ensures multiset(SortByScoreDesc(xs, score)) == multiset(xs)
    decreases |xs|
  {
    if xs != [] {
      SortByScoreDescPermutes(xs[1..], score);
      InsertByScoreMultiset(xs[0], SortByScoreDesc(xs[1..], score), score);
      assert xs == [xs[0]] + xs[1..];
    }
  }

  /** Stability: the elements of any one score appear in their original order. */
  lemma {:induction false} SortByScoreDescStable<T>(xs: seq<T>, score: T -> real, k: real)
    ensures WithScore(SortByScoreDesc(xs, score), score, k) == WithScore(xs, score, k)
    decreases |xs|
  {
    if xs != [] {
      SortByScoreDescStable(xs[1..], score, k);
      InsertByScoreWithScore(xs[0], SortByScoreDesc(xs[1..], score), score, k);
    }
  }

  lemma {:induction false} WithScoreAppend<T>(a: seq<T>, b: seq<T>, score: T -> real, k: real)
    ensures WithScore(a + b, score, k) == WithScore(a, score, k) + WithScore(b, score, k)
    decreases |a|
  {
    if a == [] {
      assert a + b == b;
    } else {
      var ab := a + b;
      assert ab[0] == a[0] && ab[1..] == a[1..] + b;
      WithScoreAppend(a[1..], b, score, k);
      var h := if score(a[0]) == k then [a[0]] else [];
      var x := WithScore(a[1..], score, k);
      var y := WithScore(b, score, k);
      assert WithScore(ab, score, k) == h + (x + y);
      assert WithScore(a, score, k) == h + x;
      assert h + (x + y) == (h + x) + y;
    }
  }

  /** A prefix and the rest of a sequence split its elements. */
  lemma PrefixSplitsMultiset<T>(s: seq<T>, m: nat)
    requires m <= |s|
    ensures multiset(s) == multiset(s[..m]) + multiset(s[m..])
  {
    assert s == s[..m] + s[m..];
  }

  /** In an ordered sequence an element outside the first `m` scores no
      higher than any element inside them. */
  lemma PrefixOfSortedIsTop<T>(s: seq<T>, score: T -> real, m: nat)
    requires SortedDesc(s, score) && m <= |s|
    ensures forall c, i :: c in multiset(s) - multiset(s[..m]) && 0 <= i < m ==> score(c) <= score(s[i])
  {
    PrefixSplitsMultiset(s, m);
    forall c, i | c in multiset(s) - multiset(s[..m]) && 0 <= i < m
      ensures score(c) <= score(s[i])
    {
      assert c in multiset(s[m..]);
      var j :| 0 <= j < |s[m..]| && s[m..][j] == c;
      assert s[m + j] == c;
    }
  }

  /** The elements of one score in a prefix lead those of the whole. */
  lemma PrefixWithScore<T>(s: seq<T>, score: T -> real, m: nat, k: real)
    requires m <= |s|
    ensures WithScore(s[..m], score, k) <= WithScore(s, score, k)
  {
    assert s == s[..m] + s[m..];
    WithScoreAppend(s[..m], s[m..], score, k);
  }

  /** The first `m` of the sorted elements are the best: they are elements of
      the input, no element left out scores above any kept one, and among
      equal scores the kept ones are the first in input order. */
  lemma SortedPrefixIsTop<T>(xs: seq<T>, score: T -> real, m: nat, k: real)
    requires m <= |xs|
    ensures var top := SortByScoreDesc(xs, score)[..m];
            && multiset(top) <= multiset(xs)
            && (forall c, i :: c in multiset(xs) - multiset(top) && 0 <= i < m ==> score(c) <= score(top[i]))
            && WithScore(top, score, k) <= WithScore(xs, score, k)
  {
    var s := SortByScoreDesc(xs, score);
    SortByScoreDescSorted(xs, score);
    SortByScoreDescPermutes(xs, score);
    SortByScoreDescStable(xs, score, k);
    PrefixSplitsMultiset(s, m);
    PrefixOfSortedIsTop(s, score, m);
    PrefixWithScore(s, score, m, k);
  }

  // ---------------------------------------------------------------------
  // strings, ascending
  // ---------------------------------------------------------------------

  function InsertString(x: String, ys: seq<String>): (r: seq<String>)
    ensures |r| == |ys| + 1
  {
    if ys == [] || !Less(ys[0], x) then [x] + ys
    else [ys[0]] + InsertString(x, ys[1..])
  }

  /** `Array.prototype.sort()` with no comparator. */
  function SortStrings(xs: seq<String>): (r: seq<String>)
    ensures |r| == |xs|
  {
    if xs == [] then [] else InsertString(xs[0], SortStrings(xs[1..]))
  }

  predicate StrictlyIncreasing(xs: seq<String>) {
    forall i, j :: 0 <= i < j < |xs| ==> Less(xs[i], xs[j])
  }

  predicate Distinct<T(==)>(xs: seq<T>) {
    forall i, j :: 0 <= i < j < |xs| ==> xs[i] != xs[j]
  }

  lemma {:induction false} InsertStringMultiset(x: String, ys: seq<String>)
    ensures multiset(InsertString(x, ys)) == multiset([x]) + multiset(ys)
    decreases |ys|
  {
    if ys != [] && Less(ys[0], x) {
      InsertStringMultiset(x, ys[1..]);
      assert ys == [ys[0]] + ys[1..];
    }
  }

  lemma {:induction false} InsertStringIncreasing(x: String, ys: seq<String>)
    requires StrictlyIncreasing(ys) && x !in ys
    ensures StrictlyIncreasing(InsertString(x, ys))
    decreases |ys|
  {
    if ys != [] {
      if Less(ys[0], x) {
        assert x !in ys[1..];
        InsertStringIncreasing(x, ys[1..]);
        InsertStringMultiset(x, ys[1..]);
        var r := InsertString(x, ys);
        forall j | 0 < j < |r| ensures Less(r[0], r[j]) {
          assert r[j] in multiset(r[1..]);
          if r[j] != x {
            var k :| 1 <= k < |ys| && ys[k] == r[j];
          }
        }
      } else {
        LessTotal(x, ys[0]);
        forall j | 0 < j < |ys| ensures Less(x, ys[j]) {
          LessTransitive(x, ys[0], ys[j]);
        }
      }
    }
  }

  /** Sorting distinct strings yields the same strings in strictly
      increasing order. */
  lemma {:induction false} SortStringsSpec(xs: seq<String>)
    requires Distinct(xs)
    ensures multiset(SortStrings(xs)) == multiset(xs)
    ensures StrictlyIncreasing(SortStrings(xs))
    decreases |xs|
  {
    if xs != [] {
      SortStringsSpec(xs[1..]);
      var rest := SortStrings(xs[1..]);
      InsertStringMultiset(xs[0], rest);
      assert xs == [xs[0]] + xs[1..];
      assert xs[0] !in rest by {
        assert xs[0] !in multiset(xs[1..]);
      }
      InsertStringIncreasing(xs[0], rest);
    }
  }

  /** A strictly increasing list is determined by its elements. */
  lemma {:induction false} StrictlyIncreasingUnique(a: seq<String>, b: seq<String>)
    requires StrictlyIncreasing(a) && StrictlyIncreasing(b)
    requires forall x :: x in a <==> x in b
    ensures a == b
    decreases |a|
  {
    if a != [] {
      assert a[0] in a;
    }
    if b != [] {
      assert b[0] in b;
    }
    if a != [] && b != [] {
      var ka :| 0 <= ka < |a| && a[ka] == b[0];
      LessSmallest(a, b[0], a[0], ka);
      var kb :| 0 <= kb < |b| && b[kb] == a[0];
      LessSmallest(b, a[0], b[0], kb);
      LessTrichotomy(a[0], b[0]);
      forall x ensures x in a[1..] <==> x in b[1..] {
        StrictlyIncreasingTail(a, x);
        StrictlyIncreasingTail(b, x);
      }
      StrictlyIncreasingUnique(a[1..], b[1..]);
    }
  }

  lemma LessTrichotomy(a: String, b: String)
    ensures a == b || Less(a, b) || Less(b, a)
  {
    if a != b {
      LessTotal(a, b);
    }
  }

  /** In a strictly increasing list no element is less than the first. */
  lemma LessSmallest(xs: seq<String>, y: String, x0: String, k: nat)
    requires StrictlyIncreasing(xs) && |xs| > 0 && x0 == xs[0] && k < |xs| && xs[k] == y
    ensures !Less(y, x0)
  {
    if k > 0 {
      LessAsymmetric(xs[0], xs[k]);
    } else {
      LessIrreflexive(xs[0]);
    }
  }

  lemma StrictlyIncreasingTail(xs: seq<String>, x: String)
    requires StrictlyIncreasing(xs) && |xs| > 0
    ensures x in xs[1..] <==> x in xs && x != xs[0]
  {
    if x in xs[1..] {
      var k :| 1 <= k < |xs| && xs[k] == x;
      LessIrreflexive(xs[0]);
    }
  }
}
