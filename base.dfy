/**
 * Small value wrappers and sequence combinators shared by every module:
 * the optional value (TypeScript's `T | undefined` / `T | null`), the
 * result of an operation that can fail with a message, and models of the
 * `Array.prototype.find` / `filter` built-ins the source relies on.
 */
module Base {

  datatype Option<T> = None | Some(value: T) {
    /** The value, or `default` when absent (a destructuring default `{ x = d }`). */
    function GetOr(default: T): T {
      match this
      case Some(v) => v
      case None => default
    }
  }

  /** A computation that either yields a value or fails with an error message. */
  datatype Result<T> = Ok(value: T) | Err(error: string)

  function Min(a: int, b: int): int {
    if a <= b then a else b
  }

  /** The length `Array.prototype.slice(0, end)` keeps of a `len`-element
      array: a negative `end` counts back from the end, and the result is
      clamped to `0..len`. */
  function SliceEnd(len: nat, end: int): (n: nat)
    ensures n <= len
    ensures end >= 0 ==> n == Min(end, len)
    ensures end < 0 ==> n == (if len + end < 0 then 0 else len + end)
  {
    if end < 0 then (if len + end < 0 then 0 else len + end)
    else if end < len then end else len
  }

  /** `xs.slice(0, end)`. */
  function Take<T>(xs: seq<T>, end: int): (r: seq<T>)
    ensures r == xs[..SliceEnd(|xs|, end)]
  {
    xs[..SliceEnd(|xs|, end)]
  }

  /** Index of the first element satisfying `p` (the search `Array.prototype.find` performs). */
  function FindIndex<T>(xs: seq<T>, p: T -> bool): (r: Option<nat>)
    ensures r.Some? ==> r.value < |xs| && p(xs[r.value])
    ensures r.Some? ==> forall j :: 0 <= j < r.value ==> !p(xs[j])
    ensures r.None? <==> forall j :: 0 <= j < |xs| ==> !p(xs[j])
  {
    if |xs| == 0 then None
    else if p(xs[0]) then Some(0)
    else match FindIndex(xs[1..], p)
      case None => None
      case Some(k) => Some(k + 1)
  }

  /** `Array.prototype.find`: the first element satisfying `p`, if any. */
  function Find<T>(xs: seq<T>, p: T -> bool): (r: Option<T>)
    ensures r.None? <==> forall j :: 0 <= j < |xs| ==> !p(xs[j])
    ensures r.Some? ==> exists k :: 0 <= k < |xs| && r.value == xs[k] && p(xs[k]) &&
                                    forall j :: 0 <= j < k ==> !p(xs[j])
  {
    match FindIndex(xs, p)
    case None => None
    case Some(k) => Some(xs[k])
  }

  /** `Array.prototype.filter`: the elements satisfying `p`, in their original order. */
  function Filter<T>(xs: seq<T>, p: T -> bool): (r: seq<T>)
    ensures |r| <= |xs|
    ensures forall i :: 0 <= i < |r| ==> r[i] in xs && p(r[i])
    ensures forall i :: 0 <= i < |xs| && p(xs[i]) ==> xs[i] in r
  {
    if |xs| == 0 then []
    else if p(xs[0]) then [xs[0]] + Filter(xs[1..], p)
    else Filter(xs[1..], p)
  }

  /** The first element kept by `Filter` is the element `FindIndex` finds. */
  lemma {:induction false} FilterHeadIsFirst<T>(xs: seq<T>, p: T -> bool)
    ensures Filter(xs, p) == [] <==> FindIndex(xs, p).None?
    ensures FindIndex(xs, p).Some? ==> Filter(xs, p)[0] == xs[FindIndex(xs, p).value]
  {
    if |xs| > 0 && !p(xs[0]) {
      FilterHeadIsFirst(xs[1..], p);
    }
  }

  /** Filtering with two tests that agree everywhere gives the same list. */
  lemma {:induction false} FilterSameTest<T>(xs: seq<T>, p: T -> bool, q: T -> bool)
    requires forall x :: p(x) == q(x)
    ensures Filter(xs, p) == Filter(xs, q)
    decreases |xs|
  {
    if |xs| > 0 {
      FilterSameTest(xs[1..], p, q);
    }
  }

  /** The keys strictly increase along `xs`. */
  predicate IncreasingBy<T>(xs: seq<T>, key: T -> nat) {
    forall i, j :: 0 <= i < j < |xs| ==> key(xs[i]) < key(xs[j])
  }

  /** An element below every key of an increasing list can go in front. */
  lemma IncreasingCons<T>(x: T, ys: seq<T>, key: T -> nat)
    requires IncreasingBy(ys, key)
    requires forall j :: 0 <= j < |ys| ==> key(x) < key(ys[j])
    ensures IncreasingBy([x] + ys, key)
  {
    var r := [x] + ys;
    forall i, j | 0 <= i < j < |r| ensures key(r[i]) < key(r[j]) {
      assert r[j] == ys[j - 1];
      if i > 0 {
        assert r[i] == ys[i - 1];
      }
    }
  }

  /** Filtering a list ordered by a key keeps it ordered. */
  lemma {:induction false} FilterOrdered<T>(xs: seq<T>, p: T -> bool, key: T -> nat)
    requires IncreasingBy(xs, key)
    ensures IncreasingBy(Filter(xs, p), key)
    decreases |xs|
  {
    if |xs| > 0 {
      var rest := Filter(xs[1..], p);
      assert IncreasingBy(xs[1..], key) by {
        forall i, j | 0 <= i < j < |xs| - 1 ensures key(xs[1..][i]) < key(xs[1..][j]) {
          assert xs[1..][i] == xs[i + 1] && xs[1..][j] == xs[j + 1];
        }
      }
      FilterOrdered(xs[1..], p, key);
      if p(xs[0]) {
        forall j | 0 <= j < |rest| ensures key(xs[0]) < key(rest[j]) {
          var m :| 0 <= m < |xs| - 1 && xs[1..][m] == rest[j];
          assert xs[1..][m] == xs[m + 1];
        }
        IncreasingCons(xs[0], rest, key);
      }
    }
  }

  /** Filtering one more element at the end keeps it when it satisfies `p`. */
  lemma {:induction false} FilterAppend<T>(xs: seq<T>, x: T, p: T -> bool)
    ensures Filter(xs + [x], p) == Filter(xs, p) + (if p(x) then [x] else [])
    decreases |xs|
  {
    if |xs| == 0 {
      assert xs + [x] == [x];
      assert [x][1..] == [];
    } else {
      assert (xs + [x])[0] == xs[0];
      assert (xs + [x])[1..] == xs[1..] + [x];
      FilterAppend(xs[1..], x, p);
    }
  }

  /** Filtering keeps order: the kept elements of a concatenation are those
      of its first part followed by those of its second. */
  lemma {:induction false} FilterConcat<T>(xs: seq<T>, ys: seq<T>, p: T -> bool)
    ensures Filter(xs + ys, p) == Filter(xs, p) + Filter(ys, p)
    decreases |xs|
  {
    if |xs| == 0 {
      assert xs + ys == ys;
    } else {
      assert (xs + ys)[0] == xs[0];
      assert (xs + ys)[1..] == xs[1..] + ys;
      FilterConcat(xs[1..], ys, p);
    }
  }

  /** The list a loop builds by pushing `f(x)` for every `x` of `xs`, in
      order, that satisfies `p`. */
  function MapIf<T, U>(xs: seq<T>, p: T -> bool, f: T -> U): seq<U> {
    if xs == [] then []
    else MapIf(xs[..|xs| - 1], p, f) + (if p(xs[|xs| - 1]) then [f(xs[|xs| - 1])] else [])
  }

  /** An element of the pushed list is the image of an element that passes,
      and every such image is pushed. */
  lemma {:induction false} MapIfMembers<T, U>(xs: seq<T>, p: T -> bool, f: T -> U, y: U)
    ensures y in MapIf(xs, p, f) <==> exists k :: 0 <= k < |xs| && p(xs[k]) && y == f(xs[k])
    decreases |xs|
  {
    if xs != [] {
      var init := xs[..|xs| - 1];
      MapIfMembers(init, p, f, y);
      forall k | 0 <= k < |init| ensures init[k] == xs[k] {
      }
    }
  }

  /** Pushing in a loop is `filter` followed by `map`. */
  lemma {:induction false} MapIfIsMapOfFilter<T, U>(xs: seq<T>, p: T -> bool, f: T -> U)
    ensures |MapIf(xs, p, f)| == |Filter(xs, p)|
    ensures forall i :: 0 <= i < |Filter(xs, p)| ==> MapIf(xs, p, f)[i] == f(Filter(xs, p)[i])
    decreases |xs|
  {
    if xs != [] {
      var init := xs[..|xs| - 1];
      var x := xs[|xs| - 1];
      MapIfIsMapOfFilter(init, p, f);
      assert init + [x] == xs;
      FilterAppend(init, x, p);
    }
  }
}
