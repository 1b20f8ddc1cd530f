/** Sequence helpers shared by every component: the optional value that stands for JavaScript's
    `undefined`/`NaN`, `Array.prototype.filter`, `Array.prototype.find` (as an index search) and the
    subsequence relation that states what a filter keeps. */
module Collections {

  datatype Option<+T> = None | Some(value: T)

  /** `a` is `b` with some elements deleted, the remaining ones in their original relative order. */
  ghost predicate IsSubsequence<T>(a: seq<T>, b: seq<T>)
    decreases |b|
  {
    a == [] || (b != [] && ((a[0] == b[0] && IsSubsequence(a[1..], b[1..])) || IsSubsequence(a, b[1..])))
  }

  /** `Array.prototype.filter`: the elements of `xs` that satisfy `f`, in their original order. */
  function Filter<T(!new)>(f: T -> bool, xs: seq<T>): (r: seq<T>)
    ensures |r| <= |xs|
    ensures forall x :: x in r <==> x in xs && f(x)
  {
    if xs == [] then []
    else if f(xs[0]) then [xs[0]] + Filter(f, xs[1..])
    else Filter(f, xs[1..])
  }

  /** A filter only deletes elements: what it keeps stays in its original relative order. */
  lemma {:induction false} FilterIsSubsequence<T(!new)>(f: T -> bool, xs: seq<T>)
    ensures IsSubsequence(Filter(f, xs), xs)
  {
    if xs != [] {
      FilterIsSubsequence(f, xs[1..]);
      if f(xs[0]) {
        var r := Filter(f, xs);
        assert r[0] == xs[0] && r[1..] == Filter(f, xs[1..]);
      }
    }
  }

  /** A filter whose predicate holds of every element keeps the whole sequence. */
  lemma {:induction false} FilterKeepsAll<T(!new)>(f: T -> bool, xs: seq<T>)
    requires forall x :: x in xs ==> f(x)
    ensures Filter(f, xs) == xs
  {
    if xs != [] {
      FilterKeepsAll(f, xs[1..]);
    }
  }

  /** A filter whose predicate holds of no element keeps nothing. */
  lemma {:induction false} FilterKeepsNone<T(!new)>(f: T -> bool, xs: seq<T>)
    requires forall i :: 0 <= i < |xs| ==> !f(xs[i])
    ensures Filter(f, xs) == []
  {
    if xs != [] {
      FilterKeepsNone(f, xs[1..]);
    }
  }

  /** Filtering distributes over concatenation. */
  lemma {:induction false} FilterConcat<T(!new)>(f: T -> bool, xs: seq<T>, ys: seq<T>)
    ensures Filter(f, xs + ys) == Filter(f, xs) + Filter(f, ys)
  {
    if xs == [] {
      assert xs + ys == ys;
    } else {
      assert (xs + ys)[0] == xs[0];
      assert (xs + ys)[1..] == xs[1..] + ys;
      FilterConcat(f, xs[1..], ys);
    }
  }

  /** A filter that rejects exactly the element at index `k` removes that element alone. */
  lemma FilterRemovesOne<T(!new)>(f: T -> bool, xs: seq<T>, k: nat)
    requires k < |xs| && !f(xs[k])
    requires forall i :: 0 <= i < |xs| && i != k ==> f(xs[i])
    ensures Filter(f, xs) == xs[..k] + xs[k + 1..]
  {
    FilterKeepsSlice(f, xs, 0, k);
    FilterKeepsSlice(f, xs, k + 1, |xs|);
    assert xs[0..k] == xs[..k] && xs[k + 1..|xs|] == xs[k + 1..];
    FilterDropsAt(f, xs, k);
    FilterSplitAt(f, xs, k + 1);
  }

  /** Filtering a sequence filters the two sides of any cut. */
  lemma FilterSplitAt<T(!new)>(f: T -> bool, xs: seq<T>, k: nat)
    requires k <= |xs|
    ensures Filter(f, xs) == Filter(f, xs[..k]) + Filter(f, xs[k..])
  {
    assert xs == xs[..k] + xs[k..];
    FilterConcat(f, xs[..k], xs[k..]);
  }

  /** A slice all of whose elements satisfy the predicate is kept whole. */
  lemma FilterKeepsSlice<T(!new)>(f: T -> bool, xs: seq<T>, lo: nat, hi: nat)
    requires lo <= hi <= |xs|
    requires forall i :: lo <= i < hi ==> f(xs[i])
    ensures Filter(f, xs[lo..hi]) == xs[lo..hi]
  {
    var part := xs[lo..hi];
    assert forall i :: 0 <= i < |part| ==> part[i] == xs[lo + i];
    FilterKeepsEvery(f, part);
  }

  /** Filtering the prefix that ends with a rejected element drops that element. */
  lemma FilterDropsAt<T(!new)>(f: T -> bool, xs: seq<T>, k: nat)
    requires k < |xs| && !f(xs[k])
    requires Filter(f, xs[..k]) == xs[..k]
    ensures Filter(f, xs[..k + 1]) == xs[..k]
  {
    assert xs[..k + 1] == xs[..k] + [xs[k]];
    FilterConcat(f, xs[..k], [xs[k]]);
    FilterKeepsNone(f, [xs[k]]);
  }

  /** `FilterKeepsAll`, with the predicate given index by index. */
  lemma {:induction false} FilterKeepsEvery<T(!new)>(f: T -> bool, xs: seq<T>)
    requires forall i :: 0 <= i < |xs| ==> f(xs[i])
    ensures Filter(f, xs) == xs
  {
    if xs != [] {
      assert forall i :: 0 <= i < |xs| - 1 ==> xs[1..][i] == xs[i + 1];
      FilterKeepsEvery(f, xs[1..]);
    }
  }

  /** Two predicates that agree on the elements of `xs` filter it alike. */
  lemma {:induction false} FilterCongruent<T(!new)>(f: T -> bool, g: T -> bool, xs: seq<T>)
    requires forall x :: x in xs ==> f(x) == g(x)
    ensures Filter(f, xs) == Filter(g, xs)
  {
    if xs != [] {
      FilterCongruent(f, g, xs[1..]);
    }
  }

  /** No two elements of `xs` share a `key` (an id, say). */
  ghost predicate DistinctBy<T, K>(key: T -> K, xs: seq<T>)
  {
    forall i, j :: 0 <= i < j < |xs| ==> key(xs[i]) != key(xs[j])
  }

  /** A filter of a sequence whose keys are distinct has distinct keys. */
  lemma {:induction false} FilterKeepsDistinct<T(!new), K>(f: T -> bool, key: T -> K, xs: seq<T>)
    requires DistinctBy(key, xs)
    ensures DistinctBy(key, Filter(f, xs))
  {
    if xs != [] {
      var rest := xs[1..];
      assert DistinctBy(key, rest) by {
        forall i, j | 0 <= i < j < |rest| ensures key(rest[i]) != key(rest[j]) {
          assert rest[i] == xs[i + 1] && rest[j] == xs[j + 1];
        }
      }
      FilterKeepsDistinct(f, key, rest);
      if f(xs[0]) {
        var r := Filter(f, xs);
        var fr := Filter(f, rest);
        assert r == [xs[0]] + fr;
        forall j | 0 < j < |r| ensures key(r[0]) != key(r[j]) {
          assert r[j] == fr[j - 1];
          assert fr[j - 1] in rest;
          var k :| 0 <= k < |rest| && rest[k] == fr[j - 1];
          assert xs[k + 1] == rest[k];
        }
      }
    }
  }

  /** A prefix of a subsequence of `b` is still a subsequence of `b`. */
  lemma {:induction false} PrefixOfSubsequence<T>(a: seq<T>, b: seq<T>, n: nat)
    requires IsSubsequence(a, b)
    requires n <= |a|
    ensures IsSubsequence(a[..n], b)
    decreases |b|
  {
    if n == 0 || a == [] {
      assert a[..n] == [];
    } else if a[0] == b[0] && IsSubsequence(a[1..], b[1..]) {
      PrefixOfSubsequence(a[1..], b[1..], n - 1);
      assert a[..n][0] == b[0];
      assert a[..n][1..] == a[1..][..n - 1];
    } else {
      PrefixOfSubsequence(a, b[1..], n);
    }
  }

  /** `xs.slice(0, n)`: the first `n` elements, or all of them when there are fewer. */
  function Take<T>(xs: seq<T>, n: nat): (r: seq<T>)
    ensures |r| <= n && |r| <= |xs|
    ensures |xs| <= n ==> r == xs
    ensures |xs| > n ==> |r| == n
    ensures forall i :: 0 <= i < |r| ==> r[i] == xs[i]
  {
    if |xs| <= n then xs else xs[..n]
  }

  /** The index `Array.prototype.find` stops at: the first element satisfying `f`, if any. */
  function FirstMatch<T>(f: T -> bool, xs: seq<T>): (r: Option<nat>)
    ensures r.Some? ==> r.value < |xs| && f(xs[r.value])
    ensures r.Some? ==> forall j :: 0 <= j < r.value ==> !f(xs[j])
    ensures r.None? ==> forall j :: 0 <= j < |xs| ==> !f(xs[j])
  {
    if xs == [] then None
    else if f(xs[0]) then Some(0)
    else match FirstMatch(f, xs[1..])
      case None => None
      case Some(i) => Some(i + 1)
  }

  /** `Array.prototype.find`: the first element satisfying `f`, if any. */
  function Find<T>(f: T -> bool, xs: seq<T>): (r: Option<T>)
    ensures r.Some? <==> exists i :: 0 <= i < |xs| && f(xs[i])
    ensures r.Some? ==> f(r.value)
    ensures r.Some? ==> exists i :: 0 <= i < |xs| && xs[i] == r.value && forall j :: 0 <= j < i ==> !f(xs[j])
  {
    match FirstMatch(f, xs)
    case None => None
    case Some(i) => Some(xs[i])
  }
}
