/** Array helpers of the front end: `find`, `findIndex`, `filter`, `slice`. */
module Seqs {
  import opened Wrappers

  /** `xs.findIndex(p)`: the first index whose element satisfies `p`, or -1. */
  function FindIndex<T>(xs: seq<T>, p: T -> bool): (r: int)
    ensures -1 <= r < |xs|
    ensures r >= 0 ==> p(xs[r]) && forall k :: 0 <= k < r ==> !p(xs[k])
    ensures r == -1 ==> forall k :: 0 <= k < |xs| ==> !p(xs[k])
  {
    if |xs| == 0 then -1
    else if p(xs[0]) then 0
    else
      var r := FindIndex(xs[1..], p);
      if r == -1 then -1 else r + 1
  }

  /** `xs.find(p)`, with `None` for `undefined`. */
  function Find<T>(xs: seq<T>, p: T -> bool): (r: Option<T>)
    ensures r.None? <==> forall k :: 0 <= k < |xs| ==> !p(xs[k])
    ensures r.Some? ==> exists i :: 0 <= i < |xs| && xs[i] == r.value && p(xs[i])
                                    && forall k :: 0 <= k < i ==> !p(xs[k])
  {
    var i := FindIndex(xs, p);
    if i == -1 then None else Some(xs[i])
  }

  lemma FindCons<T>(x: T, xs: seq<T>, p: T -> bool)
    ensures Find([x] + xs, p) == if p(x) then Some(x) else Find(xs, p)
  {
    assert ([x] + xs)[1..] == xs;
  }

  /** `xs.filter(p).find(q)` is the first element of `xs` satisfying both predicates. */
  lemma {:induction false} FindFilter<T>(xs: seq<T>, p: T -> bool, q: T -> bool, pq: T -> bool)
    requires forall x :: pq(x) == (p(x) && q(x))
    ensures Find(Filter(xs, p), q) == Find(xs, pq)
    decreases |xs|
  {
    if |xs| > 0 {
      var x, rest := xs[0], xs[1..];
      assert xs == [x] + rest;
      FindCons(x, rest, pq);
      if p(x) {
        assert Filter(xs, p) == [x] + Filter(rest, p);
        FindCons(x, Filter(rest, p), q);
      } else {
        assert Filter(xs, p) == Filter(rest, p);
      }
      FindFilter(rest, p, q, pq);
    }
  }

  lemma TakeSnoc<T>(xs: seq<T>, k: nat)
    requires k < |xs|
    ensures xs[..k + 1] == xs[..k] + [xs[k]]
  {
  }

  lemma AppendIndex<T>(a: seq<T>, b: seq<T>, j: nat)
    requires j < |a| + |b|
    ensures (a + b)[j] == if j < |a| then a[j] else b[j - |a|]
  {
  }

  lemma TakeAll<T>(xs: seq<T>)
    ensures xs[..|xs|] == xs
  {
  }

  /** `xs.filter(p)`. */
  function Filter<T>(xs: seq<T>, p: T -> bool): (r: seq<T>)
    ensures |r| <= |xs|
    ensures forall k :: 0 <= k < |r| ==> p(r[k]) && r[k] in xs
    ensures forall x :: x in xs && p(x) ==> x in r
  {
    if |xs| == 0 then []
    else (if p(xs[0]) then [xs[0]] else []) + Filter(xs[1..], p)
  }

  /** Filtering a sequence with a given first element. */
  lemma FilterCons<T>(y: T, ys: seq<T>, p: T -> bool)
    ensures Filter([y] + ys, p) == (if p(y) then [y] else []) + Filter(ys, p)
  {
    assert ([y] + ys)[0] == y && ([y] + ys)[1..] == ys;
  }

  /** Filtering a concatenation filters each part. */
  lemma {:induction false} FilterAppend<T>(a: seq<T>, b: seq<T>, p: T -> bool)
    ensures Filter(a + b, p) == Filter(a, p) + Filter(b, p)
    decreases |a|
  {
    if |a| == 0 {
      assert a + b == b;
    } else {
      assert (a + b)[0] == a[0];
      assert (a + b)[1..] == a[1..] + b;
      FilterAppend(a[1..], b, p);
    }
  }

  /** An element that passes the test sits in the filtered sequence right after the
      elements before it that pass. */
  lemma FilterPosition<T>(xs: seq<T>, p: T -> bool, j: nat)
    requires j < |xs| && p(xs[j])
    ensures |Filter(xs[..j], p)| < |Filter(xs, p)|
    ensures Filter(xs, p)[|Filter(xs[..j], p)|] == xs[j]
  {
    assert xs == xs[..j] + xs[j..];
    FilterAppend(xs[..j], xs[j..], p);
    assert xs[j..][0] == xs[j];
    assert Filter(xs[j..], p)[0] == xs[j];
  }

  /** `xs.slice(0, n)`. */
  function Take<T>(xs: seq<T>, n: nat): (r: seq<T>)
    ensures |r| == if |xs| < n then |xs| else n
    ensures r == xs[..|r|]
  {
    if |xs| <= n then xs else xs[..n]
  }

  /** Resolves a relative `slice` bound: negative counts from the end, then it is clamped. */
  function SliceBound(len: nat, b: int): (r: nat)
    ensures r <= len
    ensures 0 <= b <= len ==> r == b
  {
    if b < 0 then (if len + b < 0 then 0 else len + b) else if b > len then len else b
  }

  /** `xs.slice(start, end)` with JavaScript's handling of negative and large bounds. */
  function Slice<T>(xs: seq<T>, start: int, end: int): (r: seq<T>)
    ensures var s, e := SliceBound(|xs|, start), SliceBound(|xs|, end);
      && |r| == (if s < e then e - s else 0)
      && forall k :: 0 <= k < |r| ==> r[k] == xs[s + k]
  {
    var s, e := SliceBound(|xs|, start), SliceBound(|xs|, end);
    if s < e then xs[s..e] else []
  }

  /** `a` is `b` with some elements left out, the rest in the same order. */
  ghost predicate IsSubsequence<T>(a: seq<T>, b: seq<T>)
    decreases |b|
  {
    if |a| == 0 then true
    else if |b| == 0 then false
    else (a[0] == b[0] && IsSubsequence(a[1..], b[1..])) || IsSubsequence(a, b[1..])
  }

  lemma {:induction false} FilterIsSubsequence<T>(xs: seq<T>, p: T -> bool)
    ensures IsSubsequence(Filter(xs, p), xs)
    decreases |xs|
  {
    if |xs| > 0 {
      FilterIsSubsequence(xs[1..], p);
      var r := Filter(xs, p);
      if p(xs[0]) {
        assert r[1..] == Filter(xs[1..], p);
      } else {
        assert r == Filter(xs[1..], p);
      }
    }
  }

  lemma {:induction false} PrefixOfSubsequence<T>(a: seq<T>, b: seq<T>, n: nat)
    requires IsSubsequence(a, b) && n <= |a|
    ensures IsSubsequence(a[..n], b)
    decreases |b|
  {
    if n > 0 {
      if a[0] == b[0] && IsSubsequence(a[1..], b[1..]) {
        PrefixOfSubsequence(a[1..], b[1..], n - 1);
        assert a[..n][1..] == a[1..][..n - 1];
      } else {
        PrefixOfSubsequence(a, b[1..], n);
      }
    }
  }

  lemma {:induction false} PrefixIsSubsequence<T>(xs: seq<T>, n: nat)
    requires n <= |xs|
    ensures IsSubsequence(xs[..n], xs)
    decreases |xs|
  {
    if n > 0 {
      PrefixIsSubsequence(xs[1..], n - 1);
      assert xs[..n][1..] == xs[1..][..n - 1];
    }
  }
}
