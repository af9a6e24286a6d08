/** `Array.prototype.sort` with a string-key comparator: a stable sort by insertion, ordered
    by comparing keys code point by code point. */
module Sorting {
  import opened Seqs

  /** Lexicographic order on strings, compared code point by code point. */
  predicate StrLe(a: string, b: string)
  {
    |a| == 0 || (|b| > 0 && (a[0] < b[0] || (a[0] == b[0] && StrLe(a[1..], b[1..]))))
  }

  lemma {:induction false} StrLeTotal(a: string, b: string)
    ensures StrLe(a, b) || StrLe(b, a)
  {
    if |a| > 0 && |b| > 0 && a[0] == b[0] {
      StrLeTotal(a[1..], b[1..]);
    }
  }

  lemma {:induction false} StrLeReflexive(a: string)
    ensures StrLe(a, a)
    decreases |a|
  {
    if |a| > 0 {
      StrLeReflexive(a[1..]);
    }
  }

  lemma {:induction false} StrLeTransitive(a: string, b: string, c: string)
    requires StrLe(a, b) && StrLe(b, c)
    ensures StrLe(a, c)
  {
    if |a| > 0 && a[0] == b[0] && b[0] == c[0] {
      StrLeTransitive(a[1..], b[1..], c[1..]);
    }
  }

  ghost predicate SortedBy<T>(xs: seq<T>, key: T -> string)
  {
    forall i, j :: 0 <= i < j < |xs| ==> StrLe(key(xs[i]), key(xs[j]))
  }

  /** Puts `x` in front of the first element whose key is not below its own. */
  function Insert<T>(x: T, xs: seq<T>, key: T -> string): (r: seq<T>)
    ensures multiset(r) == multiset(xs) + multiset{x}
    ensures SortedBy(xs, key) ==> SortedBy(r, key)
  {
    if |xs| == 0 then [x]
    else if StrLe(key(x), key(xs[0])) then
      InsertFrontSorted(x, xs, key);
      [x] + xs
    else
      var rest := Insert(x, xs[1..], key);
      assert xs == [xs[0]] + xs[1..];
      InsertBehindSorted(x, xs, rest, key);
      [xs[0]] + rest
  }

  lemma InsertFrontSorted<T>(x: T, xs: seq<T>, key: T -> string)
    requires |xs| > 0 && StrLe(key(x), key(xs[0]))
    ensures SortedBy(xs, key) ==> SortedBy([x] + xs, key)
  {
    if SortedBy(xs, key) {
      forall j | 0 < j < |xs| ensures StrLe(key(x), key(xs[j])) {
        StrLeTransitive(key(x), key(xs[0]), key(xs[j]));
      }
    }
  }

  lemma InsertBehindSorted<T>(x: T, xs: seq<T>, rest: seq<T>, key: T -> string)
    requires |xs| > 0 && !StrLe(key(x), key(xs[0]))
    requires multiset(rest) == multiset(xs[1..]) + multiset{x}
    requires SortedBy(xs[1..], key) ==> SortedBy(rest, key)
    ensures SortedBy(xs, key) ==> SortedBy([xs[0]] + rest, key)
  {
    if SortedBy(xs, key) {
      StrLeTotal(key(x), key(xs[0]));
      assert SortedBy(xs[1..], key);
      var r := [xs[0]] + rest;
      forall j | 0 <= j < |rest| ensures StrLe(key(xs[0]), key(rest[j])) {
        assert rest[j] in multiset(rest);
        if rest[j] != x {
          assert rest[j] in multiset(xs[1..]);
          var m :| 0 <= m < |xs[1..]| && xs[1..][m] == rest[j];
          assert xs[m + 1] == rest[j];
        }
      }
      forall i, j | 0 <= i < j < |r| ensures StrLe(key(r[i]), key(r[j])) {
        if i > 0 {
          assert r[i] == rest[i - 1] && r[j] == rest[j - 1];
        }
      }
    }
  }

  /** `xs.sort((a, b) => key(a).localeCompare(key(b)))`, with code-point order for the
      comparison: a permutation of `xs` in non-decreasing key order. */
  function SortBy<T>(xs: seq<T>, key: T -> string): (r: seq<T>)
    ensures multiset(r) == multiset(xs)
    ensures |r| == |xs|
    ensures SortedBy(r, key)
  {
    if |xs| == 0 then []
    else
      assert xs == [xs[0]] + xs[1..];
      Insert(xs[0], SortBy(xs[1..], key), key)
  }

  /** The test "has key `c`". */
  function HasKey<T>(key: T -> string, c: string): T -> bool
  {
    (y: T) => key(y) == c
  }

  /** Inserting `x` puts it in front of every element with its own key: among the elements
      with key `c`, `x` comes first when its key is `c`, and the others keep their order. */
  lemma {:induction false} InsertKeepsKeyOrder<T>(x: T, ys: seq<T>, key: T -> string, c: string)
    ensures Filter(Insert(x, ys, key), HasKey(key, c))
            == (if key(x) == c then [x] else []) + Filter(ys, HasKey(key, c))
    decreases |ys|
  {
    var p := HasKey(key, c);
    if |ys| == 0 {
      FilterCons(x, [], p);
    } else if StrLe(key(x), key(ys[0])) {
      FilterCons(x, ys, p);
    } else {
      var rest := Insert(x, ys[1..], key);
      assert Insert(x, ys, key) == [ys[0]] + rest;
      assert ys == [ys[0]] + ys[1..];
      StrLeReflexive(key(x));
      InsertKeepsKeyOrder(x, ys[1..], key, c);
      PassOver(x, ys[0], rest, ys[1..], key, c);
    }
  }

  /** An element with another key than `x`'s, put in front, leaves `x`'s place among the
      elements with key `c` unchanged. */
  lemma PassOver<T>(x: T, y: T, rest: seq<T>, tail: seq<T>, key: T -> string, c: string)
    requires key(y) != key(x)
    requires Filter(rest, HasKey(key, c))
             == (if key(x) == c then [x] else []) + Filter(tail, HasKey(key, c))
    ensures Filter([y] + rest, HasKey(key, c))
            == (if key(x) == c then [x] else []) + Filter([y] + tail, HasKey(key, c))
  {
    if key(y) == c {
      PassOverMatching(y, rest, tail, key, c);
    } else {
      PassOverOther(y, rest, key, c);
      PassOverOther(y, tail, key, c);
    }
  }

  /** Two sequences with the same key-`c` elements keep that when a key-`c` element is put
      in front of both. */
  lemma PassOverMatching<T>(y: T, rest: seq<T>, tail: seq<T>, key: T -> string, c: string)
    requires key(y) == c && Filter(rest, HasKey(key, c)) == Filter(tail, HasKey(key, c))
    ensures Filter([y] + rest, HasKey(key, c)) == Filter([y] + tail, HasKey(key, c))
  {
    FilterCons(y, rest, HasKey(key, c));
    FilterCons(y, tail, HasKey(key, c));
  }

  /** An element of another key in front changes nothing among the key-`c` elements. */
  lemma PassOverOther<T>(y: T, xs: seq<T>, key: T -> string, c: string)
    requires key(y) != c
    ensures Filter([y] + xs, HasKey(key, c)) == Filter(xs, HasKey(key, c))
  {
    FilterCons(y, xs, HasKey(key, c));
  }

  /** The sort is stable: the elements with any one key come out in their input order. */
  lemma {:induction false} SortByStable<T>(xs: seq<T>, key: T -> string, c: string)
    ensures Filter(SortBy(xs, key), HasKey(key, c)) == Filter(xs, HasKey(key, c))
    decreases |xs|
  {
    if |xs| > 0 {
      SortByStable(xs[1..], key, c);
      InsertKeepsKeyOrder(xs[0], SortBy(xs[1..], key), key, c);
    }
  }
}
