/** The parts of JavaScript's Array and Set built-ins that the dashboard relies on:
    `filter`, `slice(0, n)`, `[...new Set(xs)]` and the stable `sort`. */
module JsArray {

  /** No element occurs twice. */
  predicate Distinct<T(==)>(xs: seq<T>) {
    forall i, j :: 0 <= i < j < |xs| ==> xs[i] != xs[j]
  }

  /** `idx` lists, in strictly ascending order, positions of `ys` that hold the elements of `xs`. */
  ghost predicate Embedding<T>(idx: seq<nat>, xs: seq<T>, ys: seq<T>) {
    && |idx| == |xs|
    && (forall i :: 0 <= i < |idx| ==> idx[i] < |ys| && ys[idx[i]] == xs[i])
    && (forall i, j :: 0 <= i < j < |idx| ==> idx[i] < idx[j])
  }

  /** `xs` can be obtained from `ys` by deleting elements, without reordering. */
  ghost predicate IsSubsequence<T>(xs: seq<T>, ys: seq<T>) {
    exists idx: seq<nat> :: Embedding(idx, xs, ys)
  }

  // ---------------------------------------------------------------------------
  // Array.prototype.filter

  /** `xs.filter(p)`: the elements of `xs` that satisfy `p`, in their original order. */
  function Filter<T>(xs: seq<T>, p: T -> bool): (r: seq<T>)
    ensures |r| <= |xs|
  {
    if xs == [] then [] else (if p(xs[0]) then [xs[0]] else []) + Filter(xs[1..], p)
  }

  /** An element is in the result of a filter exactly when it is in the input and passes. */
  lemma {:induction false} FilterContains<T>(xs: seq<T>, p: T -> bool, x: T)
    ensures x in Filter(xs, p) <==> x in xs && p(x)
  {
    if xs != [] {
      FilterContains(xs[1..], p, x);
      assert xs == [xs[0]] + xs[1..];
    }
  }

  /** The conjunction of two predicates, `x => p(x) && q(x)`. */
  function And<T>(p: T -> bool, q: T -> bool): T -> bool {
    x => p(x) && q(x)
  }

  /** The negation of a predicate. */
  function Not<T>(p: T -> bool): T -> bool {
    x => !p(x)
  }

  lemma {:induction false} FilterAppend<T>(a: seq<T>, b: seq<T>, p: T -> bool)
    ensures Filter(a + b, p) == Filter(a, p) + Filter(b, p)
  {
    if a == [] {
      assert a + b == b;
    } else {
      var head := if p(a[0]) then [a[0]] else [];
      assert (a + b)[0] == a[0];
      assert (a + b)[1..] == a[1..] + b;
      FilterAppend(a[1..], b, p);
      calc {
        Filter(a + b, p);
        head + Filter(a[1..] + b, p);
        head + (Filter(a[1..], p) + Filter(b, p));
        (head + Filter(a[1..], p)) + Filter(b, p);
      }
    }
  }

  /** Filtering depends only on what the predicate says about the elements. */
  lemma FilterSnoc<T>(xs: seq<T>, x: T, p: T -> bool)
    ensures Filter(xs + [x], p) == Filter(xs, p) + (if p(x) then [x] else [])
  {
    FilterAppend(xs, [x], p);
    assert [x][1..] == [];
  }

  lemma {:induction false} FilterExtensional<T>(xs: seq<T>, p: T -> bool, q: T -> bool)
    requires forall x :: x in xs ==> p(x) == q(x)
    ensures Filter(xs, p) == Filter(xs, q)
  {
    if xs != [] {
      FilterExtensional(xs[1..], p, q);
    }
  }

  /** A filter that keeps every element is the identity. */
  lemma {:induction false} FilterKeepsAll<T>(xs: seq<T>, p: T -> bool)
    requires forall x :: x in xs ==> p(x)
    ensures Filter(xs, p) == xs
  {
    if xs != [] {
      FilterKeepsAll(xs[1..], p);
    }
  }

  /** A filter that keeps no element gives the empty sequence. */
  lemma {:induction false} FilterNoneKept<T>(xs: seq<T>, p: T -> bool)
    requires forall x :: x in xs ==> !p(x)
    ensures Filter(xs, p) == []
  {
    if xs != [] {
      FilterNoneKept(xs[1..], p);
    }
  }

  /** Filtering the result of a filter is filtering once by both predicates. */
  lemma {:induction false} FilterFilter<T>(xs: seq<T>, p: T -> bool, q: T -> bool)
    ensures Filter(Filter(xs, q), p) == Filter(xs, And(p, q))
  {
    if xs != [] {
      FilterFilter(xs[1..], p, q);
      var head := if q(xs[0]) then [xs[0]] else [];
      FilterAppend(head, Filter(xs[1..], q), p);
      if q(xs[0]) {
        assert Filter(head, p) == if p(xs[0]) then [xs[0]] else [];
      }
    }
  }

  /** Filtering twice by the same predicate is filtering once. */
  lemma FilterIdempotent<T>(xs: seq<T>, p: T -> bool)
    ensures Filter(Filter(xs, p), p) == Filter(xs, p)
  {
    FilterFilter(xs, p, p);
    FilterExtensional(xs, And(p, p), p);
  }

  /** A filter and the filter by the negated predicate split the elements between them. */
  lemma {:induction false} FilterPartition<T>(xs: seq<T>, p: T -> bool)
    ensures multiset(Filter(xs, p)) + multiset(Filter(xs, Not(p))) == multiset(xs)
  {
    if xs != [] {
      var h, t := xs[0], xs[1..];
      FilterPartition(t, p);
      assert xs == [h] + t;
      var kp := if p(h) then [h] else [];
      var kn := if Not(p)(h) then [h] else [];
      assert Filter(xs, p) == kp + Filter(t, p);
      assert Filter(xs, Not(p)) == kn + Filter(t, Not(p));
      assert multiset(kp) + multiset(kn) == multiset{h};
    }
  }

  /** The result of a filter is an order-preserving subsequence of its input. */
  lemma {:induction false} FilterIsSubsequence<T>(xs: seq<T>, p: T -> bool)
    ensures IsSubsequence(Filter(xs, p), xs)
  {
    FilterEmbedding(xs, p);
  }

  /** The positions of the elements that `Filter(xs, p)` keeps. */
  function FilterIndices<T>(xs: seq<T>, p: T -> bool): (idx: seq<nat>)
  {
    if xs == [] then []
    else
      var rest := FilterIndices(xs[1..], p);
      if p(xs[0]) then [0] + Shift(rest) else Shift(rest)
  }

  /** Every position one further on. */
  function Shift(idx: seq<nat>): (r: seq<nat>)
    ensures |r| == |idx|
    ensures forall i :: 0 <= i < |idx| ==> r[i] == idx[i] + 1
  {
    seq(|idx|, i requires 0 <= i < |idx| => idx[i] + 1)
  }

  /** Shifting an embedding into `ys[1..]` by one gives an embedding into `ys`. */
  lemma ShiftEmbedding<T>(idx: seq<nat>, xs: seq<T>, ys: seq<T>)
    requires ys != [] && Embedding(idx, xs, ys[1..])
    ensures Embedding(Shift(idx), xs, ys)
  {
    var shifted := Shift(idx);
    forall i | 0 <= i < |shifted| ensures shifted[i] < |ys| && ys[shifted[i]] == xs[i] {
      assert ys[1..][idx[i]] == xs[i];
    }
  }

  /** An embedding that avoids position 0 extends to one that also takes `ys[0]`. */
  lemma ConsEmbedding<T>(idx: seq<nat>, xs: seq<T>, ys: seq<T>)
    requires ys != [] && Embedding(idx, xs, ys)
    requires forall i :: 0 <= i < |idx| ==> idx[i] >= 1
    ensures Embedding([0] + idx, [ys[0]] + xs, ys)
  {
    var all := [0] + idx;
    assert forall i :: 0 < i < |all| ==> all[i] == idx[i - 1];
  }

  lemma FilterEmbeddingStep<T>(xs: seq<T>, p: T -> bool)
    requires xs != []
    requires Embedding(FilterIndices(xs[1..], p), Filter(xs[1..], p), xs[1..])
    ensures Embedding(FilterIndices(xs, p), Filter(xs, p), xs)
  {
    var rest := FilterIndices(xs[1..], p);
    var f := Filter(xs[1..], p);
    var shifted := Shift(rest);
    ShiftEmbedding(rest, f, xs);
    if p(xs[0]) {
      ConsEmbedding(shifted, f, xs);
      assert FilterIndices(xs, p) == [0] + shifted;
      assert Filter(xs, p) == [xs[0]] + f;
    } else {
      assert FilterIndices(xs, p) == shifted;
      assert Filter(xs, p) == f;
    }
  }

  lemma {:induction false} FilterEmbedding<T>(xs: seq<T>, p: T -> bool)
    ensures Embedding(FilterIndices(xs, p), Filter(xs, p), xs)
  {
    if xs != [] {
      FilterEmbedding(xs[1..], p);
      FilterEmbeddingStep(xs, p);
    }
  }

  // ---------------------------------------------------------------------------
  // Array.prototype.slice(0, n)

  /** `xs.slice(0, n)`: the first `n` elements, or all of them when there are fewer. */
  function Slice<T>(xs: seq<T>, n: nat): (r: seq<T>)
    ensures |r| == if |xs| < n then |xs| else n
    ensures forall i :: 0 <= i < |r| ==> r[i] == xs[i]
  {
    if |xs| <= n then xs else xs[..n]
  }

  // ---------------------------------------------------------------------------
  // [...new Set(xs)]: a Set iterates in insertion order and ignores repeated insertions.

  /** The distinct elements of `xs`, each at the place where it first occurs. */
  function Unique<T(==)>(xs: seq<T>): (r: seq<T>)
    ensures Distinct(r)
    ensures forall i :: 0 <= i < |r| ==> r[i] in xs
    ensures forall i :: 0 <= i < |xs| ==> xs[i] in r
    ensures |r| <= |xs|
  {
    if xs == [] then []
    else
      var front := Unique(xs[..|xs| - 1]);
      var last := xs[|xs| - 1];
      assert xs == xs[..|xs| - 1] + [last];
      if last in front then front else front + [last]
  }

  /** The position at which `x` first occurs in `xs`. */
  function FirstIndex<T(==)>(xs: seq<T>, x: T): (i: nat)
    requires x in xs
    ensures i < |xs| && xs[i] == x && x !in xs[..i]
  {
    if xs[0] == x then 0
    else
      assert xs == [xs[0]] + xs[1..];
      var j := FirstIndex(xs[1..], x);
      assert xs[..j + 1] == [xs[0]] + xs[1..][..j];
      j + 1
  }

  /** Any position of `x` not preceded by another `x` is its first position. */
  lemma FirstIndexUnique<T>(xs: seq<T>, x: T, i: nat)
    requires i < |xs| && xs[i] == x && x !in xs[..i]
    ensures FirstIndex(xs, x) == i
  {
    var f := FirstIndex(xs, x);
    forall k | 0 <= k < f ensures xs[k] != x {
      assert xs[..f][k] == xs[k];
    }
    forall k | 0 <= k < i ensures xs[k] != x {
      assert xs[..i][k] == xs[k];
    }
  }

  lemma FirstIndexPrefix<T>(a: seq<T>, b: seq<T>, x: T)
    requires x in a
    ensures FirstIndex(a + b, x) == FirstIndex(a, x)
  {
    var f := FirstIndex(a, x);
    assert (a + b)[..f] == a[..f];
    FirstIndexUnique(a + b, x, f);
  }

  /** The elements of `Unique(xs)` are listed in the order of their first occurrences in `xs`. */
  lemma {:induction false} UniqueFirstOccurrenceOrder<T>(xs: seq<T>)
    ensures forall i, j :: 0 <= i < j < |Unique(xs)| ==>
              FirstIndex(xs, Unique(xs)[i]) < FirstIndex(xs, Unique(xs)[j])
  {
    if xs != [] {
      var front := xs[..|xs| - 1];
      var last := xs[|xs| - 1];
      var u := Unique(front);
      assert xs == front + [last];
      UniqueFirstOccurrenceOrder(front);
      forall x | x in u
        ensures FirstIndex(xs, x) == FirstIndex(front, x) < |front|
      {
        FirstIndexPrefix(front, [last], x);
      }
      if last !in u {
        assert Unique(xs) == u + [last];
        FirstIndexUnique(xs, last, |front|);
        forall i, j | 0 <= i < j < |Unique(xs)|
          ensures FirstIndex(xs, Unique(xs)[i]) < FirstIndex(xs, Unique(xs)[j])
        {
          assert Unique(xs)[i] == u[i];
          if j < |u| {
            assert Unique(xs)[j] == u[j];
          }
        }
      }
    }
  }

  // ---------------------------------------------------------------------------
  // Array.prototype.sort with a comparator `(a, b) => key(a) - key(b)`.
  // Since ES2019 the sort is stable, so its result is the unique permutation that is
  // ascending by `key` and keeps equal-keyed elements in their input order.

  /** Ascending by `key`. */
  ghost predicate SortedBy<T>(s: seq<T>, key: T -> real) {
    forall i, j :: 0 <= i < j < |s| ==> key(s[i]) <= key(s[j])
  }

  /** `x => key(x) == v`: the elements of one sort class. */
  function KeyIs<T>(key: T -> real, v: real): T -> bool {
    x => key(x) == v
  }

  /** Puts `x` in front of the first element whose key is not smaller than its own. */
  function Insert<T>(x: T, s: seq<T>, key: T -> real): (r: seq<T>)
    ensures |r| == |s| + 1
  {
    if s == [] then [x]
    else if key(x) <= key(s[0]) then [x] + s
    else [s[0]] + Insert(x, s[1..], key)
  }

  /** The stable sort: insertion sort, each element put in front of its equals. */
  function SortBy<T>(s: seq<T>, key: T -> real): (r: seq<T>)
    ensures |r| == |s|
  {
    if s == [] then [] else Insert(s[0], SortBy(s[1..], key), key)
  }

  lemma {:induction false} InsertPermutation<T>(x: T, s: seq<T>, key: T -> real)
    ensures multiset(Insert(x, s, key)) == multiset(s) + multiset{x}
  {
    if s != [] && key(s[0]) < key(x) {
      InsertPermutation(x, s[1..], key);
      assert s == [s[0]] + s[1..];
    }
  }

  lemma {:induction false} InsertSorted<T>(x: T, s: seq<T>, key: T -> real)
    requires SortedBy(s, key)
    ensures SortedBy(Insert(x, s, key), key)
  {
    if s != [] && key(s[0]) < key(x) {
      var rest := Insert(x, s[1..], key);
      InsertSorted(x, s[1..], key);
      InsertPermutation(x, s[1..], key);
      forall k | 0 <= k < |rest| ensures key(s[0]) <= key(rest[k]) {
        assert rest[k] in multiset(rest);
        assert rest[k] == x || rest[k] in s[1..];
      }
    }
  }

  /** The sort returns a permutation of its input. */
  lemma {:induction false} SortByPermutation<T>(s: seq<T>, key: T -> real)
    ensures multiset(SortBy(s, key)) == multiset(s)
  {
    if s != [] {
      SortByPermutation(s[1..], key);
      InsertPermutation(s[0], SortBy(s[1..], key), key);
      assert s == [s[0]] + s[1..];
    }
  }

  /** The sort returns its input in ascending order of `key`. */
  lemma {:induction false} SortBySorted<T>(s: seq<T>, key: T -> real)
    ensures SortedBy(SortBy(s, key), key)
  {
    if s != [] {
      SortBySorted(s[1..], key);
      InsertSorted(s[0], SortBy(s[1..], key), key);
    }
  }

  lemma FilterCons<T>(x: T, xs: seq<T>, p: T -> bool)
    ensures Filter([x] + xs, p) == (if p(x) then [x] else []) + Filter(xs, p)
  {
    assert ([x] + xs)[1..] == xs;
  }

  lemma {:induction false} InsertFilterClass<T>(x: T, s: seq<T>, key: T -> real, v: real)
    ensures Filter(Insert(x, s, key), KeyIs(key, v))
         == (if key(x) == v then [x] else []) + Filter(s, KeyIs(key, v))
  {
    var c := KeyIs(key, v);
    if s != [] && key(s[0]) < key(x) {
      var rest := Insert(x, s[1..], key);
      assert Insert(x, s, key) == [s[0]] + rest;
      InsertFilterClass(x, s[1..], key, v);
      FilterCons(s[0], rest, c);
      assert s == [s[0]] + s[1..];
      FilterCons(s[0], s[1..], c);
      if c(x) {
        assert !c(s[0]);
      } else if c(s[0]) {
        assert Filter(rest, c) == Filter(s[1..], c);
      }
    } else {
      FilterCons(x, s, c);
    }
  }

  /** Stability: the elements with any one key keep their input order. */
  lemma {:induction false} SortByStable<T>(s: seq<T>, key: T -> real, v: real)
    ensures Filter(SortBy(s, key), KeyIs(key, v)) == Filter(s, KeyIs(key, v))
  {
    if s != [] {
      SortByStable(s[1..], key, v);
      InsertFilterClass(s[0], SortBy(s[1..], key), key, v);
    }
  }

  // ---------------------------------------------------------------------------
  // Order and permutations

  /** `a` occurs before `b` in `xs`. */
  ghost predicate Before<T>(xs: seq<T>, a: T, b: T) {
    exists i, j :: 0 <= i < j < |xs| && xs[i] == a && xs[j] == b
  }

  lemma {:induction false} BeforeInFilter<T>(xs: seq<T>, p: T -> bool, a: T, b: T)
    requires p(a) && p(b) && Before(xs, a, b)
    ensures Before(Filter(xs, p), a, b)
  {
    var i, j :| 0 <= i < j < |xs| && xs[i] == a && xs[j] == b;
    var f := Filter(xs, p);
    if i == 0 {
      assert xs[1..][j - 1] == b;
      FilterContains(xs[1..], p, b);
      var j' :| 0 <= j' < |Filter(xs[1..], p)| && Filter(xs[1..], p)[j'] == b;
      assert f == [a] + Filter(xs[1..], p);
      assert f[0] == a && f[j' + 1] == b;
    } else {
      assert xs[1..][i - 1] == a && xs[1..][j - 1] == b;
      BeforeInFilter(xs[1..], p, a, b);
      var fr := Filter(xs[1..], p);
      var i', j' :| 0 <= i' < j' < |fr| && fr[i'] == a && fr[j'] == b;
      var h := if p(xs[0]) then [xs[0]] else [];
      assert f == h + fr;
      assert f[|h| + i'] == a && f[|h| + j'] == b;
    }
  }

  lemma BeforeFromFilter<T>(xs: seq<T>, p: T -> bool, a: T, b: T)
    requires Before(Filter(xs, p), a, b)
    ensures Before(xs, a, b)
  {
    var f := Filter(xs, p);
    var i, j :| 0 <= i < j < |f| && f[i] == a && f[j] == b;
    FilterEmbedding(xs, p);
    var idx := FilterIndices(xs, p);
    assert xs[idx[i]] == a && xs[idx[j]] == b && idx[i] < idx[j];
  }

  /** A stable sort keeps two elements with equal keys in the order they had before. */
  lemma StableTie<T>(s: seq<T>, key: T -> real, a: T, b: T)
    requires Before(SortBy(s, key), a, b) && key(a) == key(b)
    ensures Before(s, a, b)
  {
    BeforeInFilter(SortBy(s, key), KeyIs(key, key(a)), a, b);
    SortByStable(s, key, key(a));
    BeforeFromFilter(s, KeyIs(key, key(a)), a, b);
  }

  /** An image of an element of `xs` is an image of an element of any permutation of `xs`. */
  lemma PermutationKeepsImage<T, K>(xs: seq<T>, ys: seq<T>, f: T -> K, j: nat)
    requires multiset(ys) == multiset(xs) && j < |xs|
    ensures exists i :: 0 <= i < |ys| && f(ys[i]) == f(xs[j])
  {
    assert xs[j] in multiset(ys);
    var i :| 0 <= i < |ys| && ys[i] == xs[j];
  }

  /** Pairwise different images stay pairwise different in any permutation. */
  lemma PermutationKeepsImagesDistinct<T, K>(xs: seq<T>, ys: seq<T>, f: T -> K)
    requires multiset(ys) == multiset(xs)
    requires forall a, b :: 0 <= a < b < |xs| ==> f(xs[a]) != f(xs[b])
    ensures forall i, j :: 0 <= i < j < |ys| ==> f(ys[i]) != f(ys[j])
  {
    assert Distinct(xs);
    DistinctPermutation(xs, ys);
    forall i, j | 0 <= i < j < |ys| ensures f(ys[i]) != f(ys[j]) {
      assert ys[i] in multiset(xs) && ys[j] in multiset(xs);
      var a :| 0 <= a < |xs| && xs[a] == ys[i];
      var b :| 0 <= b < |xs| && xs[b] == ys[j];
      assert a != b;
    }
  }

  // ---------------------------------------------------------------------------
  // Facts about distinctness and multisets

  lemma {:induction false} DistinctMultiset<T>(xs: seq<T>)
    ensures Distinct(xs) <==> forall x :: multiset(xs)[x] <= 1
  {
    if Distinct(xs) {
      DistinctCountsAtMostOne(xs);
    }
    if forall x :: multiset(xs)[x] <= 1 {
      forall i, j | 0 <= i < j < |xs| ensures xs[i] != xs[j] {
        if xs[i] == xs[j] {
          DistinctPairCounts(xs, i, j);
        }
      }
    }
  }

  lemma {:induction false} DistinctCountsAtMostOne<T>(xs: seq<T>)
    requires Distinct(xs)
    ensures forall x :: multiset(xs)[x] <= 1
  {
    if xs != [] {
      assert xs == [xs[0]] + xs[1..];
      assert Distinct(xs[1..]) by {
        forall i, j | 0 <= i < j < |xs[1..]| ensures xs[1..][i] != xs[1..][j] {
          assert xs[i + 1] != xs[j + 1];
        }
      }
      DistinctCountsAtMostOne(xs[1..]);
      assert xs[0] !in xs[1..];
    }
  }

  lemma DistinctPairCounts<T>(xs: seq<T>, i: nat, j: nat)
    requires i < j < |xs| && xs[i] == xs[j]
    ensures multiset(xs)[xs[i]] >= 2
  {
    assert xs == xs[..j] + [xs[j]] + xs[j + 1..];
    assert xs[..j][i] == xs[i];
    assert xs[i] in multiset(xs[..j]);
  }

  /** A permutation of a duplicate-free sequence is duplicate-free. */
  lemma DistinctPermutation<T>(xs: seq<T>, ys: seq<T>)
    requires Distinct(xs) && multiset(xs) == multiset(ys)
    ensures Distinct(ys)
  {
    DistinctMultiset(xs);
    DistinctMultiset(ys);
  }

  /** A duplicate-free sequence has as many elements as its set. */
  lemma {:induction false} DistinctCardinality<T>(xs: seq<T>)
    requires Distinct(xs)
    ensures |set x | x in xs| == |xs|
  {
    if xs != [] {
      DistinctCardinality(xs[1..]);
      assert (set x | x in xs) == {xs[0]} + (set x | x in xs[1..]);
      assert xs[0] !in xs[1..];
    }
  }
}
