/**
  * Sequence facts shared by the history list and the dashboard: order-preserving
  * subsequences, occurrence counts, and the stable descending sort that
  * `Array.prototype.sort((a, b) => key(b) - key(a))` performs.
  */
module Seqs {
  import opened Wrappers

  /** `s.findIndex(p)` as an option: the first index whose element passes `p`. */
  function FindIndex<T>(s: seq<T>, p: T -> bool): (r: Option<nat>)
    ensures r.Some? ==> r.value < |s| && p(s[r.value])
    ensures r.Some? ==> forall j :: 0 <= j < r.value ==> !p(s[j])
    ensures r.None? ==> forall j :: 0 <= j < |s| ==> !p(s[j])
  {
    if s == [] then None
    else if p(s[0]) then Some(0)
    else
      match FindIndex(s[1..], p)
      case None => None
      case Some(i) => Some(i + 1)
  }

  /** `a` is `b` with some elements left out, the rest in their original order. */
  predicate IsSubseq<T(==)>(a: seq<T>, b: seq<T>)
    decreases |b|
  {
    if a == [] then true
    else if b == [] then false
    else if a[0] == b[0] then IsSubseq(a[1..], b[1..])
    else IsSubseq(a, b[1..])
  }

  /** A subsequence only holds elements of the sequence it was taken from. */
  lemma {:induction false} SubseqElements<T>(a: seq<T>, b: seq<T>)
    requires IsSubseq(a, b)
    ensures |a| <= |b|
    ensures forall x :: x in a ==> x in b
    decreases |b|
  {
    if a != [] {
      if a[0] == b[0] {
        SubseqElements(a[1..], b[1..]);
        assert forall x :: x in a ==> x == a[0] || x in a[1..];
      } else {
        SubseqElements(a, b[1..]);
      }
    }
  }

  /** `s.filter(p)`: the elements that pass `p`, in their original order. */
  function Filter<T>(s: seq<T>, p: T -> bool): (r: seq<T>)
    ensures |r| <= |s|
  {
    if s == [] then []
    else if p(s[0]) then [s[0]] + Filter(s[1..], p)
    else Filter(s[1..], p)
  }

  /** `Filter` keeps each passing element as often as it occurs, drops the others, and keeps the order. */
  lemma {:induction false} FilterSpec<T(!new)>(s: seq<T>, p: T -> bool)
    ensures IsSubseq(Filter(s, p), s)
    ensures forall x :: multiset(Filter(s, p))[x] == if p(x) then multiset(s)[x] else 0
  {
    if s != [] {
      FilterSpec(s[1..], p);
      assert s == [s[0]] + s[1..];
      var rest := Filter(s[1..], p);
      if p(s[0]) {
        assert ([s[0]] + rest)[1..] == rest;
      }
    }
  }

  /** Filtering keeps a sequence whose elements all pass. */
  lemma {:induction false} FilterKeepsAll<T>(s: seq<T>, p: T -> bool)
    requires forall i :: 0 <= i < |s| ==> p(s[i])
    ensures Filter(s, p) == s
  {
    if s != [] {
      FilterKeepsAll(s[1..], p);
    }
  }

  /** `Filter` on a sequence with a known first element. */
  lemma FilterCons<T>(x: T, s: seq<T>, p: T -> bool)
    ensures Filter([x] + s, p) == if p(x) then [x] + Filter(s, p) else Filter(s, p)
  {
    assert ([x] + s)[1..] == s;
  }

  lemma ConsAppend<T>(x: T, s: seq<T>, t: seq<T>)
    ensures [x] + (s + t) == ([x] + s) + t
  {
  }

  /** Filtering a concatenation filters each part. */
  lemma {:induction false} FilterAppend<T>(a: seq<T>, b: seq<T>, p: T -> bool)
    ensures Filter(a + b, p) == Filter(a, p) + Filter(b, p)
  {
    if a == [] {
      assert a + b == b;
    } else {
      var x, rest := a[0], a[1..];
      assert a == [x] + rest;
      FilterAppend(rest, b, p);
      ConsAppend(x, rest, b);
      FilterCons(x, rest + b, p);
      FilterCons(x, rest, p);
      ConsAppend(x, Filter(rest, p), Filter(b, p));
    }
  }

  /** Two tests that agree on every element filter a sequence the same way. */
  lemma {:induction false} FilterSameTest<T>(s: seq<T>, p: T -> bool, q: T -> bool)
    requires forall i :: 0 <= i < |s| ==> p(s[i]) == q(s[i])
    ensures Filter(s, p) == Filter(s, q)
  {
    if s != [] {
      FilterSameTest(s[1..], p, q);
    }
  }

  /** Filtering twice by the same test is filtering once. */
  lemma FilterIdempotent<T(!new)>(s: seq<T>, p: T -> bool)
    ensures Filter(Filter(s, p), p) == Filter(s, p)
  {
    var r := Filter(s, p);
    FilterSpec(s, p);
    forall i | 0 <= i < |r|
      ensures p(r[i])
    {
      assert multiset(r)[r[i]] > 0;
    }
    FilterKeepsAll(r, p);
  }

  /** Every sequence is a subsequence of itself. */
  lemma {:induction false} SubseqRefl<T>(a: seq<T>)
    ensures IsSubseq(a, a)
  {
    if a != [] {
      SubseqRefl(a[1..]);
    }
  }

  /** How many times `x` occurs in `s`. */
  function Count<T(==)>(s: seq<T>, x: T): (n: nat)
    ensures n <= |s|
    ensures n == multiset(s)[x]
  {
    if s == [] then 0
    else
      assert s == [s[0]] + s[1..];
      (if s[0] == x then 1 else 0) + Count(s[1..], x)
  }

  /** Adjacent elements never increase in `key`. */
  predicate NonIncreasing<T>(s: seq<T>, key: T -> int) {
    forall i :: 0 < i < |s| ==> key(s[i - 1]) >= key(s[i])
  }

  /** In a non-increasing sequence every later element is no larger than an earlier one. */
  lemma {:induction false} NonIncreasingAt<T>(s: seq<T>, key: T -> int, i: nat, j: nat)
    requires NonIncreasing(s, key)
    requires i <= j < |s|
    ensures key(s[i]) >= key(s[j])
    decreases j - i
  {
    if i < j {
      NonIncreasingAt(s, key, i + 1, j);
    }
  }

  /** Puts `x` in front of the first element whose key is no larger than its own. */
  function Insert<T>(x: T, s: seq<T>, key: T -> int): (r: seq<T>)
    ensures |r| == |s| + 1
    ensures multiset(r) == multiset(s) + multiset{x}
    ensures r[0] == x || (s != [] && r[0] == s[0])
  {
    if s == [] || key(s[0]) <= key(x) then [x] + s
    else
      assert s == [s[0]] + s[1..];
      [s[0]] + Insert(x, s[1..], key)
  }

  /** Inserting into a sorted sequence keeps it sorted. */
  lemma {:induction false} InsertSorted<T>(x: T, s: seq<T>, key: T -> int)
    requires NonIncreasing(s, key)
    ensures NonIncreasing(Insert(x, s, key), key)
  {
    if s != [] && key(s[0]) > key(x) {
      assert NonIncreasing(s[1..], key);
      InsertSorted(x, s[1..], key);
    }
  }

  /**
    * Insertion sort into non-increasing key order. An element taken earlier goes
    * in front of later ones with the same key, so the sort is stable like the
    * JavaScript one (`SortStable`).
    */
  function SortDescending<T>(s: seq<T>, key: T -> int): (r: seq<T>)
    ensures multiset(r) == multiset(s)
    ensures NonIncreasing(r, key)
  {
    if s == [] then []
    else
      assert s == [s[0]] + s[1..];
      InsertSorted(s[0], SortDescending(s[1..], key), key);
      Insert(s[0], SortDescending(s[1..], key), key)
  }

  /** The test "has key `v`". */
  function HasKey<T>(key: T -> int, v: int): T -> bool {
    x => key(x) == v
  }

  /** Inserting `x` puts it in front of the elements with its key and keeps their order. */
  lemma {:induction false} InsertStable<T>(x: T, s: seq<T>, key: T -> int, v: int)
    ensures Filter(Insert(x, s, key), HasKey(key, v)) == (if key(x) == v then [x] else []) + Filter(s, HasKey(key, v))
  {
    var p := HasKey(key, v);
    if s == [] || key(s[0]) <= key(x) {
      FilterCons(x, s, p);
    } else {
      assert s == [s[0]] + s[1..];
      InsertStable(x, s[1..], key, v);
      FilterCons(s[0], Insert(x, s[1..], key), p);
      FilterCons(s[0], s[1..], p);
    }
  }

  /** The sort is stable: the elements that share a key keep their relative order. */
  lemma {:induction false} SortStable<T>(s: seq<T>, key: T -> int, v: int)
    ensures Filter(SortDescending(s, key), HasKey(key, v)) == Filter(s, HasKey(key, v))
  {
    if s != [] {
      assert s == [s[0]] + s[1..];
      SortStable(s[1..], key, v);
      InsertStable(s[0], SortDescending(s[1..], key), key, v);
      FilterCons(s[0], s[1..], HasKey(key, v));
    }
  }

  /** The sum of `f` over the elements. */
  function SumBy<T>(s: seq<T>, f: T -> int): int {
    if s == [] then 0 else f(s[0]) + SumBy(s[1..], f)
  }

  lemma {:induction false} SumByAppend<T>(a: seq<T>, b: seq<T>, f: T -> int)
    ensures SumBy(a + b, f) == SumBy(a, f) + SumBy(b, f)
  {
    if a == [] {
      assert a + b == b;
    } else {
      SumByAppend(a[1..], b, f);
      assert (a + b)[1..] == a[1..] + b;
    }
  }

  /** Sums of equal terms, position by position, are equal. */
  lemma {:induction false} SumByPointwise<A, B>(a: seq<A>, f: A -> int, b: seq<B>, g: B -> int)
    requires |a| == |b|
    requires forall j :: 0 <= j < |a| ==> f(a[j]) == g(b[j])
    ensures SumBy(a, f) == SumBy(b, g)
  {
    if a != [] {
      SumByPointwise(a[1..], f, b[1..], g);
    }
  }

  lemma {:induction false} InsertSum<T>(x: T, s: seq<T>, key: T -> int)
    ensures SumBy(Insert(x, s, key), key) == key(x) + SumBy(s, key)
  {
    if s == [] || key(s[0]) <= key(x) {
      assert ([x] + s)[1..] == s;
    } else {
      InsertSum(x, s[1..], key);
      var rest := Insert(x, s[1..], key);
      assert ([s[0]] + rest)[1..] == rest;
    }
  }

  /** Sorting keeps the sum of the keys. */
  lemma {:induction false} SortSum<T>(s: seq<T>, key: T -> int)
    ensures SumBy(SortDescending(s, key), key) == SumBy(s, key)
  {
    if s != [] {
      SortSum(s[1..], key);
      InsertSum(s[0], SortDescending(s[1..], key), key);
    }
  }

  /** No two elements of `s` have the same `proj`. */
  predicate DistinctBy<T, K(==)>(s: seq<T>, proj: T -> K) {
    forall i, j :: 0 <= i < j < |s| ==> proj(s[i]) != proj(s[j])
  }

  lemma {:induction false} InsertDistinctBy<T, K>(x: T, s: seq<T>, key: T -> int, proj: T -> K)
    requires DistinctBy(s, proj)
    requires forall y :: y in s ==> proj(y) != proj(x)
    ensures DistinctBy(Insert(x, s, key), proj)
  {
    if !(s == [] || key(s[0]) <= key(x)) {
      InsertDistinctBy(x, s[1..], key, proj);
      var rest := Insert(x, s[1..], key);
      forall y | y in rest
        ensures proj(y) != proj(s[0])
      {
        assert y in multiset(rest);
        assert y == x || y in s[1..];
      }
    }
  }

  /** Sorting keeps keys that were distinct distinct. */
  lemma {:induction false} SortDistinctBy<T, K>(s: seq<T>, key: T -> int, proj: T -> K)
    requires DistinctBy(s, proj)
    ensures DistinctBy(SortDescending(s, key), proj)
  {
    if s != [] {
      SortDistinctBy(s[1..], key, proj);
      var sorted := SortDescending(s[1..], key);
      forall y | y in sorted
        ensures proj(y) != proj(s[0])
      {
        assert y in multiset(sorted);
        assert y in s[1..];
      }
      InsertDistinctBy(s[0], sorted, key, proj);
    }
  }
}
