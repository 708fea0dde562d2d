/** Sequence operations behind the source's `filter`, `count`, `sort`,
    `slice`/`take` and `orderBy` expressions. */
module Seqs {

  /** `s.filter(p)`: the elements satisfying `p`, in their original order. */
  function Filter<T>(s: seq<T>, p: T -> bool): (r: seq<T>)
    ensures |r| <= |s|
    ensures forall i :: 0 <= i < |r| ==> r[i] in s && p(r[i])
    ensures forall i :: 0 <= i < |s| && p(s[i]) ==> s[i] in r
  {
    if s == [] then []
    else if p(s[0]) then [s[0]] + Filter(s[1..], p)
    else Filter(s[1..], p)
  }

  /** Filtering distributes over concatenation, so the filter keeps the
      input order. */
  lemma {:induction false} FilterAppend<T>(a: seq<T>, b: seq<T>, p: T -> bool)
    ensures Filter(a + b, p) == Filter(a, p) + Filter(b, p)
  {
    if a == [] {
      assert a + b == b;
    } else {
      assert (a + b)[1..] == a[1..] + b;
      FilterAppend(a[1..], b, p);
    }
  }

  /** Filters by equivalent conditions agree. */
  lemma {:induction false} FilterCongruent<T>(s: seq<T>, p: T -> bool, q: T -> bool)
    requires forall i :: 0 <= i < |s| ==> p(s[i]) == q(s[i])
    ensures Filter(s, p) == Filter(s, q)
  {
    if s != [] {
      FilterCongruent(s[1..], p, q);
    }
  }

  /** Filtering a one-element sequence. */
  lemma FilterSingle<T>(x: T, p: T -> bool)
    ensures Filter([x], p) == if p(x) then [x] else []
  {
    assert [x][1..] == [];
  }

  /** A filter every element passes keeps the whole sequence. */
  lemma {:induction false} FilterKeepsAll<T>(s: seq<T>, p: T -> bool)
    requires forall i :: 0 <= i < |s| ==> p(s[i])
    ensures Filter(s, p) == s
  {
    if s != [] {
      FilterKeepsAll(s[1..], p);
    }
  }

  /** Filtering out only the appended element gives back the original. */
  lemma FilterDropsLast<T>(s: seq<T>, x: T, p: T -> bool)
    requires forall i :: 0 <= i < |s| ==> p(s[i])
    requires !p(x)
    ensures Filter(s + [x], p) == s
  {
    FilterAppend(s, [x], p);
    FilterSingle(x, p);
    FilterKeepsAll(s, p);
  }

  /** The number of elements satisfying `p` (SQL `COUNT(*) ... WHERE p`). */
  function Count<T>(s: seq<T>, p: T -> bool): (n: nat)
    ensures n <= |s|
    ensures n == 0 <==> forall i :: 0 <= i < |s| ==> !p(s[i])
    ensures n == |s| <==> forall i :: 0 <= i < |s| ==> p(s[i])
  {
    if s == [] then 0
    else (if p(s[0]) then 1 else 0) + Count(s[1..], p)
  }

  /** Counting is filtering and taking the length. */
  lemma {:induction false} CountIsFilterLength<T>(s: seq<T>, p: T -> bool)
    ensures Count(s, p) == |Filter(s, p)|
  {
    if s != [] {
      CountIsFilterLength(s[1..], p);
    }
  }

  /** The elements satisfying `p` and those that do not make up the whole. */
  lemma {:induction false} CountSplit<T>(s: seq<T>, p: T -> bool, q: T -> bool)
    requires forall x :: q(x) <==> !p(x)
    ensures Count(s, p) + Count(s, q) == |s|
  {
    if s != [] {
      CountSplit(s[1..], p, q);
    }
  }

  /** Two conditions that are each other's negation on the elements of `s`
      split it. */
  lemma CountComplement<T>(s: seq<T>, p: T -> bool, q: T -> bool)
    requires forall i :: 0 <= i < |s| ==> q(s[i]) == !p(s[i])
    ensures Count(s, p) + Count(s, q) == |s|
  {
    CountUnion(s, p, q, x => true);
  }

  /** Counting a weaker condition never gives less. */
  lemma {:induction false} CountMonotonic<T>(s: seq<T>, p: T -> bool, q: T -> bool)
    requires forall x :: p(x) ==> q(x)
    ensures Count(s, p) <= Count(s, q)
  {
    if s != [] {
      CountMonotonic(s[1..], p, q);
    }
  }

  /** The elements of a sequence, as a set. */
  function Elements<T>(s: seq<T>): (r: set<T>)
    ensures forall i :: 0 <= i < |s| ==> s[i] in r
    ensures forall x :: x in r ==> x in s
  {
    set x | x in s
  }

  /** Counting by pointwise equivalent conditions gives the same number. */
  lemma {:induction false} CountCongruent<T>(s: seq<T>, p: T -> bool, q: T -> bool)
    requires forall i :: 0 <= i < |s| ==> p(s[i]) == q(s[i])
    ensures Count(s, p) == Count(s, q)
  {
    if s != [] {
      CountCongruent(s[1..], p, q);
    }
  }

  /** Counting a disjoint union adds the counts. */
  lemma {:induction false} CountUnion<T>(s: seq<T>, p: T -> bool, q: T -> bool, r: T -> bool)
    requires forall i :: 0 <= i < |s| ==> r(s[i]) == (p(s[i]) || q(s[i])) && !(p(s[i]) && q(s[i]))
    ensures Count(s, r) == Count(s, p) + Count(s, q)
  {
    if s != [] {
      CountUnion(s[1..], p, q, r);
    }
  }

  /** Counting the elements of either of two distinct classes adds the two
      class counts. */
  lemma CountOfUnion<T, K>(s: seq<T>, cls: T -> K, a: K, b: K, r: T -> bool)
    requires a != b
    requires forall i :: 0 <= i < |s| ==> r(s[i]) == (cls(s[i]) == a || cls(s[i]) == b)
    ensures Count(s, r) == CountOf(s, cls, a) + CountOf(s, cls, b)
  {
    CountUnion(s, x => cls(x) == a, x => cls(x) == b, r);
  }

  /** Sequences with the same multiset have the same elements. */
  lemma SameElements<T>(a: seq<T>, b: seq<T>)
    requires multiset(a) == multiset(b)
    ensures forall x :: x in a <==> x in b
  {
    forall x ensures x in a <==> x in b {
      assert x in a <==> x in multiset(a);
      assert x in b <==> x in multiset(b);
    }
  }

  /** Counting a class among the filtered elements is counting the elements
      that pass the filter and have that class. */
  lemma {:induction false} CountOfFilter<T, K>(s: seq<T>, p: T -> bool, cls: T -> K, k: K, q: T -> bool)
    requires forall i :: 0 <= i < |s| ==> q(s[i]) == (p(s[i]) && cls(s[i]) == k)
    ensures CountOf(Filter(s, p), cls, k) == Count(s, q)
  {
    if s != [] {
      CountOfFilter(s[1..], p, cls, k, q);
      if p(s[0]) {
        var tail := Filter(s[1..], p);
        assert ([s[0]] + tail)[1..] == tail;
      }
    }
  }

  /** A filter that keeps every element of class `k` keeps its count. */
  lemma CountOfFilterKeeps<T, K>(s: seq<T>, p: T -> bool, cls: T -> K, k: K)
    requires forall i :: 0 <= i < |s| && cls(s[i]) == k ==> p(s[i])
    ensures CountOf(Filter(s, p), cls, k) == CountOf(s, cls, k)
  {
    CountOfFilter(s, p, cls, k, x => cls(x) == k);
  }

  /** No element occurs twice. */
  predicate Distinct<K(==)>(ks: seq<K>) {
    forall i, j :: 0 <= i < j < |ks| ==> ks[i] != ks[j]
  }

  /** A sequence has no repeated element exactly when its multiset holds
      each element once. */
  lemma {:induction false} DistinctOnce<T>(s: seq<T>)
    ensures Distinct(s) <==> forall x :: x in multiset(s) ==> multiset(s)[x] == 1
  {
    if s != [] {
      var t := s[1..];
      assert s == [s[0]] + t;
      DistinctOnce(t);
      if Distinct(s) {
        assert Distinct(t) by {
          forall i, j | 0 <= i < j < |t| ensures t[i] != t[j] {
            assert t[i] == s[i + 1] && t[j] == s[j + 1];
          }
        }
      } else {
        var i, j :| 0 <= i < j < |s| && s[i] == s[j];
        if i == 0 {
          assert s[0] in t by { assert t[j - 1] == s[j]; }
          assert multiset(s)[s[0]] >= 2;
        } else {
          assert t[i - 1] == t[j - 1];
          assert !Distinct(t);
          var x :| x in multiset(t) && multiset(t)[x] != 1;
          assert multiset(s)[x] >= multiset(t)[x] >= 2;
        }
      }
    }
  }

  /** Reordering keeps a sequence free of repetitions. */
  lemma DistinctPermuted<T>(a: seq<T>, b: seq<T>)
    requires multiset(a) == multiset(b) && Distinct(b)
    ensures Distinct(a)
  {
    DistinctOnce(a);
    DistinctOnce(b);
  }

  /** The number of elements of class `k`. */
  function CountOf<T, K(==)>(s: seq<T>, cls: T -> K, k: K): (n: nat)
    ensures n <= |s|
  {
    Count(s, x => cls(x) == k)
  }

  /** Two positions of the same class make a class of at least two. */
  lemma {:induction false} CountOfAtTwo<T, K>(s: seq<T>, cls: T -> K, i: nat, j: nat)
    requires i < |s| && j < |s| && i != j && cls(s[i]) == cls(s[j])
    ensures CountOf(s, cls, cls(s[i])) >= 2
  {
    var k := cls(s[i]);
    if i == 0 {
      assert cls(s[1..][j - 1]) == k;
      assert CountOf(s[1..], cls, k) > 0;
    } else if j == 0 {
      assert cls(s[1..][i - 1]) == k;
      assert CountOf(s[1..], cls, k) > 0;
    } else {
      assert cls(s[1..][i - 1]) == k;
      CountOfAtTwo(s[1..], cls, i - 1, j - 1);
    }
  }

  /** The class counts of `s` for the classes `ks`, added up. */
  function SumCounts<T, K(==)>(s: seq<T>, cls: T -> K, ks: seq<K>): nat {
    if ks == [] then 0 else CountOf(s, cls, ks[0]) + SumCounts(s, cls, ks[1..])
  }

  /** For distinct classes, the summed counts count the elements whose class
      is among them. */
  lemma {:induction false} SumCountsIsCountIn<T, K>(s: seq<T>, cls: T -> K, ks: seq<K>)
    requires Distinct(ks)
    ensures SumCounts(s, cls, ks) == Count(s, x => cls(x) in ks)
  {
    if ks == [] {
      CountCongruent(s, x => cls(x) in ks, x => false);
    } else {
      var rest := ks[1..];
      SumCountsIsCountIn(s, cls, rest);
      assert forall i :: 0 <= i < |s| ==> (cls(s[i]) in ks <==> cls(s[i]) == ks[0] || cls(s[i]) in rest);
      assert ks[0] !in rest;
      CountUnion(s, x => cls(x) == ks[0], x => cls(x) in rest, x => cls(x) in ks);
    }
  }

  /** When every element's class is among the distinct classes `ks`, the
      class counts add up to the length: each element is counted once. */
  lemma ClassCountsSum<T, K>(s: seq<T>, cls: T -> K, ks: seq<K>)
    requires Distinct(ks)
    requires forall i :: 0 <= i < |s| ==> cls(s[i]) in ks
    ensures SumCounts(s, cls, ks) == |s|
  {
    SumCountsIsCountIn(s, cls, ks);
  }

  /** The distinct elements of `s`, each once (SQL `GROUP BY` keys). */
  function Dedup<T(==,!new)>(s: seq<T>): (r: seq<T>)
    ensures Distinct(r)
    ensures forall x :: x in r <==> x in s
  {
    if s == [] then []
    else
      var rest := Dedup(s[1..]);
      if s[0] in rest then rest else [s[0]] + rest
  }

  /** The first `n` elements (`slice(0, n)`, SQL `LIMIT n`, `take(n)`). */
  function Take<T>(s: seq<T>, n: nat): (r: seq<T>)
    ensures |r| <= n && |r| <= |s|
    ensures |r| == if |s| <= n then |s| else n
    ensures r == s[..|r|]
  {
    if |s| <= n then s else s[..n]
  }

  /** Ascending order by an integer key. */
  ghost predicate SortedBy<T>(s: seq<T>, key: T -> int) {
    forall i, j :: 0 <= i < j < |s| ==> key(s[i]) <= key(s[j])
  }

  /** The first index at or after `i` whose element's key is not smaller
      than `x`'s (`|s|` when there is none). */
  function InsertionPoint<T>(x: T, s: seq<T>, key: T -> int, i: nat): (p: nat)
    requires i <= |s|
    ensures i <= p <= |s|
    ensures forall k :: i <= k < p ==> key(s[k]) < key(x)
    ensures p == |s| || key(x) <= key(s[p])
    decreases |s| - i
  {
    if i == |s| || key(x) <= key(s[i]) then i else InsertionPoint(x, s, key, i + 1)
  }

  /** Inserts `x` into a sequence sorted by `key`, before the first element
      whose key is not smaller (so equal keys keep their order). */
  function Insert<T>(x: T, s: seq<T>, key: T -> int): (r: seq<T>)
    requires SortedBy(s, key)
    ensures SortedBy(r, key)
    ensures multiset(r) == multiset(s) + multiset{x}
    ensures |r| == |s| + 1
  {
    var p := InsertionPoint(x, s, key, 0);
    InsertAtSorted(x, s, key, p);
    assert s == s[..p] + s[p..];
    s[..p] + [x] + s[p..]
  }

  /** Placing `x` after the smaller keys and before the rest keeps a sorted
      sequence sorted. */
  lemma InsertAtSorted<T>(x: T, s: seq<T>, key: T -> int, p: nat)
    requires SortedBy(s, key) && p <= |s|
    requires forall k :: 0 <= k < p ==> key(s[k]) < key(x)
    requires p == |s| || key(x) <= key(s[p])
    ensures SortedBy(s[..p] + [x] + s[p..], key)
  {
    var r := s[..p] + [x] + s[p..];
    assert forall i :: 0 <= i < |r| ==> r[i] == if i < p then s[i] else if i == p then x else s[i - 1];
    forall i, j | 0 <= i < j < |r| ensures key(r[i]) <= key(r[j]) {
      if p < j {
        assert key(x) <= key(s[p]) <= key(s[j - 1]);
      }
    }
  }

  /** A stable insertion sort by `key`, ascending: JavaScript
      `sort((a, b) => key(a) - key(b))`, SQL `ORDER BY key`. */
  function SortBy<T>(s: seq<T>, key: T -> int): (r: seq<T>)
    ensures SortedBy(r, key)
    ensures multiset(r) == multiset(s)
    ensures |r| == |s|
  {
    if s == [] then []
    else
      assert s == [s[0]] + s[1..];
      Insert(s[0], SortBy(s[1..], key), key)
  }

  /** Taking the first `n` elements of a sorted sequence keeps an element or
      keeps `n` elements whose keys are no larger than its key. */
  lemma TakeSortedKeepsLeast<T>(s: seq<T>, key: T -> int, n: nat, x: T)
    requires SortedBy(s, key) && x in s
    ensures x in Take(s, n) || (|Take(s, n)| == n && forall j :: 0 <= j < n ==> key(Take(s, n)[j]) <= key(x))
  {
    var k :| 0 <= k < |s| && s[k] == x;
    if k < n {
      assert Take(s, n)[k] == x;
    }
  }

  /** The prefix of a sorted sequence leaves out only elements no smaller
      than everything it keeps, and then it is full. */
  lemma TakeSortedLeavesLargest<T>(s: seq<T>, key: T -> int, n: nat)
    requires SortedBy(s, key)
    ensures forall x :: x in s && x !in Take(s, n) ==>
      |Take(s, n)| == n && forall j :: 0 <= j < n ==> key(Take(s, n)[j]) <= key(x)
  {
    forall x | x in s && x !in Take(s, n)
      ensures |Take(s, n)| == n && forall j :: 0 <= j < n ==> key(Take(s, n)[j]) <= key(x)
    {
      TakeSortedKeepsLeast(s, key, n, x);
    }
  }

  /** A class that occurs among the kept elements is the class of some
      element of the whole that passes the filter. */
  lemma KeyWitness<T, K>(s: seq<T>, p: T -> bool, cls: T -> K, k: K)
    requires CountOf(Filter(s, p), cls, k) > 0
    ensures exists x :: x in s && p(x) && cls(x) == k
  {
    var f := Filter(s, p);
    var i :| 0 <= i < |f| && cls(f[i]) == k;
    assert f[i] in s && p(f[i]);
  }

  /** A prefix of a sorted sequence is sorted, and its elements are
      elements of the whole. */
  lemma TakeSorted<T>(s: seq<T>, key: T -> int, n: nat)
    requires SortedBy(s, key)
    ensures SortedBy(Take(s, n), key)
    ensures forall x :: x in Take(s, n) ==> x in s
  {
  }

  /** The first `n` elements are part of the whole, counted with
      multiplicity. */
  lemma TakeSubMultiset<T>(s: seq<T>, n: nat)
    ensures multiset(Take(s, n)) <= multiset(s)
  {
    var t := Take(s, n);
    assert s == t + s[|t|..];
  }

  /** In a sorted sequence cut at `k`, every element of the head has a key no
      larger than every element of the tail. */
  lemma SortedCut<T>(s: seq<T>, key: T -> int, k: nat)
    requires SortedBy(s, key) && k <= |s|
    ensures forall i, j :: 0 <= i < k <= j < |s| ==> key(s[i]) <= key(s[j])
  {
  }
}
