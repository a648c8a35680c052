/**
 A stable sort by a key, of a list or of the indices 0 .. n - 1: what the programs obtain from their
 library's sort. Equal keys keep the order of their elements.
 */
module Ordering {
  import opened Sums

  /** Puts x behind every element whose key is not larger. */
  function Insert<T>(order: seq<T>, x: T, key: T -> real): seq<T> {
    if order == [] then [x]
    else if key(order[0]) <= key(x) then [order[0]] + Insert(order[1..], x, key)
    else [x] + order
  }

  function Sort(n: nat, key: nat -> real): seq<nat> {
    if n == 0 then [] else Insert<nat>(Sort(n - 1, key), n - 1, key)
  }

  function SortBy<T>(s: seq<T>, key: T -> real): seq<T> {
    if s == [] then [] else Insert(SortBy(s[..|s| - 1], key), s[|s| - 1], key)
  }

  ghost predicate Increasing<T>(order: seq<T>, key: T -> real) {
    forall a, b | 0 <= a < b < |order| :: key(order[a]) <= key(order[b])
  }

  /** Each index below n occurs at exactly one place. */
  ghost predicate Permutation(n: nat, order: seq<nat>) {
    && |order| == n
    && (forall k | 0 <= k < n :: order[k] < n)
    && (forall a, b | 0 <= a < b < n :: order[a] != order[b])
    && (forall i | 0 <= i < n :: i in order)
  }

  /** The place where Insert puts its element: the result is the order with it spliced in there. */
  lemma {:induction false} Splice<T>(order: seq<T>, i: T, key: T -> real) returns (p: nat)
    requires Increasing(order, key)
    ensures p <= |order|
    ensures Insert(order, i, key) == order[..p] + [i] + order[p..]
    ensures forall k | 0 <= k < p :: key(order[k]) <= key(i)
    ensures forall k | p <= k < |order| :: key(i) < key(order[k])
  {
    if order == [] || key(i) < key(order[0]) {
      p := 0;
    } else {
      var rest := Splice(order[1..], i, key);
      p := rest + 1;
      assert order[1..][..rest] == order[1..p];
      assert order[1..][rest..] == order[p..];
      forall k | p <= k < |order| ensures key(i) < key(order[k]) {
        assert order[k] == order[1..][k - 1];
      }
      forall k | 0 <= k < p ensures key(order[k]) <= key(i) {
        assert k > 0 ==> order[k] == order[1..][k - 1];
      }
    }
  }

  lemma {:induction false} Sorted(n: nat, key: nat -> real)
    ensures Permutation(n, Sort(n, key)) && Increasing<nat>(Sort(n, key), key)
  {
    if n > 0 {
      Sorted(n - 1, key);
      SortedNext(n, key, Sort(n - 1, key), Sort(n, key));
    }
  }

  lemma SortedNext(n: nat, key: nat -> real, before: seq<nat>, order: seq<nat>)
    requires n > 0 && order == Insert<nat>(before, n - 1, key)
    requires Permutation(n - 1, before) && Increasing<nat>(before, key)
    ensures Permutation(n, order) && Increasing<nat>(order, key)
  {
    hide Insert, Increasing;
    var p := Splice<nat>(before, n - 1, key);
    hide Permutation;
    PermutationSplice(n - 1, before, p);
    IncreasingSplice<nat>(before, p, n - 1, key);
  }

  lemma PermutationSplice(n: nat, order: seq<nat>, p: nat)
    requires Permutation(n, order) && p <= n
    ensures Permutation(n + 1, order[..p] + [n] + order[p..])
  {
    var next := order[..p] + [n] + order[p..];
    forall k | 0 <= k < n + 1 ensures next[k] < n + 1 {
      SpliceAt(order, p, n, k);
    }
    forall a, b | 0 <= a < b < n + 1 ensures next[a] != next[b] {
      SpliceAt(order, p, n, a);
      SpliceAt(order, p, n, b);
    }
    forall i | 0 <= i < n + 1 ensures i in next {
      assert order == order[..p] + order[p..];
      assert i == n || i in order;
    }
  }

  lemma SpliceAt<T>(order: seq<T>, p: nat, i: T, k: nat)
    requires p <= |order| && k <= |order|
    ensures (order[..p] + [i] + order[p..])[k] == if k < p then order[k] else if k == p then i else order[k - 1]
  {
  }

  lemma IncreasingSplice<T>(order: seq<T>, p: nat, i: T, key: T -> real)
    requires Increasing(order, key) && p <= |order|
    requires forall k | 0 <= k < p :: key(order[k]) <= key(i)
    requires forall k | p <= k < |order| :: key(i) < key(order[k])
    ensures Increasing(order[..p] + [i] + order[p..], key)
  {
    var next := order[..p] + [i] + order[p..];
    forall a, b | 0 <= a < b < |next| ensures key(next[a]) <= key(next[b]) {
      SpliceAt(order, p, i, a);
      SpliceAt(order, p, i, b);
    }
  }

  /** A sum over the places of an order. */
  ghost function Along(order: seq<nat>, f: int -> real): (g: int -> real)
    ensures forall k {:trigger g(k)} :: g(k) == if 0 <= k < |order| then f(order[k]) else 0.0
  {
    k => if 0 <= k < |order| then f(order[k]) else 0.0
  }

  /** Summing in sorted order is summing. */
  lemma {:induction false} SumAlong(n: nat, key: nat -> real, f: int -> real)
    ensures |Sort(n, key)| == n
    ensures Sum(n, Along(Sort(n, key), f)) == Sum(n, f)
  {
    Sorted(n, key);
    if n > 0 {
      SumAlong(n - 1, key, f);
      Sorted(n - 1, key);
      SumInsert(n, key, Sort(n - 1, key), Sort(n, key), f);
    }
  }

  lemma SumInsert(n: nat, key: nat -> real, before: seq<nat>, order: seq<nat>, f: int -> real)
    requires n > 0 && order == Insert<nat>(before, n - 1, key) && |before| == n - 1
    requires Increasing<nat>(before, key) && Sum(n - 1, Along(before, f)) == Sum(n - 1, f)
    ensures |order| == n && Sum(n, Along(order, f)) == Sum(n, f)
  {
    hide Insert, Increasing, Sum, Along;
    var p := Splice<nat>(before, n - 1, key);
    SumSplice(before, order, p, n - 1, f);
    SumNext(n - 1, f);
  }

  lemma {:induction false} SumSplice(before: seq<nat>, order: seq<nat>, p: nat, i: nat, f: int -> real)
    requires p <= |before| && order == before[..p] + [i] + before[p..]
    ensures Sum(|order|, Along(order, f)) == Sum(|before|, Along(before, f)) + f(i)
  {
    hide Sum;
    var m := |before| - p;
    var g, h := Along(before, f), Along(order, f);
    forall k | 0 <= k < |order|
      ensures h(k) == if k < p then g(k) else if k == p then f(i) else g(k - 1)
    {
      SpliceAt(before, p, i, k);
    }
    SumSplit(p, m, g);
    SumSplit(p + 1, m, h);
    SumNext(p, h);
    SumEq(p, g, h);
    SumEq(m, k => g(p + k), k => h(p + 1 + k));
  }

  lemma SortNext<T>(s: seq<T>, key: T -> real)
    requires s != []
    ensures SortBy(s, key) == Insert(SortBy(s[..|s| - 1], key), s[|s| - 1], key)
  {
  }

  lemma NothingSorted<T>(s: seq<T>, key: T -> real)
    requires s == []
    ensures SortBy(s, key) == [] && Increasing(SortBy(s, key), key)
  {
  }

  lemma LastApart<T>(s: seq<T>)
    requires s != []
    ensures multiset(s) == multiset(s[..|s| - 1]) + multiset{s[|s| - 1]}
  {
    assert s == s[..|s| - 1] + [s[|s| - 1]];
  }

  lemma SortedOne<T>(s: seq<T>, key: T -> real)
    requires s != []
    requires var before := SortBy(s[..|s| - 1], key);
             multiset(before) == multiset(s[..|s| - 1]) && |before| == |s| - 1 && Increasing(before, key)
    ensures multiset(SortBy(s, key)) == multiset(s) && |SortBy(s, key)| == |s| && Increasing(SortBy(s, key), key)
  {
    hide Increasing, Insert, SortBy;
    SortNext(s, key);
    InsertSorts(SortBy(s[..|s| - 1], key), s[|s| - 1], key);
    LastApart(s);
  }

  lemma InsertSorts<T>(order: seq<T>, x: T, key: T -> real)
    requires Increasing(order, key)
    ensures Increasing(Insert(order, x, key), key) && |Insert(order, x, key)| == |order| + 1
    ensures multiset(Insert(order, x, key)) == multiset(order) + multiset{x}
  {
    hide Increasing, Insert;
    var p := Splice(order, x, key);
    IncreasingSplice(order, p, x, key);
    MultisetSplice(order, p, x);
  }

  /** A sorted list is the same list, rearranged. */
  lemma {:induction false} SortedBy<T>(s: seq<T>, key: T -> real)
    ensures multiset(SortBy(s, key)) == multiset(s) && |SortBy(s, key)| == |s| && Increasing(SortBy(s, key), key)
  {
    if s == [] {
      NothingSorted(s, key);
    } else {
      hide Increasing, SortBy;
      SortedBy(s[..|s| - 1], key);
      SortedOne(s, key);
    }
  }

  lemma MultisetSplice<T>(order: seq<T>, p: nat, x: T)
    requires p <= |order|
    ensures multiset(order[..p] + [x] + order[p..]) == multiset(order) + multiset{x}
  {
    assert order == order[..p] + order[p..];
  }

  /** Equal multisets have the same elements, and one of them repeats nothing if the other does not. */
  lemma {:induction false} Rearranged<T>(s: seq<T>, t: seq<T>)
    requires multiset(s) == multiset(t)
    ensures forall x :: x in s <==> x in t
    ensures Distinct(s) <==> Distinct(t)
  {
    forall x ensures x in s <==> x in t {
      assert x in s <==> x in multiset(s);
      assert x in t <==> x in multiset(t);
    }
    DistinctCounts(s);
    DistinctCounts(t);
  }

  ghost predicate Distinct<T>(s: seq<T>) {
    forall i, j | 0 <= i < j < |s| :: s[i] != s[j]
  }

  lemma {:induction false} DistinctCounts<T>(s: seq<T>)
    ensures Distinct(s) <==> forall x :: multiset(s)[x] <= 1
  {
    if s != [] {
      var init, last := s[..|s| - 1], s[|s| - 1];
      DistinctCounts(init);
      assert s == init + [last];
      assert multiset(s) == multiset(init) + multiset{last};
      assert last in init <==> multiset(init)[last] > 0;
      assert Distinct(s) <==> Distinct(init) && last !in init by {
        DistinctLast(init, last);
      }
      assert (forall x :: multiset(s)[x] <= 1) ==> (forall x :: multiset(init)[x] <= 1) && last !in init by {
        assert forall x :: multiset(init)[x] <= multiset(s)[x];
        assert multiset(s)[last] == multiset(init)[last] + 1;
      }
    }
  }

  lemma DistinctLast<T>(init: seq<T>, last: T)
    ensures Distinct(init + [last]) <==> Distinct(init) && last !in init
  {
    var s := init + [last];
    assert forall i | 0 <= i < |init| :: s[i] == init[i];
    assert s[|init|] == last;
    if Distinct(s) {
      assert forall i | 0 <= i < |init| :: s[i] != s[|init|];
    }
  }
}
