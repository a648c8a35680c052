/**
 Lists filtered by a test, and dictionaries of lists that are filled one element at a time and keep
 their keys in order of first use.
 */
module Grouping {
  import opened Ordering

  /** The elements that pass the test, in order. */
  function Filter<T>(s: seq<T>, test: T -> bool): seq<T> {
    if s == [] then []
    else
      var last := s[|s| - 1];
      Filter(s[..|s| - 1], test) + if test(last) then [last] else []
  }

  lemma FilterAppend<T>(s: seq<T>, x: T, test: T -> bool)
    ensures Filter(s + [x], test) == Filter(s, test) + if test(x) then [x] else []
  {
    assert (s + [x])[..|s|] == s;
  }

  /** Filtering twice is filtering by both tests. */
  lemma {:induction false} FilterTwice<T(!new)>(s: seq<T>, f: T -> bool, g: T -> bool, both: T -> bool)
    requires forall x :: both(x) <==> f(x) && g(x)
    ensures Filter(Filter(s, f), g) == Filter(s, both)
  {
    if s != [] {
      var init, last := s[..|s| - 1], s[|s| - 1];
      FilterTwice(init, f, g, both);
      if f(last) {
        FilterAppend(Filter(init, f), last, g);
      } else {
        assert Filter(s, f) == Filter(init, f);
      }
    }
  }

  lemma {:induction false} FilterCounts<T>(s: seq<T>, test: T -> bool)
    ensures forall x :: multiset(Filter(s, test))[x] == if test(x) then multiset(s)[x] else 0
  {
    if s != [] {
      var init, last := s[..|s| - 1], s[|s| - 1];
      FilterCounts(init, test);
      assert s == init + [last];
    }
  }

  lemma FilterMembers<T>(s: seq<T>, test: T -> bool)
    ensures forall x :: x in Filter(s, test) <==> x in s && test(x)
  {
    hide Filter;
    FilterCounts(s, test);
    forall x ensures x in Filter(s, test) <==> x in s && test(x) {
      assert x in s <==> multiset(s)[x] > 0;
      assert x in Filter(s, test) <==> multiset(Filter(s, test))[x] > 0;
    }
  }

  lemma {:induction false} FilterConcat<T>(s: seq<T>, t: seq<T>, test: T -> bool)
    ensures Filter(s + t, test) == Filter(s, test) + Filter(t, test)
  {
    if t == [] {
      assert s + t == s;
    } else {
      var init, last := t[..|t| - 1], t[|t| - 1];
      FilterConcat(s, init, test);
      assert s + t == (s + init) + [last];
      FilterAppend(s + init, last, test);
    }
  }

  /** An element of a list, and what is left without it. */
  lemma TakeOut<T>(s: seq<T>, x: T, rest: multiset<T>) returns (front: seq<T>, back: seq<T>)
    requires multiset(s) == rest + multiset{x}
    ensures s == front + [x] + back && multiset(front + back) == rest
  {
    assert x in multiset(s);
    var i :| 0 <= i < |s| && s[i] == x;
    front, back := s[..i], s[i + 1..];
    assert s == front + [x] + back;
    assert multiset(front + back) + multiset{x} == rest + multiset{x};
    assert multiset(front + back) == multiset(front + back) + multiset{x} - multiset{x};
    assert rest == rest + multiset{x} - multiset{x};
  }

  lemma {:induction false} FilterSize<T>(s: seq<T>, t: seq<T>, test: T -> bool)
    requires multiset(s) == multiset(t)
    ensures |Filter(s, test)| == |Filter(t, test)|
  {
    assert |s| == |multiset(s)| && |t| == |multiset(t)|;
    if s != [] {
      hide Filter;
      var init, last := s[..|s| - 1], s[|s| - 1];
      assert s == init + [last];
      var front, back := TakeOut(t, last, multiset(init));
      FilterSize(init, front + back, test);
      FilterAppend(init, last, test);
      FilterConcat(front, back, test);
      FilterConcat(front + [last], back, test);
      FilterAppend(front, last, test);
    }
  }

  lemma PrefixCounts<T>(s: seq<T>, c: nat, x: T)
    requires c <= |s|
    ensures multiset(s[..c])[x] <= multiset(s)[x]
  {
    assert s == s[..c] + s[c..];
  }

  // ----- Dictionaries of lists -----

  function Is<K(==), V>(key: V -> K, k: K): V -> bool {
    v => key(v) == k
  }

  datatype Dict<!K(==), V> = Dict(names: seq<K>, lists: map<K, seq<V>>) {
    function At(k: K): seq<V> {
      if k in lists then lists[k] else []
    }
  }

  /** Appends to the list of a key, adding the key when it is new. */
  function Add<K(==), V>(d: Dict<K, V>, k: K, v: V): Dict<K, V> {
    Dict(if k in d.lists then d.names else d.names + [k], d.lists[k := d.At(k) + [v]])
  }

  /** The dictionary groups exactly the given elements by key. */
  ghost predicate GroupedBy<K(!new), V>(d: Dict<K, V>, items: seq<V>, key: V -> K) {
    && Distinct(d.names)
    && (forall k :: k in d.names <==> k in d.lists)
    && (forall k :: Grouped(d, items, key, k))
  }

  ghost predicate Grouped<K, V>(d: Dict<K, V>, items: seq<V>, key: V -> K, k: K) {
    d.At(k) == Filter(items, Is(key, k)) && (k in d.lists ==> d.At(k) != [])
  }

  lemma GroupedMore<K(!new), V>(d: Dict<K, V>, items: seq<V>, key: V -> K, v: V)
    requires GroupedBy(d, items, key)
    ensures GroupedBy(Add(d, key(v), v), items + [v], key)
  {
    hide Filter;
    var next := Add(d, key(v), v);
    forall k ensures Grouped(next, items + [v], key, k) {
      assert Grouped(d, items, key, k);
      FilterAppend(items, v, Is(key, k));
    }
    forall k ensures k in next.names <==> k in next.lists {
      assert k in d.names <==> k in d.lists;
    }
    DistinctLast(d.names, key(v));
  }

  /** The dictionary that grouping the elements one by one gives. */
  function GroupAll<K(==), V>(items: seq<V>, key: V -> K): Dict<K, V> {
    if items == [] then Dict([], map[])
    else
      var last := items[|items| - 1];
      Add(GroupAll(items[..|items| - 1], key), key(last), last)
  }

  lemma GroupAllMore<K, V>(items: seq<V>, key: V -> K, v: V)
    ensures GroupAll(items + [v], key) == Add(GroupAll(items, key), key(v), v)
  {
    assert (items + [v])[..|items|] == items;
  }

  lemma {:induction false} GroupAllGroups<K(!new), V>(items: seq<V>, key: V -> K)
    ensures GroupedBy(GroupAll(items, key), items, key)
  {
    if items != [] {
      var init, last := items[..|items| - 1], items[|items| - 1];
      GroupAllGroups(init, key);
      GroupedMore(GroupAll(init, key), init, key, last);
      assert items == init + [last];
    }
  }

  // ----- Taking turns -----

  /** The t-th elements of those lists that have one, in the given order of keys. */
  function Turn<K(==), V>(lists: map<K, seq<V>>, order: seq<K>, t: nat): seq<V> {
    if order == [] then []
    else (if order[0] in lists && t < |lists[order[0]]| then [lists[order[0]][t]] else []) + Turn(lists, order[1..], t)
  }

  /** The first n turns, one after the other. */
  function Turns<K(==), V>(lists: map<K, seq<V>>, order: seq<K>, n: nat): seq<V> {
    if n == 0 then [] else Turns(lists, order, n - 1) + Turn(lists, order, n - 1)
  }

  lemma {:induction false} TurnAppend<K, V>(lists: map<K, seq<V>>, order: seq<K>, k: K, t: nat)
    ensures Turn(lists, order + [k], t) == Turn(lists, order, t) + if k in lists && t < |lists[k]| then [lists[k][t]]
            else []
  {
    if order == [] {
      assert (order + [k])[1..] == [];
    } else {
      TurnAppend(lists, order[1..], k, t);
      assert (order + [k])[1..] == order[1..] + [k];
    }
  }

  lemma {:induction false} TurnPrefix<K, V>(lists: map<K, seq<V>>, order: seq<K>, j: nat, t: nat)
    requires j <= |order|
    ensures Turn(lists, order[..j], t) <= Turn(lists, order, t)
  {
    if j > 0 {
      TurnPrefix(lists, order[1..], j - 1, t);
      assert order[..j][1..] == order[1..][..j - 1];
    }
  }

  /** Removes the first occurrence. */
  function Remove<K(==)>(s: seq<K>, k: K): seq<K> {
    if s == [] then [] else if s[0] == k then s[1..] else [s[0]] + Remove(s[1..], k)
  }

  /** A key whose list is used up can be dropped from the order. */
  lemma {:induction false} TurnWithout<K, V>(lists: map<K, seq<V>>, order: seq<K>, k: K, t: nat)
    requires k in lists ==> |lists[k]| <= t
    ensures Turn(lists, Remove(order, k), t) == Turn(lists, order, t)
  {
    if order != [] && order[0] != k {
      TurnWithout(lists, order[1..], k, t);
      var rest := Remove(order[1..], k);
      assert ([order[0]] + rest)[1..] == rest;
    }
  }

  lemma {:induction false} Removed<K(!new)>(s: seq<K>, k: K)
    requires Distinct(s) && k in s
    ensures Distinct(Remove(s, k)) && |Remove(s, k)| == |s| - 1
    ensures forall q :: q in Remove(s, k) <==> q in s && q != k
  {
    if s[0] != k {
      var rest := s[1..];
      assert k in rest;
      Removed(rest, k);
      assert s[0] !in rest by {
        assert forall j | 0 <= j < |rest| :: rest[j] == s[j + 1] != s[0];
      }
      var left := [s[0]] + Remove(rest, k);
      forall i, j | 0 <= i < j < |left| ensures left[i] != left[j] {
        assert left[j] in Remove(rest, k);
      }
    }
  }

  // ----- Stability -----

  function WithKey<T>(key: T -> real, c: real): T -> bool {
    x => key(x) == c
  }

  lemma FilterLast<T>(s: seq<T>, test: T -> bool)
    requires s != []
    ensures Filter(s, test) == Filter(s[..|s| - 1], test) + if test(s[|s| - 1]) then [s[|s| - 1]] else []
  {
  }

  lemma SortIncreases<T>(s: seq<T>, key: T -> real)
    ensures Increasing(SortBy(s, key), key)
  {
    SortedBy(s, key);
  }

  lemma StableNext<T>(s: seq<T>, key: T -> real, c: real)
    requires s != []
    requires Filter(SortBy(s[..|s| - 1], key), WithKey(key, c)) == Filter(s[..|s| - 1], WithKey(key, c))
    ensures Filter(SortBy(s, key), WithKey(key, c)) == Filter(s, WithKey(key, c))
  {
    hide Filter, Insert, Increasing, WithKey, SortBy;
    var init, last := s[..|s| - 1], s[|s| - 1];
    SortIncreases(init, key);
    InsertIsStable(SortBy(init, key), last, key, c);
    FilterLast(s, WithKey(key, c));
    SortNext(s, key);
    KeyTest(key, c, last);
  }

  /** Sorting keeps the order of elements with equal keys. */
  lemma {:induction false} SortIsStable<T>(s: seq<T>, key: T -> real, c: real)
    ensures Filter(SortBy(s, key), WithKey(key, c)) == Filter(s, WithKey(key, c))
  {
    if s != [] {
      hide Filter, WithKey, SortBy;
      SortIsStable(s[..|s| - 1], key, c);
      StableNext(s, key, c);
    }
  }

  lemma KeyTest<T>(key: T -> real, c: real, x: T)
    ensures WithKey(key, c)(x) == (key(x) == c)
  {
  }

  lemma InsertIsStable<T>(order: seq<T>, x: T, key: T -> real, c: real)
    requires Increasing(order, key)
    ensures Filter(Insert(order, x, key), WithKey(key, c)) == Filter(order, WithKey(key, c)) + if key(x) == c
            then [x] else []
  {
    hide Filter, WithKey;
    var p := Splice(order, x, key);
    SpliceIsStable(order, p, x, key, c);
  }

  lemma SpliceIsStable<T>(order: seq<T>, p: nat, x: T, key: T -> real, c: real)
    requires p <= |order| && forall k | p <= k < |order| :: key(x) < key(order[k])
    ensures Filter(order[..p] + [x] + order[p..], WithKey(key, c)) == Filter(order, WithKey(key, c)) + if key(x) == c
            then [x] else []
  {
    hide Filter;
    var test := WithKey(key, c);
    assert order == order[..p] + order[p..];
    FilterConcat(order[..p], order[p..], test);
    FilterConcat(order[..p] + [x], order[p..], test);
    FilterAppend(order[..p], x, test);
    if key(x) == c {
      FilterNone(order[p..], test);
    }
  }

  lemma {:induction false} FilterNone<T>(s: seq<T>, test: T -> bool)
    requires forall k | 0 <= k < |s| :: !test(s[k])
    ensures Filter(s, test) == []
  {
    if s != [] {
      FilterNone(s[..|s| - 1], test);
    }
  }
}
