/**
 The union-find of tools/judgment_reeval.py: a forest in a parent dictionary, with path halving, in
 which two names have the same root exactly when the given lists connect them.
 */
module Components {

  /** The name of a repository. */
  datatype Name = Name(text: string)

  // ----- Being connected by lists -----

  /** Some list holds both names. */
  ghost predicate Together(lists: seq<seq<Name>>, x: Name, y: Name) {
    exists l :: l in lists && x in l && y in l
  }

  ghost predicate Path(lists: seq<seq<Name>>, path: seq<Name>) {
    |path| > 0 && forall k | 0 <= k < |path| - 1 :: Together(lists, path[k], path[k + 1])
  }

  /** A chain of lists leads from one name to the other. */
  ghost predicate Connected(lists: seq<seq<Name>>, x: Name, y: Name) {
    exists path :: Path(lists, path) && path[0] == x && path[|path| - 1] == y
  }

  lemma ConnectedToItself(lists: seq<seq<Name>>, x: Name)
    ensures Connected(lists, x, x)
  {
    assert Path(lists, [x]);
  }

  lemma ConnectedTogether(lists: seq<seq<Name>>, x: Name, y: Name)
    requires Together(lists, x, y)
    ensures Connected(lists, x, y)
  {
    assert Path(lists, [x, y]);
  }

  lemma ConnectedThrough(lists: seq<seq<Name>>, x: Name, y: Name, z: Name)
    requires Connected(lists, x, y) && Connected(lists, y, z)
    ensures Connected(lists, x, z)
  {
    var p :| Path(lists, p) && p[0] == x && p[|p| - 1] == y;
    var q :| Path(lists, q) && q[0] == y && q[|q| - 1] == z;
    var r := p + q[1..];
    forall k | 0 <= k < |r| - 1 ensures Together(lists, r[k], r[k + 1]) {
      if k < |p| - 1 {
        assert Together(lists, p[k], p[k + 1]);
      } else {
        var m := k - (|p| - 1);
        assert Together(lists, q[m], q[m + 1]);
      }
    }
    assert Path(lists, r);
  }

  lemma {:induction false} PathBack(lists: seq<seq<Name>>, path: seq<Name>)
    requires Path(lists, path)
    ensures Connected(lists, path[|path| - 1], path[0])
    decreases |path|
  {
    if |path| == 1 {
      ConnectedToItself(lists, path[0]);
    } else {
      var rest := path[1..];
      forall k | 0 <= k < |rest| - 1 ensures Together(lists, rest[k], rest[k + 1]) {
        assert Together(lists, path[k + 1], path[k + 2]);
      }
      PathBack(lists, rest);
      assert Together(lists, path[0], path[0 + 1]);
      assert Together(lists, path[1], path[0]);
      ConnectedTogether(lists, path[1], path[0]);
      ConnectedThrough(lists, path[|path| - 1], path[1], path[0]);
    }
  }

  lemma ConnectedBack(lists: seq<seq<Name>>, x: Name, y: Name)
    requires Connected(lists, x, y)
    ensures Connected(lists, y, x)
  {
    var p :| Path(lists, p) && p[0] == x && p[|p| - 1] == y;
    PathBack(lists, p);
  }

  lemma ConnectedMore(lists: seq<seq<Name>>, items: seq<Name>, x: Name, y: Name)
    requires Connected(lists, x, y)
    ensures Connected(lists + [items], x, y)
  {
    var p :| Path(lists, p) && p[0] == x && p[|p| - 1] == y;
    var more := lists + [items];
    forall k | 0 <= k < |p| - 1 ensures Together(more, p[k], p[k + 1]) {
      assert Together(lists, p[k], p[k + 1]);
      var l :| l in lists && p[k] in l && p[k + 1] in l;
      assert l in more;
    }
    assert Path(more, p);
  }

  // ----- The forest -----

  /**
   The parents form a forest: a name that is not its own parent has a parent of smaller rank in the
   same tree, so no chain of parents runs in a circle, and every tree has one root.
   */
  ghost predicate Forest(parent: map<Name, Name>, root: map<Name, Name>, rank: map<Name, nat>) {
    && parent.Keys == root.Keys == rank.Keys
    && forall x {:trigger Node(parent, root, rank, x)} | x in parent :: Node(parent, root, rank, x)
  }

  ghost predicate Node(parent: map<Name, Name>, root: map<Name, Name>, rank: map<Name, nat>, x: Name)
    requires parent.Keys == root.Keys == rank.Keys && x in parent
  {
    && parent[x] in parent && root[x] in parent
    && root[parent[x]] == root[x]
    && parent[root[x]] == root[x]
    && (if parent[x] == x then root[x] == x else rank[parent[x]] < rank[x])
  }

  lemma AddedName(parent: map<Name, Name>, root: map<Name, Name>, rank: map<Name, nat>, x: Name)
    requires Forest(parent, root, rank) && x !in parent
    ensures Forest(parent[x := x], root[x := x], rank[x := 0])
  {
    var next, roots, ranks := parent[x := x], root[x := x], rank[x := 0];
    forall y | y in next ensures Node(next, roots, ranks, y) {
      assert y != x ==> Node(parent, root, rank, y);
    }
  }

  /** Path halving: a name skips to its grandparent. */
  lemma Halved(parent: map<Name, Name>, root: map<Name, Name>, rank: map<Name, nat>, x: Name)
    requires Forest(parent, root, rank) && x in parent && parent[x] != x
    ensures parent[x] in parent && Forest(parent[x := parent[parent[x]]], root, rank)
  {
    assert Node(parent, root, rank, x) && Node(parent, root, rank, parent[x]);
    var next := parent[x := parent[parent[x]]];
    forall y | y in next ensures Node(next, root, rank, y) {
      assert Node(parent, root, rank, y);
      assert Node(parent, root, rank, root[y]);
    }
  }

  ghost function MergedRoots(root: map<Name, Name>, ra: Name, rb: Name): map<Name, Name> {
    map x | x in root :: if root[x] == rb then ra else root[x]
  }

  ghost function MergedRanks(root: map<Name, Name>, rank: map<Name, nat>, ra: Name, rb: Name): map<Name, nat>
    requires root.Keys == rank.Keys && ra in rank
  {
    map x | x in rank :: if root[x] == rb && ra != rb then rank[x] + rank[ra] + 1 else rank[x]
  }

  /** One root becomes the child of another. */
  lemma Attached(parent: map<Name, Name>, root: map<Name, Name>, rank: map<Name, nat>, ra: Name, rb: Name)
    requires Forest(parent, root, rank) && ra in root && rb in root && root[ra] == ra && root[rb] == rb
    ensures Forest(parent[rb := ra], MergedRoots(root, ra, rb), MergedRanks(root, rank, ra, rb))
  {
    var next, roots, ranks := parent[rb := ra], MergedRoots(root, ra, rb), MergedRanks(root, rank, ra, rb);
    assert Node(parent, root, rank, ra) && Node(parent, root, rank, rb);
    forall y | y in next ensures Node(next, roots, ranks, y) {
      assert Node(parent, root, rank, y);
      assert Node(parent, root, rank, root[y]);
    }
  }

  // ----- What the roots mean -----

  ghost predicate SameRoot(root: map<Name, Name>, l: seq<Name>) {
    && (forall x | x in l :: x in root)
    && (forall x, y | x in l && y in l :: root[x] == root[y])
  }

  /** Every list lies in one tree. */
  ghost predicate Complete(lists: seq<seq<Name>>, root: map<Name, Name>) {
    forall l | l in lists :: SameRoot(root, l)
  }

  /** Every name is connected to its root. */
  ghost predicate Sound(lists: seq<seq<Name>>, root: map<Name, Name>) {
    forall x | x in root :: Connected(lists, x, root[x])
  }

  lemma {:induction false} PathKeepsRoot(lists: seq<seq<Name>>, root: map<Name, Name>, path: seq<Name>)
    requires Complete(lists, root) && Path(lists, path) && path[0] in root
    ensures path[|path| - 1] in root && root[path[|path| - 1]] == root[path[0]]
    decreases |path|
  {
    if |path| > 1 {
      var rest := path[1..];
      forall k | 0 <= k < |rest| - 1 ensures Together(lists, rest[k], rest[k + 1]) {
        assert Together(lists, path[k + 1], path[k + 2]);
      }
      assert Together(lists, path[0], path[0 + 1]);
      PathKeepsRoot(lists, root, rest);
    }
  }

  /** Two names share a root exactly when the lists connect them. */
  lemma RootsAreComponents(lists: seq<seq<Name>>, root: map<Name, Name>, x: Name, y: Name)
    requires Sound(lists, root) && Complete(lists, root) && x in root && y in root
    ensures root[x] == root[y] <==> Connected(lists, x, y)
  {
    if root[x] == root[y] {
      ConnectedBack(lists, y, root[y]);
      ConnectedThrough(lists, x, root[x], y);
    }
    if Connected(lists, x, y) {
      var p :| Path(lists, p) && p[0] == x && p[|p| - 1] == y;
      PathKeepsRoot(lists, root, p);
    }
  }

  lemma AddedKeeps(lists: seq<seq<Name>>, root: map<Name, Name>, x: Name)
    requires Sound(lists, root) && Complete(lists, root) && x !in root
    ensures Sound(lists, root[x := x]) && Complete(lists, root[x := x])
  {
    ConnectedToItself(lists, x);
    forall l | l in lists ensures SameRoot(root[x := x], l) {
      assert SameRoot(root, l);
    }
  }

  lemma MergedKeepsLists(lists: seq<seq<Name>>, root: map<Name, Name>, ra: Name, rb: Name)
    requires Complete(lists, root)
    ensures Complete(lists, MergedRoots(root, ra, rb))
  {
    forall l | l in lists ensures SameRoot(MergedRoots(root, ra, rb), l) {
      assert SameRoot(root, l);
    }
  }

  lemma MergedIsConnected(lists: seq<seq<Name>>, root: map<Name, Name>, ra: Name, rb: Name)
    requires Sound(lists, root) && Connected(lists, rb, ra)
    ensures Sound(lists, MergedRoots(root, ra, rb))
  {
    var next := MergedRoots(root, ra, rb);
    forall x | x in next ensures Connected(lists, x, next[x]) {
      assert Connected(lists, x, root[x]);
      if root[x] == rb {
        ConnectedThrough(lists, x, rb, ra);
      }
    }
  }

  lemma MoreLists(lists: seq<seq<Name>>, items: seq<Name>, root: map<Name, Name>)
    requires Sound(lists, root)
    ensures Sound(lists + [items], root)
  {
    forall x | x in root ensures Connected(lists + [items], x, root[x]) {
      ConnectedMore(lists, items, x, root[x]);
    }
  }

  /** Roots of two items of the newest list are connected. */
  lemma ItemsConnect(lists: seq<seq<Name>>, items: seq<Name>, root: map<Name, Name>, x: Name, y: Name)
    requires Sound(lists + [items], root) && x in items && y in items && x in root && y in root
    ensures Connected(lists + [items], root[x], root[y])
  {
    var all := lists + [items];
    assert items in all;
    assert Together(all, x, y);
    ConnectedTogether(all, x, y);
    ConnectedBack(all, x, root[x]);
    ConnectedThrough(all, root[x], x, y);
    ConnectedThrough(all, root[x], y, root[y]);
  }

  lemma ListDone(lists: seq<seq<Name>>, items: seq<Name>, root: map<Name, Name>)
    requires Complete(lists, root)
    requires forall j | 0 <= j < |items| :: items[j] in root
    requires forall j | 0 <= j < |items| :: root[items[j]] == root[items[0]]
    ensures Complete(lists + [items], root)
  {
    forall l | l in lists + [items] ensures SameRoot(root, l) {
      assert l in lists || l == items;
    }
  }

  // ----- The structure -----

  /** The order of the language's string comparison, by code points. */
  predicate AtMost(a: string, b: string) {
    a == [] || (b != [] && (a[0] < b[0] || (a[0] == b[0] && AtMost(a[1..], b[1..]))))
  }

  ghost function Named(items: seq<Name>): set<Name> {
    set x | x in items
  }

  lemma NamedStep(items: seq<Name>, k: nat)
    requires k < |items|
    ensures Named(items[..k + 1]) == Named(items[..k]) + {items[k]}
  {
    assert items[..k + 1] == items[..k] + [items[k]];
  }

  /** The first k roots found lead to the trees of the first k items. */
  ghost predicate Resolved(root: map<Name, Name>, items: seq<Name>, roots: seq<Name>, k: nat) {
    && k <= |items| && k <= |roots|
    && forall j | 0 <= j < k :: items[j] in root && roots[j] in root && root[roots[j]] == root[items[j]]
  }

  /** The first k items lie in one tree. */
  ghost predicate Joined(root: map<Name, Name>, items: seq<Name>, k: nat) {
    && (forall j | 0 <= j < |items| :: items[j] in root)
    && forall j | 0 <= j < k && j < |items| :: root[items[j]] == root[items[0]]
  }

  lemma ResolvedMore(root: map<Name, Name>, next: map<Name, Name>, items: seq<Name>, roots: seq<Name>, k: nat, r: Name)
    requires Resolved(root, items, roots, k) && |roots| == k < |items|
    requires next == if items[k] in root then root else root[items[k] := items[k]]
    requires items[k] in next && r in next && next[r] == next[items[k]]
    ensures Resolved(next, items, roots + [r], k + 1)
  {
  }

  // ----- Which root a tree keeps -----

  /** The two names in order. */
  function Ordered(a: Name, b: Name): (Name, Name) {
    if AtMost(a.text, b.text) then (a, b) else (b, a)
  }

  ghost function At(root: map<Name, Name>, x: Name): Name {
    if x in root then root[x] else x
  }

  /** New names become roots of their own. */
  ghost function Entered(root: map<Name, Name>, items: seq<Name>): map<Name, Name> {
    map x | x in root.Keys + Named(items) :: At(root, x)
  }

  ghost function RootList(root: map<Name, Name>, items: seq<Name>): seq<Name> {
    seq(|items|, j requires 0 <= j < |items| => At(root, items[j]))
  }

  /**
   The roots after the trees of the first k roots have been joined, one after the other, to that of
   the first: of the first root and the next, the tree of the lesser name keeps its root.
   */
  ghost function JoinedRoots(root: map<Name, Name>, roots: seq<Name>, k: nat): map<Name, Name> {
    if k <= 1 || k > |roots| then root
    else
      var before := JoinedRoots(root, roots, k - 1);
      var (a, b) := Ordered(roots[0], roots[k - 1]);
      MergedRoots(before, At(before, a), At(before, b))
  }

  lemma EnteredStep(root: map<Name, Name>, items: seq<Name>, k: nat)
    requires k < |items|
    ensures var before := Entered(root, items[..k]);
            Entered(root, items[..k + 1]) == if items[k] in before then before else before[items[k] := items[k]]
  {
    NamedStep(items, k);
  }

  lemma EnteredNone(root: map<Name, Name>, items: seq<Name>)
    ensures Entered(root, items[..0]) == root
  {
  }

  /** The roots found first are still the roots when all items have been entered. */
  lemma RootsFound(root: map<Name, Name>, items: seq<Name>, roots: seq<Name>)
    requires |roots| == |items| && forall j | 0 <= j < |items| :: items[j] in root && roots[j] == root[items[j]]
    ensures roots == RootList(root, items)
  {
  }

  /** Two trees: the lesser of the two roots becomes the root of both. */
  lemma LesserRootStays(root: map<Name, Name>, x: Name, y: Name)
    requires x in root && y in root && At(root, root[x]) == root[x] && At(root, root[y]) == root[y]
    ensures var joined := JoinedRoots(root, RootList(root, [x, y]), 2);
            var least := Ordered(root[x], root[y]).0;
            && x in joined && y in joined && joined[x] == least && joined[y] == least
  {
    var roots := RootList(root, [x, y]);
    assert roots[0] == root[x] && roots[1] == root[y];
    assert JoinedRoots(root, roots, 1) == root;
  }

  /** The roots after all lists have been joined, the first list first. */
  ghost function RootsAfter(lists: seq<seq<Name>>): map<Name, Name> {
    if lists == [] then map[]
    else
      var items := lists[|lists| - 1];
      var entered := Entered(RootsAfter(lists[..|lists| - 1]), items);
      JoinedRoots(entered, RootList(entered, items), |items|)
  }

  // ----- The order of names -----

  lemma {:induction false} AtMostSelf(a: string)
    ensures AtMost(a, a)
  {
    if a != [] {
      AtMostSelf(a[1..]);
    }
  }

  lemma {:induction false} AtMostBoth(a: string, b: string)
    requires AtMost(a, b) && AtMost(b, a)
    ensures a == b
  {
    if a != [] {
      AtMostBoth(a[1..], b[1..]);
      assert a == [a[0]] + a[1..] && b == [b[0]] + b[1..];
    }
  }

  lemma {:induction false} AtMostThrough(a: string, b: string, c: string)
    requires AtMost(a, b) && AtMost(b, c)
    ensures AtMost(a, c)
  {
    if a != [] && a[0] == b[0] == c[0] {
      AtMostThrough(a[1..], b[1..], c[1..]);
    }
  }

  lemma {:induction false} AtMostEither(a: string, b: string)
    ensures AtMost(a, b) || AtMost(b, a)
  {
    if a != [] && b != [] && a[0] == b[0] {
      AtMostEither(a[1..], b[1..]);
    }
  }

  /** The order compares names at the first character in which they differ; a front comes before the whole. */
  lemma {:induction false} AtMostIsLexicographic(a: string, b: string)
    ensures AtMost(a, b) <==> a <= b || exists i: nat :: FirstDifference(a, b, i) && a[i] < b[i]
  {
    if a != [] && b != [] {
      var x, y := a[1..], b[1..];
      assert a == [a[0]] + x && b == [b[0]] + y;
      AtMostIsLexicographic(x, y);
      if a[0] == b[0] {
        forall i: nat
          ensures FirstDifference(x, y, i) <==> FirstDifference(a, b, i + 1)
        {
          DifferenceShifts(a, b, i);
        }
        if exists i: nat :: FirstDifference(x, y, i) && x[i] < y[i] {
          var i: nat :| FirstDifference(x, y, i) && x[i] < y[i];
          assert FirstDifference(a, b, i + 1) && a[i + 1] < b[i + 1];
        }
        if exists i: nat :: FirstDifference(a, b, i) && a[i] < b[i] {
          var i: nat :| FirstDifference(a, b, i) && a[i] < b[i];
          assert FirstDifference(x, y, i - 1) && x[i - 1] < y[i - 1];
        }
      } else {
        assert FirstDifference(a, b, 0);
        forall i: nat | FirstDifference(a, b, i)
          ensures i == 0
        {
        }
      }
    }
  }

  ghost predicate FirstDifference(a: string, b: string, i: nat) {
    i < |a| && i < |b| && a[..i] == b[..i] && a[i] != b[i]
  }

  lemma DifferenceShifts(a: string, b: string, i: nat)
    requires a != [] && b != [] && a[0] == b[0]
    ensures FirstDifference(a[1..], b[1..], i) <==> FirstDifference(a, b, i + 1)
  {
    if i + 1 < |a| && i + 1 < |b| {
      assert a[..i + 1] == [a[0]] + a[1..][..i] && b[..i + 1] == [b[0]] + b[1..][..i];
    }
  }

  // ----- The root that is kept -----

  ghost predicate Rooted(root: map<Name, Name>) {
    forall x | x in root :: root[x] in root && root[root[x]] == root[x]
  }

  ghost predicate AreRoots(root: map<Name, Name>, roots: seq<Name>) {
    forall j | 0 <= j < |roots| :: roots[j] in root && root[roots[j]] == roots[j]
  }

  /** Root i is less than the first one and new to the list. */
  predicate Displaces(roots: seq<Name>, i: nat)
    requires i < |roots|
  {
    !AtMost(roots[0].text, roots[i].text) && roots[i] !in roots[..i]
  }

  /** The last root among the first k that displaces, or the first one if none does. */
  function Kept(roots: seq<Name>, k: nat): Name
    requires 0 < k <= |roots|
  {
    if k == 1 then roots[0] else if Displaces(roots, k - 1) then roots[k - 1] else Kept(roots, k - 1)
  }

  /** The root of a name after the first k trees have been joined. */
  ghost function JoinedAt(root: map<Name, Name>, roots: seq<Name>, k: nat, x: Name): Name
    requires x in root && k <= |roots|
  {
    if root[x] in roots[..k] then Kept(roots, k) else root[x]
  }

  lemma PrefixNext(roots: seq<Name>, k: nat)
    requires k < |roots|
    ensures forall x :: x in roots[..k + 1] <==> x in roots[..k] || x == roots[k]
  {
    assert roots[..k + 1] == roots[..k] + [roots[k]];
  }

  lemma {:induction false} KeptIsOne(roots: seq<Name>, k: nat)
    requires 0 < k <= |roots|
    ensures Kept(roots, k) in roots[..k]
  {
    PrefixNext(roots, k - 1);
    if k > 1 {
      KeptIsOne(roots, k - 1);
    }
  }

  /** The trees of the first k roots have the kept root, all others theirs. */
  ghost predicate IsJoined(root: map<Name, Name>, roots: seq<Name>, joined: map<Name, Name>, k: nat)
    requires k <= |roots|
  {
    joined.Keys == root.Keys && forall x | x in root :: joined[x] == JoinedAt(root, roots, k, x)
  }

  /** Joining, in closed form: the trees of the listed roots get the kept root, all others keep theirs. */
  lemma {:induction false} JoinedRootsAre(root: map<Name, Name>, roots: seq<Name>, k: nat)
    requires AreRoots(root, roots) && k <= |roots|
    ensures IsJoined(root, roots, JoinedRoots(root, roots, k), k)
  {
    hide JoinedRoots, IsJoined, AreRoots, Ordered, At, MergedRoots;
    if k <= 1 {
      JoinedOne(root, roots);
      NoneJoined(root, roots, k);
    } else {
      JoinedRootsAre(root, roots, k - 1);
      JoinedMore(root, roots, k - 1);
      JoinedNext(root, roots, JoinedRoots(root, roots, k - 1), k - 1);
    }
  }

  lemma NoneJoined(root: map<Name, Name>, roots: seq<Name>, k: nat)
    requires AreRoots(root, roots) && k <= |roots| && k <= 1
    ensures IsJoined(root, roots, root, k)
  {
    if k == 1 {
      PrefixNext(roots, 0);
    }
  }

  lemma JoinedNext(root: map<Name, Name>, roots: seq<Name>, before: map<Name, Name>, k: nat)
    requires AreRoots(root, roots) && 0 < k < |roots| && IsJoined(root, roots, before, k)
    ensures var (a, b) := Ordered(roots[0], roots[k]);
            IsJoined(root, roots, MergedRoots(before, At(before, a), At(before, b)), k + 1)
  {
    hide AtMost;
    KeptIsOne(roots, k);
    PrefixNext(roots, k);
    assert roots[0] in roots[..k];
  }

  /** Root m is the least of the list. */
  ghost predicate LeastAt(roots: seq<Name>, m: nat) {
    m < |roots| && forall j | 0 <= j < |roots| :: AtMost(roots[m].text, roots[j].text)
  }

  /** After the least root no root displaces. */
  ghost predicate LeastStays(roots: seq<Name>) {
    forall m, i | 0 <= m < i < |roots| && LeastAt(roots, m) :: !Displaces(roots, i)
  }

  lemma {:induction false} KeptUnlessDisplaced(roots: seq<Name>, m: nat, k: nat)
    requires m < k <= |roots| && Kept(roots, m + 1) == roots[m] && forall i | m < i < k :: !Displaces(roots, i)
    ensures Kept(roots, k) == roots[m]
  {
    if k > m + 1 {
      KeptUnlessDisplaced(roots, m, k - 1);
    }
  }

  lemma {:induction false} KeptOnceDisplaced(roots: seq<Name>, i: nat, k: nat)
    requires i < k <= |roots| && Displaces(roots, i)
    ensures Kept(roots, k) !in roots[..i]
  {
    if i == 0 {
      AtMostSelf(roots[0].text);
    } else if k > i + 1 {
      KeptOnceDisplaced(roots, i, k - 1);
      assert Displaces(roots, k - 1) ==> roots[i] in roots[..k - 1];
      assert forall x | x in roots[..i] :: x in roots[..k - 1];
    }
  }

  lemma {:induction false} FirstPlace(roots: seq<Name>, m: nat) returns (first: nat)
    requires m < |roots|
    ensures first <= m && roots[first] == roots[m] && roots[m] !in roots[..first]
  {
    first := m;
    if roots[m] in roots[..m] {
      var j :| 0 <= j < m && roots[j] == roots[m];
      first := FirstPlace(roots, j);
    }
  }

  lemma LeastIsOne(roots: seq<Name>, m: nat, m': nat)
    requires LeastAt(roots, m) && LeastAt(roots, m')
    ensures roots[m] == roots[m']
  {
    AtMostBoth(roots[m].text, roots[m'].text);
  }

  /** The least root of the list is the one kept exactly when none displaces after it. */
  lemma KeptIsLeast(roots: seq<Name>, m: nat)
    requires LeastAt(roots, m)
    ensures Kept(roots, |roots|) == roots[m] <==> LeastStays(roots)
  {
    hide AtMost;
    if LeastStays(roots) {
      var first := FirstPlace(roots, m);
      if first > 0 && AtMost(roots[0].text, roots[first].text) {
        AtMostBoth(roots[0].text, roots[first].text);
      }
      assert LeastAt(roots, first);
      KeptUnlessDisplaced(roots, first, |roots|);
    } else {
      var m', i :| 0 <= m' < i < |roots| && LeastAt(roots, m') && Displaces(roots, i);
      LeastIsOne(roots, m, m');
      KeptOnceDisplaced(roots, i, |roots|);
      assert roots[m'] in roots[..i];
    }
  }

  lemma {:induction false} LeastExists(roots: seq<Name>, k: nat) returns (m: nat)
    requires 0 < k <= |roots|
    ensures m < k && forall j | 0 <= j < k :: AtMost(roots[m].text, roots[j].text)
  {
    hide AtMost;
    var last := roots[k - 1].text;
    AtMostSelf(last);
    m := k - 1;
    if k > 1 {
      m := LeastExists(roots, k - 1);
      AtMostEither(roots[m].text, last);
      if !AtMost(roots[m].text, last) {
        forall j | 0 <= j < k - 1
          ensures AtMost(last, roots[j].text)
        {
          AtMostThrough(last, roots[m].text, roots[j].text);
        }
        m := k - 1;
      }
    }
  }

  /** Name r is at most every name of the trees of the listed roots. */
  ghost predicate LeastName(root: map<Name, Name>, roots: seq<Name>, r: Name) {
    forall x | x in root && root[x] in roots :: AtMost(r.text, x.text)
  }

  /**
   The joined component is named by its least name exactly when that name was the root of its own tree
   and no root displaces after it.
   */
  lemma JoinedLeast(root: map<Name, Name>, roots: seq<Name>)
    requires AreRoots(root, roots) && roots != []
    ensures LeastName(root, roots, Kept(roots, |roots|))
       <==> LeastStays(roots) && exists m :: 0 <= m < |roots| && LeastName(root, roots, roots[m])
  {
    hide AtMost, LeastStays, Kept;
    KeptIsOne(roots, |roots|);
    assert roots[..|roots|] == roots;
    forall m | 0 <= m < |roots| && LeastName(root, roots, roots[m])
      ensures LeastAt(roots, m)
    {
    }
    if LeastName(root, roots, Kept(roots, |roots|)) {
      var m :| 0 <= m < |roots| && roots[m] == Kept(roots, |roots|);
      KeptIsLeast(roots, m);
    } else {
      forall m | 0 <= m < |roots| && LeastName(root, roots, roots[m])
        ensures !LeastStays(roots)
      {
        KeptIsLeast(roots, m);
      }
    }
  }

  /** Every root is the least name of its tree. */
  ghost predicate LeastRoots(root: map<Name, Name>) {
    forall x | x in root :: AtMost(root[x].text, x.text)
  }

  /** Among trees named by their least names, joining keeps it so exactly when no root displaces the least. */
  lemma JoinKeepsLeast(root: map<Name, Name>, roots: seq<Name>)
    requires AreRoots(root, roots) && LeastRoots(root)
    ensures LeastRoots(JoinedRoots(root, roots, |roots|)) <==> LeastStays(roots)
  {
    hide AtMost, LeastStays, Kept, JoinedRoots;
    JoinedRootsAre(root, roots, |roots|);
    assert roots[..|roots|] == roots;
    if roots != [] {
      var m := LeastExists(roots, |roots|);
      forall x | x in root && root[x] in roots
        ensures AtMost(roots[m].text, x.text)
      {
        AtMostThrough(roots[m].text, root[x].text, x.text);
      }
      JoinedLeast(root, roots);
      assert LeastRoots(JoinedRoots(root, roots, |roots|)) ==> LeastName(root, roots, Kept(roots, |roots|));
    } else {
      assert LeastStays(roots) by { NothingDisplaces(); }
    }
  }

  lemma NothingDisplaces()
    ensures LeastStays([])
  {
  }

  lemma EnteredRoots(root: map<Name, Name>, items: seq<Name>)
    requires Rooted(root)
    ensures Rooted(Entered(root, items)) && AreRoots(Entered(root, items), RootList(root, items))
    ensures RootList(Entered(root, items), items) == RootList(root, items)
    ensures LeastRoots(root) ==> LeastRoots(Entered(root, items))
  {
    hide AtMost;
    forall x | x in items
      ensures AtMost(x.text, x.text)
    {
      AtMostSelf(x.text);
    }
  }

  /** The root of a name once the trees of the items have been united: the kept one if its tree is among them. */
  ghost function UnitedAt(root: map<Name, Name>, items: seq<Name>, x: Name): Name {
    var roots := RootList(root, items);
    if At(root, x) in roots then Kept(roots, |roots|) else At(root, x)
  }

  /** What uniting does to the roots, and exactly when they stay the least names. */
  lemma United(root: map<Name, Name>, items: seq<Name>)
    requires Rooted(root)
    ensures var entered := Entered(root, items);
            var joined := JoinedRoots(entered, RootList(entered, items), |items|);
            && (forall x | x in joined :: joined[x] == UnitedAt(root, items, x))
            && (LeastRoots(root) ==> (LeastRoots(joined) <==> LeastStays(RootList(root, items))))
  {
    hide Rooted, AreRoots, JoinedRoots, LeastRoots, LeastStays, Kept;
    EnteredRoots(root, items);
    var roots := RootList(root, items);
    JoinedRootsAre(Entered(root, items), roots, |roots|);
    assert roots[..|roots|] == roots;
    if LeastRoots(root) {
      JoinKeepsLeast(Entered(root, items), roots);
    }
  }

  lemma ForestIsRooted(parent: map<Name, Name>, root: map<Name, Name>, rank: map<Name, nat>)
    requires Forest(parent, root, rank)
    ensures Rooted(root)
  {
    forall x | x in root
      ensures root[x] in root && root[root[x]] == root[x]
    {
      assert Node(parent, root, rank, x);
      assert Node(parent, root, rank, root[x]);
    }
  }

  lemma JoinedOne(root: map<Name, Name>, roots: seq<Name>)
    ensures JoinedRoots(root, roots, 0) == JoinedRoots(root, roots, 1) == root
  {
  }

  lemma JoinedMore(root: map<Name, Name>, roots: seq<Name>, k: nat)
    requires 0 < k < |roots|
    ensures var before := JoinedRoots(root, roots, k);
            var (a, b) := Ordered(roots[0], roots[k]);
            JoinedRoots(root, roots, k + 1) == MergedRoots(before, At(before, a), At(before, b))
  {
  }

  // ----- Whole runs -----

  lemma RootsAfterNext(lists: seq<seq<Name>>, k: nat)
    requires k < |lists|
    ensures var entered := Entered(RootsAfter(lists[..k]), lists[k]);
            RootsAfter(lists[..k + 1]) == JoinedRoots(entered, RootList(entered, lists[k]), |lists[k]|)
  {
    assert lists[..k + 1][..k] == lists[..k];
  }

  lemma JoinedRooted(root: map<Name, Name>, roots: seq<Name>)
    requires Rooted(root) && AreRoots(root, roots)
    ensures Rooted(JoinedRoots(root, roots, |roots|))
  {
    hide JoinedRoots, Kept;
    JoinedRootsAre(root, roots, |roots|);
    assert roots[..|roots|] == roots;
    if roots != [] {
      KeptIsOne(roots, |roots|);
    }
  }

  lemma {:induction false} RunIsRooted(lists: seq<seq<Name>>, k: nat)
    requires k <= |lists|
    ensures Rooted(RootsAfter(lists[..k]))
  {
    if k > 0 {
      hide RootsAfter, Rooted, AreRoots, Entered, RootList, JoinedRoots;
      RunIsRooted(lists, k - 1);
      RootsAfterNext(lists, k - 1);
      var root, items := RootsAfter(lists[..k - 1]), lists[k - 1];
      EnteredRoots(root, items);
      ListLength(root, items);
      JoinedRooted(Entered(root, items), RootList(root, items));
    }
  }

  lemma ListLength(root: map<Name, Name>, items: seq<Name>)
    ensures |RootList(root, items)| == |items|
  {
  }

  /** After the first k lists every root is the least name of its component. */
  ghost predicate LeastAfter(lists: seq<seq<Name>>, k: nat)
    requires k <= |lists|
  {
    LeastRoots(RootsAfter(lists[..k]))
  }

  /** In list k no root displaces the least of the roots it joins. */
  ghost predicate StaysIn(lists: seq<seq<Name>>, k: nat)
    requires k < |lists|
  {
    LeastStays(RootList(RootsAfter(lists[..k]), lists[k]))
  }

  lemma LeastNext(lists: seq<seq<Name>>, k: nat)
    requires k < |lists| && LeastAfter(lists, k)
    ensures LeastAfter(lists, k + 1) <==> StaysIn(lists, k)
  {
    hide RootsAfter, Rooted, AreRoots, Entered, RootList, JoinedRoots, LeastRoots, LeastStays;
    var root, items := RootsAfter(lists[..k]), lists[k];
    RunIsRooted(lists, k);
    RootsAfterNext(lists, k);
    EnteredRoots(root, items);
    ListLength(root, items);
    JoinKeepsLeast(Entered(root, items), RootList(root, items));
  }

  lemma {:induction false} LeastSoFar(lists: seq<seq<Name>>, k: nat)
    requires k <= |lists| && forall j | 0 <= j < k :: StaysIn(lists, j)
    ensures LeastAfter(lists, k)
  {
    if k > 0 {
      LeastSoFar(lists, k - 1);
      LeastNext(lists, k - 1);
    }
  }

  /**
   Over a whole run every root is at every moment the least name of its component exactly when in no
   list a root displaces the least of those it joins.
   */
  lemma LeastThroughout(lists: seq<seq<Name>>)
    ensures (forall k | 0 <= k <= |lists| :: LeastAfter(lists, k)) <==> forall k | 0 <= k < |lists| :: StaysIn(lists, k)
  {
    hide LeastAfter, StaysIn;
    if forall k | 0 <= k < |lists| :: StaysIn(lists, k) {
      forall k | 0 <= k <= |lists|
        ensures LeastAfter(lists, k)
      {
        LeastSoFar(lists, k);
      }
    }
    if forall k | 0 <= k <= |lists| :: LeastAfter(lists, k) {
      forall k | 0 <= k < |lists|
        ensures StaysIn(lists, k)
      {
        var k' := k + 1;
        assert LeastAfter(lists, k) && LeastAfter(lists, k');
        LeastNext(lists, k);
      }
    }
  }

  /** The root that one more list gives a name. */
  lemma RootAfter(lists: seq<seq<Name>>, items: seq<Name>, x: Name)
    requires x in items
    ensures x in RootsAfter(lists + [items]) && |RootList(RootsAfter(lists), items)| == |items|
    ensures RootsAfter(lists + [items])[x] == Kept(RootList(RootsAfter(lists), items), |items|)
  {
    hide RootsAfter, JoinedRoots, Kept, Rooted;
    var all := lists + [items];
    assert all[..|lists|] == lists && all[..|lists| + 1] == all;
    var root := RootsAfter(lists);
    RunIsRooted(all, |lists|);
    RootsAfterNext(all, |lists|);
    EnteredRoots(root, items);
    var roots := RootList(root, items);
    JoinedRootsAre(Entered(root, items), roots, |roots|);
    var j :| 0 <= j < |items| && items[j] == x;
    assert roots[..|roots|] == roots && roots[j] in roots;
  }

  lemma ThreeNames()
    ensures var a, c, e := Name("a"), Name("c"), Name("e");
            && a != c && c != e && a != e
            && AtMost(a.text, e.text) && AtMost(a.text, c.text) && !AtMost(e.text, c.text) && AtMost(c.text, c.text)
  {
    assert "a"[0] == 'a' && "c"[0] == 'c' && "e"[0] == 'e';
    AtMostSelf("c");
  }

  /** The kept root of e, a, c is c; of two equal roots it is that root, and of a, a, c or a, e it is a. */
  lemma KeptOfThree()
    ensures var a, c, e := Name("a"), Name("c"), Name("e");
            && Kept([e, a, c], 3) == c && Kept([c, c], 2) == c && Kept([a, e], 2) == a && Kept([a, a, c], 3) == a
  {
    hide AtMost;
    ThreeNames();
    var a, c, e := Name("a"), Name("c"), Name("e");
    AtMostSelf(a.text);
    assert [e, a, c][..2] == [e, a];
    assert Displaces([e, a, c], 2);
    KeptUnlessDisplaced([c, c], 0, 2);
    KeptUnlessDisplaced([a, e], 0, 2);
    KeptUnlessDisplaced([a, a, c], 0, 3);
  }

  /**
   The root need not be the least name, and the order of the rows decides which it is: with the row
   e, a, c first it is c for good, with the row a, e first it is a.
   */
  lemma RootDependsOnOrder()
    ensures var a, c, e := Name("a"), Name("c"), Name("e");
            && a in RootsAfter([[e, a, c], [a, e]]) && RootsAfter([[e, a, c], [a, e]])[a] == c
            && a in RootsAfter([[a, e], [e, a, c]]) && RootsAfter([[a, e], [e, a, c]])[a] == a
  {
    hide RootsAfter, Kept, AtMost;
    var a, c, e := Name("a"), Name("c"), Name("e");
    KeptOfThree();
    assert RootsAfter([]) == map[] by { NoRoots(); }
    RowsFirst(a, c, e);
    RowsSecond(a, c, e);
  }

  lemma NoRoots()
    ensures RootsAfter([]) == map[]
  {
  }

  /** A name of no list has no root. */
  lemma {:induction false} NewName(lists: seq<seq<Name>>, x: Name)
    requires forall l | l in lists :: x !in l
    ensures x !in RootsAfter(lists)
  {
    if lists != [] {
      var n := |lists| - 1;
      NewName(lists[..n], x);
      var root, items := RootsAfter(lists[..n]), lists[n];
      RunIsRooted(lists, n);
      EnteredRoots(root, items);
      JoinedRootsAre(Entered(root, items), RootList(root, items), |items|);
      assert items in lists;
    }
  }

  lemma RowsFirst(a: Name, c: Name, e: Name)
    requires Kept([e, a, c], 3) == c && Kept([c, c], 2) == c
    ensures a in RootsAfter([[e, a, c], [a, e]]) && RootsAfter([[e, a, c], [a, e]])[a] == c
  {
    hide RootsAfter, Kept, AtMost;
    NoRoots();
    assert [] + [[e, a, c]] == [[e, a, c]] && [[e, a, c]] + [[a, e]] == [[e, a, c], [a, e]];
    assert RootList(map[], [e, a, c]) == [e, a, c];
    RootAfter([], [e, a, c], a);
    RootAfter([], [e, a, c], e);
    assert RootList(RootsAfter([[e, a, c]]), [a, e]) == [c, c];
    RootAfter([[e, a, c]], [a, e], a);
  }

  lemma RowsSecond(a: Name, c: Name, e: Name)
    requires a != c && c != e && a != e && Kept([a, e], 2) == a && Kept([a, a, c], 3) == a
    ensures a in RootsAfter([[a, e], [e, a, c]]) && RootsAfter([[a, e], [e, a, c]])[a] == a
  {
    hide RootsAfter, Kept, AtMost;
    NoRoots();
    assert [] + [[a, e]] == [[a, e]] && [[a, e]] + [[e, a, c]] == [[a, e], [e, a, c]];
    assert RootList(map[], [a, e]) == [a, e];
    RootAfter([], [a, e], a);
    RootAfter([], [a, e], e);
    NewName([[a, e]], c);
    assert RootList(RootsAfter([[a, e]]), [e, a, c]) == [a, a, c];
    RootAfter([[a, e]], [e, a, c], a);
  }

  class UnionFind {
    var parent: map<Name, Name>
    ghost var root: map<Name, Name>
    ghost var rank: map<Name, nat>
    ghost var lists: seq<seq<Name>>

    ghost predicate Shaped()
      reads this
    {
      Forest(parent, root, rank)
    }

    ghost predicate Valid()
      reads this
    {
      Shaped() && Sound(lists, root) && Complete(lists, root)
    }

    constructor ()
      ensures Valid() && parent == map[] && root == map[] && lists == []
    {
      parent, root, rank, lists := map[], map[], map[], [];
    }

    /** The root of x, adding x as a tree of its own when it is new. Trees never change. */
    method Find(start: Name) returns (r: Name)
      requires Shaped()
      modifies this`parent, this`root, this`rank
      ensures Shaped()
      ensures root == if start in old(root) then old(root) else old(root)[start := start]
      ensures start in root && r == root[start] && r in root && root[r] == r
    {
      hide Forest;
      var x := start;
      KeysAgree(parent, root, rank);
      if x !in parent {
        AddedName(parent, root, rank, x);
        parent, root, rank := parent[x := x], root[x := x], rank[x := 0];
      }
      KeysAgree(parent, root, rank);
      NodeOf(parent, root, rank, x);
      ghost var entered := root;
      while parent[x] != x
        invariant Shaped() && parent.Keys == root.Keys == rank.Keys
        invariant root == entered && x in parent && start in root && root[x] == root[start]
        invariant Node(parent, root, rank, x)
        decreases rank[x]
      {
        Halved(parent, root, rank, x);
        NodeOf(parent, root, rank, parent[x]);
        parent := parent[x := parent[parent[x]]];
        x := parent[x];
        NodeOf(parent, root, rank, x);
      }
      return x;
    }

    /** Joins the trees of all items, one after the other, to that of the first. */
    method Union(items: seq<Name>)
      requires Valid()
      modifies this
      ensures Valid() && lists == old(lists) + [items]
      ensures parent.Keys == old(parent.Keys) + Named(items)
      ensures var entered := Entered(old(root), items);
              root == JoinedRoots(entered, RootList(entered, items), |items|)
      ensures forall x | x in root :: root[x] == UnitedAt(old(root), items, x)
      ensures LeastRoots(old(root)) ==> (LeastRoots(root) <==> LeastStays(RootList(old(root), items)))
    {
      hide Forest, Sound, Complete, Named, Resolved, Joined, Entered, RootList, JoinedRoots, UnitedAt, LeastRoots,
        LeastStays;
      KeysAgree(parent, root, rank);
      ForestIsRooted(parent, root, rank);
      United(root, items);
      JoinedOne(Entered(root, items), RootList(Entered(root, items), items));
      var roots := FindAll(items);
      KeysAgree(parent, root, rank);
      MoreLists(lists, items, root);
      JoinedFirst(root, items, roots);
      ghost var entered := root;
      var k := 1;
      while k < |roots|
        invariant Shaped() && Sound(lists + [items], root) && Complete(lists, root)
        invariant parent.Keys == root.Keys == old(parent.Keys) + Named(items)
        invariant lists == old(lists) && 1 <= k && (k <= |roots| || k == 1)
        invariant root == JoinedRoots(entered, roots, k)
        invariant Resolved(root, items, roots, |items|) && Joined(root, items, k)
      {
        Join(items, roots, k);
        JoinedMore(entered, roots, k);
        k := k + 1;
      }
      JoinedAll(lists, root, items, k);
      lists := lists + [items];
    }

    /** The roots of all items. */
    method FindAll(items: seq<Name>) returns (roots: seq<Name>)
      requires Valid()
      modifies this`parent, this`root, this`rank
      ensures Valid() && root.Keys == old(root.Keys) + Named(items)
      ensures |roots| == |items| && Resolved(root, items, roots, |items|)
      ensures root == Entered(old(root), items) && roots == RootList(root, items)
    {
      hide Forest, Sound, Complete, Named, Resolved, Entered;
      EnteredNone(root, items);
      roots := [];
      NoneFound(root, items);
      for k := 0 to |items|
        invariant Valid() && |roots| == k
        invariant root.Keys == old(root.Keys) + Named(items[..k])
        invariant Resolved(root, items, roots, k)
        invariant root == Entered(old(root), items[..k])
        invariant forall j | 0 <= j < k :: items[j] in root && roots[j] == root[items[j]]
      {
        ghost var before := root;
        var r := Find(items[k]);
        if items[k] !in before {
          AddedKeeps(lists, before, items[k]);
        }
        ResolvedMore(before, root, items, roots, k, r);
        NamedStep(items, k);
        EnteredStep(old(root), items, k);
        roots := roots + [r];
      }
      assert items[..|items|] == items;
      RootsFound(root, items, roots);
    }

    /** Hangs one of two trees below the root of the other, the one of the name that comes first staying on top. */
    method Join(items: seq<Name>, roots: seq<Name>, k: nat)
      requires Shaped() && Sound(lists + [items], root) && Complete(lists, root)
      requires |roots| == |items| && 1 <= k < |roots|
      requires Resolved(root, items, roots, |items|) && Joined(root, items, k)
      modifies this`parent, this`root, this`rank
      ensures Shaped() && Sound(lists + [items], root) && Complete(lists, root)
      ensures parent.Keys == root.Keys == old(root.Keys)
      ensures Resolved(root, items, roots, |items|) && Joined(root, items, k + 1)
      ensures var (a, b) := Ordered(roots[0], roots[k]);
              root == MergedRoots(old(root), At(old(root), a), At(old(root), b))
    {
      hide Forest, Sound, Complete, AtMost, Resolved, Joined, MergedRoots, MergedRanks;
      ResolvedAt(root, items, roots, 0);
      ResolvedAt(root, items, roots, k);
      var a, b := roots[0], roots[k];
      if !AtMost(a.text, b.text) {
        a, b := b, a;
      }
      var ra := Find(a);
      var rb := Find(b);
      KeysAgree(parent, root, rank);
      ItemsConnect(lists, items, root, items[0], items[k]);
      ItemsConnect(lists, items, root, items[k], items[0]);
      Attached(parent, root, rank, ra, rb);
      MergedKeepsLists(lists, root, ra, rb);
      MergedIsConnected(lists + [items], root, ra, rb);
      MergeJoins(root, items, roots, k, ra, rb);
      parent, root, rank := parent[rb := ra], MergedRoots(root, ra, rb), MergedRanks(root, rank, ra, rb);
      KeysAgree(parent, root, rank);
    }
  }

  lemma ResolvedAt(root: map<Name, Name>, items: seq<Name>, roots: seq<Name>, k: nat)
    requires Resolved(root, items, roots, |items|) && k < |items|
    ensures items[k] in root && roots[k] in root && root[roots[k]] == root[items[k]]
  {
  }

  /** Merging the trees of the first and the k-th item puts the first k + 1 items into one tree. */
  lemma MergeJoins(root: map<Name, Name>, items: seq<Name>, roots: seq<Name>, k: nat, ra: Name, rb: Name)
    requires Resolved(root, items, roots, |items|) && Joined(root, items, k) && 1 <= k < |items|
    requires ra in root && rb in root
    requires (ra == root[items[0]] && rb == root[items[k]]) || (ra == root[items[k]] && rb == root[items[0]])
    ensures MergedRoots(root, ra, rb).Keys == root.Keys
    ensures Resolved(MergedRoots(root, ra, rb), items, roots, |items|)
            && Joined(MergedRoots(root, ra, rb), items, k + 1)
  {
  }

  lemma NoneFound(root: map<Name, Name>, items: seq<Name>)
    ensures Resolved(root, items, [], 0) && Named(items[..0]) == {}
  {
  }

  lemma JoinedFirst(root: map<Name, Name>, items: seq<Name>, roots: seq<Name>)
    requires Resolved(root, items, roots, |items|)
    ensures Joined(root, items, 1)
  {
  }

  lemma JoinedAll(lists: seq<seq<Name>>, root: map<Name, Name>, items: seq<Name>, k: nat)
    requires Complete(lists, root) && Joined(root, items, k) && |items| <= k
    ensures Complete(lists + [items], root)
  {
    ListDone(lists, items, root);
  }

  lemma KeysAgree(parent: map<Name, Name>, root: map<Name, Name>, rank: map<Name, nat>)
    requires Forest(parent, root, rank)
    ensures parent.Keys == root.Keys == rank.Keys
  {
  }

  lemma NodeOf(parent: map<Name, Name>, root: map<Name, Name>, rank: map<Name, nat>, x: Name)
    requires Forest(parent, root, rank) && x in parent
    ensures parent.Keys == root.Keys == rank.Keys && Node(parent, root, rank, x)
  {
  }

  // ----- No circles -----

  /** n steps from a name to its parent. */
  ghost function Climb(parent: map<Name, Name>, x: Name, n: nat): Name
    requires x in parent && forall y | y in parent :: parent[y] in parent
    decreases n
  {
    if n == 0 then x else Climb(parent, parent[x], n - 1)
  }

  /** Following parents ends at the root, within as many steps as the rank. */
  lemma {:induction false} ClimbEnds(parent: map<Name, Name>, root: map<Name, Name>, rank: map<Name, nat>, x: Name,
                                     n: nat)
    requires Forest(parent, root, rank) && x in parent
    ensures forall y | y in parent :: parent[y] in parent
    ensures rank[x] <= n ==> Climb(parent, x, n) == root[x]
    decreases n
  {
    forall y | y in parent ensures parent[y] in parent {
      assert Node(parent, root, rank, y);
    }
    assert Node(parent, root, rank, x);
    if n > 0 {
      ClimbEnds(parent, root, rank, parent[x], n - 1);
      if parent[x] == x {
        RootStays(parent, root, rank, x, n);
      }
    }
  }

  lemma {:induction false} RootStays(parent: map<Name, Name>, root: map<Name, Name>, rank: map<Name, nat>, x: Name,
                                     n: nat)
    requires Forest(parent, root, rank) && x in parent && parent[x] == x
    requires forall y | y in parent :: parent[y] in parent
    ensures Climb(parent, x, n) == x
    decreases n
  {
    if n > 0 {
      RootStays(parent, root, rank, x, n - 1);
    }
  }

  /** No name is reached from itself by one or more steps, unless it is a root. */
  lemma {:induction false} NoCircle(parent: map<Name, Name>, root: map<Name, Name>, rank: map<Name, nat>, x: Name,
                                    n: nat)
    requires Forest(parent, root, rank) && x in parent && n > 0
    ensures forall y | y in parent :: parent[y] in parent
    ensures Climb(parent, x, n) == x ==> parent[x] == x
  {
    ClimbEnds(parent, root, rank, x, 0);
    assert Node(parent, root, rank, x);
    if parent[x] != x {
      Descends(parent, root, rank, parent[x], n - 1);
    }
  }

  lemma {:induction false} Descends(parent: map<Name, Name>, root: map<Name, Name>, rank: map<Name, nat>, x: Name,
                                    n: nat)
    requires Forest(parent, root, rank) && x in parent
    requires forall y | y in parent :: parent[y] in parent
    ensures Climb(parent, x, n) in rank && rank[Climb(parent, x, n)] <= rank[x]
    decreases n
  {
    assert Node(parent, root, rank, x);
    if n > 0 {
      Descends(parent, root, rank, parent[x], n - 1);
    }
  }
}
