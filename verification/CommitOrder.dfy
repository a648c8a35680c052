/**
 What the seeded orders of tools/judgment_reeval.py mean for a built data set, in terms of the hash keys
 themselves: which commit stands for a component, in which order components, languages and rows come.
 */
module CommitOrder {
  import opened Ordering
  import opened Grouping
  import opened Components
  import opened CommitPack

  // ----- Filtering keeps order -----

  lemma {:induction false} FilterIncreases<T(!new)>(s: seq<T>, test: T -> bool, key: T -> real)
    requires Increasing(s, key)
    ensures Increasing(Filter(s, test), key)
  {
    if s != [] {
      var init, last := s[..|s| - 1], s[|s| - 1];
      FilterIncreases(init, test, key);
      var front := Filter(init, test);
      forall a | 0 <= a < |front|
        ensures key(front[a]) <= key(last)
      {
        BeforeLast(s, test, key, a);
      }
    }
  }

  lemma BeforeLast<T(!new)>(s: seq<T>, test: T -> bool, key: T -> real, a: nat)
    requires s != [] && Increasing(s, key) && a < |Filter(s[..|s| - 1], test)|
    ensures key(Filter(s[..|s| - 1], test)[a]) <= key(s[|s| - 1])
  {
    hide Filter;
    var init := s[..|s| - 1];
    var x := Filter(init, test)[a];
    FilterMembers(init, test);
    assert x in Filter(init, test);
    var k :| 0 <= k < |init| && init[k] == x;
    assert s[k] == x;
  }

  /** Elements that pass the test stand in the list as they stand in its filtered form. */
  lemma {:induction false} OrderedInFilter<T>(s: seq<T>, test: T -> bool, key: T -> real, i: nat, j: nat)
    requires Increasing(Filter(s, test), key) && i < j < |s| && test(s[i]) && test(s[j])
    ensures key(s[i]) <= key(s[j])
  {
    var init, last := s[..|s| - 1], s[|s| - 1];
    var front := Filter(init, test);
    assert Filter(s, test) == front + if test(last) then [last] else [];
    assert Increasing(front, key) by {
      forall a, b | 0 <= a < b < |front|
        ensures key(front[a]) <= key(front[b])
      {
        assert Filter(s, test)[a] == front[a] && Filter(s, test)[b] == front[b];
      }
    }
    if j < |init| {
      OrderedInFilter(init, test, key, i, j);
    } else {
      FilterMembers(init, test);
      assert init[i] in init;
      var a :| 0 <= a < |front| && front[a] == s[i];
      assert Filter(s, test)[a] == s[i] && Filter(s, test)[|front|] == last;
    }
  }

  lemma PrefixIncreases<T>(s: seq<T>, n: nat, key: T -> real)
    requires Increasing(s, key) && n <= |s|
    ensures Increasing(s[..n], key)
  {
  }

  // ----- The commit that stands for a component -----

  function RootKey(role: Role, h: Hashes): Entry -> real {
    (e: Entry) => h.groupKey(role, e.root)
  }

  /** Every pick has the least key of its component, and the picks stand in the order of their components' keys. */
  lemma PicksInOrder(role: Role, members: seq<Entry>, h: Hashes)
    ensures var picks := PicksOf(role, members, h);
            && (forall p, d | p in picks && d in members && d.root == p.root ::
                  h.pickKey(p.commit.id) <= h.pickKey(d.commit.id))
            && Increasing(picks, RootKey(role, h))
  {
    hide GroupAll, SortBy, MinBy, GroupedBy;
    var groups := GroupAll(members, EntryRoot());
    GroupAllGroups(members, EntryRoot());
    GroupNames(groups, members);
    var order := SortBy(groups.names, GroupOrder(role, h));
    SortedBy(groups.names, GroupOrder(role, h));
    Rearranged(order, groups.names);
    var picks := PicksIn(groups, order, h);
    forall i | 0 <= i < |picks|
      ensures picks[i].root == order[i]
      ensures forall d | d in members && d.root == order[i] :: h.pickKey(picks[i].commit.id) <= h.pickKey(d.commit.id)
    {
      assert order[i] in order;
      GroupMembers(groups, members, order[i]);
      AllInGroup(groups, members, order[i]);
      LeastKey(groups.lists[order[i]], h);
    }
  }

  lemma AllInGroup(groups: Dict<Name, Entry>, members: seq<Entry>, n: Name)
    requires GroupedBy(groups, members, EntryRoot()) && n in groups.lists
    ensures forall d | d in members && d.root == n :: d in groups.lists[n]
  {
    assert Grouped(groups, members, EntryRoot(), n);
    FilterMembers(members, Is(EntryRoot(), n));
  }

  lemma LeastKey(entries: seq<Entry>, h: Hashes)
    requires entries != []
    ensures forall d | d in entries :: h.pickKey(MinBy(entries, PickOrder(h)).commit.id) <= h.pickKey(d.commit.id)
  {
    hide MinBy;
    forall d | d in entries
      ensures h.pickKey(MinBy(entries, PickOrder(h)).commit.id) <= h.pickKey(d.commit.id)
    {
      assert PickOrder(h)(MinBy(entries, PickOrder(h))) <= PickOrder(h)(d);
    }
  }

  // ----- The choice of a role -----

  /** Every chosen commit has the least seeded key among the role's commits of its component. */
  ghost predicate LeastOfComponents(members: seq<Entry>, h: Hashes, chosen: seq<Entry>) {
    forall e, d | e in chosen && d in members && d.root == e.root :: h.pickKey(e.commit.id) <= h.pickKey(d.commit.id)
  }

  /** Within a language the components come in seeded order. */
  ghost predicate ComponentsInOrder(role: Role, h: Hashes, chosen: seq<Entry>) {
    forall i, j | 0 <= i < j < |chosen| && chosen[i].commit.language == chosen[j].commit.language ::
      h.groupKey(role, chosen[i].root) <= h.groupKey(role, chosen[j].root)
  }

  ghost predicate FirstOfLanguage(chosen: seq<Entry>, i: nat) {
    i < |chosen| && forall k | 0 <= k < i :: chosen[k].commit.language != chosen[i].commit.language
  }

  /** The languages first come up in seeded order. */
  ghost predicate LanguagesInOrder(role: Role, h: Hashes, chosen: seq<Entry>) {
    forall i: nat, j: nat | i < j && FirstOfLanguage(chosen, i) && FirstOfLanguage(chosen, j) ::
      h.languageKey(role, chosen[i].commit.language) <= h.languageKey(role, chosen[j].commit.language)
  }

  lemma ChosenInOrder(role: Role, members: seq<Entry>, limit: int, h: Hashes, chosen: seq<Entry>)
    requires Chosen(role, members, limit, h, chosen)
    ensures LeastOfComponents(members, h, chosen) && ComponentsInOrder(role, h, chosen)
            && LanguagesInOrder(role, h, chosen)
  {
    hide PicksOf, GroupAll, RoundRobin, Level, OneEach, Filter, TakenFirst;
    var picks := PicksOf(role, members, h);
    var firsts := GroupAll(picks, EntryLanguage());
    GroupAllGroups(picks, EntryLanguage());
    PicksInOrder(role, members, h);
    forall e | e in chosen
      ensures e in picks
    {
      TakenIsPicked(firsts, picks, chosen, e);
    }
    forall i, j | 0 <= i < j < |chosen| && chosen[i].commit.language == chosen[j].commit.language
      ensures h.groupKey(role, chosen[i].root) <= h.groupKey(role, chosen[j].root)
    {
      TakenInOrder(role, h, firsts, picks, chosen, i, j);
    }
    TurnsInOrder(role, h, firsts, picks, chosen);
  }

  lemma TakenIsPicked(firsts: Dict<Language, Entry>, picks: seq<Entry>, chosen: seq<Entry>, e: Entry)
    requires GroupedBy(firsts, picks, EntryLanguage()) && e in chosen
    requires TakenFirst(firsts, chosen, e.commit.language)
    ensures e in picks
  {
    hide Filter;
    var l := e.commit.language;
    assert Grouped(firsts, picks, EntryLanguage(), l);
    FilterMembers(chosen, Is(EntryLanguage(), l));
    FilterMembers(picks, Is(EntryLanguage(), l));
    assert e in Filter(chosen, Is(EntryLanguage(), l));
  }

  lemma TakenInOrder(role: Role, h: Hashes, firsts: Dict<Language, Entry>, picks: seq<Entry>, chosen: seq<Entry>,
                     i: nat, j: nat)
    requires GroupedBy(firsts, picks, EntryLanguage()) && Increasing(picks, RootKey(role, h))
    requires i < j < |chosen| && chosen[i].commit.language == chosen[j].commit.language
    requires TakenFirst(firsts, chosen, chosen[i].commit.language)
    ensures h.groupKey(role, chosen[i].root) <= h.groupKey(role, chosen[j].root)
  {
    hide Filter, Increasing;
    var l := chosen[i].commit.language;
    var test := Is(EntryLanguage(), l);
    assert Grouped(firsts, picks, EntryLanguage(), l);
    FilterIncreases(picks, test, RootKey(role, h));
    PrefixIncreases(Filter(picks, test), |Filter(chosen, test)|, RootKey(role, h));
    OrderedInFilter(chosen, test, RootKey(role, h), i, j);
    assert RootKey(role, h)(chosen[i]) <= RootKey(role, h)(chosen[j]);
  }

  /** The first turn takes one entry of every list, in the order of the keys. */
  lemma {:induction false} FirstTurn<K, V>(lists: map<K, seq<V>>, order: seq<K>)
    requires forall k | k in order :: k in lists && lists[k] != []
    ensures |Turn(lists, order, 0)| == |order|
    ensures forall i | 0 <= i < |order| :: order[i] in order && Turn(lists, order, 0)[i] == lists[order[i]][0]
  {
    if order != [] {
      FirstTurn(lists, order[1..]);
      forall i | 0 <= i < |order|
        ensures Turn(lists, order, 0)[i] == lists[order[i]][0]
      {
        assert i > 0 ==> order[i] == order[1..][i - 1];
      }
    }
  }

  lemma {:induction false} FirstTurnFirst<K, V>(lists: map<K, seq<V>>, order: seq<K>, n: nat)
    requires n > 0
    ensures Turn(lists, order, 0) <= Turns(lists, order, n)
  {
    if n == 1 {
      assert Turns(lists, order, 0) == [];
    } else {
      FirstTurnFirst(lists, order, n - 1);
    }
  }

  lemma TurnsInOrder(role: Role, h: Hashes, firsts: Dict<Language, Entry>, picks: seq<Entry>, chosen: seq<Entry>)
    requires firsts == GroupAll(picks, EntryLanguage()) && GroupedBy(firsts, picks, EntryLanguage())
    requires RoundRobin(role, h, picks, chosen) && forall l :: TakenFirst(firsts, chosen, l)
    ensures LanguagesInOrder(role, h, chosen)
  {
    hide GroupAll, SortBy, Turns, Turn, Filter, TakenFirst;
    var order := SortBy(firsts.names, LanguageOrder(role, h));
    SortedBy(firsts.names, LanguageOrder(role, h));
    Rearranged(order, firsts.names);
    var n :| chosen <= Turns(firsts.lists, order, n);
    if n > 0 {
      forall l | l in order
        ensures l in firsts.lists && firsts.lists[l] != [] && firsts.lists[l][0].commit.language == l
      {
        LanguageList(firsts, picks, l);
      }
      FirstTurn(firsts.lists, order);
      FirstTurnFirst(firsts.lists, order, n);
      forall i | 0 <= i < |chosen| && i < |order|
        ensures chosen[i].commit.language == order[i]
      {
        assert chosen[i] == Turns(firsts.lists, order, n)[i] == Turn(firsts.lists, order, 0)[i];
      }
      forall i: nat | FirstOfLanguage(chosen, i)
        ensures i < |order|
      {
        LanguageListed(firsts, picks, chosen, chosen[i]);
        var m :| 0 <= m < |order| && order[m] == chosen[i].commit.language;
      }
      forall i: nat, j: nat | i < j && FirstOfLanguage(chosen, i) && FirstOfLanguage(chosen, j)
        ensures h.languageKey(role, chosen[i].commit.language) <= h.languageKey(role, chosen[j].commit.language)
      {
        assert LanguageOrder(role, h)(order[i]) <= LanguageOrder(role, h)(order[j]);
      }
    } else {
      assert Turns(firsts.lists, order, 0) == [] by { NoTurns(firsts.lists, order); }
    }
  }

  lemma NoTurns<K, V>(lists: map<K, seq<V>>, order: seq<K>)
    ensures Turns(lists, order, 0) == []
  {
  }

  lemma LanguageList(firsts: Dict<Language, Entry>, picks: seq<Entry>, l: Language)
    requires GroupedBy(firsts, picks, EntryLanguage()) && l in firsts.names
    ensures l in firsts.lists && firsts.lists[l] != [] && firsts.lists[l][0].commit.language == l
  {
    hide Filter;
    assert Grouped(firsts, picks, EntryLanguage(), l);
    FilterMembers(picks, Is(EntryLanguage(), l));
    assert firsts.lists[l][0] in firsts.lists[l];
  }

  lemma LanguageListed(firsts: Dict<Language, Entry>, picks: seq<Entry>, chosen: seq<Entry>, e: Entry)
    requires GroupedBy(firsts, picks, EntryLanguage()) && e in chosen
    requires TakenFirst(firsts, chosen, e.commit.language)
    ensures e.commit.language in firsts.names
  {
    hide Filter;
    var l := e.commit.language;
    assert Grouped(firsts, picks, EntryLanguage(), l);
    FilterMembers(chosen, Is(EntryLanguage(), l));
    assert e in Filter(chosen, Is(EntryLanguage(), l));
  }

  // ----- The rows -----

  function Place(role: Role): nat {
    match role
    case Train => 0
    case Validation => 1
    case Calibration => 2
    case Test => 3
  }

  /** Rows come role by role, and within a role in seeded order. */
  ghost predicate RowsInOrder(h: Hashes, rows: seq<Example>) {
    forall i, j | 0 <= i < j < |rows| :: InOrder(h, rows[i], rows[j])
  }

  ghost predicate InOrder(h: Hashes, x: Example, y: Example) {
    && Place(x.role) <= Place(y.role)
    && (x.role == y.role ==> h.matchKey(x.commit.id) <= h.matchKey(y.commit.id))
  }

  lemma SortedByMatchKey(chosen: seq<Entry>, h: Hashes)
    ensures forall i, j | 0 <= i < j < |MatchOrder(chosen, h)| ::
              h.matchKey(MatchOrder(chosen, h)[i].commit.id) <= h.matchKey(MatchOrder(chosen, h)[j].commit.id)
  {
    hide SortBy;
    var key := (e: Entry) => h.matchKey(e.commit.id);
    SortedBy(chosen, key);
    var order := MatchOrder(chosen, h);
    assert order == SortBy(chosen, key);
    forall i, j | 0 <= i < j < |order|
      ensures h.matchKey(order[i].commit.id) <= h.matchKey(order[j].commit.id)
    {
      assert key(order[i]) <= key(order[j]);
    }
  }

  /** Rows so far come from the places below k. */
  ghost predicate FromPlaces(role: Role, sorted: seq<Entry>, rows: seq<Example>, k: nat)
    requires k <= |sorted|
  {
    forall x | x in rows :: x.role == role && exists j :: 0 <= j < k && sorted[j].commit == x.commit
  }

  lemma {:induction false} ExamplesInOrder(role: Role, chosen: seq<Entry>, sorted: seq<Entry>, h: Hashes, k: nat)
    requires k <= |sorted|
    requires forall i, j | 0 <= i < j < |sorted| :: h.matchKey(sorted[i].commit.id) <= h.matchKey(sorted[j].commit.id)
    ensures var rows := Examples(role, chosen, sorted, h, k); FromPlaces(role, sorted, rows, k) && RowsInOrder(h, rows)
  {
    hide FromPlaces, RowsInOrder, ExampleOf;
    if k == 0 {
      NothingOutOfOrder(role, sorted, h);
    } else {
      ExamplesInOrder(role, chosen, sorted, h, k - 1);
      OneMoreInOrder(role, chosen, sorted, h, k - 1, Examples(role, chosen, sorted, h, k - 1));
    }
  }

  lemma NothingOutOfOrder(role: Role, sorted: seq<Entry>, h: Hashes)
    ensures FromPlaces(role, sorted, [], 0) && RowsInOrder(h, [])
  {
  }

  lemma OneMoreInOrder(role: Role, chosen: seq<Entry>, sorted: seq<Entry>, h: Hashes, k: nat, before: seq<Example>)
    requires k < |sorted| && FromPlaces(role, sorted, before, k) && RowsInOrder(h, before)
    requires forall i, j | 0 <= i < j < |sorted| :: h.matchKey(sorted[i].commit.id) <= h.matchKey(sorted[j].commit.id)
    ensures var rows := before + ExampleOf(role, chosen, h, sorted[k], k % 2 == 0);
            FromPlaces(role, sorted, rows, k + 1) && RowsInOrder(h, rows)
  {
    hide Shown;
    var last := ExampleOf(role, chosen, h, sorted[k], k % 2 == 0);
    forall x | x in before
      ensures h.matchKey(x.commit.id) <= h.matchKey(sorted[k].commit.id)
      ensures exists j :: 0 <= j < k + 1 && sorted[j].commit == x.commit
    {
      var j :| 0 <= j < k && sorted[j].commit == x.commit;
    }
    JoinedInOrder(h, before, last);
  }

  lemma JoinedInOrder(h: Hashes, a: seq<Example>, b: seq<Example>)
    requires RowsInOrder(h, a) && RowsInOrder(h, b) && forall x, y | x in a && y in b :: InOrder(h, x, y)
    ensures RowsInOrder(h, a + b)
  {
    hide InOrder;
    forall i, j | 0 <= i < j < |a + b|
      ensures InOrder(h, (a + b)[i], (a + b)[j])
    {
      if i < |a| <= j {
        assert a[i] in a && b[j - |a|] in b;
      }
    }
  }

  lemma {:induction false} RolesInOrder(chosen: map<Role, seq<Entry>>, h: Hashes, k: nat)
    requires k <= |ROLES|
    ensures RowsInOrder(h, RowsOf(chosen, h, ROLES[..k]))
    ensures forall x | x in RowsOf(chosen, h, ROLES[..k]) :: Place(x.role) < k
  {
    hide RoleExamples;
    if k > 0 {
      RolesInOrder(chosen, h, k - 1);
      assert ROLES[..k][..k - 1] == ROLES[..k - 1];
      var role := ROLES[k - 1];
      assert Place(role) == k - 1;
      if role in chosen {
        RoleInOrder(role, chosen[role], h);
        JoinedInOrder(h, RowsOf(chosen, h, ROLES[..k - 1]), RoleExamples(role, chosen[role], h));
      }
    }
  }

  lemma RoleInOrder(role: Role, chosen: seq<Entry>, h: Hashes)
    ensures RowsInOrder(h, RoleExamples(role, chosen, h))
    ensures forall x | x in RoleExamples(role, chosen, h) :: x.role == role
  {
    hide MatchOrder;
    SortedByMatchKey(chosen, h);
    ExamplesInOrder(role, chosen, MatchOrder(chosen, h), h, |MatchOrder(chosen, h)|);
  }

  /** The role of a component, from the last two digits of its hash. */
  ghost predicate InBucket(h: Hashes, x: Example) {
    var b := h.bucket(x.root) % 100;
    match x.role
    case Train => b < 70
    case Validation => 70 <= b < 80
    case Calibration => 80 <= b < 90
    case Test => 90 <= b
  }

  /** The subject of another component's commit of the same language, of least seeded key among all such. */
  ghost predicate ShowsNearest(h: Hashes, chosen: seq<Entry>, x: Example) {
    exists o :: o in chosen && OtherSubject(h, x, o) && x.shown == o.commit.subject
      && forall p | p in chosen && OtherSubject(h, x, p) ::
           h.negativeKey(x.commit.id, o.commit.id) <= h.negativeKey(x.commit.id, p.commit.id)
  }

  ghost predicate OtherSubject(h: Hashes, x: Example, o: Entry) {
    && o.commit.language == x.commit.language && o.root != x.root
    && h.normal(o.commit.subject) != h.normal(x.commit.subject)
  }

  lemma HonestShows(role: Role, chosen: seq<Entry>, h: Hashes, x: Example)
    requires Honest(role, chosen, h, x)
    ensures x.shown == x.commit.subject || ShowsNearest(h, chosen, x)
    ensures if x.matches then x.shown == x.commit.subject else ShowsNearest(h, chosen, x)
  {
    if !x.matches {
      var e := Entry(x.root, x.commit);
      var o :| Nearest(chosen, h, e, o) && x.shown == o.commit.subject;
      forall p
        ensures Partner(h, e)(p) <==> OtherSubject(h, x, p)
      {
      }
      forall p | p in chosen && OtherSubject(h, x, p)
        ensures h.negativeKey(x.commit.id, o.commit.id) <= h.negativeKey(x.commit.id, p.commit.id)
      {
        assert Partner(h, e)(p);
        assert NegativeOrder(h, e)(o) <= NegativeOrder(h, e)(p);
      }
    }
  }

  /**
   A built data set in terms of the keys: every row is of the role of its bucket and shows its own subject
   or the nearest other one; rows come role by role in the order of their match keys; and in every role
   the choice takes the least commit of each component, components and languages in the order of theirs.
   */
  lemma BuiltInOrder(commits: seq<Commit>, kev: Kev, h: Hashes, limits: Role -> int, rows: seq<Example>,
                     chosen: map<Role, seq<Entry>>)
    requires Faithful(commits, kev, h, limits, rows, chosen)
    ensures RowsInOrder(h, rows)
    ensures forall x | x in rows ::
              && InBucket(h, x) && x.role in chosen
              && if x.matches then x.shown == x.commit.subject else ShowsNearest(h, chosen[x.role], x)
    ensures forall role: Role ::
              && role in chosen
              && LeastOfComponents(Members(commits, kev, h, role), h, chosen[role])
              && ComponentsInOrder(role, h, chosen[role]) && LanguagesInOrder(role, h, chosen[role])
  {
    hide Chosen, Candidates, Entries, RowsOf, Honest, Represented, MatchOrder, Filter, Apart, Unconnected, Covered,
      LeastOfComponents, ComponentsInOrder, LanguagesInOrder, ShowsNearest, RowsInOrder, Eligible, Lists;
    RolesInOrder(chosen, h, |ROLES|);
    assert ROLES[..|ROLES|] == ROLES;
    forall x | x in rows
      ensures InBucket(h, x) && x.role in chosen
      ensures if x.matches then x.shown == x.commit.subject else ShowsNearest(h, chosen[x.role], x)
    {
      HonestShows(x.role, chosen[x.role], h, x);
    }
    forall role: Role
      ensures role in chosen && LeastOfComponents(Members(commits, kev, h, role), h, chosen[role])
      ensures ComponentsInOrder(role, h, chosen[role]) && LanguagesInOrder(role, h, chosen[role])
    {
      assert RoleDone(Entries(Candidates(commits, kev, h), kev, h), h, limits(role), role, chosen[role], rows);
      ChosenInOrder(role, Members(commits, kev, h, role), limits(role), h, chosen[role]);
    }
  }

  /** The admitted entries of a role. */
  ghost function Members(commits: seq<Commit>, kev: Kev, h: Hashes, role: Role): seq<Entry> {
    Filter(Entries(Candidates(commits, kev, h), kev, h), InRole(h, role))
  }
}
