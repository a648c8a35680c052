/**
 The balanced selection of tools/judgment_calibrate.py: label-balanced pairs within a project,
 projects taken in turn.
 */
module SelectPairs {
  import opened Common
  import opened Ordering
  import opened Grouping

  datatype Project = Project(name: string)
  datatype Row = Row(id: string, project: Project, positive: bool)

  /** The rows of a project with and without the label, in seeded order. */
  datatype Stratum = Stratum(trues: seq<Row>, falses: seq<Row>)

  // ----- What is wanted -----

  function Of(p: Project, positive: bool): Row -> bool {
    (r: Row) => r.project == p && r.positive == positive
  }

  /** The rows of one project and label, in order. */
  function Having(rows: seq<Row>, p: Project, positive: bool): seq<Row> {
    Filter(rows, Of(p, positive))
  }

  /** The pairs that a project can give. */
  function Available(rows: seq<Row>, p: Project): nat {
    Min(|Having(rows, p, true)|, |Having(rows, p, false)|)
  }

  /** The pairs that a project has given. */
  function Given(out: seq<Row>, p: Project): nat {
    |Having(out, p, true)|
  }

  /** Rows 2i and 2i + 1 are a row with and a row without the label, of one project. */
  ghost predicate Paired(out: seq<Row>) {
    && |out| % 2 == 0
    && forall i | 0 <= i < |out| / 2 :: PairAt(out, i)
  }

  ghost predicate PairAt(out: seq<Row>, i: nat)
    requires 2 * i + 1 < |out|
  {
    out[2 * i].positive && !out[2 * i + 1].positive && out[2 * i].project == out[2 * i + 1].project
  }

  /** Of either label a project gives its first rows in seeded order, equally many of both. */
  ghost predicate TakesFirst(sorted: seq<Row>, out: seq<Row>, p: Project) {
    var c := Given(out, p);
    && c <= Available(sorted, p)
    && Having(out, p, true) == Having(sorted, p, true)[..c]
    && Having(out, p, false) == Having(sorted, p, false)[..c]
  }

  /** The pairs of a stratum: its i-th rows with and without the label. */
  function PairList(s: Stratum): seq<(Row, Row)> {
    seq(Pairs(s), i requires 0 <= i < Pairs(s) => (s.trues[i], s.falses[i]))
  }

  function PairLists(strata: map<Project, Stratum>): map<Project, seq<(Row, Row)>> {
    map p | p in strata :: PairList(strata[p])
  }

  function Flatten(pairs: seq<(Row, Row)>): seq<Row> {
    if pairs == [] then [] else Flatten(pairs[..|pairs| - 1]) + [pairs[|pairs| - 1].0, pairs[|pairs| - 1].1]
  }

  function ProjectOf(): Row -> Project {
    (r: Row) => r.project
  }

  /** The projects in order of their first row. */
  function FirstUse(rows: seq<Row>): seq<Project> {
    GroupAll(rows, ProjectOf()).names
  }

  /** The pairs that every project offers, in seeded order. */
  function Offers(sorted: seq<Row>): map<Project, seq<(Row, Row)>> {
    map p | p in FirstUse(sorted) :: PairList(Stratum(Having(sorted, p, true), Having(sorted, p, false)))
  }

  /** The result is the front of the list that takes one pair of each project in turn, projects in seeded order. */
  ghost predicate RoundRobin(sorted: seq<Row>, projectKey: Project -> real, out: seq<Row>) {
    exists n :: out <= Flatten(Turns(Offers(sorted), SortBy(FirstUse(sorted), projectKey), n))
  }

  /** Project p is at most one pair ahead of q, unless q has no pair left. */
  ghost predicate Balanced(rows: seq<Row>, out: seq<Row>, p: Project, q: Project) {
    Given(out, p) <= Given(out, q) + 1 || Given(out, q) == Available(rows, q)
  }

  // ----- Filtering -----

  lemma HavingAppend(rows: seq<Row>, r: Row, p: Project, positive: bool)
    ensures Having(rows + [r], p, positive) == Having(rows, p, positive) + if r.project == p
            && r.positive == positive then [r] else []
  {
    FilterAppend(rows, r, Of(p, positive));
  }

  lemma HavingCounts(rows: seq<Row>, r: Row)
    ensures multiset(Having(rows, r.project, r.positive))[r] == multiset(rows)[r]
  {
    FilterCounts(rows, Of(r.project, r.positive));
  }

  lemma HavingOwn(rows: seq<Row>, p: Project, positive: bool)
    ensures forall r | r in Having(rows, p, positive) :: r.project == p && r.positive == positive
  {
    FilterMembers(rows, Of(p, positive));
  }

  /** What is taken from the front of every stratum repeats nothing. */
  lemma NoRepetition(rows: seq<Row>, sorted: seq<Row>, out: seq<Row>)
    requires multiset(sorted) == multiset(rows)
    requires forall p :: TakesFirst(sorted, out, p)
    ensures multiset(out) <= multiset(rows)
  {
    forall r ensures multiset(out)[r] <= multiset(rows)[r] {
      assert TakesFirst(sorted, out, r.project);
      HavingCounts(out, r);
      HavingCounts(sorted, r);
      PrefixCounts(Having(sorted, r.project, r.positive), Given(out, r.project), r);
    }
  }

  // ----- The strata -----

  ghost predicate Stratified(done: seq<Row>, names: seq<Project>, strata: map<Project, Stratum>) {
    && Distinct(names) && names == FirstUse(done)
    && (forall p :: p in names <==> p in strata)
    && (forall p :: StratumOf(done, strata, p))
  }

  ghost predicate StratumOf(done: seq<Row>, strata: map<Project, Stratum>, p: Project) {
    Stratum(Having(done, p, true), Having(done, p, false)) == if p in strata then strata[p] else Stratum([], [])
  }

  lemma StratifiedStep(done: seq<Row>, names: seq<Project>, strata: map<Project, Stratum>, row: Row,
                       names': seq<Project>, strata': map<Project, Stratum>)
    requires Stratified(done, names, strata)
    requires var old' := if row.project in strata then strata[row.project] else Stratum([], []);
             && names' == (if row.project in strata then names else names + [row.project])
             && strata'
               == strata[row.project := if row.positive then old'.(trues := old'.trues + [row])
                         else old'.(falses := old'.falses + [row])]
    ensures Stratified(done + [row], names', strata')
  {
    hide Having, FirstUse;
    forall p ensures StratumOf(done + [row], strata', p) {
      assert StratumOf(done, strata, p);
      HavingAppend(done, row, p, true);
      HavingAppend(done, row, p, false);
    }
    DistinctLast(names, row.project);
    FirstUseMore(done, row);
  }

  lemma FirstUseMore(done: seq<Row>, row: Row)
    ensures var names := FirstUse(done);
            FirstUse(done + [row]) == if row.project in names then names else names + [row.project]
  {
    GroupAllGroups(done, ProjectOf());
    GroupAllMore(done, ProjectOf(), row);
    assert row.project in FirstUse(done) <==> row.project in GroupAll(done, ProjectOf()).lists;
  }

  lemma NoStrata()
    ensures Stratified([], [], map[])
  {
  }

  /** Sorts rows into strata; names lists the projects in order of their first row. */
  method Stratify(sorted: seq<Row>) returns (names: seq<Project>, strata: map<Project, Stratum>)
    ensures Stratified(sorted, names, strata)
  {
    hide Having;
    names, strata := [], map[];
    NoStrata();
    for k := 0 to |sorted|
      invariant Stratified(sorted[..k], names, strata)
    {
      hide Stratified;
      var row := sorted[k];
      ghost var names0, strata0 := names, strata;
      if row.project !in strata {
        names, strata := names + [row.project], strata[row.project := Stratum([], [])];
      }
      var s := strata[row.project];
      strata :=
        strata[row.project := if row.positive then s.(trues := s.trues + [row]) else s.(falses := s.falses + [row])];
      StratifiedStep(sorted[..k], names0, strata0, row, names, strata);
      assert sorted[..k + 1] == sorted[..k] + [row];
    }
    assert sorted[..|sorted|] == sorted;
  }

  // ----- Taking turns -----

  function Pairs(s: Stratum): nat {
    Min(|s.trues|, |s.falses|)
  }

  /** The rows put out so far are, stratum by stratum, those before the cursor. */
  ghost predicate Consumed(strata: map<Project, Stratum>, cursors: map<Project, nat>, out: seq<Row>) {
    && cursors.Keys == strata.Keys
    && Paired(out)
    && (forall p | p in strata :: TakenTo(strata[p], cursors[p], out, p))
    && (forall p | p !in strata :: Having(out, p, true) == [] && Having(out, p, false) == [])
  }

  ghost predicate TakenTo(s: Stratum, c: nat, out: seq<Row>, p: Project) {
    c <= Pairs(s) && Having(out, p, true) == s.trues[..c] && Having(out, p, false) == s.falses[..c]
  }

  /** Strata hold rows of their own project and label. */
  ghost predicate Sorted(strata: map<Project, Stratum>) {
    forall p | p in strata :: OwnRows(strata[p], p)
  }

  ghost predicate OwnRows(s: Stratum, p: Project) {
    && (forall r | r in s.trues :: r.project == p && r.positive)
    && (forall r | r in s.falses :: r.project == p && !r.positive)
  }

  /** One more pair from project p. */
  lemma TakePair(strata: map<Project, Stratum>, cursors: map<Project, nat>, out: seq<Row>, p: Project)
    requires Sorted(strata) && Consumed(strata, cursors, out) && p in strata && cursors[p] < Pairs(strata[p])
    ensures var i := cursors[p];
            Consumed(strata, cursors[p := i + 1], out + [strata[p].trues[i], strata[p].falses[i]])
  {
    hide Having;
    var i := cursors[p];
    var s := strata[p];
    assert OwnRows(s, p);
    var next := out + [s.trues[i], s.falses[i]];
    PairedMore(out, s.trues[i], s.falses[i]);
    forall q
      ensures q in strata ==> TakenTo(strata[q], cursors[p := i + 1][q], next, q)
      ensures q !in strata ==> Having(next, q, true) == [] && Having(next, q, false) == []
    {
      TakePairHaving(out, s.trues[i], s.falses[i], q);
      assert q in strata ==> TakenTo(strata[q], cursors[q], out, q);
    }
  }

  lemma TakePairHaving(out: seq<Row>, t: Row, f: Row, q: Project)
    requires t.positive && !f.positive
    ensures Having(out + [t, f], q, true) == Having(out, q, true) + if t.project == q then [t] else []
    ensures Having(out + [t, f], q, false) == Having(out, q, false) + if f.project == q then [f] else []
  {
    assert out + [t, f] == (out + [t]) + [f];
    HavingAppend(out, t, q, true);
    HavingAppend(out, t, q, false);
    HavingAppend(out + [t], f, q, true);
    HavingAppend(out + [t], f, q, false);
  }

  lemma PairedMore(out: seq<Row>, t: Row, f: Row)
    requires Paired(out) && t.positive && !f.positive && t.project == f.project
    ensures Paired(out + [t, f])
  {
    var next := out + [t, f];
    forall i | 0 <= i < |next| / 2 ensures PairAt(next, i) {
      assert i < |out| / 2 ==> PairAt(out, i);
    }
  }

  /** In the given turn, before the named projects have had it: every cursor stands at the turn, or at its end. */
  ghost predicate InTurn(strata: map<Project, Stratum>, cursors: map<Project, nat>, turn: nat, served: seq<Project>) {
    && cursors.Keys == strata.Keys
    && forall p | p in strata :: cursors[p] == Min(turn + if p in served then 1 else 0, Pairs(strata[p]))
  }

  /** Only exhausted projects have been dropped. */
  ghost predicate LiveOrDone(strata: map<Project, Stratum>, cursors: map<Project, nat>, live: seq<Project>) {
    && cursors.Keys == strata.Keys
    && Distinct(live)
    && (forall p | p in live :: p in strata)
    && forall p | p in strata && p !in live :: cursors[p] == Pairs(strata[p])
  }

  /** Everything put out so far, in turns over the keys and then over those already served in this turn. */
  ghost predicate InOrder(strata: map<Project, Stratum>, keys: seq<Project>, turn: nat, served: seq<Project>,
                          out: seq<Row>) {
    out == Flatten(Turns(PairLists(strata), keys, turn) + Turn(PairLists(strata), served, turn))
  }

  /** From this turn on, the live projects give what all projects would give. */
  ghost predicate SameTurns(strata: map<Project, Stratum>, live: seq<Project>, keys: seq<Project>, turn: nat) {
    forall t | turn <= t :: Turn(PairLists(strata), live, t) == Turn(PairLists(strata), keys, t)
  }

  lemma FlattenAppend(pairs: seq<(Row, Row)>, x: (Row, Row))
    ensures Flatten(pairs + [x]) == Flatten(pairs) + [x.0, x.1]
  {
    assert (pairs + [x])[..|pairs|] == pairs;
  }

  lemma {:induction false} FlattenPrefix(a: seq<(Row, Row)>, b: seq<(Row, Row)>)
    requires a <= b
    ensures Flatten(a) <= Flatten(b)
  {
    if a != b {
      var init := b[..|b| - 1];
      FlattenPrefix(a, init);
    }
  }

  lemma OrderServed(strata: map<Project, Stratum>, keys: seq<Project>, turn: nat, served: seq<Project>, out: seq<Row>,
                    p: Project)
    requires InOrder(strata, keys, turn, served, out) && p in strata
    ensures Pairs(strata[p]) <= turn ==> InOrder(strata, keys, turn, served + [p], out)
    ensures turn < Pairs(strata[p]) ==>
              InOrder(strata, keys, turn, served + [p], out + [strata[p].trues[turn], strata[p].falses[turn]])
  {
    hide Turn, Turns, Flatten;
    var lists := PairLists(strata);
    TurnAppend(lists, served, p, turn);
    var sofar, more := Turns(lists, keys, turn) + Turn(lists, served, turn), Turn(lists, served + [p], turn);
    if turn < Pairs(strata[p]) {
      var x := (strata[p].trues[turn], strata[p].falses[turn]);
      assert lists[p][turn] == x;
      FlattenAppend(sofar, x);
      assert Turns(lists, keys, turn) + more == sofar + [x];
    } else {
      assert Turns(lists, keys, turn) + more == sofar;
    }
  }

  lemma DroppedSame(strata: map<Project, Stratum>, live: seq<Project>, keys: seq<Project>, turn: nat, p: Project)
    requires SameTurns(strata, live, keys, turn) && p in strata && Pairs(strata[p]) <= turn
    ensures SameTurns(strata, Remove(live, p), keys, turn)
  {
    hide Turn;
    var lists := PairLists(strata);
    forall t | turn <= t ensures Turn(lists, Remove(live, p), t) == Turn(lists, keys, t) {
      TurnWithout(lists, live, p, t);
    }
  }

  /** A whole turn over the live projects is a whole turn over all. */
  lemma OrderNextTurn(strata: map<Project, Stratum>, live: seq<Project>, keys: seq<Project>, turn: nat, out: seq<Row>)
    requires InOrder(strata, keys, turn, live, out) && SameTurns(strata, live, keys, turn)
    ensures InOrder(strata, keys, turn + 1, [], out)
  {
    var lists := PairLists(strata);
    assert Turn(lists, live, turn) == Turn(lists, keys, turn);
    assert Turns(lists, keys, turn + 1) + Turn(lists, [], turn + 1)
           == Turns(lists, keys, turn) + Turn(lists, keys, turn);
  }

  /** Cut short in a turn, the result is still the front of the whole list. */
  lemma OrderCut(strata: map<Project, Stratum>, live: seq<Project>, keys: seq<Project>, turn: nat,
                 served: seq<Project>, out: seq<Row>)
    requires InOrder(strata, keys, turn, served, out) && served <= live && SameTurns(strata, live, keys, turn)
    ensures out <= Flatten(Turns(PairLists(strata), keys, turn + 1))
  {
    hide Turn, Flatten;
    var lists := PairLists(strata);
    TurnPrefix(lists, live, |served|, turn);
    assert live[..|served|] == served;
    assert Turn(lists, live, turn) == Turn(lists, keys, turn);
    FlattenPrefix(Turns(lists, keys, turn) + Turn(lists, served, turn), Turns(lists, keys, turn + 1));
  }

  /** The turn of one project: it gives a pair, or is dropped when it has none left. */
  method Serve(strata: map<Project, Stratum>, p: Project, cursors: map<Project, nat>, live: seq<Project>, out: seq<Row>,
               ghost turn: nat, ghost served: seq<Project>, ghost keys: seq<Project>)
    returns (cursors': map<Project, nat>, live': seq<Project>, out': seq<Row>)
    requires InOrder(strata, keys, turn, served, out) && SameTurns(strata, live, keys, turn)
    requires Sorted(strata) && Consumed(strata, cursors, out) && LiveOrDone(strata, cursors, live)
    requires InTurn(strata, cursors, turn, served) && p in live && p !in served
    ensures InOrder(strata, keys, turn, served + [p], out') && SameTurns(strata, live', keys, turn)
    ensures Consumed(strata, cursors', out') && LiveOrDone(strata, cursors', live')
    ensures InTurn(strata, cursors', turn, served + [p])
    ensures (out' == out && |live'| == |live| - 1) || (|out'| == |out| + 2 && live' == live)
    ensures forall q | q in live && q != p :: q in live'
    ensures forall q | q in live' :: q in live
  {
    hide Consumed, Sorted, Remove, InOrder, SameTurns;
    OrderServed(strata, keys, turn, served, out, p);
    cursors', live', out' := cursors, live, out;
    var s := strata[p];
    var i := cursors[p];
    if i >= |s.trues| || i >= |s.falses| {
      Removed(live, p);
      DroppedSame(strata, live, keys, turn, p);
      live' := Remove(live, p);
    } else {
      TakePair(strata, cursors, out, p);
      out' := out + [s.trues[i], s.falses[i]];
      cursors' := cursors[p := i + 1];
    }
  }

  /** Whole turns until no project is left or no pair fits. */
  method TakeTurns(strata: map<Project, Stratum>, keys: seq<Project>, limit: int)
    returns (out: seq<Row>, cursors: map<Project, nat>, ghost turn: nat, ghost served: seq<Project>)
    requires Sorted(strata) && Distinct(keys) && (forall p :: p in keys <==> p in strata)
    ensures Consumed(strata, cursors, out) && InTurn(strata, cursors, turn, served)
    ensures |out| <= limit || out == []
    ensures |out| + 2 <= limit ==> forall p | p in strata :: cursors[p] == Pairs(strata[p])
    ensures exists n :: out <= Flatten(Turns(PairLists(strata), keys, n))
  {
    hide Consumed, Sorted, InTurn, LiveOrDone, InOrder, SameTurns, Flatten, Turns;
    cursors := map p | p in strata :: 0;
    out, turn, served := [], 0, [];
    var live := keys;
    ghost var started := keys;
    Begin(strata, keys, cursors);
    while live != [] && |out| + 2 <= limit
      invariant Consumed(strata, cursors, out) && InTurn(strata, cursors, turn, served)
      invariant LiveOrDone(strata, cursors, live)
      invariant |out| + 2 <= limit ==> served == []
      invariant |out| <= limit || out == []
      invariant InOrder(strata, keys, turn, served, out) && SameTurns(strata, started, keys, turn) && served <= started
      invariant |out| + 2 <= limit ==> started == live
      decreases limit - |out| + |live|, 0
    {
      started := live;
      cursors, live, out, served := OneTurn(strata, cursors, live, out, limit, turn, keys);
      if |out| + 2 <= limit {
        NextTurn(strata, cursors, turn, served, live);
        OrderNextTurn(strata, started, keys, turn, out);
        LaterSame(strata, live, keys, turn);
        turn, served, started := turn + 1, [], live;
      }
    }
    OrderCut(strata, started, keys, turn, served, out);
    if |out| + 2 <= limit {
      AllDone(strata, cursors, live);
    }
  }

  /** One pass over the projects that were live at its start. */
  method OneTurn(strata: map<Project, Stratum>, cursors0: map<Project, nat>, live0: seq<Project>, out0: seq<Row>,
                 limit: int, ghost turn: nat, ghost keys: seq<Project>)
    returns (cursors: map<Project, nat>, live: seq<Project>, out: seq<Row>, ghost served: seq<Project>)
    requires Sorted(strata) && Consumed(strata, cursors0, out0) && LiveOrDone(strata, cursors0, live0)
    requires InTurn(strata, cursors0, turn, []) && live0 != [] && |out0| + 2 <= limit
    requires InOrder(strata, keys, turn, [], out0) && SameTurns(strata, live0, keys, turn)
    ensures InOrder(strata, keys, turn, served, out) && SameTurns(strata, live, keys, turn) && served <= live0
    ensures Consumed(strata, cursors, out) && LiveOrDone(strata, cursors, live) && InTurn(strata, cursors, turn, served)
    ensures |out| <= limit && limit - |out| + |live| < limit - |out0| + |live0|
    ensures |out| + 2 <= limit ==> served == live0
    ensures forall p | p in live :: p in live0
  {
    hide Consumed, Sorted, InTurn, InOrder, SameTurns;
    cursors, live, out, served := cursors0, live0, out0, [];
    var j := 0;
    while j < |live0| && |out| + 2 <= limit
      invariant j <= |live0| && served == live0[..j]
      invariant Consumed(strata, cursors, out) && LiveOrDone(strata, cursors, live)
                && InTurn(strata, cursors, turn, served)
      invariant InOrder(strata, keys, turn, served, out) && SameTurns(strata, live, keys, turn)
      invariant |out0| <= |out| <= limit && |live| <= |live0| && (j > 0 ==> |out| > |out0| || |live| < |live0|)
      invariant forall k | j <= k < |live0| :: live0[k] in live
      invariant forall p | p in live :: p in live0
    {
      NotServed(live0, j);
      cursors, live, out := Serve(strata, live0[j], cursors, live, out, turn, served, keys);
      served := served + [live0[j]];
      j := j + 1;
    }
    assert j == |live0| ==> served == live0;
  }

  lemma NotServed(s: seq<Project>, j: nat)
    requires Distinct(s) && j < |s|
    ensures s[j] !in s[..j] && s[..j] + [s[j]] == s[..j + 1]
    ensures forall k | j < k < |s| :: s[k] != s[j]
  {
  }

  lemma Begin(strata: map<Project, Stratum>, keys: seq<Project>, cursors: map<Project, nat>)
    requires Distinct(keys) && (forall p :: p in keys <==> p in strata)
    requires cursors == map p | p in strata :: 0
    ensures InOrder(strata, keys, 0, [], []) && SameTurns(strata, keys, keys, 0)
    ensures Consumed(strata, cursors, []) && InTurn(strata, cursors, 0, []) && LiveOrDone(strata, cursors, keys)
  {
  }

  lemma NextTurn(strata: map<Project, Stratum>, cursors: map<Project, nat>, turn: nat, served: seq<Project>,
                 live: seq<Project>)
    requires InTurn(strata, cursors, turn, served) && LiveOrDone(strata, cursors, live)
    requires forall p | p in live :: p in served
    ensures InTurn(strata, cursors, turn + 1, [])
  {
  }

  lemma LaterSame(strata: map<Project, Stratum>, live: seq<Project>, keys: seq<Project>, turn: nat)
    requires SameTurns(strata, live, keys, turn)
    ensures SameTurns(strata, live, keys, turn + 1)
  {
  }

  lemma AllDone(strata: map<Project, Stratum>, cursors: map<Project, nat>, live: seq<Project>)
    requires LiveOrDone(strata, cursors, live) && live == []
    ensures forall p | p in strata :: cursors[p] == Pairs(strata[p])
  {
  }

  // ----- The result -----

  /**
   The selection: pairs within a project, whole pairs within the limit, no row twice, the first rows
   of every project in seeded order, projects level to within one pair unless exhausted, and
   nothing left over while a pair still fits.
   */
  method Select(rows: seq<Row>, limit: int, rowKey: Row -> real, projectKey: Project -> real) returns (out: seq<Row>)
    ensures Paired(out) && (|out| <= limit || out == [])
    ensures multiset(out) <= multiset(rows)
    ensures forall p :: TakesFirst(SortBy(rows, rowKey), out, p)
    ensures RoundRobin(SortBy(rows, rowKey), projectKey, out)
    ensures forall p, q :: Balanced(rows, out, p, q)
    ensures |out| + 2 <= limit ==> forall p :: Given(out, p) == Available(rows, p)
  {
    hide RoundRobin, Flatten, Turns, PairLists;
    hide SortBy, Stratified, Sorted, Consumed, InTurn, TakesFirst, Balanced, Given, Available;
    var sorted := SortBy(rows, rowKey);
    SortedBy(rows, rowKey);
    var names, strata := Stratify(sorted);
    StrataSorted(sorted, names, strata);
    var keys := SortBy(names, projectKey);
    SortedBy(names, projectKey);
    Rearranged(keys, names);
    var cursors;
    ghost var turn, served;
    out, cursors, turn, served := TakeTurns(strata, keys, limit);
    OrderFromRows(sorted, names, strata, projectKey, out);
    forall p ensures TakesFirst(sorted, out, p) {
      FirstTaken(sorted, names, strata, cursors, out, p);
    }
    NoRepetition(rows, sorted, out);
    forall p, q ensures Balanced(rows, out, p, q) {
      Level(rows, sorted, names, strata, cursors, out, turn, served, p, q);
    }
    if |out| + 2 <= limit {
      forall p ensures Given(out, p) == Available(rows, p) {
        GivenIsCursor(rows, sorted, names, strata, cursors, out, p);
      }
    }
    ConsumedPairs(strata, cursors, out);
  }

  lemma OrderFromRows(sorted: seq<Row>, names: seq<Project>, strata: map<Project, Stratum>,
                      projectKey: Project -> real, out: seq<Row>)
    requires Stratified(sorted, names, strata)
    requires exists n :: out <= Flatten(Turns(PairLists(strata), SortBy(names, projectKey), n))
    ensures RoundRobin(sorted, projectKey, out)
  {
    hide Having, SortBy, Turns, Flatten;
    forall p | p in strata ensures strata[p] == Stratum(Having(sorted, p, true), Having(sorted, p, false)) {
      assert StratumOf(sorted, strata, p);
    }
    assert PairLists(strata) == Offers(sorted);
  }

  lemma ConsumedPairs(strata: map<Project, Stratum>, cursors: map<Project, nat>, out: seq<Row>)
    requires Consumed(strata, cursors, out)
    ensures Paired(out)
  {
  }

  lemma StrataSorted(sorted: seq<Row>, names: seq<Project>, strata: map<Project, Stratum>)
    requires Stratified(sorted, names, strata)
    ensures Sorted(strata) && Distinct(names) && forall p :: p in names <==> p in strata
  {
    forall p | p in strata ensures OwnRows(strata[p], p) {
      assert StratumOf(sorted, strata, p);
      HavingOwn(sorted, p, true);
      HavingOwn(sorted, p, false);
    }
  }

  lemma FirstTaken(sorted: seq<Row>, names: seq<Project>, strata: map<Project, Stratum>, cursors: map<Project, nat>,
                   out: seq<Row>, p: Project)
    requires Stratified(sorted, names, strata) && Consumed(strata, cursors, out)
    ensures TakesFirst(sorted, out, p)
  {
    assert StratumOf(sorted, strata, p);
    assert p in strata ==> TakenTo(strata[p], cursors[p], out, p);
  }

  /** What a project has given is its cursor, and what it can give is the length of its stratum. */
  lemma GivenIsCursor(rows: seq<Row>, sorted: seq<Row>, names: seq<Project>, strata: map<Project, Stratum>,
                      cursors: map<Project, nat>, out: seq<Row>, p: Project)
    requires Stratified(sorted, names, strata) && Consumed(strata, cursors, out) && multiset(rows) == multiset(sorted)
    ensures Given(out, p) == if p in strata then cursors[p] else 0
    ensures Available(rows, p) == if p in strata then Pairs(strata[p]) else 0
  {
    FilterSize(rows, sorted, Of(p, true));
    FilterSize(rows, sorted, Of(p, false));
    assert StratumOf(sorted, strata, p);
    assert p in strata ==> TakenTo(strata[p], cursors[p], out, p);
  }

  lemma Level(rows: seq<Row>, sorted: seq<Row>, names: seq<Project>, strata: map<Project, Stratum>,
              cursors: map<Project, nat>, out: seq<Row>,
              turn: nat, served: seq<Project>, p: Project, q: Project)
    requires Stratified(sorted, names, strata) && Consumed(strata, cursors, out) && multiset(rows) == multiset(sorted)
    requires InTurn(strata, cursors, turn, served)
    ensures Balanced(rows, out, p, q)
  {
    hide Stratified, Consumed;
    GivenIsCursor(rows, sorted, names, strata, cursors, out, p);
    GivenIsCursor(rows, sorted, names, strata, cursors, out, q);
  }
}
