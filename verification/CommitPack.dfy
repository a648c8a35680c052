/**
 The building of message-match examples in tools/judgment_reeval.py: commits are tied together by
 shared repositories, every component gets one role and at most one example, and components that
 touch a repository of the Kev data are left out.
 */
module CommitPack {
  import opened Common
  import opened Ordering
  import opened Grouping
  import opened Components

  datatype Role = Train | Validation | Calibration | Test
  datatype Language = Language(name: string)

  /** A row of the public data: its subject is stripped and its repositories are split at commas. */
  datatype Commit = Commit(id: string, language: Language, diff: string, subject: string, repos: seq<Name>)

  /** A commit with the root of its component. */
  datatype Entry = Entry(root: Name, commit: Commit)

  datatype Example = Example(role: Role, root: Name, commit: Commit, matches: bool, shown: string)

  /** What is known of the Kev data. */
  datatype Kev = Kev(ids: set<string>, digests: set<string>, repos: seq<Name>)

  /** Digests and seeded hashes. The keys that only order things are read as numbers. */
  datatype Hashes = Hashes(
    digest: string -> string,
    normal: string -> string,
    bucket: Name -> nat,
    groupKey: (Role, Name) -> real,
    pickKey: string -> real,
    languageKey: (Role, Language) -> real,
    matchKey: string -> real,
    negativeKey: (string, string) -> real)

  datatype Outcome =
    | NoRepository
    | BadQuestion
    | Built(rows: seq<Example>, chosen: map<Role, seq<Entry>>)

  // ----- ROLES -----

  const SHARES: seq<(Role, nat)> := [(Train, 70), (Validation, 10), (Calibration, 10), (Test, 10)]

  function RoleOf(bucket: nat): Role {
    var b := bucket % 100;
    if b < 70 then Train else if b < 80 then Validation else if b < 90 then Calibration else Test
  }

  /** Walks the shares up to the one that holds the bucket; the shares leave no bucket out. */
  method CmRole(root: Name, h: Hashes) returns (role: Option<Role>)
    ensures role == Some(RoleOf(h.bucket(root)))
  {
    var bucket := h.bucket(root) % 100;
    var edge := 0;
    for k := 0 to |SHARES|
      invariant edge == (if k == 0 then 0 else 60 + 10 * k) && edge <= bucket
    {
      edge := edge + SHARES[k].1;
      if bucket < edge {
        return Some(SHARES[k].0);
      }
    }
    return None;
  }

  // ----- Usable commits -----

  predicate LineBreak(c: char) {
    c == '\r' || c == '\U{85}' || c == '\U{2028}' || c == '\U{2029}'
  }

  function Usable(kev: Kev, h: Hashes): Commit -> bool {
    (c: Commit) =>
      && c.id !in kev.ids && h.digest(c.diff) !in kev.digests
      && |c.diff| <= 4000
      && 10 <= |c.subject| <= 120
      && '"' !in c.subject && '\n' !in c.subject
      && forall k | 0 <= k < |c.subject + c.diff| :: !LineBreak((c.subject + c.diff)[k])
  }

  /** A commit that Kev has not seen, small enough, with a subject that fits into a question. */
  ghost predicate Eligible(kev: Kev, h: Hashes, c: Commit) {
    && c.id !in kev.ids && h.digest(c.diff) !in kev.digests
    && |c.diff| <= 4000 && 10 <= |c.subject| <= 120
    && (forall ch | ch in c.subject :: ch !in {'"', '\n', '\r', '\U{85}', '\U{2028}', '\U{2029}'})
    && (forall ch | ch in c.diff :: ch !in {'\r', '\U{85}', '\U{2028}', '\U{2029}'})
  }

  lemma UsableIsEligible(kev: Kev, h: Hashes, c: Commit)
    ensures Usable(kev, h)(c) <==> Eligible(kev, h, c)
  {
    var text := c.subject + c.diff;
    if Usable(kev, h)(c) {
      forall ch | ch in c.subject || ch in c.diff
        ensures !LineBreak(ch)
      {
        assert ch in text;
        var k :| 0 <= k < |text| && text[k] == ch;
      }
    }
    if Eligible(kev, h, c) {
      forall k | 0 <= k < |text|
        ensures !LineBreak(text[k])
      {
        assert text[k] in text;
      }
    }
  }

  /** The candidates are exactly the eligible commits. */
  lemma CandidatesAreEligible(commits: seq<Commit>, kev: Kev, h: Hashes)
    ensures forall c :: c in Candidates(commits, kev, h) <==> c in commits && Eligible(kev, h, c)
  {
    hide Usable, Eligible;
    FilterMembers(commits, Usable(kev, h));
    forall c
      ensures Usable(kev, h)(c) <==> Eligible(kev, h, c)
    {
      UsableIsEligible(kev, h, c);
    }
  }

  /** The tests of one row, one after the other. */
  method CheckUsable(kev: Kev, h: Hashes, c: Commit) returns (ok: bool)
    ensures ok <==> Usable(kev, h)(c)
  {
    if c.id in kev.ids || h.digest(c.diff) in kev.digests {
      return false;
    }
    if |c.diff| > 4000 {
      return false;
    }
    var text := c.subject + c.diff;
    if |c.subject| < 10 || |c.subject| > 120 || '"' in c.subject || '\n' in c.subject {
      return false;
    }
    for k := 0 to |text|
      invariant forall j | 0 <= j < k :: !LineBreak(text[j])
    {
      if text[k] == '\r' || text[k] == '\U{85}' || text[k] == '\U{2028}' || text[k] == '\U{2029}' {
        return false;
      }
    }
    return true;
  }

  function Candidates(commits: seq<Commit>, kev: Kev, h: Hashes): seq<Commit> {
    Filter(commits, Usable(kev, h))
  }

  /** The repository lists of commits. */
  function Lists(commits: seq<Commit>): seq<seq<Name>> {
    if commits == [] then [] else Lists(commits[..|commits| - 1]) + [commits[|commits| - 1].repos]
  }

  lemma {:induction false} ListsHold(commits: seq<Commit>)
    ensures forall c | c in commits :: c.repos in Lists(commits)
    ensures forall l | l in Lists(commits) :: exists c :: c in commits && c.repos == l
  {
    if commits != [] {
      var init, last := commits[..|commits| - 1], commits[|commits| - 1];
      ListsHold(init);
      assert commits == init + [last];
      forall l | l in Lists(commits) ensures exists c :: c in commits && c.repos == l {
        if l in Lists(init) {
          var c :| c in init && c.repos == l;
          assert c in commits;
        } else {
          assert last in commits;
        }
      }
    }
  }

  /** Joins the repositories of every usable commit. */
  method Collect(commits: seq<Commit>, kev: Kev, h: Hashes) returns (comps: UnionFind, candidates: seq<Commit>)
    ensures fresh(comps) && comps.Valid()
    ensures candidates == Candidates(commits, kev, h) && comps.lists == Lists(candidates)
    ensures comps.root == RootsAfter(Lists(candidates))
  {
    hide Usable, Forest, Sound, Complete, JoinedRoots, Entered, RootList, RootsAfter;
    NoRoots();
    comps := new UnionFind();
    candidates := [];
    for k := 0 to |commits|
      invariant fresh(comps) && comps.Valid()
      invariant candidates == Candidates(commits[..k], kev, h) && comps.lists == Lists(candidates)
      invariant comps.root == RootsAfter(Lists(candidates))
    {
      var c := commits[k];
      assert commits[..k + 1] == commits[..k] + [c];
      FilterAppend(commits[..k], c, Usable(kev, h));
      var usable := CheckUsable(kev, h, c);
      if usable {
        comps.Union(c.repos);
        RootsAfterMore(candidates, c);
        candidates := candidates + [c];
        assert candidates[..|candidates| - 1] == Candidates(commits[..k], kev, h);
      }
    }
    assert commits[..|commits|] == commits;
  }

  lemma NoRoots()
    ensures RootsAfter(Lists([])) == map[]
  {
  }

  lemma RootsAfterMore(commits: seq<Commit>, c: Commit)
    ensures Lists(commits + [c]) == Lists(commits) + [c.repos]
    ensures var entered := Entered(RootsAfter(Lists(commits)), c.repos);
            RootsAfter(Lists(commits + [c])) == JoinedRoots(entered, RootList(entered, c.repos), |c.repos|)
  {
    hide JoinedRoots, Entered, RootList;
    assert (commits + [c])[..|commits|] == commits;
    var lists := Lists(commits) + [c.repos];
    assert lists[..|lists| - 1] == Lists(commits);
  }

  ghost function RootsOf(root: map<Name, Name>, names: seq<Name>): set<Name> {
    set x | x in names && x in root :: root[x]
  }

  /** The roots of the Kev repositories that occur in the data. */
  method KevRoots(comps: UnionFind, repos: seq<Name>) returns (roots: set<Name>)
    requires comps.Valid()
    modifies comps`parent, comps`root, comps`rank
    ensures comps.Valid() && comps.root == old(comps.root)
    ensures roots == RootsOf(comps.root, repos)
  {
    hide Forest, Sound, Complete;
    roots := {};
    for k := 0 to |repos|
      invariant comps.Valid() && comps.root == old(comps.root)
      invariant roots == RootsOf(comps.root, repos[..k])
    {
      KeysAgree(comps.parent, comps.root, comps.rank);
      RootsOfStep(comps.root, repos, k);
      if repos[k] in comps.parent {
        var r := comps.Find(repos[k]);
        roots := roots + {r};
      }
    }
    assert repos[..|repos|] == repos;
  }

  lemma RootsOfStep(root: map<Name, Name>, names: seq<Name>, k: nat)
    requires k < |names|
    ensures RootsOf(root, names[..k + 1]) == RootsOf(root, names[..k]) + if names[k] in root then {root[names[k]]}
            else {}
  {
    assert names[..k + 1] == names[..k] + [names[k]];
  }

  // ----- Admission -----

  /** The root of a commit's first repository. */
  ghost function RootOf(root: map<Name, Name>, c: Commit): Name {
    if c.repos != [] && c.repos[0] in root then root[c.repos[0]] else Name("")
  }

  ghost function Digests(es: seq<Entry>, h: Hashes): set<string> {
    set e | e in es :: h.digest(e.commit.diff)
  }

  /** Every admitted entry is a candidate outside the Kev components, and no two have the same diff. */
  ghost predicate Admitted(candidates: seq<Commit>, root: map<Name, Name>, kevRoots: set<Name>, h: Hashes,
                           es: seq<Entry>) {
    && (forall e | e in es :: Admissible(candidates, root, kevRoots, e))
    && (forall i, j | 0 <= i < j < |es| :: h.digest(es[i].commit.diff) != h.digest(es[j].commit.diff))
    && (forall c | c in candidates :: RootOf(root, c) in kevRoots || h.digest(c.diff) in Digests(es, h))
  }

  ghost predicate Admissible(candidates: seq<Commit>, root: map<Name, Name>, kevRoots: set<Name>, e: Entry) {
    e.commit in candidates && e.commit.repos != [] && e.root == RootOf(root, e.commit) && e.root !in kevRoots
  }

  /** The entries admitted one after the other: outside the Kev components, the first of every diff. */
  ghost function Admissions(candidates: seq<Commit>, root: map<Name, Name>, kevRoots: set<Name>,
                            h: Hashes): seq<Entry> {
    if candidates == [] then []
    else
      var before := Admissions(candidates[..|candidates| - 1], root, kevRoots, h);
      var c := candidates[|candidates| - 1];
      if RootOf(root, c) in kevRoots || h.digest(c.diff) in Digests(before, h) then before
      else before + [Entry(RootOf(root, c), c)]
  }

  lemma AdmissionsMore(candidates: seq<Commit>, root: map<Name, Name>, kevRoots: set<Name>, h: Hashes, k: nat)
    requires k < |candidates|
    ensures var before, c := Admissions(candidates[..k], root, kevRoots, h), candidates[k];
            Admissions(candidates[..k + 1], root, kevRoots, h) ==
            if RootOf(root, c) in kevRoots || h.digest(c.diff) in Digests(before, h) then before
            else before + [Entry(RootOf(root, c), c)]
  {
    assert candidates[..k + 1][..k] == candidates[..k];
  }

  function InRole(h: Hashes, role: Role): Entry -> bool {
    (e: Entry) => RoleOf(h.bucket(e.root)) == role
  }

  function EntryRoot(): Entry -> Name {
    (e: Entry) => e.root
  }

  function EntryLanguage(): Entry -> Language {
    (e: Entry) => e.commit.language
  }

  /** The admitted entries by role and component. */
  ghost predicate ByRole(byRole: map<Role, Dict<Name, Entry>>, h: Hashes, es: seq<Entry>) {
    forall role: Role :: role in byRole && byRole[role] == GroupAll(Filter(es, InRole(h, role)), EntryRoot())
  }

  lemma AdmittedMore(candidates: seq<Commit>, root: map<Name, Name>, kevRoots: set<Name>, h: Hashes, es: seq<Entry>,
                     c: Commit)
    requires Admitted(candidates, root, kevRoots, h, es)
    ensures c.repos != [] && RootOf(root, c) in kevRoots ==> Admitted(candidates + [c], root, kevRoots, h, es)
    ensures c.repos != [] && h.digest(c.diff) in Digests(es, h) ==> Admitted(candidates + [c], root, kevRoots, h, es)
    ensures var e := Entry(RootOf(root, c), c);
            c.repos != [] && e.root !in kevRoots && h.digest(c.diff) !in Digests(es, h) ==>
              Admitted(candidates + [c], root, kevRoots, h, es + [e])
              && Digests(es + [e], h) == Digests(es, h) + {h.digest(c.diff)}
  {
    forall e | e in es ensures Admissible(candidates + [c], root, kevRoots, e) {
      assert Admissible(candidates, root, kevRoots, e);
    }
    var e := Entry(RootOf(root, c), c);
    var more := es + [e];
    assert Digests(more, h) == Digests(es, h) + {h.digest(c.diff)};
    assert c in candidates + [c];
    if c.repos != [] && e.root !in kevRoots && h.digest(c.diff) !in Digests(es, h) {
      forall i, j | 0 <= i < j < |more| ensures h.digest(more[i].commit.diff) != h.digest(more[j].commit.diff) {
        assert i < |es| ==> more[i] in es;
      }
    }
  }

  lemma ByRoleMore(byRole: map<Role, Dict<Name, Entry>>, h: Hashes, es: seq<Entry>, e: Entry, role: Role)
    requires ByRole(byRole, h, es) && role == RoleOf(h.bucket(e.root))
    ensures role in byRole && ByRole(byRole[role := Add(byRole[role], e.root, e)], h, es + [e])
  {
    hide GroupAll, Filter, Add;
    var next := byRole[role := Add(byRole[role], e.root, e)];
    forall r: Role ensures r in next && next[r] == GroupAll(Filter(es + [e], InRole(h, r)), EntryRoot()) {
      FilterAppend(es, e, InRole(h, r));
      assert byRole[r] == GroupAll(Filter(es, InRole(h, r)), EntryRoot());
      if r == role {
        GroupAllMore(Filter(es, InRole(h, r)), EntryRoot(), e);
      } else {
        assert Filter(es, InRole(h, r)) + [] == Filter(es, InRole(h, r));
      }
    }
  }

  /** The first k candidates have been gone through. */
  ghost predicate AdmittedTo(candidates: seq<Commit>, root: map<Name, Name>, kevRoots: set<Name>, h: Hashes,
                             seen: set<string>, es: seq<Entry>, k: nat) {
    && k <= |candidates| && (forall j | 0 <= j < k :: candidates[j].repos != []) && seen == Digests(es, h)
    && Admitted(candidates[..k], root, kevRoots, h, es) && es == Admissions(candidates[..k], root, kevRoots, h)
  }

  lemma AdmittedNext(candidates: seq<Commit>, root: map<Name, Name>, kevRoots: set<Name>, h: Hashes,
                     seen: set<string>, es: seq<Entry>, k: nat)
    requires AdmittedTo(candidates, root, kevRoots, h, seen, es, k) && k < |candidates| && candidates[k].repos != []
    ensures var c := candidates[k];
            if RootOf(root, c) in kevRoots || h.digest(c.diff) in seen then
              AdmittedTo(candidates, root, kevRoots, h, seen, es, k + 1)
            else
              AdmittedTo(candidates, root, kevRoots, h, seen + {h.digest(c.diff)}, es + [Entry(RootOf(root, c), c)],
                         k + 1)
  {
    hide Admitted, Admissions, Digests, RootOf;
    var c := candidates[k];
    assert candidates[..k + 1] == candidates[..k] + [c];
    AdmittedMore(candidates[..k], root, kevRoots, h, es, c);
    AdmissionsMore(candidates, root, kevRoots, h, k);
  }

  lemma AllAdmitted(candidates: seq<Commit>, root: map<Name, Name>, kevRoots: set<Name>, h: Hashes,
                    seen: set<string>, es: seq<Entry>)
    requires AdmittedTo(candidates, root, kevRoots, h, seen, es, |candidates|)
    ensures Admitted(candidates, root, kevRoots, h, es) && es == Admissions(candidates, root, kevRoots, h)
    ensures forall c | c in candidates :: c.repos != []
  {
    hide Admitted, Admissions;
    assert candidates[..|candidates|] == candidates;
  }

  /** Sorts the candidates into roles and components; a candidate without repositories ends the run. */
  method Admit(comps: UnionFind, candidates: seq<Commit>, kevRoots: set<Name>, h: Hashes)
    returns (byRole: Option<map<Role, Dict<Name, Entry>>>, ghost es: seq<Entry>)
    requires comps.Valid() && comps.lists == Lists(candidates)
    modifies comps`parent, comps`root, comps`rank
    ensures comps.Valid() && comps.root == old(comps.root)
    ensures byRole.None? <==> exists c :: c in candidates && c.repos == []
    ensures byRole.Some? ==> ByRole(byRole.value, h, es) && Admitted(candidates, comps.root, kevRoots, h, es)
    ensures byRole.Some? ==> es == Admissions(candidates, comps.root, kevRoots, h)
  {
    hide Forest, Sound, Complete, Admitted, Admissions, AdmittedTo, ByRole, Add, RoleOf, Lists, RootOf;
    ghost var root := comps.root;
    var groups: map<Role, Dict<Name, Entry>> :=
          map[Train := Dict([], map[]), Validation := Dict([], map[]), Calibration := Dict([], map[]),
              Test := Dict([], map[])];
    var seen: set<string> := {};
    es := [];
    forall role: Role ensures role in groups && groups[role] == Dict([], map[]) {
      assert role == Train || role == Validation || role == Calibration || role == Test;
    }
    NothingAdmitted(candidates, groups, root, kevRoots, h);
    for k := 0 to |candidates|
      invariant comps.Valid() && comps.root == root
      invariant ByRole(groups, h, es) && AdmittedTo(candidates, root, kevRoots, h, seen, es, k)
    {
      var c := candidates[k];
      assert c in candidates;
      if c.repos == [] {
        return None, es;
      }
      InComponents(comps.lists, root, candidates, c, c.repos[0]);
      var r := comps.Find(c.repos[0]);
      AdmittedNext(candidates, root, kevRoots, h, seen, es, k);
      var digest := h.digest(c.diff);
      if r !in kevRoots && digest !in seen {
        seen := seen + {digest};
        var role := CmRole(r, h);
        ByRoleMore(groups, h, es, Entry(r, c), role.value);
        groups := groups[role.value := Add(groups[role.value], r, Entry(r, c))];
        es := es + [Entry(r, c)];
      }
    }
    AllAdmitted(candidates, root, kevRoots, h, seen, es);
    return Some(groups), es;
  }

  lemma NothingAdmitted(candidates: seq<Commit>, groups: map<Role, Dict<Name, Entry>>, root: map<Name, Name>,
                        kevRoots: set<Name>, h: Hashes)
    requires forall role: Role :: role in groups && groups[role] == Dict([], map[])
    ensures ByRole(groups, h, []) && AdmittedTo(candidates, root, kevRoots, h, {}, [], 0)
  {
  }

  /** Every repository of a candidate has a root. */
  lemma InComponents(lists: seq<seq<Name>>, root: map<Name, Name>, candidates: seq<Commit>, c: Commit, x: Name)
    requires Complete(lists, root) && lists == Lists(candidates) && c in candidates && x in c.repos
    ensures x in root && root[x] == RootOf(root, c)
  {
    ListsHold(candidates);
    assert c.repos in lists;
    assert SameRoot(root, c.repos);
  }

  // ----- One entry for every component -----

  /** The first element with the least key. */
  function MinBy<T>(s: seq<T>, key: T -> real): (m: T)
    requires s != []
    ensures m in s && forall x | x in s :: key(m) <= key(x)
    ensures exists i :: 0 <= i < |s| && s[i] == m && forall j | 0 <= j < i :: key(m) < key(s[j])
  {
    if |s| == 1 then s[0]
    else
      var init, last := s[..|s| - 1], s[|s| - 1];
      assert s == init + [last];
      var m := MinBy(init, key);
      assert exists i :: 0 <= i < |s| && s[i] == m && forall j | 0 <= j < i :: key(m) < key(s[j]) by {
        var i :| 0 <= i < |init| && init[i] == m && forall j | 0 <= j < i :: key(m) < key(init[j]);
        assert s[i] == m && forall j | 0 <= j < i :: s[j] == init[j];
      }
      assert forall j | 0 <= j < |init| :: s[j] in init;
      assert s[|init|] == last;
      if key(last) < key(m) then last else m
  }

  function GroupOrder(role: Role, h: Hashes): Name -> real {
    (n: Name) => h.groupKey(role, n)
  }

  function LanguageOrder(role: Role, h: Hashes): Language -> real {
    (l: Language) => h.languageKey(role, l)
  }

  function PickOrder(h: Hashes): Entry -> real {
    (e: Entry) => h.pickKey(e.commit.id)
  }

  ghost predicate NoEmptyGroup(groups: Dict<Name, Entry>) {
    forall n | n in groups.names :: n in groups.lists && groups.lists[n] != []
  }

  /** The entry with the least seeded key of every group, groups in the given order. */
  ghost function PicksIn(groups: Dict<Name, Entry>, order: seq<Name>, h: Hashes): (picks: seq<Entry>)
    requires NoEmptyGroup(groups) && forall n | n in order :: n in groups.names
    ensures |picks| == |order|
  {
    seq(|order|, i requires 0 <= i < |order| => assert order[i] in order; MinBy(groups.lists[order[i]], PickOrder(h)))
  }

  /** One entry of every group, groups in seeded order. */
  ghost function Picks(role: Role, groups: Dict<Name, Entry>, h: Hashes): seq<Entry>
    requires NoEmptyGroup(groups)
  {
    var order := SortBy(groups.names, GroupOrder(role, h));
    SortedBy(groups.names, GroupOrder(role, h));
    Rearranged(order, groups.names);
    PicksIn(groups, order, h)
  }

  ghost predicate DistinctRoots(es: seq<Entry>) {
    forall i, j | 0 <= i < j < |es| :: es[i].root != es[j].root
  }

  /** One member of every component of the role, and nothing else. */
  ghost predicate OneEach(members: seq<Entry>, picks: seq<Entry>) {
    && DistinctRoots(picks)
    && (forall e | e in picks :: e in members)
    && (forall e | e in members :: HasRoot(picks, e.root))
  }

  ghost predicate HasRoot(picks: seq<Entry>, root: Name) {
    exists p :: p in picks && p.root == root
  }

  lemma WithRoot(picks: seq<Entry>, root: Name) returns (p: Entry)
    requires HasRoot(picks, root)
    ensures p in picks && p.root == root
  {
    p :| p in picks && p.root == root;
  }

  /** Picks one commit of every component, in seeded order of components, and groups the picks by language. */
  method Firsts(role: Role, groups: Dict<Name, Entry>, h: Hashes, ghost members: seq<Entry>)
    returns (firsts: Dict<Language, Entry>)
    requires GroupedBy(groups, members, EntryRoot()) && NoEmptyGroup(groups)
    ensures firsts == GroupAll(Picks(role, groups, h), EntryLanguage())
    ensures OneEach(members, Picks(role, groups, h))
  {
    hide GroupedBy, MinBy, SortBy, Add, GroupAll;
    GroupNames(groups, members);
    var order := SortBy(groups.names, GroupOrder(role, h));
    SortedBy(groups.names, GroupOrder(role, h));
    Rearranged(order, groups.names);
    firsts := Dict([], map[]);
    ghost var picks := PicksIn(groups, order, h);
    NothingGrouped();
    for k := 0 to |order|
      invariant firsts == GroupAll(picks[..k], EntryLanguage())
    {
      assert order[k] in order;
      var e := MinBy(groups.lists[order[k]], PickOrder(h));
      GroupAllMore(picks[..k], EntryLanguage(), e);
      assert picks[..k + 1] == picks[..k] + [e];
      firsts := Add(firsts, e.commit.language, e);
    }
    assert picks[..|order|] == picks;
    PicksOneEach(groups, members, order, h);
  }


  lemma NothingGrouped()
    ensures GroupAll([], EntryLanguage()) == Dict([], map[])
  {
  }

  lemma GroupNames(groups: Dict<Name, Entry>, members: seq<Entry>)
    requires GroupedBy(groups, members, EntryRoot())
    ensures Distinct(groups.names) && (forall n :: n in groups.names <==> n in groups.lists) && NoEmptyGroup(groups)
  {
    forall n | n in groups.names ensures n in groups.lists && groups.lists[n] != [] {
      assert Grouped(groups, members, EntryRoot(), n);
    }
  }

  lemma GroupMembers(groups: Dict<Name, Entry>, members: seq<Entry>, n: Name)
    requires GroupedBy(groups, members, EntryRoot()) && n in groups.lists
    ensures groups.lists[n] != [] && forall e | e in groups.lists[n] :: e in members && e.root == n
  {
    assert Grouped(groups, members, EntryRoot(), n);
    FilterMembers(members, Is(EntryRoot(), n));
  }

  lemma PickedEach(groups: Dict<Name, Entry>, members: seq<Entry>, order: seq<Name>, picks: seq<Entry>)
    requires GroupedBy(groups, members, EntryRoot())
    requires Distinct(order) && (forall n :: n in order <==> n in groups.names)
    requires |picks| == |order| && forall j | 0 <= j < |order| :: picks[j].root == order[j] && picks[j] in members
    ensures OneEach(members, picks)
  {
    forall e | e in members ensures HasRoot(picks, e.root) {
      assert Grouped(groups, members, EntryRoot(), e.root);
      FilterMembers(members, Is(EntryRoot(), e.root));
      assert e in groups.At(e.root);
      assert e.root in groups.names;
      var j :| 0 <= j < |order| && order[j] == e.root;
      assert picks[j] in picks;
    }
  }

  lemma PicksOneEach(groups: Dict<Name, Entry>, members: seq<Entry>, order: seq<Name>, h: Hashes)
    requires GroupedBy(groups, members, EntryRoot()) && NoEmptyGroup(groups)
    requires Distinct(order) && (forall n :: n in order <==> n in groups.names)
    ensures OneEach(members, PicksIn(groups, order, h))
  {
    hide GroupedBy, MinBy, OneEach;
    GroupNames(groups, members);
    var picks := PicksIn(groups, order, h);
    forall j | 0 <= j < |order|
      ensures picks[j].root == order[j] && picks[j] in members
    {
      assert order[j] in order;
      GroupMembers(groups, members, order[j]);
    }
    PickedEach(groups, members, order, picks);
  }

  // ----- Languages in turn -----

  /** What has been chosen of a language is the front of its list. */
  ghost predicate TakenFirst(firsts: Dict<Language, Entry>, chosen: seq<Entry>, l: Language) {
    var taken := Filter(chosen, Is(EntryLanguage(), l));
    |taken| <= |firsts.At(l)| && taken == firsts.At(l)[..|taken|]
  }

  ghost function Taken(chosen: seq<Entry>, l: Language): nat {
    |Filter(chosen, Is(EntryLanguage(), l))|
  }

  /** Language l is at most one entry ahead of m, unless m has none left. */
  ghost predicate Level(firsts: Dict<Language, Entry>, chosen: seq<Entry>, l: Language, m: Language) {
    Taken(chosen, l) <= Taken(chosen, m) + 1 || Taken(chosen, m) == |firsts.At(m)|
  }

  ghost predicate Exhausted(firsts: Dict<Language, Entry>, chosen: seq<Entry>) {
    forall l :: Taken(chosen, l) == |firsts.At(l)|
  }

  ghost predicate Following(firsts: Dict<Language, Entry>, cursors: map<Language, nat>, chosen: seq<Entry>) {
    && cursors.Keys == firsts.lists.Keys
    && (forall l :: TakenFirst(firsts, chosen, l))
    && (forall l | l in cursors :: cursors[l] == Taken(chosen, l))
  }

  ghost predicate InTurn(firsts: Dict<Language, Entry>, cursors: map<Language, nat>, turn: nat, served: seq<Language>) {
    && cursors.Keys == firsts.lists.Keys
    && forall l | l in cursors :: cursors[l] == Min(turn + if l in served then 1 else 0, |firsts.lists[l]|)
  }

  lemma TakeNext(firsts: Dict<Language, Entry>, picks: seq<Entry>, cursors: map<Language, nat>, chosen: seq<Entry>,
                 l: Language)
    requires GroupedBy(firsts, picks, EntryLanguage()) && Following(firsts, cursors, chosen)
    requires l in cursors && cursors[l] < |firsts.lists[l]|
    ensures Following(firsts, cursors[l := cursors[l] + 1], chosen + [firsts.lists[l][cursors[l]]])
  {
    hide Filter;
    var e := firsts.lists[l][cursors[l]];
    var next := chosen + [e];
    assert Grouped(firsts, picks, EntryLanguage(), l);
    FilterMembers(picks, Is(EntryLanguage(), l));
    assert e in firsts.At(l);
    forall m ensures TakenFirst(firsts, next, m) && Taken(next, m) == Taken(chosen, m) + if m == l then 1 else 0 {
      FilterAppend(chosen, e, Is(EntryLanguage(), m));
      assert TakenFirst(firsts, chosen, m);
    }
  }

  /** Takes languages in turn until the limit is reached or every list is empty. */
  method InTurns(firsts: Dict<Language, Entry>, langs: seq<Language>, limit: int, ghost picks: seq<Entry>)
    returns (chosen: seq<Entry>)
    requires GroupedBy(firsts, picks, EntryLanguage())
    requires Distinct(langs) && forall l :: l in langs <==> l in firsts.lists
    ensures |chosen| <= limit || chosen == []
    ensures forall l :: TakenFirst(firsts, chosen, l)
    ensures forall l, m :: Level(firsts, chosen, l, m)
    ensures |chosen| < limit ==> Exhausted(firsts, chosen)
    ensures exists n :: chosen <= Turns(firsts.lists, langs, n)
  {
    hide GroupedBy, Following, InTurn, TakenFirst, Level, Exhausted, InOrder, Turns;
    chosen := [];
    var cursors := map l | l in firsts.lists :: 0;
    ghost var turn, served := 0, [];
    Begin(firsts, cursors);
    OrderStart(firsts, langs);
    while |chosen| < limit && AnyLeft(firsts, langs, cursors)
      invariant Following(firsts, cursors, chosen) && InTurn(firsts, cursors, turn, served)
      invariant cursors.Keys == firsts.lists.Keys
      invariant |chosen| < limit ==> served == []
      invariant |chosen| <= limit || chosen == []
      invariant InOrder(firsts, langs, turn, served, chosen) && served <= langs
      decreases limit - |chosen|
    {
      cursors, chosen, served := OneTurn(firsts, langs, limit, cursors, chosen, turn, picks);
      if |chosen| < limit {
        NextTurn(firsts, cursors, turn, langs);
        OrderNextTurn(firsts, langs, turn, chosen);
        turn, served := turn + 1, [];
      }
    }
    Finished(firsts, langs, cursors, chosen, turn, served, limit);
    OrderCut(firsts, langs, turn, served, chosen);
  }

  /** What is chosen so far, in whole turns over the languages and then over those served in this turn. */
  ghost predicate InOrder(firsts: Dict<Language, Entry>, langs: seq<Language>, turn: nat, served: seq<Language>,
                          chosen: seq<Entry>) {
    chosen == Turns(firsts.lists, langs, turn) + Turn(firsts.lists, served, turn)
  }

  lemma OrderStart(firsts: Dict<Language, Entry>, langs: seq<Language>)
    ensures InOrder(firsts, langs, 0, [], [])
  {
  }

  lemma OrderNextTurn(firsts: Dict<Language, Entry>, langs: seq<Language>, turn: nat, chosen: seq<Entry>)
    requires InOrder(firsts, langs, turn, langs, chosen)
    ensures InOrder(firsts, langs, turn + 1, [], chosen)
  {
    assert Turns(firsts.lists, langs, turn + 1) + Turn(firsts.lists, [], turn + 1) == chosen;
  }

  lemma OrderCut(firsts: Dict<Language, Entry>, langs: seq<Language>, turn: nat, served: seq<Language>,
                 chosen: seq<Entry>)
    requires InOrder(firsts, langs, turn, served, chosen) && served <= langs
    ensures chosen <= Turns(firsts.lists, langs, turn + 1)
  {
    hide Turn;
    TurnPrefix(firsts.lists, langs, |served|, turn);
    assert langs[..|served|] == served;
  }

  lemma OrderServed(firsts: Dict<Language, Entry>, langs: seq<Language>, cursors: map<Language, nat>, turn: nat,
                    served: seq<Language>,
                    chosen: seq<Entry>, l: Language)
    requires InOrder(firsts, langs, turn, served, chosen) && InTurn(firsts, cursors, turn, served) && l in cursors
             && l !in served
    ensures cursors[l] < |firsts.lists[l]| ==>
              InOrder(firsts, langs, turn, served + [l], chosen + [firsts.lists[l][cursors[l]]])
    ensures cursors[l] >= |firsts.lists[l]| ==> InOrder(firsts, langs, turn, served + [l], chosen)
  {
    hide Turn, Turns;
    TurnAppend(firsts.lists, served, l, turn);
    assert cursors[l] == Min(turn, |firsts.lists[l]|);
  }

  predicate AnyLeft(firsts: Dict<Language, Entry>, langs: seq<Language>, cursors: map<Language, nat>)
    requires cursors.Keys == firsts.lists.Keys && forall l | l in langs :: l in firsts.lists
  {
    exists l | l in langs :: cursors[l] < |firsts.lists[l]|
  }

  /** One pass over the languages, cut short by the limit. */
  method OneTurn(firsts: Dict<Language, Entry>, langs: seq<Language>, limit: int, cursors0: map<Language, nat>,
                 chosen0: seq<Entry>,
                 ghost turn: nat, ghost picks: seq<Entry>)
    returns (cursors: map<Language, nat>, chosen: seq<Entry>, ghost served: seq<Language>)
    requires GroupedBy(firsts, picks, EntryLanguage()) && Following(firsts, cursors0, chosen0)
             && InTurn(firsts, cursors0, turn, [])
    requires Distinct(langs) && (forall l :: l in langs <==> l in firsts.lists)
    requires cursors0.Keys == firsts.lists.Keys && AnyLeft(firsts, langs, cursors0) && |chosen0| < limit
    requires InOrder(firsts, langs, turn, [], chosen0)
    ensures Following(firsts, cursors, chosen) && InTurn(firsts, cursors, turn, served)
    ensures InOrder(firsts, langs, turn, served, chosen) && served <= langs
    ensures cursors.Keys == firsts.lists.Keys
    ensures |chosen0| < |chosen| <= limit
    ensures |chosen| < limit ==> served == langs
  {
    hide GroupedBy, Following, InTurn, InOrder;
    cursors, chosen, served := cursors0, chosen0, [];
    var j := 0;
    while j < |langs| && |chosen| < limit
      invariant j <= |langs| && served == langs[..j]
      invariant Following(firsts, cursors, chosen) && InTurn(firsts, cursors, turn, served)
      invariant InOrder(firsts, langs, turn, served, chosen)
      invariant |chosen0| <= |chosen| <= limit && cursors.Keys == firsts.lists.Keys
      invariant |chosen| == |chosen0| ==>
                  cursors == cursors0 && forall l | l in served :: cursors0[l] >= |firsts.lists[l]|
    {
      var l := langs[j];
      assert l !in served && langs[..j + 1] == langs[..j] + [l];
      Served(firsts, cursors, turn, served, l);
      OrderServed(firsts, langs, cursors, turn, served, chosen, l);
      if cursors[l] < |firsts.lists[l]| {
        TakeNext(firsts, picks, cursors, chosen, l);
        chosen := chosen + [firsts.lists[l][cursors[l]]];
        cursors := cursors[l := cursors[l] + 1];
      }
      served := served + [l];
      j := j + 1;
    }
    assert j == |langs| ==> served == langs;
  }

  /** The turn of one language: it advances unless its list is used up. */
  lemma Served(firsts: Dict<Language, Entry>, cursors: map<Language, nat>, turn: nat, served: seq<Language>,
               l: Language)
    requires InTurn(firsts, cursors, turn, served) && l in cursors && l !in served
    ensures cursors[l] < |firsts.lists[l]| ==> InTurn(firsts, cursors[l := cursors[l] + 1], turn, served + [l])
    ensures cursors[l] >= |firsts.lists[l]| ==> InTurn(firsts, cursors, turn, served + [l])
  {
  }

  lemma Begin(firsts: Dict<Language, Entry>, cursors: map<Language, nat>)
    requires cursors == map l | l in firsts.lists :: 0
    ensures Following(firsts, cursors, []) && InTurn(firsts, cursors, 0, []) && cursors.Keys == firsts.lists.Keys
  {
  }

  lemma NextTurn(firsts: Dict<Language, Entry>, cursors: map<Language, nat>, turn: nat, langs: seq<Language>)
    requires InTurn(firsts, cursors, turn, langs) && forall l :: l in langs <==> l in firsts.lists
    ensures InTurn(firsts, cursors, turn + 1, [])
  {
  }

  lemma Finished(firsts: Dict<Language, Entry>, langs: seq<Language>, cursors: map<Language, nat>, chosen: seq<Entry>,
                 turn: nat, served: seq<Language>, limit: int)
    requires Following(firsts, cursors, chosen) && InTurn(firsts, cursors, turn, served)
    requires forall l :: l in langs <==> l in firsts.lists
    requires |chosen| < limit ==> !AnyLeft(firsts, langs, cursors)
    ensures forall l :: TakenFirst(firsts, chosen, l)
    ensures forall l, m :: Level(firsts, chosen, l, m)
    ensures |chosen| < limit ==> Exhausted(firsts, chosen)
  {
    hide Filter;
    forall l ensures Taken(chosen, l) <= |firsts.At(l)| && (l in cursors ==> cursors[l] == Taken(chosen, l)) {
      assert TakenFirst(firsts, chosen, l);
    }
  }

  /** Chosen entries are picks, and none is chosen twice. */
  lemma ChosenFromPicks(firsts: Dict<Language, Entry>, picks: seq<Entry>, chosen: seq<Entry>)
    requires GroupedBy(firsts, picks, EntryLanguage()) && forall l :: TakenFirst(firsts, chosen, l)
    ensures multiset(chosen) <= multiset(picks)
    ensures Exhausted(firsts, chosen) ==> forall e | e in picks :: e in chosen
  {
    hide Filter, GroupedBy, Exhausted;
    forall e ensures multiset(chosen)[e] <= multiset(picks)[e] {
      ChosenCount(firsts, picks, chosen, e);
    }
    if Exhausted(firsts, chosen) {
      forall e | e in picks ensures e in chosen {
        ChosenCount(firsts, picks, chosen, e);
        assert multiset(picks)[e] > 0;
        assert multiset(chosen)[e] > 0;
      }
    }
  }

  lemma ChosenCount(firsts: Dict<Language, Entry>, picks: seq<Entry>, chosen: seq<Entry>, e: Entry)
    requires GroupedBy(firsts, picks, EntryLanguage()) && forall l :: TakenFirst(firsts, chosen, l)
    ensures multiset(chosen)[e] <= multiset(picks)[e]
    ensures Exhausted(firsts, chosen) ==> multiset(chosen)[e] == multiset(picks)[e]
  {
    hide Filter;
    var l := e.commit.language;
    assert TakenFirst(firsts, chosen, l);
    assert Grouped(firsts, picks, EntryLanguage(), l);
    FilterCounts(chosen, Is(EntryLanguage(), l));
    FilterCounts(picks, Is(EntryLanguage(), l));
    PrefixCounts(firsts.At(l), Taken(chosen, l), e);
    assert firsts.At(l)[..|firsts.At(l)|] == firsts.At(l);
  }

  lemma FewerRoots(picks: seq<Entry>, chosen: seq<Entry>)
    requires DistinctRoots(picks) && multiset(chosen) <= multiset(picks)
    ensures DistinctRoots(chosen) && forall e | e in chosen :: e in picks
  {
    forall e | e in chosen ensures e in picks {
      assert multiset(chosen)[e] > 0;
      assert multiset(picks)[e] > 0;
    }
    DistinctCounts(picks);
    assert Distinct(picks);
    forall e ensures multiset(chosen)[e] <= 1 {
      assert multiset(picks)[e] <= 1;
    }
    DistinctCounts(chosen);
    forall i, j | 0 <= i < j < |chosen| ensures chosen[i].root != chosen[j].root {
      assert chosen[i] in picks && chosen[j] in picks;
      assert chosen[i] != chosen[j];
    }
  }

  /** The front of the list that takes the picks of each language in turn, languages in seeded order. */
  ghost predicate RoundRobin(role: Role, h: Hashes, picks: seq<Entry>, chosen: seq<Entry>) {
    var firsts := GroupAll(picks, EntryLanguage());
    exists n :: chosen <= Turns(firsts.lists, SortBy(firsts.names, LanguageOrder(role, h)), n)
  }

  /** The picks of the components that the members of a role form. */
  ghost function PicksOf(role: Role, members: seq<Entry>, h: Hashes): seq<Entry> {
    GroupAllGroups(members, EntryRoot());
    GroupNames(GroupAll(members, EntryRoot()), members);
    Picks(role, GroupAll(members, EntryRoot()), h)
  }

  /**
   The choice for one role: one entry a component, within the limit, the front of the seeded
   round-robin list, languages level, nothing left out while there is room.
   */
  ghost predicate Chosen(role: Role, members: seq<Entry>, limit: int, h: Hashes, chosen: seq<Entry>) {
    && (|chosen| <= limit || chosen == [])
    && DistinctRoots(chosen) && (forall e | e in chosen :: e in members)
    && RoundRobin(role, h, PicksOf(role, members, h), chosen)
    && (forall l :: TakenFirst(GroupAll(PicksOf(role, members, h), EntryLanguage()), chosen, l))
    && (forall l, m :: Level(GroupAll(PicksOf(role, members, h), EntryLanguage()), chosen, l, m))
    && (|chosen| < limit ==> OneEach(members, chosen))
  }

  method Choose(role: Role, groups: Dict<Name, Entry>, limit: int, h: Hashes, ghost members: seq<Entry>)
    returns (chosen: seq<Entry>)
    requires groups == GroupAll(members, EntryRoot())
    ensures Chosen(role, members, limit, h, chosen)
  {
    hide GroupedBy, GroupAll, Picks, RoundRobin, Level, TakenFirst, OneEach, NoEmptyGroup;
    GroupAllGroups(members, EntryRoot());
    GroupNames(groups, members);
    chosen := ChooseAmong(role, groups, limit, h, members);
  }

  /** The picks of every component, taken in turns over their languages. */
  method ChooseAmong(role: Role, groups: Dict<Name, Entry>, limit: int, h: Hashes, ghost members: seq<Entry>)
    returns (chosen: seq<Entry>)
    requires GroupedBy(groups, members, EntryRoot()) && NoEmptyGroup(groups)
    ensures |chosen| <= limit || chosen == []
    ensures DistinctRoots(chosen) && forall e | e in chosen :: e in members
    ensures RoundRobin(role, h, Picks(role, groups, h), chosen)
    ensures forall l :: TakenFirst(GroupAll(Picks(role, groups, h), EntryLanguage()), chosen, l)
    ensures forall l, m :: Level(GroupAll(Picks(role, groups, h), EntryLanguage()), chosen, l, m)
    ensures |chosen| < limit ==> OneEach(members, chosen)
  {
    hide GroupedBy, TakenFirst, Level, Exhausted, SortBy, GroupAll, Turns, Picks;
    var firsts := Firsts(role, groups, h, members);
    ghost var picks := Picks(role, groups, h);
    GroupAllGroups(picks, EntryLanguage());
    LanguageNames(firsts, picks);
    var langs := SortBy(firsts.names, LanguageOrder(role, h));
    SortedBy(firsts.names, LanguageOrder(role, h));
    Rearranged(langs, firsts.names);
    chosen := InTurns(firsts, langs, limit, picks);
    ChosenFromPicks(firsts, picks, chosen);
    FewerRoots(picks, chosen);
  }

  lemma LanguageNames(firsts: Dict<Language, Entry>, picks: seq<Entry>)
    requires GroupedBy(firsts, picks, EntryLanguage())
    ensures Distinct(firsts.names) && forall l :: l in firsts.names <==> l in firsts.lists
  {
  }

  // ----- Examples -----

  /** Another component's entry of the same language with a different subject. */
  function Partner(h: Hashes, e: Entry): Entry -> bool {
    (o: Entry) => o.commit.language == e.commit.language && o.root != e.root
      && h.normal(o.commit.subject) != h.normal(e.commit.subject)
  }

  function Other(h: Hashes, e: Entry): Entry -> bool {
    (o: Entry) => o.root != e.root && h.normal(o.commit.subject) != h.normal(e.commit.subject)
  }

  function NegativeOrder(h: Hashes, e: Entry): Entry -> real {
    (o: Entry) => h.negativeKey(e.commit.id, o.commit.id)
  }

  /** The partner whose subject is shown: one of least seeded key. */
  ghost predicate Nearest(chosen: seq<Entry>, h: Hashes, e: Entry, o: Entry) {
    && o in chosen && Partner(h, e)(o)
    && forall p | p in chosen && Partner(h, e)(p) :: NegativeOrder(h, e)(o) <= NegativeOrder(h, e)(p)
  }

  /** The subject shown for an entry: its own, or that of the first partner of least seeded key, if there is one. */
  ghost function Shown(chosen: seq<Entry>, h: Hashes, e: Entry, matches: bool): Option<string> {
    var pool := Filter(chosen, Partner(h, e));
    if matches then Some(e.commit.subject)
    else if pool == [] then None
    else Some(MinBy(pool, NegativeOrder(h, e)).commit.subject)
  }

  /** What a shown subject means. */
  lemma ShownIsNearest(chosen: seq<Entry>, h: Hashes, e: Entry, matches: bool)
    ensures var shown := Shown(chosen, h, e, matches);
            && (shown.None? <==> !matches && !exists o :: o in chosen && Partner(h, e)(o))
            && (matches ==> shown == Some(e.commit.subject))
            && (!matches && shown.Some? ==> exists o :: Nearest(chosen, h, e, o) && shown.value == o.commit.subject)
  {
    hide Filter, MinBy, Partner;
    var pool := Filter(chosen, Partner(h, e));
    FilterMembers(chosen, Partner(h, e));
    if pool != [] {
      var o := MinBy(pool, NegativeOrder(h, e));
      assert o in pool && pool[0] in pool;
      assert Nearest(chosen, h, e, o);
    } else {
      forall o | o in chosen
        ensures !Partner(h, e)(o)
      {
        assert o !in pool;
      }
    }
  }

  /** The example shows the commit's own subject, or that of the partner of least seeded key. */
  ghost predicate Honest(role: Role, chosen: seq<Entry>, h: Hashes, x: Example) {
    var e := Entry(x.root, x.commit);
    && x.role == role && e in chosen
    && (x.matches ==> x.shown == x.commit.subject)
    && (!x.matches ==> exists o :: Nearest(chosen, h, e, o) && x.shown == o.commit.subject)
  }

  /** The example of an entry: always for an even place, and otherwise exactly when it has a partner. */
  ghost predicate Represented(chosen: seq<Entry>, h: Hashes, rows: seq<Example>, e: Entry, matches: bool) {
    if matches || (exists o :: o in chosen && Partner(h, e)(o))
    then exists x :: x in rows && x.root == e.root && x.commit == e.commit && x.matches == matches
    else forall x | x in rows :: x.root != e.root
  }

  ghost predicate DistinctExamples(rows: seq<Example>) {
    forall i, j | 0 <= i < j < |rows| :: rows[i].root != rows[j].root
  }

  /** The question is well formed: its message is not empty and has no line end. */
  predicate WellFormed(shown: string) {
    shown != "" && '\n' !in shown
  }

  ghost predicate AllWellFormed(es: seq<Entry>) {
    forall e | e in es :: WellFormed(e.commit.subject)
  }

  /** The subject to show: none when a partner is needed and there is none. */
  method Subject(e: Entry, matches: bool, byLanguage: Dict<Language, Entry>, h: Hashes, ghost chosen: seq<Entry>)
    returns (shown: Option<string>)
    requires byLanguage == GroupAll(chosen, EntryLanguage()) && e in chosen
    ensures shown.None? <==> !matches && !exists o :: o in chosen && Partner(h, e)(o)
    ensures matches ==> shown == Some(e.commit.subject)
    ensures !matches && shown.Some? ==> exists o :: Nearest(chosen, h, e, o) && shown.value == o.commit.subject
    ensures shown == Shown(chosen, h, e, matches)
  {
    hide Filter, MinBy, GroupedBy, GroupAll, Partner, Other;
    GroupAllGroups(chosen, EntryLanguage());
    ShownIsNearest(chosen, h, e, matches);
    if matches {
      return Some(e.commit.subject);
    }
    var pool := Filter(byLanguage.At(e.commit.language), Other(h, e));
    PoolIsPartners(byLanguage, chosen, h, e);
    if pool == [] {
      return None;
    }
    return Some(MinBy(pool, NegativeOrder(h, e)).commit.subject);
  }

  lemma PoolIsPartners(byLanguage: Dict<Language, Entry>, chosen: seq<Entry>, h: Hashes, e: Entry)
    requires GroupedBy(byLanguage, chosen, EntryLanguage())
    ensures Filter(byLanguage.At(e.commit.language), Other(h, e)) == Filter(chosen, Partner(h, e))
  {
    hide Filter;
    var l := e.commit.language;
    assert Grouped(byLanguage, chosen, EntryLanguage(), l);
    FilterTwice(chosen, Is(EntryLanguage(), l), Other(h, e), Partner(h, e));
  }

  method GroupByLanguage(chosen: seq<Entry>) returns (d: Dict<Language, Entry>)
    ensures d == GroupAll(chosen, EntryLanguage())
  {
    hide Add, GroupAll;
    d := Dict([], map[]);
    NothingGrouped();
    for k := 0 to |chosen|
      invariant d == GroupAll(chosen[..k], EntryLanguage())
    {
      GroupAllMore(chosen[..k], EntryLanguage(), chosen[k]);
      assert chosen[..k + 1] == chosen[..k] + [chosen[k]];
      d := Add(d, chosen[k].commit.language, chosen[k]);
    }
    assert chosen[..|chosen|] == chosen;
  }

  /** The state of the examples after the first k entries of the seeded order. */
  ghost predicate MadeSoFar(role: Role, chosen: seq<Entry>, sorted: seq<Entry>, h: Hashes, rows: seq<Example>, k: nat)
    requires k <= |sorted|
  {
    && DistinctExamples(rows)
    && (forall x | x in rows :: Honest(role, chosen, h, x) && exists j :: 0 <= j < k && sorted[j].root == x.root)
    && (forall j | 0 <= j < k :: Represented(chosen, h, rows, sorted[j], j % 2 == 0))
  }

  lemma MadeNext(role: Role, chosen: seq<Entry>, sorted: seq<Entry>, h: Hashes, rows: seq<Example>, k: nat,
                 shown: Option<string>)
    requires k < |sorted| && DistinctRoots(sorted) && sorted[k] in chosen
    requires MadeSoFar(role, chosen, sorted, h, rows, k)
    requires var e := sorted[k];
             && (shown.None? <==> k % 2 != 0 && !exists o :: o in chosen && Partner(h, e)(o))
             && (k % 2 == 0 ==> shown == Some(e.commit.subject))
             && (k % 2 != 0 && shown.Some? ==>
                 exists o :: Nearest(chosen, h, e, o) && shown.value == o.commit.subject)
    ensures shown.None? ==> MadeSoFar(role, chosen, sorted, h, rows, k + 1)
    ensures shown.Some? ==>
              MadeSoFar(role, chosen, sorted, h,
                        rows + [Example(role, sorted[k].root, sorted[k].commit, k % 2 == 0, shown.value)], k + 1)
  {
    var e := sorted[k];
    forall x | x in rows ensures x.root != e.root && exists j :: 0 <= j < k + 1 && sorted[j].root == x.root {
      var j :| 0 <= j < k && sorted[j].root == x.root;
    }
    if shown.Some? {
      var x := Example(role, e.root, e.commit, k % 2 == 0, shown.value);
      var more := rows + [x];
      assert Honest(role, chosen, h, x);
      assert sorted[k].root == x.root;
      forall j | 0 <= j < k + 1 ensures Represented(chosen, h, more, sorted[j], j % 2 == 0) {
        if j < k {
          RepresentedMore(chosen, h, rows, sorted[j], j % 2 == 0, x);
        } else {
          assert x in more;
        }
      }
    }
  }

  lemma RepresentedMore(chosen: seq<Entry>, h: Hashes, rows: seq<Example>, e: Entry, matches: bool, x: Example)
    requires Represented(chosen, h, rows, e, matches) && x.root != e.root
    ensures Represented(chosen, h, rows + [x], e, matches)
  {
    if matches || (exists o :: o in chosen && Partner(h, e)(o)) {
      var y :| y in rows && y.root == e.root && y.commit == e.commit && y.matches == matches;
      assert y in rows + [x];
    }
  }

  /** The seeded order in which labels alternate. */
  function MatchOrder(chosen: seq<Entry>, h: Hashes): seq<Entry> {
    SortBy(chosen, (e: Entry) => h.matchKey(e.commit.id))
  }

  /** The examples of the first k entries of the seeded order, in that order. */
  ghost function Examples(role: Role, chosen: seq<Entry>, sorted: seq<Entry>, h: Hashes, k: nat): seq<Example>
    requires k <= |sorted|
  {
    if k == 0 then []
    else Examples(role, chosen, sorted, h, k - 1) + ExampleOf(role, chosen, h, sorted[k - 1], (k - 1) % 2 == 0)
  }

  ghost function ExampleOf(role: Role, chosen: seq<Entry>, h: Hashes, e: Entry, matches: bool): seq<Example> {
    match Shown(chosen, h, e, matches)
    case None => []
    case Some(subject) => [Example(role, e.root, e.commit, matches, subject)]
  }

  /** All examples of a role. */
  ghost function RoleExamples(role: Role, chosen: seq<Entry>, h: Hashes): seq<Example> {
    Examples(role, chosen, MatchOrder(chosen, h), h, |MatchOrder(chosen, h)|)
  }

  lemma ExamplesNext(role: Role, chosen: seq<Entry>, sorted: seq<Entry>, h: Hashes, k: nat)
    requires k < |sorted|
    ensures var shown, before := Shown(chosen, h, sorted[k], k % 2 == 0), Examples(role, chosen, sorted, h, k);
            && (shown.None? ==> Examples(role, chosen, sorted, h, k + 1) == before)
            && (shown.Some? ==>
                  Examples(role, chosen, sorted, h, k + 1)
                  == before + [Example(role, sorted[k].root, sorted[k].commit, k % 2 == 0, shown.value)])
  {
    hide Shown;
  }

  lemma ShownWellFormed(chosen: seq<Entry>, h: Hashes, e: Entry, matches: bool)
    requires AllWellFormed(chosen) && e in chosen && Shown(chosen, h, e, matches).Some?
    ensures WellFormed(Shown(chosen, h, e, matches).value)
  {
    hide Shown, Partner, WellFormed;
    ShownIsNearest(chosen, h, e, matches);
  }

  /** The examples of one role, labels alternating in seeded order. */
  method MakeExamples(role: Role, chosen: seq<Entry>, h: Hashes) returns (rows: Option<seq<Example>>)
    requires DistinctRoots(chosen) && AllWellFormed(chosen)
    ensures rows.Some? && |MatchOrder(chosen, h)| == |chosen|
    ensures MadeSoFar(role, chosen, MatchOrder(chosen, h), h, rows.value, |chosen|)
    ensures rows.value == RoleExamples(role, chosen, h) && |rows.value| <= |chosen|
  {
    hide GroupAll, SortBy, MadeSoFar, Partner, Nearest, Shown, Examples, AllWellFormed, WellFormed;
    var sorted := MatchOrder(chosen, h);
    SortedBy(chosen, (e: Entry) => h.matchKey(e.commit.id));
    SortedRoots(chosen, sorted);
    var byLanguage := GroupByLanguage(chosen);
    var made := [];
    MadeNothing(role, chosen, sorted, h);
    NoExamples(role, chosen, sorted, h);
    for k := 0 to |sorted|
      invariant MadeSoFar(role, chosen, sorted, h, made, k) && |made| <= k
      invariant made == Examples(role, chosen, sorted, h, k)
    {
      var e := sorted[k];
      assert e in sorted;
      var shown := Subject(e, k % 2 == 0, byLanguage, h, chosen);
      MadeNext(role, chosen, sorted, h, made, k, shown);
      ExamplesNext(role, chosen, sorted, h, k);
      if shown.Some? {
        ShownWellFormed(chosen, h, e, k % 2 == 0);
        if !WellFormed(shown.value) {
          assert false;
          return None;
        }
        made := made + [Example(role, e.root, e.commit, k % 2 == 0, shown.value)];
      }
    }
    return Some(made);
  }

  lemma SortedRoots(chosen: seq<Entry>, sorted: seq<Entry>)
    requires DistinctRoots(chosen) && multiset(sorted) == multiset(chosen)
    ensures DistinctRoots(sorted) && forall e :: e in sorted <==> e in chosen
  {
    FewerRoots(chosen, sorted);
    Rearranged(chosen, sorted);
  }

  lemma NoExamples(role: Role, chosen: seq<Entry>, sorted: seq<Entry>, h: Hashes)
    ensures Examples(role, chosen, sorted, h, 0) == []
  {
  }

  lemma MadeNothing(role: Role, chosen: seq<Entry>, sorted: seq<Entry>, h: Hashes)
    ensures MadeSoFar(role, chosen, sorted, h, [], 0)
  {
  }

  // ----- Putting it together -----

  const ROLES: seq<Role> := [Train, Validation, Calibration, Test]

  /** No repository of the one commit is connected to one of the other. */
  ghost predicate Unconnected(lists: seq<seq<Name>>, c: Commit, names: seq<Name>) {
    forall a, b | a in c.repos && b in names :: !Connected(lists, a, b)
  }

  /** Roots that differ keep commits apart, and a root outside the Kev roots keeps a commit away from Kev. */
  lemma Separated(lists: seq<seq<Name>>, root: map<Name, Name>, candidates: seq<Commit>, c: Commit, names: seq<Name>,
                  roots: set<Name>)
    requires Sound(lists, root) && Complete(lists, root) && lists == Lists(candidates)
    requires c in candidates && roots == RootsOf(root, names) && RootOf(root, c) !in roots
    ensures Unconnected(lists, c, names)
  {
    hide Sound, Complete;
    forall a, b | a in c.repos && b in names ensures !Connected(lists, a, b) {
      InComponents(lists, root, candidates, c, a);
      if b in root {
        RootsAreComponents(lists, root, a, b);
        assert root[b] in roots;
      } else if Connected(lists, a, b) {
        StaysInRoot(lists, root, a, b);
      }
    }
  }

  lemma StaysInRoot(lists: seq<seq<Name>>, root: map<Name, Name>, a: Name, b: Name)
    requires Complete(lists, root) && a in root && Connected(lists, a, b)
    ensures b in root
  {
    var p :| Path(lists, p) && p[0] == a && p[|p| - 1] == b;
    PathKeepsRoot(lists, root, p);
  }

  /** What holds of every example, and of the choice it comes from. */
  ghost predicate Sourced(candidates: seq<Commit>, root: map<Name, Name>, kevRoots: set<Name>, h: Hashes, role: Role,
                          e: Entry) {
    Admissible(candidates, root, kevRoots, e) && RoleOf(h.bucket(e.root)) == role
  }

  lemma MembersSourced(candidates: seq<Commit>, root: map<Name, Name>, kevRoots: set<Name>, h: Hashes, es: seq<Entry>,
                       role: Role, e: Entry)
    requires Admitted(candidates, root, kevRoots, h, es)
    ensures e in Filter(es, InRole(h, role)) <==> e in es && RoleOf(h.bucket(e.root)) == role
    ensures e in Filter(es, InRole(h, role)) ==> Sourced(candidates, root, kevRoots, h, role, e)
  {
    FilterMembers(es, InRole(h, role));
  }

  lemma CandidatesWellFormed(commits: seq<Commit>, kev: Kev, h: Hashes)
    ensures forall c | c in Candidates(commits, kev, h) :: WellFormed(c.subject)
  {
    FilterMembers(commits, Usable(kev, h));
  }

  /** The rows of the roles done so far. */
  ghost predicate RowsSoFar(es: seq<Entry>, h: Hashes, limits: Role -> int, rows: seq<Example>,
                            chosen: map<Role, seq<Entry>>, done: seq<Role>) {
    && (forall role :: role in done <==> role in chosen)
    && (forall role | role in chosen :: RoleDone(es, h, limits(role), role, chosen[role], rows))
    && DistinctExamples(rows)
    && (forall x | x in rows :: x.role in chosen && Honest(x.role, chosen[x.role], h, x))
  }

  /** The choice of a role and the examples made of it. */
  ghost predicate RoleDone(es: seq<Entry>, h: Hashes, limit: int, role: Role, chosen: seq<Entry>, rows: seq<Example>) {
    var members := Filter(es, InRole(h, role));
    && Chosen(role, members, limit, h, chosen)
    && |MatchOrder(chosen, h)| == |chosen|
    && (forall j | 0 <= j < |chosen| :: Represented(chosen, h, rows, MatchOrder(chosen, h)[j], j % 2 == 0))
  }

  lemma RowsMore(candidates: seq<Commit>, root: map<Name, Name>, kevRoots: set<Name>, es: seq<Entry>, h: Hashes,
                 limits: Role -> int,
                 rows: seq<Example>, chosen: map<Role, seq<Entry>>, done: seq<Role>, role: Role, picked: seq<Entry>,
                 made: seq<Example>)
    requires Admitted(candidates, root, kevRoots, h, es)
    requires RowsSoFar(es, h, limits, rows, chosen, done) && role !in done
    requires Chosen(role, Filter(es, InRole(h, role)), limits(role), h, picked)
    requires |MatchOrder(picked, h)| == |picked| && MadeSoFar(role, picked, MatchOrder(picked, h), h, made, |picked|)
    ensures RowsSoFar(es, h, limits, rows + made, chosen[role := picked], done + [role])
  {
    hide Filter, MatchOrder, Partner, OneEach, Chosen;
    var all, next := rows + made, chosen[role := picked];
    forall x | x in made ensures RoleOf(h.bucket(x.root)) == role {
      assert Honest(role, picked, h, x);
      ChosenAreMembers(role, Filter(es, InRole(h, role)), limits(role), h, picked);
      MembersSourced(candidates, root, kevRoots, h, es, role, Entry(x.root, x.commit));
    }
    forall x | x in rows ensures RoleOf(h.bucket(x.root)) == x.role && x.role != role {
      assert Honest(x.role, chosen[x.role], h, x);
      assert RoleDone(es, h, limits(x.role), x.role, chosen[x.role], rows);
      ChosenAreMembers(x.role, Filter(es, InRole(h, x.role)), limits(x.role), h, chosen[x.role]);
      MembersSourced(candidates, root, kevRoots, h, es, x.role, Entry(x.root, x.commit));
    }
    DistinctBoth(rows, made);
    forall r | r in next ensures RoleDone(es, h, limits(r), r, next[r], all) {
      var cs := next[r];
      forall j | 0 <= j < |cs| ensures |MatchOrder(cs, h)| == |cs|
        && Represented(cs, h, all, MatchOrder(cs, h)[j], j % 2 == 0) {
        var e := MatchOrder(cs, h)[j];
        if r == role {
          MatchOrderMembers(picked, h, j);
          ChosenAreMembers(role, Filter(es, InRole(h, role)), limits(role), h, picked);
          MembersSourced(candidates, root, kevRoots, h, es, role, e);
          RepresentedAmong(cs, h, made, all, e, j % 2 == 0, rows);
        } else {
          assert RoleDone(es, h, limits(r), r, chosen[r], rows);
          MatchOrderMembers(chosen[r], h, j);
          ChosenAreMembers(r, Filter(es, InRole(h, r)), limits(r), h, chosen[r]);
          MembersSourced(candidates, root, kevRoots, h, es, r, e);
          RepresentedAmong(cs, h, rows, all, e, j % 2 == 0, made);
        }
      }
    }
  }

  lemma ChosenAreMembers(role: Role, members: seq<Entry>, limit: int, h: Hashes, chosen: seq<Entry>)
    requires Chosen(role, members, limit, h, chosen)
    ensures DistinctRoots(chosen) && (forall e | e in chosen :: e in members)
    ensures |chosen| < limit ==> OneEach(members, chosen)
  {
  }

  lemma MatchOrderMembers(chosen: seq<Entry>, h: Hashes, j: nat)
    requires j < |chosen|
    ensures |MatchOrder(chosen, h)| == |chosen| && MatchOrder(chosen, h)[j] in chosen
  {
    var key := (e: Entry) => h.matchKey(e.commit.id);
    SortedBy(chosen, key);
    var sorted := MatchOrder(chosen, h);
    assert sorted == SortBy(chosen, key);
    Rearranged(chosen, sorted);
    assert sorted[j] in sorted;
  }

  lemma RepresentedAmong(chosen: seq<Entry>, h: Hashes, rows: seq<Example>, all: seq<Example>, e: Entry,
                         matches: bool, others: seq<Example>)
    requires Represented(chosen, h, rows, e, matches)
    requires forall x :: x in all <==> x in rows || x in others
    requires forall x | x in others :: x.root != e.root
    ensures Represented(chosen, h, all, e, matches)
  {
    if matches || (exists o :: o in chosen && Partner(h, e)(o)) {
      var y :| y in rows && y.root == e.root && y.commit == e.commit && y.matches == matches;
      assert y in all;
    }
  }

  lemma DistinctBoth(a: seq<Example>, b: seq<Example>)
    requires DistinctExamples(a) && DistinctExamples(b)
    requires forall x, y | x in a && y in b :: x.root != y.root
    ensures DistinctExamples(a + b)
  {
    forall i, j | 0 <= i < j < |a + b| ensures (a + b)[i].root != (a + b)[j].root {
      assert i < |a| <= j ==> a[i] in a && b[j - |a|] in b;
    }
  }

  /** Every role in turn. */
  method MakeAll(byRole: map<Role, Dict<Name, Entry>>, h: Hashes, limits: Role -> int,
                 ghost candidates: seq<Commit>, ghost root: map<Name, Name>, ghost kevRoots: set<Name>,
                 ghost es: seq<Entry>)
    returns (rows: Option<seq<Example>>, chosen: map<Role, seq<Entry>>)
    requires ByRole(byRole, h, es) && Admitted(candidates, root, kevRoots, h, es)
    requires forall c | c in candidates :: WellFormed(c.subject)
    ensures rows.Some? && RowsSoFar(es, h, limits, rows.value, chosen, ROLES)
    ensures rows.value == RowsOf(chosen, h, ROLES)
  {
    hide Chosen, GroupAll, RowsOf, RoleExamples;
    hide ByRole, Admitted, GroupedBy, RowsSoFar, MadeSoFar, Filter, Sourced, OneEach, Level;
    var all: seq<Example> := [];
    chosen := map[];
    RowsNone(es, h, limits);
    NoRows(h);
    for k := 0 to |ROLES|
      invariant RowsSoFar(es, h, limits, all, chosen, ROLES[..k]) && all == RowsOf(chosen, h, ROLES[..k])
    {
      var role := ROLES[k];
      ghost var members := Filter(es, InRole(h, role));
      RoleGroups(byRole, h, es, role);
      var picked := Choose(role, byRole[role], limits(role), h, members);
      ChosenAreMembers(role, members, limits(role), h, picked);
      forall e | e in picked ensures WellFormed(e.commit.subject) {
        MembersSourced(candidates, root, kevRoots, h, es, role, e);
        SourcedCandidate(candidates, root, kevRoots, h, role, e);
      }
      var made := MakeExamples(role, picked, h);
      if made.None? {
        return None, chosen;
      }
      RowsMore(candidates, root, kevRoots, es, h, limits, all, chosen, ROLES[..k], role, picked, made.value);
      assert ROLES[..k + 1] == ROLES[..k] + [role];
      RowsOfMore(chosen, h, ROLES[..k], role, picked);
      all := all + made.value;
      chosen := chosen[role := picked];
    }
    assert ROLES[..|ROLES|] == ROLES;
    return Some(all), chosen;
  }

  /** The examples of the roles, one role after the other. */
  ghost function RowsOf(chosen: map<Role, seq<Entry>>, h: Hashes, roles: seq<Role>): seq<Example> {
    if roles == [] then []
    else
      var role := roles[|roles| - 1];
      RowsOf(chosen, h, roles[..|roles| - 1]) + if role in chosen then RoleExamples(role, chosen[role], h) else []
  }

  lemma NoRows(h: Hashes)
    ensures RowsOf(map[], h, []) == []
  {
  }

  lemma {:induction false} RowsOfOthers(chosen: map<Role, seq<Entry>>, h: Hashes, roles: seq<Role>, role: Role,
                                        picked: seq<Entry>)
    requires role !in roles
    ensures RowsOf(chosen[role := picked], h, roles) == RowsOf(chosen, h, roles)
  {
    hide RoleExamples;
    if roles != [] {
      assert roles[|roles| - 1] in roles;
      RowsOfOthers(chosen, h, roles[..|roles| - 1], role, picked);
    }
  }

  lemma RowsOfMore(chosen: map<Role, seq<Entry>>, h: Hashes, roles: seq<Role>, role: Role, picked: seq<Entry>)
    requires role !in roles
    ensures RowsOf(chosen[role := picked], h, roles + [role])
         == RowsOf(chosen, h, roles) + RoleExamples(role, picked, h)
  {
    hide RoleExamples;
    assert (roles + [role])[..|roles|] == roles;
    RowsOfOthers(chosen, h, roles, role, picked);
  }

  lemma RowsNone(es: seq<Entry>, h: Hashes, limits: Role -> int)
    ensures RowsSoFar(es, h, limits, [], map[], [])
  {
  }

  lemma RoleGroups(byRole: map<Role, Dict<Name, Entry>>, h: Hashes, es: seq<Entry>, role: Role)
    requires ByRole(byRole, h, es)
    ensures role in byRole && byRole[role] == GroupAll(Filter(es, InRole(h, role)), EntryRoot())
  {
  }

  lemma SourcedCandidate(candidates: seq<Commit>, root: map<Name, Name>, kevRoots: set<Name>, h: Hashes, role: Role,
                         e: Entry)
    requires Sourced(candidates, root, kevRoots, h, role, e)
    ensures e.commit in candidates
  {
  }

  /** Two different examples: their commits are unconnected and have different diffs. */
  ghost predicate Apart(lists: seq<seq<Name>>, h: Hashes, x: Example, y: Example) {
    Unconnected(lists, x.commit, y.commit.repos) && h.digest(x.commit.diff) != h.digest(y.commit.diff)
  }

  /** One example: a candidate away from every Kev repository, in the role of its component's root. */
  ghost predicate Clean(lists: seq<seq<Name>>, candidates: seq<Commit>, kev: Kev, h: Hashes, x: Example) {
    && x.commit in candidates && x.commit.repos != []
    && Connected(lists, x.commit.repos[0], x.root)
    && x.role == RoleOf(h.bucket(x.root))
    && Unconnected(lists, x.commit, kev.repos)
  }

  /** A candidate with the same diff lies in a component from which an entry was chosen. */
  ghost predicate Covered(lists: seq<seq<Name>>, candidates: seq<Commit>, h: Hashes, chosen: map<Role, seq<Entry>>,
                          c: Commit) {
    exists d, role, e ::
      && d in candidates && d.repos != [] && h.digest(d.diff) == h.digest(c.diff)
      && role in chosen && e in chosen[role]
      && e.commit.repos != [] && Connected(lists, d.repos[0], e.commit.repos[0])
  }

  /** The entries from which the roles choose, as the commits determine them. */
  ghost function Entries(candidates: seq<Commit>, kev: Kev, h: Hashes): seq<Entry> {
    var root := RootsAfter(Lists(candidates));
    Admissions(candidates, root, RootsOf(root, kev.repos), h)
  }

  /**
   What the whole build promises: unconnected examples away from Kev, and in every role the seeded
   round-robin choice among the admitted entries with an example for each chosen entry that can have one;
   the rows stand role by role in seeded order.
   */
  ghost predicate Faithful(commits: seq<Commit>, kev: Kev, h: Hashes, limits: Role -> int, rows: seq<Example>,
                           chosen: map<Role, seq<Entry>>) {
    var candidates := Candidates(commits, kev, h);
    var lists := Lists(candidates);
    && rows == RowsOf(chosen, h, ROLES)
    && (forall x | x in rows :: x.commit in commits && Eligible(kev, h, x.commit))
    && (forall i, j | 0 <= i < j < |rows| :: Apart(lists, h, rows[i], rows[j]))
    && (forall x | x in rows ::
          Clean(lists, candidates, kev, h, x) && x.role in chosen && Honest(x.role, chosen[x.role], h, x))
    && (forall role: Role :: role in chosen
          && RoleDone(Entries(candidates, kev, h), h, limits(role), role, chosen[role], rows))
    && ((forall role: Role :: role in chosen && |chosen[role]| < limits(role)) ==>
          forall c | c in candidates :: !Unconnected(lists, c, kev.repos) || Covered(lists, candidates, h, chosen, c))
  }

  /**
   The whole build. It fails exactly when a usable commit names no repository, never over the form
   of a question, and otherwise gives examples no two of which, whatever their roles, have connected
   repositories, and none of which is connected to a repository of the Kev data.
   */
  method Build(commits: seq<Commit>, kev: Kev, h: Hashes, limits: Role -> int) returns (r: Outcome)
    ensures r.NoRepository? <==> exists c :: c in Candidates(commits, kev, h) && c.repos == []
    ensures r.NoRepository? <==> exists c :: c in commits && Eligible(kev, h, c) && c.repos == []
    ensures !r.BadQuestion?
    ensures r.Built? ==> Faithful(commits, kev, h, limits, r.rows, r.chosen)
  {
    hide Forest, Sound, Complete, Admitted, ByRole, RowsSoFar, RowsOf, Faithful, Candidates, Lists, RootsOf, RootsAfter,
      Admissions, Eligible;
    CandidatesAreEligible(commits, kev, h);
    var comps, candidates := Collect(commits, kev, h);
    var kevRoots := KevRoots(comps, kev.repos);
    var byRole;
    ghost var es;
    byRole, es := Admit(comps, candidates, kevRoots, h);
    if byRole.None? {
      return NoRepository;
    }
    CandidatesWellFormed(commits, kev, h);
    var rows, chosen := MakeAll(byRole.value, h, limits, candidates, comps.root, kevRoots, es);
    if rows.None? {
      return BadQuestion;
    }
    AllFaithful(commits, kev, h, limits, comps.root, kevRoots, es, rows.value, chosen);
    return Built(rows.value, chosen);
  }

  lemma AllFaithful(commits: seq<Commit>, kev: Kev, h: Hashes, limits: Role -> int, root: map<Name, Name>,
                    kevRoots: set<Name>,
                    es: seq<Entry>, rows: seq<Example>, chosen: map<Role, seq<Entry>>)
    requires var candidates := Candidates(commits, kev, h);
             && Sound(Lists(candidates), root) && Complete(Lists(candidates), root)
             && kevRoots == RootsOf(root, kev.repos)
             && Admitted(candidates, root, kevRoots, h, es)
             && es == Entries(candidates, kev, h)
             && (forall c | c in candidates :: c.repos != [])
    requires RowsSoFar(es, h, limits, rows, chosen, ROLES) && rows == RowsOf(chosen, h, ROLES)
    ensures Faithful(commits, kev, h, limits, rows, chosen)
  {
    hide Sound, Complete, Admitted, Filter, Candidates, Lists, RootsOf, Represented, Honest, Apart, Clean,
      MatchOrder, Chosen, Entries, RowsOf, Eligible;
    var candidates := Candidates(commits, kev, h);
    var lists := Lists(candidates);
    forall role: Role ensures role in chosen {
      assert role == ROLES[0] || role == ROLES[1] || role == ROLES[2] || role == ROLES[3];
    }
    forall x | x in rows ensures Clean(lists, candidates, kev, h, x) && Entry(x.root, x.commit) in es {
      assert Honest(x.role, chosen[x.role], h, x);
      RowClean(candidates, lists, kev, h, root, kevRoots, es, chosen[x.role], x, limits(x.role), rows);
    }
    forall i, j | 0 <= i < j < |rows| ensures Apart(lists, h, rows[i], rows[j]) {
      assert rows[i] in rows && rows[j] in rows;
      RowsApart(candidates, lists, kev, h, root, kevRoots, es, rows[i], rows[j]);
    }
    CandidatesAreEligible(commits, kev, h);
    assert forall x | x in rows :: x.commit in candidates by {
      CleanIsCandidate(lists, candidates, kev, h, rows);
    }
    if forall role: Role :: role in chosen && |chosen[role]| < limits(role) {
      forall c | c in candidates ensures !Unconnected(lists, c, kev.repos) || Covered(lists, candidates, h, chosen, c) {
        CandidateCovered(candidates, lists, kev, h, root, kevRoots, es, limits, chosen, rows, c);
      }
    }
  }

  lemma CleanIsCandidate(lists: seq<seq<Name>>, candidates: seq<Commit>, kev: Kev, h: Hashes, rows: seq<Example>)
    requires forall x | x in rows :: Clean(lists, candidates, kev, h, x)
    ensures forall x | x in rows :: x.commit in candidates
  {
  }

  lemma RowClean(candidates: seq<Commit>, lists: seq<seq<Name>>, kev: Kev, h: Hashes, root: map<Name, Name>,
                 kevRoots: set<Name>,
                 es: seq<Entry>, chosen: seq<Entry>, x: Example, limit: int, rows: seq<Example>)
    requires lists == Lists(candidates) && Sound(lists, root) && Complete(lists, root)
             && kevRoots == RootsOf(root, kev.repos)
    requires Admitted(candidates, root, kevRoots, h, es)
    requires RoleDone(es, h, limit, x.role, chosen, rows) && Honest(x.role, chosen, h, x)
    ensures Clean(lists, candidates, kev, h, x) && Entry(x.root, x.commit) in es
  {
    hide Complete, Admitted, Filter, Lists, RootsOf, Connected, MatchOrder, Represented, Chosen;
    var e := Entry(x.root, x.commit);
    assert e in chosen;
    ChosenAreMembers(x.role, Filter(es, InRole(h, x.role)), limit, h, chosen);
    MembersSourced(candidates, root, kevRoots, h, es, x.role, e);
    InComponents(lists, root, candidates, x.commit, x.commit.repos[0]);
    Separated(lists, root, candidates, x.commit, kev.repos, kevRoots);
  }

  lemma RowsApart(candidates: seq<Commit>, lists: seq<seq<Name>>, kev: Kev, h: Hashes, root: map<Name, Name>,
                  kevRoots: set<Name>,
                  es: seq<Entry>, x: Example, y: Example)
    requires lists == Lists(candidates) && Sound(lists, root) && Complete(lists, root)
    requires Admitted(candidates, root, kevRoots, h, es) && x.root != y.root
    requires Entry(x.root, x.commit) in es && Entry(y.root, y.commit) in es
    ensures Apart(lists, h, x, y)
  {
    hide Sound, Complete, Lists, Connected;
    var e, f := Entry(x.root, x.commit), Entry(y.root, y.commit);
    assert Admissible(candidates, root, kevRoots, e) && Admissible(candidates, root, kevRoots, f);
    OneRoot(lists, root, candidates, y.commit);
    Separated(lists, root, candidates, x.commit, y.commit.repos, {y.root});
    var i :| 0 <= i < |es| && es[i] == e;
    var j :| 0 <= j < |es| && es[j] == f;
    assert i < j || j < i;
  }

  lemma OneRoot(lists: seq<seq<Name>>, root: map<Name, Name>, candidates: seq<Commit>, c: Commit)
    requires lists == Lists(candidates) && Complete(lists, root) && c in candidates && c.repos != []
    ensures RootsOf(root, c.repos) == {RootOf(root, c)}
  {
    hide Complete, Lists;
    forall x | x in c.repos ensures x in root && root[x] == RootOf(root, c) {
      InComponents(lists, root, candidates, c, x);
    }
    assert c.repos[0] in c.repos;
  }

  lemma RepresentedComponent(es: seq<Entry>, h: Hashes, limits: Role -> int, rows: seq<Example>,
                             chosen: map<Role, seq<Entry>>, role: Role, e: Entry)
    returns (p: Entry)
    requires RowsSoFar(es, h, limits, rows, chosen, ROLES) && role in chosen && |chosen[role]| < limits(role)
    requires e in Filter(es, InRole(h, role))
    ensures p in chosen[role] && p.root == e.root && p in Filter(es, InRole(h, role))
  {
    hide Filter, RowsSoFar, Chosen, DistinctRoots, HasRoot;
    RoleChosen(es, h, limits, rows, chosen, role);
    ChosenAreMembers(role, Filter(es, InRole(h, role)), limits(role), h, chosen[role]);
    p := WithRoot(chosen[role], e.root);
  }

  lemma RoleChosen(es: seq<Entry>, h: Hashes, limits: Role -> int, rows: seq<Example>, chosen: map<Role, seq<Entry>>,
                   role: Role)
    requires RowsSoFar(es, h, limits, rows, chosen, ROLES) && role in chosen
    ensures Chosen(role, Filter(es, InRole(h, role)), limits(role), h, chosen[role])
  {
    hide Filter, MatchOrder, Represented, Honest, Chosen;
    assert RoleDone(es, h, limits(role), role, chosen[role], rows);
  }

  /** With room in every role, a candidate is represented unless it is connected to Kev. */
  lemma CandidateCovered(candidates: seq<Commit>, lists: seq<seq<Name>>, kev: Kev, h: Hashes, root: map<Name, Name>,
                         kevRoots: set<Name>,
                         es: seq<Entry>, limits: Role -> int, chosen: map<Role, seq<Entry>>, rows: seq<Example>,
                         c: Commit)
    requires lists == Lists(candidates) && Sound(lists, root) && Complete(lists, root)
             && kevRoots == RootsOf(root, kev.repos)
    requires Admitted(candidates, root, kevRoots, h, es) && RowsSoFar(es, h, limits, rows, chosen, ROLES)
    requires forall role: Role :: role in chosen && |chosen[role]| < limits(role)
    requires c in candidates && c.repos != []
    ensures !Unconnected(lists, c, kev.repos) || Covered(lists, candidates, h, chosen, c)
  {
    hide Sound, Complete, Lists, Connected, Filter, RowsSoFar;
    if RootOf(root, c) in kevRoots {
      InComponents(lists, root, candidates, c, c.repos[0]);
      var k :| k in kev.repos && k in root && root[k] == RootOf(root, c);
      RootsAreComponents(lists, root, c.repos[0], k);
    } else {
      assert h.digest(c.diff) in Digests(es, h);
      var e :| e in es && h.digest(e.commit.diff) == h.digest(c.diff);
      var role := RoleOf(h.bucket(e.root));
      MembersSourced(candidates, root, kevRoots, h, es, role, e);
      var p := RepresentedComponent(es, h, limits, rows, chosen, role, e);
      MembersSourced(candidates, root, kevRoots, h, es, role, p);
      assert Admissible(candidates, root, kevRoots, p) && Admissible(candidates, root, kevRoots, e);
      InComponents(lists, root, candidates, e.commit, e.commit.repos[0]);
      InComponents(lists, root, candidates, p.commit, p.commit.repos[0]);
      RootsAreComponents(lists, root, e.commit.repos[0], p.commit.repos[0]);
      assert e.commit in candidates;
    }
  }

  /** One usable commit without repositories is enough to end the build. */
  lemma NoRepositoryHappens(kev: Kev, h: Hashes)
    requires kev.ids == {} && kev.digests == {}
    ensures var c := Commit("id", Language("C"), "", "0123456789", []);
            c in Candidates([c], kev, h) && c.repos == []
  {
    var c := Commit("id", Language("C"), "", "0123456789", []);
    assert c.subject + c.diff == c.subject;
    assert forall k | 0 <= k < |c.subject| :: '0' <= c.subject[k] <= '9';
    forall k | 0 <= k < |c.subject + c.diff| ensures !LineBreak((c.subject + c.diff)[k]) {
      assert '0' <= c.subject[k] <= '9';
    }
    assert '"' !in c.subject && '\n' !in c.subject;
    assert |c.subject| == 10 && c.id !in kev.ids && h.digest(c.diff) !in kev.digests;
    assert Usable(kev, h)(c);
    FilterMembers([c], Usable(kev, h));
    assert c in [c];
  }
}
