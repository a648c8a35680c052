/**
 The overlap check of tools/judgment_prepare.py. It compares every row with the first owner of each of
 its keys only; this is enough to compare all pairs.
 */
module Overlaps {
  import opened Common

  /** A prepared row. Rows are compared by identity: one row may stand in the list several times. */
  class Row {
    const id: string
    const split: string
    const rowDigest: string
    const task: string
    const question: string
    const group: string
    const sourceDigest: string
    const state: string
    const stateText: string
    const text: string

    constructor (id: string, split: string, rowDigest: string, task: string, question: string, group: string,
                 sourceDigest: string, state: string, stateText: string, text: string)
      ensures this.id == id && this.split == split && this.rowDigest == rowDigest && this.task == task
      ensures this.question == question && this.group == group && this.sourceDigest == sourceDigest
      ensures this.state == state && this.stateText == stateText && this.text == text
    {
      this.id, this.split, this.rowDigest, this.task, this.question := id, split, rowDigest, task, question;
      this.group, this.sourceDigest, this.state, this.stateText, this.text :=
        group, sourceDigest, state, stateText, text;
    }
  }

  datatype Kind = Record | Group | State | NormalizedState | SourceDigest | Text | Id

  /** The digest of a text, and the digest of its normalised form. */
  datatype Hashes = Hashes(digest: string -> string, normalized: string -> string)

  const KINDS: seq<Kind> := [Record, Group, State, NormalizedState, SourceDigest, Text, Id]

  function Key(h: Hashes, row: Row, kind: Kind): string {
    match kind
    case Record => row.rowDigest + "/" + row.task + "/" + row.question
    case Group => row.group
    case State => h.digest(row.state)
    case NormalizedState => h.normalized(row.stateText)
    case SourceDigest => row.sourceDigest
    case Text => h.digest(row.text)
    case Id => row.id
  }

  datatype Verdict = Accepted | Overlap(kind: Kind, other: Row, row: Row)

  // ----- What is wanted -----

  /** The record that a question belongs to and the question itself, as one text. */
  ghost function RecordOf(row: Row): string {
    row.rowDigest + "/" + row.task + "/" + row.question
  }

  /**
   Two rows of a data set: nothing of one leaks into the split of the other, and within a split only one
   record's own questions share a state.
   */
  ghost predicate Compatible(h: Hashes, a: Row, b: Row) {
    && RecordOf(a) != RecordOf(b) && a.id != b.id && h.digest(a.text) != h.digest(b.text)
    && (a.split != b.split ==> a.group != b.group)
    && (a.split != b.split || a.rowDigest != b.rowDigest ==>
          && h.digest(a.state) != h.digest(b.state) && h.normalized(a.stateText) != h.normalized(b.stateText)
          && a.sourceDigest != b.sourceDigest)
  }

  /** The two rows must not stand together, because of what the kind compares. */
  ghost predicate Clash(h: Hashes, kind: Kind, a: Row, b: Row) {
    var apart := a.split != b.split || a.rowDigest != b.rowDigest;
    match kind
    case Record => RecordOf(a) == RecordOf(b)
    case Group => a.group == b.group && a.split != b.split
    case State => h.digest(a.state) == h.digest(b.state) && apart
    case NormalizedState => h.normalized(a.stateText) == h.normalized(b.stateText) && apart
    case SourceDigest => a.sourceDigest == b.sourceDigest && apart
    case Text => h.digest(a.text) == h.digest(b.text)
    case Id => a.id == b.id
  }

  /** The order in which the kinds are compared. */
  ghost function Place(kind: Kind): nat {
    match kind
    case Record => 0
    case Group => 1
    case State => 2
    case NormalizedState => 3
    case SourceDigest => 4
    case Text => 5
    case Id => 6
  }

  /** Any two different rows are compatible. */
  ghost predicate Pairwise(h: Hashes, rows: seq<Row>) {
    forall i, j | 0 <= i < j < |rows| :: rows[i] == rows[j] || Compatible(h, rows[i], rows[j])
  }

  // ----- One kind of key -----

  /** Two different rows may share a key of this kind. */
  predicate Allowed(kind: Kind, other: Row, row: Row) {
    var sameSplit := other.split == row.split;
    || (kind == Group && sameSplit)
    || ((kind == State || kind == NormalizedState || kind == SourceDigest) && sameSplit
        && other.rowDigest == row.rowDigest)
  }

  ghost predicate Agree(h: Hashes, kind: Kind, a: Row, b: Row) {
    a == b || (Key(h, a, kind) == Key(h, b, kind) ==> Allowed(kind, a, b))
  }

  lemma AgreeIsNoClash(h: Hashes, kind: Kind, a: Row, b: Row)
    ensures Agree(h, kind, a, b) <==> a == b || !Clash(h, kind, a, b)
  {
  }

  lemma CompatibleByKind(h: Hashes, a: Row, b: Row)
    ensures a == b || Compatible(h, a, b) <==> forall kind :: Agree(h, kind, a, b)
  {
    if forall kind :: Agree(h, kind, a, b) {
      assert Agree(h, Record, a, b) && Agree(h, Group, a, b) && Agree(h, State, a, b)
             && Agree(h, NormalizedState, a, b);
      assert Agree(h, SourceDigest, a, b) && Agree(h, Text, a, b) && Agree(h, Id, a, b);
    }
  }

  /** What the owner of a key may share with each of two rows, these may share with each other. */
  lemma AgreeThroughOwner(h: Hashes, kind: Kind, owner: Row, a: Row, b: Row)
    requires Agree(h, kind, owner, a) && Agree(h, kind, owner, b)
    requires Key(h, a, kind) == Key(h, b, kind) == Key(h, owner, kind)
    ensures Agree(h, kind, a, b)
  {
  }

  // ----- Owners -----

  /** The first row with the given key. */
  ghost function FirstOwner(h: Hashes, rows: seq<Row>, kind: Kind, key: string): Option<Row> {
    if rows == [] then None
    else
      var before := FirstOwner(h, rows[..|rows| - 1], kind, key);
      if before.None? && Key(h, rows[|rows| - 1], kind) == key then Some(rows[|rows| - 1]) else before
  }

  lemma {:induction false} FirstOwnerIs(h: Hashes, rows: seq<Row>, kind: Kind, key: string)
    ensures FirstOwner(h, rows, kind, key).None? <==> forall i | 0 <= i < |rows| :: Key(h, rows[i], kind) != key
    ensures FirstOwner(h, rows, kind, key).Some? ==>
              exists i :: 0 <= i < |rows| && rows[i] == FirstOwner(h, rows, kind, key).value
                && Key(h, rows[i], kind) == key
                          && forall j | 0 <= j < i :: Key(h, rows[j], kind) != key
  {
    if rows != [] {
      var init := rows[..|rows| - 1];
      FirstOwnerIs(h, init, kind, key);
      if FirstOwner(h, init, kind, key).Some? {
        var i :| 0 <= i < |init| && init[i] == FirstOwner(h, init, kind, key).value && Key(h, init[i], kind) == key
                 && forall j | 0 <= j < i :: Key(h, init[j], kind) != key;
        assert rows[i] == init[i];
        assert forall j | 0 <= j < i :: rows[j] == init[j];
      } else {
        assert forall j | 0 <= j < |init| :: rows[j] == init[j];
      }
    }
  }

  ghost predicate OwnersOf(h: Hashes, rows: seq<Row>, kind: Kind, owners: map<string, Row>) {
    forall key :: FirstOwner(h, rows, kind, key) == if key in owners then Some(owners[key]) else None
  }

  /** Entering a row's key unless it is taken keeps the first owners. */
  lemma OwnersStep(h: Hashes, rows: seq<Row>, kind: Kind, owners: map<string, Row>, row: Row)
    requires OwnersOf(h, rows, kind, owners)
    ensures var key := Key(h, row, kind);
            OwnersOf(h, rows + [row], kind, if key in owners then owners else owners[key := row])
  {
    hide Key;
    assert (rows + [row])[..|rows|] == rows;
    var key := Key(h, row, kind);
    var next := if key in owners then owners else owners[key := row];
    forall k ensures FirstOwner(h, rows + [row], kind, k) == if k in next then Some(next[k]) else None {
      assert FirstOwner(h, rows, kind, k) == if k in owners then Some(owners[k]) else None;
    }
  }

  /** The row agrees with the first owner of its key. */
  ghost predicate AgreesWithOwner(h: Hashes, rows: seq<Row>, kind: Kind, row: Row) {
    var owner := FirstOwner(h, rows, kind, Key(h, row, kind));
    owner.None? || Agree(h, kind, owner.value, row)
  }

  /** Agreement with first owners is agreement with every earlier row. */
  lemma OwnerStandsForAll(h: Hashes, rows: seq<Row>, kind: Kind, row: Row)
    requires forall i, j | 0 <= i < j < |rows| :: Agree(h, kind, rows[i], rows[j])
    ensures AgreesWithOwner(h, rows, kind, row) <==> forall i | 0 <= i < |rows| :: Agree(h, kind, rows[i], row)
  {
    hide Key, Allowed, FirstOwner;
    var key := Key(h, row, kind);
    var owner := FirstOwner(h, rows, kind, key);
    FirstOwnerIs(h, rows, kind, key);
    if owner.Some? {
      var o :| 0 <= o < |rows| && rows[o] == owner.value && Key(h, rows[o], kind) == key
               && forall j | 0 <= j < o :: Key(h, rows[j], kind) != key;
      if AgreesWithOwner(h, rows, kind, row) {
        forall i | 0 <= i < |rows| ensures Agree(h, kind, rows[i], row) {
          if Key(h, rows[i], kind) == key && i != o {
            assert Agree(h, kind, rows[o], rows[i]);
            AgreeThroughOwner(h, kind, rows[o], rows[i], row);
          }
        }
      }
    }
  }

  // ----- The scan -----

  ghost predicate AllOwners(h: Hashes, owners: map<Kind, map<string, Row>>, rows: seq<Row>, row: Row, done: seq<Kind>) {
    forall kind: Kind :: kind in owners && OwnersOf(h, if kind in done then rows + [row] else rows, kind, owners[kind])
  }

  lemma PairwiseStep(h: Hashes, rows: seq<Row>, row: Row)
    requires Pairwise(h, rows)
    ensures Pairwise(h, rows + [row]) <==> forall kind :: AgreesWithOwner(h, rows, kind, row)
  {
    hide Compatible, Agree, AgreesWithOwner;
    var more := rows + [row];
    forall i, j, kind: Kind | 0 <= i < j < |rows| ensures Agree(h, kind, rows[i], rows[j]) {
      CompatibleByKind(h, rows[i], rows[j]);
    }
    forall kind ensures AgreesWithOwner(h, rows, kind, row)
      <==> forall i | 0 <= i < |rows| :: Agree(h, kind, rows[i], row) {
      OwnerStandsForAll(h, rows, kind, row);
    }
    forall i | 0 <= i < |rows| ensures rows[i] == row || Compatible(h, rows[i], row)
      <==> forall kind :: Agree(h, kind, rows[i], row) {
      CompatibleByKind(h, rows[i], row);
    }
    if Pairwise(h, more) {
      forall i | 0 <= i < |rows| ensures rows[i] == row || Compatible(h, rows[i], row) {
        assert more[i] == rows[i] && more[|rows|] == row;
      }
    }
    if forall kind :: AgreesWithOwner(h, rows, kind, row) {
      forall i, j | 0 <= i < j < |more| ensures more[i] == more[j] || Compatible(h, more[i], more[j]) {
        if j < |rows| {
          assert more[i] == rows[i] && more[j] == rows[j];
        } else {
          forall kind ensures Agree(h, kind, rows[i], row) {
            assert AgreesWithOwner(h, rows, kind, row);
          }
          assert more[i] == rows[i] && more[j] == row;
        }
      }
    }
  }

  /** Enters the seven keys of one row, stopping at the first clash. */
  method CheckRow(h: Hashes, owners0: map<Kind, map<string, Row>>, row: Row, ghost rows: seq<Row>)
    returns (owners: map<Kind, map<string, Row>>, r: Verdict)
    requires AllOwners(h, owners0, rows, row, [])
    ensures r.Accepted? <==> forall kind :: AgreesWithOwner(h, rows, kind, row)
    ensures r.Accepted? ==> AllOwners(h, owners, rows, row, KINDS)
    ensures r.Overlap? ==>
              r.row == row && FirstOwner(h, rows, r.kind, Key(h, row, r.kind)) == Some(r.other)
                && !Agree(h, r.kind, r.other, row)
    ensures r.Overlap? ==> forall kind | Place(kind) < Place(r.kind) :: AgreesWithOwner(h, rows, kind, row)
  {
    hide Key, FirstOwner, OwnersOf;
    owners := owners0;
    for k := 0 to |KINDS|
      invariant AllOwners(h, owners, rows, row, KINDS[..k])
      invariant forall m | 0 <= m < k :: AgreesWithOwner(h, rows, KINDS[m], row)
    {
      var kind := KINDS[k];
      var key := Key(h, row, kind);
      NotYet(k);
      OwnerLookup(h, owners, rows, row, k);
      OwnersEntered(h, owners, rows, row, k);
      if key !in owners[kind] {
        owners := owners[kind := owners[kind][key := row]];
      }
      var other := owners[kind][key];
      if other != row && !Allowed(kind, other, row) {
        assert !AgreesWithOwner(h, rows, kind, row);
        EarlierKinds(k);
        return owners, Overlap(kind, other, row);
      }
      assert KINDS[..k + 1] == KINDS[..k] + [kind];
    }
    assert KINDS[..|KINDS|] == KINDS;
    forall kind ensures AgreesWithOwner(h, rows, kind, row) {
      IsAKind(kind);
      var m :| 0 <= m < |KINDS| && KINDS[m] == kind;
    }
    return owners, Accepted;
  }

  /** The kinds before the k-th are those of a lower place. */
  lemma EarlierKinds(k: nat)
    requires k < |KINDS|
    ensures forall kind | Place(kind) < Place(KINDS[k]) :: exists m :: 0 <= m < k && KINDS[m] == kind
  {
    assert Place(KINDS[k]) == k;
    forall kind | Place(kind) < k
      ensures exists m :: 0 <= m < k && KINDS[m] == kind
    {
      assert KINDS[Place(kind)] == kind;
    }
  }

  lemma IsAKind(kind: Kind)
    ensures kind in KINDS
  {
    assert kind == KINDS[0] || kind == KINDS[1] || kind == KINDS[2] || kind == KINDS[3] || kind == KINDS[4]
           || kind == KINDS[5] || kind == KINDS[6];
  }

  lemma NotYet(k: nat)
    requires k < |KINDS|
    ensures KINDS[k] !in KINDS[..k]
  {
  }

  /** Before its turn, a kind's dictionary holds the first owners among the earlier rows. */
  lemma OwnerLookup(h: Hashes, owners: map<Kind, map<string, Row>>, rows: seq<Row>, row: Row, k: nat)
    requires k < |KINDS| && KINDS[k] !in KINDS[..k] && AllOwners(h, owners, rows, row, KINDS[..k])
    ensures KINDS[k] in owners
    ensures var key := Key(h, row, KINDS[k]);
            && FirstOwner(h, rows, KINDS[k], key)
              == (if key in owners[KINDS[k]] then Some(owners[KINDS[k]][key]) else None)
            && (key in owners[KINDS[k]] ==> Key(h, owners[KINDS[k]][key], KINDS[k]) == key)
  {
    hide Key;
    var key := Key(h, row, KINDS[k]);
    assert OwnersOf(h, rows, KINDS[k], owners[KINDS[k]]);
    FirstOwnerIs(h, rows, KINDS[k], key);
  }

  lemma OwnersEntered(h: Hashes, owners: map<Kind, map<string, Row>>, rows: seq<Row>, row: Row, k: nat)
    requires k < |KINDS| && KINDS[k] !in KINDS[..k] && AllOwners(h, owners, rows, row, KINDS[..k]) && KINDS[k] in owners
    ensures var kind, key := KINDS[k], Key(h, row, KINDS[k]);
            var next := if key in owners[kind] then owners else owners[kind := owners[kind][key := row]];
            AllOwners(h, next, rows, row, KINDS[..k] + [kind])
  {
    hide Key, OwnersOf;
    var kind, key := KINDS[k], Key(h, row, KINDS[k]);
    var next := if key in owners[kind] then owners else owners[kind := owners[kind][key := row]];
    assert OwnersOf(h, rows, kind, owners[kind]);
    OwnersStep(h, rows, kind, owners[kind], row);
    forall q: Kind ensures q in next
      && OwnersOf(h, if q in KINDS[..k] + [kind] then rows + [row] else rows, q, next[q]) {
      assert OwnersOf(h, if q in KINDS[..k] then rows + [row] else rows, q, owners[q]);
    }
  }

  /**
   The whole check. It accepts exactly when any two different rows are compatible, and otherwise
   reports the first row that is not, with the first owner of a key that they may not share.
   */
  method CheckOverlaps(h: Hashes, rows: seq<Row>) returns (r: Verdict)
    ensures r.Accepted? <==> Pairwise(h, rows)
    ensures r.Overlap? ==> exists k :: 0 <= k < |rows| && r.row == rows[k] && Pairwise(h, rows[..k])
                                       && FirstOwner(h, rows[..k], r.kind, Key(h, r.row, r.kind)) == Some(r.other)
    ensures r.Overlap? ==>
              r.other != r.row && Key(h, r.other, r.kind) == Key(h, r.row, r.kind) && !Allowed(r.kind, r.other, r.row)
    ensures r.Overlap? ==> r.other != r.row && Clash(h, r.kind, r.other, r.row)
  {
    hide Key, FirstOwner, AgreesWithOwner, AllOwners, Pairwise, Allowed;
    var owners: map<Kind, map<string, Row>> :=
      map[Record := map[], Group := map[], State := map[], NormalizedState := map[], SourceDigest := map[],
          Text := map[], Id := map[]];
    NoOwners(h, owners);
    for k := 0 to |rows|
      invariant Pairwise(h, rows[..k])
      invariant OwnersAfter(h, owners, rows[..k])
    {
      StartRow(h, owners, rows[..k], rows[k]);
      PairwiseStep(h, rows[..k], rows[k]);
      assert rows[..k + 1] == rows[..k] + [rows[k]];
      owners, r := CheckRow(h, owners, rows[k], rows[..k]);
      if r.Overlap? {
        AgreeIsNoClash(h, r.kind, r.other, r.row);
        PairwisePrefix(h, rows, k + 1);
        return r;
      }
      EndRow(h, owners, rows[..k], rows[k]);
    }
    assert rows[..|rows|] == rows;
    return Accepted;
  }

  ghost predicate OwnersAfter(h: Hashes, owners: map<Kind, map<string, Row>>, rows: seq<Row>) {
    forall kind: Kind :: kind in owners && OwnersOf(h, rows, kind, owners[kind])
  }

  lemma NoOwners(h: Hashes, owners: map<Kind, map<string, Row>>)
    requires owners == map[Record := map[], Group := map[], State := map[], NormalizedState := map[],
                           SourceDigest := map[], Text := map[], Id := map[]]
    ensures OwnersAfter(h, owners, []) && Pairwise(h, [])
  {
    forall kind: Kind ensures kind in owners && OwnersOf(h, [], kind, owners[kind]) {
      IsAKind(kind);
    }
  }

  lemma StartRow(h: Hashes, owners: map<Kind, map<string, Row>>, rows: seq<Row>, row: Row)
    requires OwnersAfter(h, owners, rows)
    ensures AllOwners(h, owners, rows, row, [])
  {
  }

  lemma EndRow(h: Hashes, owners: map<Kind, map<string, Row>>, rows: seq<Row>, row: Row)
    requires AllOwners(h, owners, rows, row, KINDS)
    ensures OwnersAfter(h, owners, rows + [row])
  {
    forall kind: Kind ensures kind in owners && OwnersOf(h, rows + [row], kind, owners[kind]) {
      IsAKind(kind);
    }
  }

  lemma PairwisePrefix(h: Hashes, rows: seq<Row>, k: nat)
    requires k <= |rows| && !Pairwise(h, rows[..k])
    ensures !Pairwise(h, rows)
  {
    hide Compatible;
    var i, j :| 0 <= i < j < k && rows[..k][i] != rows[..k][j] && !Compatible(h, rows[..k][i], rows[..k][j]);
    assert rows[i] != rows[j];
  }
}
