/**
 Threshold selection of tools/moderation_train.py: the confusion counts at a threshold and the
 descending pass over tied scores that picks the threshold of highest recall.
 */
module Threshold {
  import opened Common
  import opened Ordering
  import opened Auc

  datatype Result<T> = Ok(value: T) | LengthMismatch

  datatype Counts = Counts(tp: nat, fp: nat, fn: nat)

  /** The examples of class y whose score reaches the threshold. */
  ghost function Selected(probs: seq<real>, labels: seq<Label>, t: real, y: Label): set<nat>
    requires |probs| == |labels|
  {
    set j: nat | j < |probs| && t <= probs[j] && labels[j] == y
  }

  /** The positive examples that the threshold misses. */
  ghost function Missed(probs: seq<real>, labels: seq<Label>, t: real): set<nat>
    requires |probs| == |labels|
  {
    set j: nat | j < |probs| && probs[j] < t && labels[j] == 1
  }

  ghost function CountsAt(probs: seq<real>, labels: seq<Label>, t: real): Counts
    requires |probs| == |labels|
  {
    Counts(|Selected(probs, labels, t, 1)|, |Selected(probs, labels, t, 0)|, |Missed(probs, labels, t)|)
  }

  function Precision(c: Counts): real {
    if c.tp + c.fp > 0 then c.tp as real / (c.tp + c.fp) as real else 0.0
  }

  function Recall(c: Counts): real {
    if c.tp + c.fn > 0 then c.tp as real / (c.tp + c.fn) as real else 0.0
  }

  // ----- Counting -----

  lemma SelectedStep(probs: seq<real>, labels: seq<Label>, k: nat, t: real, y: Label)
    requires |probs| == |labels| && k < |probs|
    ensures Selected(probs[..k + 1], labels[..k + 1], t, y) ==
            Selected(probs[..k], labels[..k], t, y) + (if t <= probs[k] && labels[k] == y then {k} else {})
    ensures k !in Selected(probs[..k], labels[..k], t, y)
  {
  }

  lemma MissedStep(probs: seq<real>, labels: seq<Label>, k: nat, t: real)
    requires |probs| == |labels| && k < |probs|
    ensures Missed(probs[..k + 1], labels[..k + 1], t) ==
            Missed(probs[..k], labels[..k], t) + (if probs[k] < t && labels[k] == 1 then {k} else {})
    ensures k !in Missed(probs[..k], labels[..k], t)
  {
  }

  lemma CountsStep(probs: seq<real>, labels: seq<Label>, k: nat, t: real)
    requires |probs| == |labels| && k < |probs|
    ensures var c, y := CountsAt(probs[..k], labels[..k], t), labels[k];
            CountsAt(probs[..k + 1], labels[..k + 1], t) ==
            if t <= probs[k] then Counts(c.tp + y, c.fp + (1 - y), c.fn) else Counts(c.tp, c.fp, c.fn + y)
  {
    hide Selected, Missed;
    OneMore(Selected(probs[..k], labels[..k], t, 1), Selected(probs[..k + 1], labels[..k + 1], t, 1), k,
            t <= probs[k] && labels[k] == 1)
    by {
      SelectedStep(probs, labels, k, t, 1);
    }
    OneMore(Selected(probs[..k], labels[..k], t, 0), Selected(probs[..k + 1], labels[..k + 1], t, 0), k,
            t <= probs[k] && labels[k] == 0)
    by {
      SelectedStep(probs, labels, k, t, 0);
    }
    OneMore(Missed(probs[..k], labels[..k], t), Missed(probs[..k + 1], labels[..k + 1], t), k,
            probs[k] < t && labels[k] == 1)
    by {
      MissedStep(probs, labels, k, t);
    }
  }

  lemma OneMore(before: set<nat>, after: set<nat>, k: nat, more: bool)
    requires k !in before && after == before + if more then {k} else {}
    ensures |after| == |before| + if more then 1 else 0
  {
  }

  lemma CountsNone(t: real)
    ensures CountsAt([], [], t) == Counts(0, 0, 0)
  {
    assert Selected([], [], t, 1) == {} && Selected([], [], t, 0) == {} && Missed([], [], t) == {};
  }

  /** True positives, false positives and false negatives in one pass. */
  method Confusion(probs: seq<real>, labels: seq<Label>, t: real) returns (r: Result<Counts>)
    ensures r.LengthMismatch? <==> |probs| != |labels|
    ensures r.Ok? ==> r.value == CountsAt(probs, labels, t)
  {
    hide CountsAt;
    if |probs| != |labels| {
      return Result.LengthMismatch;
    }
    CountsNone(t);
    var tp: nat, fp: nat, fn: nat := 0, 0, 0;
    for k := 0 to |probs|
      invariant Counts(tp, fp, fn) == CountsAt(probs[..k], labels[..k], t)
    {
      CountsStep(probs, labels, k, t);
      if probs[k] >= t {
        tp := tp + labels[k];
        fp := fp + (1 - labels[k]);
      } else {
        fn := fn + labels[k];
      }
    }
    assert probs[..|probs|] == probs && labels[..|labels|] == labels;
    return Ok(Counts(tp, fp, fn));
  }

  /** Found and missed positives are all positives, whatever the threshold. */
  lemma {:induction false} PositivesSplit(probs: seq<real>, labels: seq<Label>, t: real)
    requires |probs| == |labels|
    ensures CountsAt(probs, labels, t).tp + CountsAt(probs, labels, t).fn == Positives(labels)
  {
    if labels == [] {
      CountsNone(t);
    } else {
      hide CountsAt;
      var n := |labels| - 1;
      PositivesSplit(probs[..n], labels[..n], t);
      CountsStep(probs, labels, n, t);
      assert probs[..n + 1] == probs && labels[..n + 1] == labels;
    }
  }

  // ----- What is wanted -----

  /** The two floors. */
  ghost predicate Qualifies(probs: seq<real>, labels: seq<Label>, target: real, minRecall: real, t: real)
    requires |probs| == |labels|
  {
    Precision(CountsAt(probs, labels, t)) >= target && Recall(CountsAt(probs, labels, t)) >= minRecall
  }

  /** Some score reaches the threshold. */
  ghost predicate Reached(probs: seq<real>, t: real) {
    exists i :: 0 <= i < |probs| && t <= probs[i]
  }

  /** Threshold t is no better than b: less recall, or as much recall and not higher. */
  ghost predicate NoBetter(probs: seq<real>, labels: seq<Label>, t: real, b: real)
    requires |probs| == |labels|
  {
    var r, s := Recall(CountsAt(probs, labels, t)), Recall(CountsAt(probs, labels, b));
    r < s || (r == s && t <= b)
  }

  /** b is a score, meets the floors, and no threshold that selects anything and meets them is better. */
  ghost predicate Best(probs: seq<real>, labels: seq<Label>, target: real, minRecall: real, b: real)
    requires |probs| == |labels|
  {
    && b in probs
    && Qualifies(probs, labels, target, minRecall, b)
    && forall t: real | Reached(probs, t) && Qualifies(probs, labels, target, minRecall, t) ::
         NoBetter(probs, labels, t, b)
  }

  /** The range into which the answer is forced. */
  const LEAST: real := 0.000001
  const MOST: real := 1.0 - 0.000001

  function Clamp(t: real): real {
    var low := if t < LEAST then LEAST else t;
    if low > MOST then MOST else low
  }

  // ----- The pass -----

  function Descending(probs: seq<real>): nat -> real {
    i => -Score(probs, i)
  }

  ghost function Taken(order: seq<nat>, k: nat, labels: seq<Label>, y: Label): set<nat>
    requires Permutation(|labels|, order) && k <= |order|
  {
    set j | j in order[..k] && labels[j] == y
  }

  lemma TakenStep(order: seq<nat>, k: nat, labels: seq<Label>, y: Label)
    requires Permutation(|labels|, order) && k < |order|
    ensures |Taken(order, k + 1, labels, y)| == |Taken(order, k, labels, y)| + (if labels[order[k]] == y then 1 else 0)
  {
    assert order[..k + 1] == order[..k] + [order[k]];
    assert order[k] !in order[..k];
    assert Taken(order, k + 1, labels, y)
           == Taken(order, k, labels, y) + (if labels[order[k]] == y then {order[k]} else {});
  }

  /** After a whole tie group the examples taken are those selected by the group's score. */
  lemma TakenIsSelected(probs: seq<real>, labels: seq<Label>, order: seq<nat>, k: nat, p: real, y: Label)
    requires |probs| == |labels| && Permutation(|labels|, order) && k <= |order|
    requires forall m | 0 <= m < k :: p <= probs[order[m]]
    requires forall m | k <= m < |order| :: probs[order[m]] < p
    ensures Taken(order, k, labels, y) == Selected(probs, labels, p, y)
  {
    forall j: nat | j < |probs| ensures j in order[..k] <==> p <= probs[j] {
      assert j in order;
      var m :| 0 <= m < |order| && order[m] == j;
      assert m < k ==> order[..k][m] == j;
      if j in order[..k] {
        var q :| 0 <= q < k && order[..k][q] == j;
        assert probs[order[q]] == probs[j];
      }
    }
  }

  /** Sorted order from place i: the examples up to i lie above those from i. */
  ghost predicate Cut(probs: seq<real>, order: seq<nat>, i: nat)
    requires Permutation(|probs|, order) && i <= |order|
  {
    forall k, m | 0 <= k < i <= m < |order| :: probs[order[k]] > probs[order[m]]
  }

  /** Consumes one tie group and counts its examples. */
  method TakeGroup(probs: seq<real>, labels: seq<Label>, order: seq<nat>, from: nat, tp0: nat, fp0: nat)
    returns (i: nat, tp: nat, fp: nat)
    requires |probs| == |labels| && Permutation(|labels|, order) && from < |order|
    requires Increasing<nat>(order, Descending(probs)) && Cut(probs, order, from)
    requires tp0 == |Taken(order, from, labels, 1)| && fp0 == |Taken(order, from, labels, 0)|
    ensures from < i <= |order| && Cut(probs, order, i)
    ensures forall m | from <= m < i :: probs[order[m]] == probs[order[from]]
    ensures tp == |Taken(order, i, labels, 1)| && fp == |Taken(order, i, labels, 0)|
  {
    hide Increasing, Taken, Cut;
    i, tp, fp := from, tp0, fp0;
    var p := probs[order[i]];
    while i < |order| && probs[order[i]] == p
      invariant from <= i <= |order|
      invariant i == from ==> probs[order[i]] == p
      invariant forall m | from <= m < i :: probs[order[m]] == p
      invariant tp == |Taken(order, i, labels, 1)| && fp == |Taken(order, i, labels, 0)|
    {
      TakenStep(order, i, labels, 1);
      TakenStep(order, i, labels, 0);
      tp := tp + labels[order[i]];
      fp := fp + (1 - labels[order[i]]);
      i := i + 1;
    }
    CutAfter(probs, order, from, i);
  }

  lemma CutAfter(probs: seq<real>, order: seq<nat>, from: nat, i: nat)
    requires Permutation(|probs|, order) && Increasing<nat>(order, Descending(probs)) && from < i <= |order|
    requires Cut(probs, order, from)
    requires forall m | from <= m < i :: probs[order[m]] == probs[order[from]]
    requires i < |order| ==> probs[order[i]] != probs[order[from]]
    ensures Cut(probs, order, i)
  {
    forall k, m | 0 <= k < i <= m < |order| ensures probs[order[k]] > probs[order[m]] {
      if from <= k {
        assert Descending(probs)(order[from]) <= Descending(probs)(order[i]);
        assert i < m ==> Descending(probs)(order[i]) <= Descending(probs)(order[m]);
      }
    }
  }

  /** The running counters are the confusion counts at the group's score. */
  lemma CountersAreCounts(probs: seq<real>, labels: seq<Label>, order: seq<nat>, from: nat, i: nat)
    requires |probs| == |labels| && Permutation(|labels|, order) && from < i <= |order|
    requires Cut(probs, order, from) && Cut(probs, order, i)
    requires forall m | from <= m < i :: probs[order[m]] == probs[order[from]]
    ensures var c := CountsAt(probs, labels, probs[order[from]]);
            && c.tp == |Taken(order, i, labels, 1)| && c.fp == |Taken(order, i, labels, 0)|
            && c.tp + c.fn == Positives(labels) && c.tp + c.fp > 0
  {
    hide Taken;
    var p := probs[order[from]];
    forall m | 0 <= m < i ensures p <= probs[order[m]] {
      assert m < from ==> probs[order[m]] > probs[order[from]];
    }
    forall m | i <= m < |order| ensures probs[order[m]] < p {
      assert probs[order[from]] > probs[order[m]];
    }
    TakenIsSelected(probs, labels, order, i, p, 1);
    TakenIsSelected(probs, labels, order, i, p, 0);
    PositivesSplit(probs, labels, p);
    assert order[from] in Selected(probs, labels, p, labels[order[from]]);
  }

  /** The best candidate among the first i places of the order, if any. */
  ghost predicate BestSoFar(probs: seq<real>, labels: seq<Label>, order: seq<nat>, target: real, minRecall: real,
                            i: nat, best: Option<(real, real)>)
    requires |probs| == |labels| && Permutation(|labels|, order) && i <= |order|
  {
    match best
    case None =>
      forall k | 0 <= k < i :: !Qualifies(probs, labels, target, minRecall, probs[order[k]])
    case Some((b, recall)) =>
      && b in probs
      && Qualifies(probs, labels, target, minRecall, b)
      && recall == Recall(CountsAt(probs, labels, b))
      && (forall k | 0 <= k < i && Qualifies(probs, labels, target, minRecall, probs[order[k]]) ::
            NoBetter(probs, labels, probs[order[k]], b))
      && (forall k | i <= k < |order| :: probs[order[k]] < b)
  }

  /** The strict comparison of recalls keeps the higher of two equally good thresholds. */
  lemma BestStep(probs: seq<real>, labels: seq<Label>, order: seq<nat>, target: real, minRecall: real,
                 from: nat, i: nat, best: Option<(real, real)>, next: Option<(real, real)>)
    requires |probs| == |labels| && Permutation(|labels|, order) && from < i <= |order|
    requires Cut(probs, order, i)
    requires forall m | from <= m < i :: probs[order[m]] == probs[order[from]]
    requires BestSoFar(probs, labels, order, target, minRecall, from, best)
    requires var p := probs[order[from]];
             var recall := Recall(CountsAt(probs, labels, p));
             next == if Qualifies(probs, labels, target, minRecall, p) && (best.None? || recall > best.value.1)
                     then Some((p, recall)) else best
    ensures BestSoFar(probs, labels, order, target, minRecall, i, next)
  {
    hide Qualifies, Recall, CountsAt;
    var p := probs[order[from]];
    assert p in probs;
    if next != best {
      forall k | i <= k < |order| ensures probs[order[k]] < p {
        assert probs[order[from]] > probs[order[k]];
      }
      forall k | 0 <= k < i && Qualifies(probs, labels, target, minRecall, probs[order[k]])
        ensures NoBetter(probs, labels, probs[order[k]], p)
      {
        assert best.Some? && k < from ==> NoBetter(probs, labels, probs[order[k]], best.value.0);
      }
    } else {
      forall k | from <= k < i && Qualifies(probs, labels, target, minRecall, p)
        ensures best.Some? && NoBetter(probs, labels, probs[order[k]], best.value.0)
      {
        assert best.Some? ==> probs[order[from]] < best.value.0;
      }
    }
  }

  /** The lowest score that a reached threshold lets through selects the same examples. */
  lemma {:induction false} NextScore(probs: seq<real>, n: nat, t: real) returns (i: nat)
    requires n <= |probs| && Reached(probs[..n], t)
    ensures i < n && t <= probs[i]
    ensures forall j | 0 <= j < n && t <= probs[j] :: probs[i] <= probs[j]
  {
    var m := n - 1;
    if Reached(probs[..m], t) {
      i := NextScore(probs, m, t);
      if t <= probs[m] && probs[m] < probs[i] {
        i := m;
      }
    } else {
      i := m;
      forall j | 0 <= j < m ensures probs[j] < t {
        assert probs[..m][j] == probs[j];
      }
    }
  }

  lemma SameSelection(probs: seq<real>, labels: seq<Label>, t: real, s: real)
    requires |probs| == |labels|
    requires forall j | 0 <= j < |probs| :: t <= probs[j] <==> s <= probs[j]
    ensures CountsAt(probs, labels, t) == CountsAt(probs, labels, s)
  {
    assert Selected(probs, labels, t, 1) == Selected(probs, labels, s, 1);
    assert Selected(probs, labels, t, 0) == Selected(probs, labels, s, 0);
    assert Missed(probs, labels, t) == Missed(probs, labels, s);
  }

  /** It is enough to look at scores: any reached threshold has the counts of a score at or above it. */
  lemma ScoreFor(probs: seq<real>, labels: seq<Label>, order: seq<nat>, t: real) returns (k: nat)
    requires |probs| == |labels| && Permutation(|labels|, order) && Reached(probs, t)
    ensures k < |order| && t <= probs[order[k]]
    ensures CountsAt(probs, labels, t) == CountsAt(probs, labels, probs[order[k]])
  {
    assert probs[..|probs|] == probs;
    var i := NextScore(probs, |probs|, t);
    SameSelection(probs, labels, t, probs[i]);
    assert i in order;
    k :| 0 <= k < |order| && order[k] == i;
  }

  lemma BestOverall(probs: seq<real>, labels: seq<Label>, order: seq<nat>, target: real, minRecall: real,
                    best: Option<(real, real)>)
    requires |probs| == |labels| && Permutation(|labels|, order)
    requires BestSoFar(probs, labels, order, target, minRecall, |order|, best)
    ensures best.None? ==> forall t: real | Reached(probs, t) :: !Qualifies(probs, labels, target, minRecall, t)
    ensures best.Some? ==> Best(probs, labels, target, minRecall, best.value.0)
  {
    hide Recall, CountsAt;
    forall t: real | Reached(probs, t) && Qualifies(probs, labels, target, minRecall, t)
      ensures best.Some? && NoBetter(probs, labels, t, best.value.0)
    {
      var k := ScoreFor(probs, labels, order, t);
      assert Qualifies(probs, labels, target, minRecall, probs[order[k]]);
      assert best.Some? ==> NoBetter(probs, labels, probs[order[k]], best.value.0);
    }
  }

  /**
   The chosen threshold: absent exactly when there are no positives or no threshold that selects
   anything meets both floors, and otherwise the best one, clamped.
   */
  method ChooseThreshold(probs: seq<real>, labels: seq<Label>, target: real, minRecall: real)
    returns (r: Result<Option<real>>)
    ensures r.LengthMismatch? <==> |probs| != |labels|
    ensures r.Ok? ==>
              (r.value.None? <==> Positives(labels) == 0
                                  || forall t: real | Reached(probs, t) ::
                                       !Qualifies(probs, labels, target, minRecall, t))
    ensures r.Ok? && r.value.Some? ==>
              exists b: real ::
                && Best(probs, labels, target, minRecall, b) && r.value.value == Clamp(b)
                && r.value.value == (if b < 0.000001 then 0.000001 else if b > 0.999999 then 0.999999 else b)
                && (Promise(probs, labels, target, minRecall, r.value.value)
                    <==> ClampHarmless(probs, labels, target, b))
                && (HighestPromise(probs, labels, target, minRecall, r.value.value)
                    <==> ClampKeepsHighest(probs, labels, b))
    ensures r.Ok? && r.value.Some? && Inside(probs) ==>
              Best(probs, labels, target, minRecall, r.value.value)
                && HighestPromise(probs, labels, target, minRecall, r.value.value)
  {
    hide Sort, Increasing, Qualifies, CountsAt, Cut, BestSoFar, Taken, Best, Positives;
    hide Promise, HighestPromise, ClampHarmless, ClampKeepsHighest, Inside;
    if |probs| != |labels| {
      return Result.LengthMismatch;
    }
    var order := Sort(|probs|, Descending(probs));
    Sorted(|probs|, Descending(probs));
    var total := Positives(labels);
    if total == 0 {
      return Ok(None);
    }
    var best := Search(probs, labels, target, minRecall, order);
    BestOverall(probs, labels, order, target, minRecall, best);
    if best.None? {
      return Ok(None);
    }
    BestIsReached(probs, labels, target, minRecall, best.value.0);
    ClampKeepsPromise(probs, labels, target, minRecall, best.value.0);
    if Inside(probs) {
      InsideIsBest(probs, labels, target, minRecall, best.value.0);
    }
    var low := if best.value.0 < LEAST then LEAST else best.value.0;
    return Ok(Some(if low > MOST then MOST else low));
  }

  lemma BestIsReached(probs: seq<real>, labels: seq<Label>, target: real, minRecall: real, b: real)
    requires |probs| == |labels| && Best(probs, labels, target, minRecall, b)
    ensures Reached(probs, b) && Qualifies(probs, labels, target, minRecall, b)
  {
    var i :| 0 <= i < |probs| && probs[i] == b;
  }

  method Search(probs: seq<real>, labels: seq<Label>, target: real, minRecall: real, order: seq<nat>)
    returns (best: Option<(real, real)>)
    requires |probs| == |labels| && Permutation(|labels|, order) && Increasing<nat>(order, Descending(probs))
    requires Positives(labels) > 0
    ensures BestSoFar(probs, labels, order, target, minRecall, |order|, best)
  {
    hide Sort, Increasing, CountsAt, Cut, BestSoFar, Taken, Positives;
    var total := Positives(labels);
    best := None;
    var tp: nat, fp: nat, i: nat := 0, 0, 0;
    SearchStart(probs, labels, order, target, minRecall);
    while i < |order|
      invariant i <= |order| && Cut(probs, order, i)
      invariant tp == |Taken(order, i, labels, 1)| && fp == |Taken(order, i, labels, 0)|
      invariant BestSoFar(probs, labels, order, target, minRecall, i, best)
    {
      var p := probs[order[i]];
      ghost var from, earlier := i, best;
      i, tp, fp := TakeGroup(probs, labels, order, i, tp, fp);
      CountersAreCounts(probs, labels, order, from, i);
      var precision, recall := tp as real / (tp + fp) as real, tp as real / total as real;
      if precision >= target && recall >= minRecall && (best.None? || recall > best.value.1) {
        best := Some((p, recall));
      }
      BestStep(probs, labels, order, target, minRecall, from, i, earlier, best);
    }
  }

  lemma SearchStart(probs: seq<real>, labels: seq<Label>, order: seq<nat>, target: real, minRecall: real)
    requires |probs| == |labels| && Permutation(|labels|, order)
    ensures Cut(probs, order, 0) && BestSoFar(probs, labels, order, target, minRecall, 0, None)
    ensures |Taken(order, 0, labels, 1)| == 0 && |Taken(order, 0, labels, 0)| == 0
  {
    assert Taken(order, 0, labels, 1) == {} && Taken(order, 0, labels, 0) == {};
  }

  // ----- The clamp -----

  /**
   Clamping a score keeps its confusion counts exactly when the score is not below the range and no
   other score lies between the upper end of the range and it.
   */
  lemma ClampKeepsCounts(probs: seq<real>, labels: seq<Label>, b: real)
    requires |probs| == |labels| && b in probs
    ensures CountsAt(probs, labels, Clamp(b)) == CountsAt(probs, labels, b)
       <==> LEAST <= b && forall i | 0 <= i < |probs| :: !(MOST <= probs[i] < b)
  {
    var c := Clamp(b);
    var i :| 0 <= i < |probs| && probs[i] == b;
    if b < LEAST {
      FewerSelected(probs, labels, b, c, i);
    } else if forall j | 0 <= j < |probs| :: !(MOST <= probs[j] < b) {
      SameSelection(probs, labels, c, b);
    } else {
      var j :| 0 <= j < |probs| && MOST <= probs[j] < b;
      FewerSelected(probs, labels, c, b, j);
    }
  }

  /** A score between two thresholds separates their counts. */
  lemma FewerSelected(probs: seq<real>, labels: seq<Label>, low: real, high: real, i: nat)
    requires |probs| == |labels| && i < |probs| && low <= probs[i] < high
    ensures CountsAt(probs, labels, low) != CountsAt(probs, labels, high)
  {
    var y := labels[i];
    assert Selected(probs, labels, high, y) < Selected(probs, labels, low, y) by {
      assert i in Selected(probs, labels, low, y) && i !in Selected(probs, labels, high, y);
    }
    Smaller(Selected(probs, labels, high, y), Selected(probs, labels, low, y));
  }

  lemma Smaller(a: set<nat>, b: set<nat>)
    requires a < b
    ensures |a| < |b|
  {
    assert b == a + (b - a);
    var x :| x in b - a;
  }

  /** Raising the threshold loses recall or keeps it. */
  lemma RecallFalls(probs: seq<real>, labels: seq<Label>, low: real, high: real)
    requires |probs| == |labels| && low <= high
    ensures CountsAt(probs, labels, high).tp <= CountsAt(probs, labels, low).tp
    ensures Recall(CountsAt(probs, labels, high)) <= Recall(CountsAt(probs, labels, low))
  {
    var few, many := CountsAt(probs, labels, high), CountsAt(probs, labels, low);
    assert Selected(probs, labels, high, 1) <= Selected(probs, labels, low, 1);
    NotMore(Selected(probs, labels, high, 1), Selected(probs, labels, low, 1));
    PositivesSplit(probs, labels, low);
    PositivesSplit(probs, labels, high);
    if few.tp + few.fn > 0 {
      SmallerShare(few.tp, many.tp, few.tp + few.fn);
    }
  }

  lemma NotMore(a: set<nat>, b: set<nat>)
    requires a <= b
    ensures |a| <= |b|
  {
    assert b == a + (b - a);
  }

  lemma SmallerShare(a: nat, b: nat, n: nat)
    requires a <= b && n > 0
    ensures a as real / n as real <= b as real / n as real
  {
  }

  lemma ShareSigns(c: Counts)
    ensures 0.0 <= Precision(c) && 0.0 <= Recall(c)
    ensures c.tp == 0 ==> Precision(c) == 0.0 && Recall(c) == 0.0
    ensures c.tp > 0 ==> Recall(c) > 0.0
  {
  }

  /** Nothing reaches the threshold, so nothing is found. */
  lemma NothingFound(probs: seq<real>, labels: seq<Label>, t: real)
    requires |probs| == |labels| && !Reached(probs, t)
    ensures CountsAt(probs, labels, t).tp == 0
  {
    assert Selected(probs, labels, t, 1) == {};
  }

  /** What the search promises of its answer: both floors, and no more recall to be had with them. */
  ghost predicate Promise(probs: seq<real>, labels: seq<Label>, target: real, minRecall: real, c: real)
    requires |probs| == |labels|
  {
    && Qualifies(probs, labels, target, minRecall, c)
    && forall t: real | Reached(probs, t) && Qualifies(probs, labels, target, minRecall, t) ::
         Recall(CountsAt(probs, labels, t)) <= Recall(CountsAt(probs, labels, c))
  }

  /** The promise, and of equally good thresholds the highest. */
  ghost predicate HighestPromise(probs: seq<real>, labels: seq<Label>, target: real, minRecall: real, c: real)
    requires |probs| == |labels|
  {
    && Qualifies(probs, labels, target, minRecall, c)
    && forall t: real | Reached(probs, t) && Qualifies(probs, labels, target, minRecall, t) ::
         NoBetter(probs, labels, t, c)
  }

  /** When the clamped form of the best threshold b keeps the promise. */
  ghost predicate ClampHarmless(probs: seq<real>, labels: seq<Label>, target: real, b: real)
    requires |probs| == |labels|
  {
    || CountsAt(probs, labels, b).tp == 0
    || (LEAST <= b && (b <= MOST || Precision(CountsAt(probs, labels, MOST)) >= target))
  }

  /** When it is also the highest: it finds nothing anyway and moves up, or does not move. */
  ghost predicate ClampKeepsHighest(probs: seq<real>, labels: seq<Label>, b: real)
    requires |probs| == |labels|
  {
    LEAST <= b <= MOST || (b < LEAST && CountsAt(probs, labels, b).tp == 0)
  }

  /** A best threshold below the range: the clamp raises it past itself. */
  lemma ClampedUp(probs: seq<real>, labels: seq<Label>, target: real, minRecall: real, b: real)
    requires |probs| == |labels| && Best(probs, labels, target, minRecall, b) && b < LEAST
    ensures Promise(probs, labels, target, minRecall, LEAST) <==> CountsAt(probs, labels, b).tp == 0
    ensures HighestPromise(probs, labels, target, minRecall, LEAST) <==> CountsAt(probs, labels, b).tp == 0
  {
    hide CountsAt, Precision, Recall;
    BestIsReached(probs, labels, target, minRecall, b);
    RecallFalls(probs, labels, b, LEAST);
    ShareSigns(CountsAt(probs, labels, b));
    ShareSigns(CountsAt(probs, labels, LEAST));
    if CountsAt(probs, labels, b).tp == 0 {
      forall t: real | Reached(probs, t) && Qualifies(probs, labels, target, minRecall, t)
        ensures NoBetter(probs, labels, t, LEAST)
      {
        assert NoBetter(probs, labels, t, b);
        ShareSigns(CountsAt(probs, labels, t));
      }
    } else if Reached(probs, LEAST) {
      assert Qualifies(probs, labels, target, minRecall, LEAST) ==> NoBetter(probs, labels, LEAST, b);
    } else {
      NothingFound(probs, labels, LEAST);
    }
  }

  /** A best threshold above the range: the clamp lowers it, which can only cost precision. */
  lemma ClampedDown(probs: seq<real>, labels: seq<Label>, target: real, minRecall: real, b: real)
    requires |probs| == |labels| && Best(probs, labels, target, minRecall, b) && b > MOST
    ensures Promise(probs, labels, target, minRecall, MOST) <==> Precision(CountsAt(probs, labels, MOST)) >= target
    ensures CountsAt(probs, labels, b).tp == 0 ==> Precision(CountsAt(probs, labels, MOST)) >= target
    ensures !HighestPromise(probs, labels, target, minRecall, MOST)
  {
    hide CountsAt, Precision, Recall;
    BestIsReached(probs, labels, target, minRecall, b);
    var i :| 0 <= i < |probs| && b <= probs[i];
    assert Reached(probs, MOST);
    RecallFalls(probs, labels, MOST, b);
    ShareSigns(CountsAt(probs, labels, b));
    ShareSigns(CountsAt(probs, labels, MOST));
    if Qualifies(probs, labels, target, minRecall, MOST) {
      assert NoBetter(probs, labels, MOST, b);
      forall t: real | Reached(probs, t) && Qualifies(probs, labels, target, minRecall, t)
        ensures Recall(CountsAt(probs, labels, t)) <= Recall(CountsAt(probs, labels, MOST))
      {
        assert NoBetter(probs, labels, t, b);
      }
      assert !NoBetter(probs, labels, b, MOST);
    }
  }

  /** The clamped best threshold keeps the promise exactly when the clamp is harmless. */
  lemma ClampKeepsPromise(probs: seq<real>, labels: seq<Label>, target: real, minRecall: real, b: real)
    requires |probs| == |labels| && Best(probs, labels, target, minRecall, b)
    ensures Promise(probs, labels, target, minRecall, Clamp(b)) <==> ClampHarmless(probs, labels, target, b)
    ensures HighestPromise(probs, labels, target, minRecall, Clamp(b)) <==> ClampKeepsHighest(probs, labels, b)
  {
    hide CountsAt, Precision, Recall;
    if b < LEAST {
      ClampedUp(probs, labels, target, minRecall, b);
    } else if b > MOST {
      ClampedDown(probs, labels, target, minRecall, b);
    } else {
      forall t: real | Reached(probs, t) && Qualifies(probs, labels, target, minRecall, t)
        ensures Recall(CountsAt(probs, labels, t)) <= Recall(CountsAt(probs, labels, b))
      {
        assert NoBetter(probs, labels, t, b);
      }
    }
  }

  /** Every score lies in the range into which answers are forced. */
  ghost predicate Inside(probs: seq<real>) {
    forall i | 0 <= i < |probs| :: LEAST <= probs[i] <= MOST
  }

  /** What a caller can check beforehand: with every score inside the range the answer is the best threshold itself. */
  lemma InsideIsBest(probs: seq<real>, labels: seq<Label>, target: real, minRecall: real, b: real)
    requires |probs| == |labels| && Best(probs, labels, target, minRecall, b) && Inside(probs)
    ensures Clamp(b) == b && HighestPromise(probs, labels, target, minRecall, b)
  {
    hide CountsAt, Precision, Recall;
    var i :| 0 <= i < |probs| && probs[i] == b;
  }

  /** One tiny score: it is the best threshold with full recall, but its clamped form selects nothing. */
  lemma ClampCanLoseEverything()
    ensures var p: real := 0.0000001;
            && Best([p], [1], 1.0, 1.0, p)
            && CountsAt([p], [1], Clamp(p)).tp == 0
            && !Promise([p], [1], 1.0, 1.0, Clamp(p))
  {
    var p: real := 0.0000001;
    assert Selected([p], [1], p, 1) == {0 as nat} by { assert [p][0] == p; }
    assert Selected([p], [1], p, 0) == {};
    assert Missed([p], [1], p) == {};
    assert Selected([p], [1], Clamp(p), 1) == {};
    forall t: real | Reached([p], t) && Qualifies([p], [1], 1.0, 1.0, t) ensures NoBetter([p], [1], t, p) {
      assert t <= p;
      SameSelection([p], [1], t, p);
    }
    assert p in [p];
    ClampKeepsPromise([p], [1], 1.0, 1.0, p);
  }
}
