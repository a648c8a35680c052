/**
 The rank statistic of tools/moderation_train.py: the area under the ROC curve by average ranks,
 with its meaning as a count of ordered pairs.
 */
module Auc {
  import opened Sums
  import opened Ordering

  /** 1 for a positive example, 0 for a negative one. */
  type Label = y: int | 0 <= y <= 1

  datatype Outcome =
    | Undefined
    | LengthMismatch
    | Area(value: real)

  function Positives(labels: seq<Label>): nat {
    if labels == [] then 0 else Positives(labels[..|labels| - 1]) + labels[|labels| - 1]
  }

  function Score(scores: seq<real>, i: int): real {
    if 0 <= i < |scores| then scores[i] else 0.0
  }

  predicate IsPositive(labels: seq<Label>, i: int) {
    0 <= i < |labels| && labels[i] == 1
  }

  // ----- The meaning: pairs -----

  /** A win counts one, a tie one half. */
  function Beats(a: real, b: real): real {
    if b < a then 1.0 else if a == b then 0.5 else 0.0
  }

  ghost function Against(scores: seq<real>, i: int): int -> real {
    j => Beats(Score(scores, i), Score(scores, j))
  }

  /** Pairs of examples, the first positive, the second of the given class. */
  ghost function Pair(scores: seq<real>, labels: seq<Label>, second: bool): (f: (int, int) -> real)
    ensures forall i, j {:trigger f(i, j)} ::
              f(i, j) == if IsPositive(labels, i) && IsPositive(labels, j) == second
                then Beats(Score(scores, i), Score(scores, j)) else 0.0
  {
    (i, j) => if IsPositive(labels, i) && IsPositive(labels, j) == second
      then Beats(Score(scores, i), Score(scores, j)) else 0.0
  }

  /** Positive-above-negative pairs plus half the tied pairs. */
  ghost function Wins(scores: seq<real>, labels: seq<Label>): real {
    Sum(|labels|, Inner(|labels|, Pair(scores, labels, false)))
  }

  // ----- The rank of one example -----

  /** The average rank: one half more than its wins against all examples, itself included. */
  ghost function Rank(scores: seq<real>, i: int): real {
    0.5 + Sum(|scores|, Against(scores, i))
  }

  function ByScore(scores: seq<real>): nat -> real {
    i => Score(scores, i)
  }

  /** A tie group [a, b] of the sorted order holds examples of average rank (a + b) / 2 + 1. */
  lemma RankOfGroup(scores: seq<real>, order: seq<nat>, a: nat, b: nat, k: nat)
    requires order == Sort(|scores|, ByScore(scores)) && |order| == |scores|
    requires a <= k <= b < |scores|
    requires forall m | a <= m <= b :: Score(scores, order[m]) == Score(scores, order[k])
    requires forall m | 0 <= m < a :: Score(scores, order[m]) < Score(scores, order[k])
    requires forall m | b < m < |scores| :: Score(scores, order[k]) < Score(scores, order[m])
    ensures Rank(scores, order[k]) == (a + b) as real / 2.0 + 1.0
  {
    hide Sort, Sum, Points;
    var f := Against(scores, order[k]);
    SumAlong(|scores|, ByScore(scores), f);
    forall m | 0 <= m < |scores|
      ensures Along(order, f)(m) == Points(a, b, m)
    {
      PointsAlong(scores, order, a, b, k, m);
    }
    SumOfPoints(|scores|, a, b, Along(order, f));
  }

  /** What the example at place m of the order adds to the rank of the group [a, b]. */
  ghost function Points(a: nat, b: nat, m: int): real {
    if m < a then 1.0 else if m <= b then 0.5 else 0.0
  }

  lemma PointsAlong(scores: seq<real>, order: seq<nat>, a: nat, b: nat, k: nat, m: nat)
    requires |order| == |scores| && a <= k <= b < |scores| && m < |order|
    requires a <= m <= b ==> Score(scores, order[m]) == Score(scores, order[k])
    requires m < a ==> Score(scores, order[m]) < Score(scores, order[k])
    requires b < m ==> Score(scores, order[k]) < Score(scores, order[m])
    ensures Along(order, Against(scores, order[k]))(m) == Points(a, b, m)
  {
    hide Score;
  }

  lemma SumOfPoints(n: nat, a: nat, b: nat, g: int -> real)
    requires a <= b < n && forall m | 0 <= m < n :: g(m) == Points(a, b, m)
    ensures Sum(n, g) == a as real + (b + 1 - a) as real * 0.5
  {
    hide Sum;
    var tail := (m: int) => g(a + m);
    var rest := (m: int) => tail(b + 1 - a + m);
    SumSplit(a, n - a, g);
    SumSplit(b + 1 - a, n - b - 1, tail);
    SumConstant(a, 1.0, g);
    SumConstant(b + 1 - a, 0.5, tail);
    SumZero(n - b - 1, rest);
    SumEq(n - a, m => g(a + m), tail);
    SumEq(n - b - 1, m => tail(b + 1 - a + m), rest);
  }

  lemma {:induction false} SumConstant(n: nat, c: real, f: int -> real)
    requires forall i | 0 <= i < n :: f(i) == c
    ensures Sum(n, f) == n as real * c
  {
    if n > 0 {
      SumConstant(n - 1, c, f);
      assert n as real == (n - 1) as real + 1.0;
      assert n as real * c == (n - 1) as real * c + c;
    }
  }

  // ----- The formula -----

  ghost function One(labels: seq<Label>): (f: int -> real)
    ensures forall i {:trigger f(i)} :: f(i) == if IsPositive(labels, i) then 1.0 else 0.0
  {
    i => if IsPositive(labels, i) then 1.0 else 0.0
  }

  lemma {:induction false} PositivesCounted(labels: seq<Label>)
    ensures Positives(labels) as real == Sum(|labels|, One(labels))
    ensures Positives(labels) <= |labels|
  {
    if labels != [] {
      var n := |labels| - 1;
      PositivesCounted(labels[..n]);
      SumEq(n, One(labels[..n]), One(labels));
    }
  }

  /** One for a pair of positives. */
  ghost function Both(labels: seq<Label>): (f: (int, int) -> real)
    ensures forall i, j {:trigger f(i, j)} ::
              f(i, j) == if IsPositive(labels, i) && IsPositive(labels, j) then 1.0 else 0.0
  {
    (i, j) => if IsPositive(labels, i) && IsPositive(labels, j) then 1.0 else 0.0
  }

  /** Of a pair of positives both orders together share one point. */
  lemma PairShared(scores: seq<real>, labels: seq<Label>, i: int)
    ensures var n, f := |labels|, Pair(scores, labels, true);
            Inner(n, Both(labels))(i) == Inner(n, f)(i) + Inner(n, Flip(f))(i)
  {
    hide Sum;
    var f, both := Pair(scores, labels, true), Both(labels);
    forall j
      ensures both(i, j) == f(i, j) + Flip(f)(i, j)
    {
    }
    SumAdd(|labels|, j => f(i, j), j => Flip(f)(i, j), j => both(i, j));
  }

  lemma PairsCounted(labels: seq<Label>, i: int)
    ensures Inner(|labels|, Both(labels))(i) == Positives(labels) as real * One(labels)(i)
  {
    hide Sum, Positives;
    var n, both := |labels|, Both(labels);
    PositivesCounted(labels);
    if IsPositive(labels, i) {
      SumEq(n, j => both(i, j), One(labels));
    } else {
      SumZero(n, j => both(i, j));
    }
  }

  /** Both members of a pair positive: each unordered pair shares one point, so half of pos * pos. */
  lemma PositivePairs(scores: seq<real>, labels: seq<Label>)
    ensures 2.0 * Sum(|labels|, Inner(|labels|, Pair(scores, labels, true)))
         == Positives(labels) as real * Positives(labels) as real
  {
    hide Sum, Positives, Both, Pair, One, Inner;
    var n := |labels|;
    var f, both := Pair(scores, labels, true), Both(labels);
    SumSwap(n, n, f);
    forall i | 0 <= i < n
      ensures Inner(n, both)(i) == Inner(n, f)(i) + Inner(n, Flip(f))(i)
      ensures Inner(n, both)(i) == Positives(labels) as real * One(labels)(i)
    {
      PairShared(scores, labels, i);
      PairsCounted(labels, i);
    }
    SumAdd(n, Inner(n, f), Inner(n, Flip(f)), Inner(n, both));
    SumScale(n, Positives(labels) as real, One(labels), Inner(n, both));
    PositivesCounted(labels);
  }

  ghost function RankIfPositive(scores: seq<real>, labels: seq<Label>): (f: int -> real)
    ensures forall i {:trigger f(i)} :: f(i) == if IsPositive(labels, i) then Rank(scores, i) else 0.0
  {
    i => if IsPositive(labels, i) then Rank(scores, i) else 0.0
  }

  /** Rank sum = wins over the negatives + pos * (pos + 1) / 2. */
  lemma RankSum(scores: seq<real>, labels: seq<Label>)
    requires |scores| == |labels|
    ensures var pos := Positives(labels) as real;
            Sum(|labels|, RankIfPositive(scores, labels)) - pos * (pos + 1.0) / 2.0 == Wins(scores, labels)
  {
    hide Sum;
    var n := |labels|;
    var f, g := Pair(scores, labels, true), Pair(scores, labels, false);
    var same, other := Inner(n, f), Inner(n, g);
    var pairs := (i: int) => same(i) + other(i);
    var one := One(labels);
    var half := (i: int) => 0.5 * one(i);
    forall i | 0 <= i < n
      ensures RankIfPositive(scores, labels)(i) == half(i) + pairs(i)
    {
      if IsPositive(labels, i) {
        SumAdd(n, j => f(i, j), j => g(i, j), Against(scores, i));
      } else {
        SumZero(n, j => f(i, j));
        SumZero(n, j => g(i, j));
      }
    }
    SumAdd(n, half, pairs, RankIfPositive(scores, labels));
    SumAdd(n, same, other, pairs);
    SumScale(n, 0.5, one, half);
    PositivesCounted(labels);
    PositivePairs(scores, labels);
  }

  /** Every pair contributes between zero and one. */
  lemma WinsBounded(scores: seq<real>, labels: seq<Label>)
    ensures 0.0 <= Wins(scores, labels)
    ensures Wins(scores, labels) <= Positives(labels) as real * (|labels| - Positives(labels)) as real
  {
    WinsAndLosses(scores, labels);
    WinsNonNegative(scores, labels);
    WinsNonNegative(Negated(scores), labels);
  }

  lemma WinsNonNegative(scores: seq<real>, labels: seq<Label>)
    ensures 0.0 <= Wins(scores, labels)
  {
    hide Sum;
    var n := |labels|;
    var f := Pair(scores, labels, false);
    forall i | 0 <= i < n ensures 0.0 <= Inner(n, f)(i) {
      SumNonNegative(n, j => f(i, j));
    }
    SumNonNegative(n, Inner(n, f));
  }

  function Negated(scores: seq<real>): seq<real> {
    seq(|scores|, i requires 0 <= i < |scores| => -scores[i])
  }

  /** Reversing all scores turns every win into a loss: together they make up all pos * neg pairs. */
  lemma WinsAndLosses(scores: seq<real>, labels: seq<Label>)
    ensures Wins(scores, labels) + Wins(Negated(scores), labels)
         == Positives(labels) as real * (|labels| - Positives(labels)) as real
  {
    hide Sum;
    var n := |labels|;
    PositivesCounted(labels);
    var pos, neg := Positives(labels) as real, (n - Positives(labels)) as real;
    var one := One(labels);
    var up := Inner(n, Pair(scores, labels, false));
    var down := Inner(n, Pair(Negated(scores), labels, false));
    var mixed := (i: int) => neg * one(i);
    forall i | 0 <= i < n ensures mixed(i) == up(i) + down(i) {
      WinsAndLossesOf(scores, labels, i);
    }
    SumAdd(n, up, down, mixed);
    SumScale(n, neg, one, mixed);
    assert neg * pos == pos * neg;
  }

  lemma WinsAndLossesOf(scores: seq<real>, labels: seq<Label>, i: nat)
    requires i < |labels|
    ensures Inner(|labels|, Pair(scores, labels, false))(i) + Inner(|labels|, Pair(Negated(scores), labels, false))(i)
         == (|labels| - Positives(labels)) as real * One(labels)(i)
  {
    hide Sum;
    var n := |labels|;
    var f, g := Pair(scores, labels, false), Pair(Negated(scores), labels, false);
    var both := (j: int) => if IsPositive(labels, i) && !IsPositive(labels, j) then 1.0 else 0.0;
    forall j | 0 <= j < n ensures both(j) == f(i, j) + g(i, j) {
      assert Score(Negated(scores), i) == -Score(scores, i);
      assert Score(Negated(scores), j) == -Score(scores, j);
    }
    SumAdd(n, j => f(i, j), j => g(i, j), both);
    if IsPositive(labels, i) {
      NegativesCounted(labels, both);
    } else {
      SumZero(n, both);
    }
  }

  lemma NegativesCounted(labels: seq<Label>, negative: int -> real)
    requires forall j | 0 <= j < |labels| :: negative(j) == if IsPositive(labels, j) then 0.0 else 1.0
    ensures Sum(|labels|, negative) == (|labels| - Positives(labels)) as real
  {
    hide Sum;
    PositivesCounted(labels);
    SumAdd(|labels|, One(labels), negative, _ => 1.0);
    SumConstant(|labels|, 1.0, _ => 1.0);
  }

  // ----- The program -----

  /** The last place of the tie group that starts at place i. */
  method GroupEnd(scores: seq<real>, order: seq<nat>, i: nat) returns (j: nat)
    requires Permutation(|scores|, order) && Increasing<nat>(order, ByScore(scores)) && i < |order|
    ensures i <= j < |order|
    ensures forall k | i <= k <= j :: scores[order[k]] == scores[order[i]]
    ensures forall k | j < k < |order| :: scores[order[i]] < scores[order[k]]
  {
    j := i;
    while j + 1 < |order| && scores[order[j + 1]] == scores[order[i]]
      invariant i <= j < |order|
      invariant forall k | i <= k <= j :: scores[order[k]] == scores[order[i]]
    {
      j := j + 1;
    }
    GroupEnds(scores, order, i, j);
  }

  /** Gives one rank to the places i .. j and leaves every other place as it was. */
  method FillGroup(ranks: array<real>, order: seq<nat>, i: nat, j: nat, avg: real)
    requires Permutation(ranks.Length, order) && i <= j < |order|
    modifies ranks
    ensures forall m | 0 <= m < |order| :: ranks[order[m]] == if i <= m <= j then avg else old(ranks[order[m]])
  {
    for k := i to j + 1
      invariant forall m | 0 <= m < |order| :: ranks[order[m]] == if i <= m < k then avg else old(ranks[order[m]])
    {
      ranks[order[k]] := avg;
    }
  }

  /** All average ranks, one tie group of the sorted order at a time. */
  method AverageRanks(scores: seq<real>) returns (ranks: array<real>)
    ensures fresh(ranks) && ranks.Length == |scores|
    ensures forall i | 0 <= i < |scores| :: ranks[i] == Rank(scores, i)
  {
    hide Sort, Rank, Increasing;
    var order := Sort(|scores|, ByScore(scores));
    Sorted(|scores|, ByScore(scores));
    ranks := new real[|scores|](_ => 0.0);
    var i := 0;
    while i < |order|
      invariant 0 <= i <= |order|
      invariant forall k | 0 <= k < i :: ranks[order[k]] == Rank(scores, order[k])
      invariant forall k, m | 0 <= k < i <= m < |order| :: scores[order[k]] < scores[order[m]]
    {
      var j := GroupEnd(scores, order, i);
      var avg := (i + j) as real / 2.0 + 1.0;
      GroupRanked(scores, order, i, j);
      FillGroup(ranks, order, i, j, avg);
      i := j + 1;
    }
    AllRanked(scores, order, ranks[..]);
  }

  /** Every example has a place in the order. */
  lemma AllRanked(scores: seq<real>, order: seq<nat>, ranks: seq<real>)
    requires Permutation(|scores|, order) && |ranks| == |scores|
    requires forall k | 0 <= k < |order| :: ranks[order[k]] == Rank(scores, order[k])
    ensures forall i | 0 <= i < |scores| :: ranks[i] == Rank(scores, i)
  {
    hide Rank;
    forall e | 0 <= e < |scores|
      ensures ranks[e] == Rank(scores, e)
    {
      assert e in order;
      var k :| 0 <= k < |order| && order[k] == e;
    }
  }

  /** The next tie group is ranked alike, and every place behind it has a higher score. */
  lemma GroupRanked(scores: seq<real>, order: seq<nat>, i: nat, j: nat)
    requires order == Sort(|scores|, ByScore(scores)) && Permutation(|scores|, order) && i <= j < |order|
    requires forall k, m | 0 <= k < i <= m < |order| :: scores[order[k]] < scores[order[m]]
    requires forall k | i <= k <= j :: scores[order[k]] == scores[order[i]]
    requires forall k | j < k < |order| :: scores[order[i]] < scores[order[k]]
    ensures forall k | i <= k <= j :: Rank(scores, order[k]) == (i + j) as real / 2.0 + 1.0
    ensures forall k, m | 0 <= k < j + 1 <= m < |order| :: scores[order[k]] < scores[order[m]]
  {
    hide Sort, Rank;
    forall k | i <= k <= j
      ensures Rank(scores, order[k]) == (i + j) as real / 2.0 + 1.0
    {
      RankOfGroup(scores, order, i, j, k);
    }
  }

  lemma GroupEnds(scores: seq<real>, order: seq<nat>, i: nat, j: nat)
    requires Permutation(|scores|, order) && Increasing<nat>(order, ByScore(scores)) && i <= j < |order|
    requires scores[order[j]] == scores[order[i]]
    requires j + 1 < |order| ==> scores[order[j + 1]] != scores[order[i]]
    ensures forall m | j < m < |order| :: scores[order[i]] < scores[order[m]]
  {
    forall m | j < m < |order| ensures scores[order[i]] < scores[order[m]] {
      assert ByScore(scores)(order[j]) <= ByScore(scores)(order[j + 1]);
      assert j + 1 < m ==> ByScore(scores)(order[j + 1]) <= ByScore(scores)(order[m]);
    }
  }

  /** The sum of the ranks of the positive examples. */
  method PositiveRankSum(scores: seq<real>, labels: seq<Label>, ranks: array<real>) returns (sum: real)
    requires |scores| == |labels| == ranks.Length
    requires forall i | 0 <= i < |scores| :: ranks[i] == Rank(scores, i)
    ensures sum == Sum(|labels|, RankIfPositive(scores, labels))
  {
    hide Rank;
    sum := 0.0;
    for i := 0 to |labels|
      invariant sum == Sum(i, RankIfPositive(scores, labels))
    {
      if labels[i] != 0 {
        sum := sum + ranks[i];
      }
    }
  }

  /**
   The area under the ROC curve. It is undefined exactly when a class is missing, refuses lists of
   different lengths only otherwise, and else is the share of positive-negative pairs won, a tie
   counting one half.
   */
  method RocAuc(scores: seq<real>, labels: seq<Label>) returns (r: Outcome)
    ensures r.Undefined? <==> (forall i, j | 0 <= i < j < |labels| :: labels[i] == labels[j])
    ensures r.LengthMismatch? <==> !r.Undefined? && |scores| != |labels|
    ensures r.Area? ==> r.value * (Positives(labels) * (|labels| - Positives(labels))) as real == Wins(scores, labels)
    ensures r.Area? ==> 0 < Positives(labels) < |labels| && 0.0 <= r.value <= 1.0
  {
    hide Wins, Rank, Sum, Positives;
    var pos := Positives(labels);
    var neg := |labels| - pos;
    PositivesCounted(labels);
    OneClass(labels);
    if pos == 0 || neg == 0 {
      return Undefined;
    }
    var ranks := AverageRanks(scores);
    if |scores| != |labels| {
      return LengthMismatch;
    }
    var sum := PositiveRankSum(scores, labels, ranks);
    var value := (sum - (pos * (pos + 1)) as real / 2.0) / (pos * neg) as real;
    RankSum(scores, labels);
    WinsBounded(scores, labels);
    Quotient(sum, pos, neg, Wins(scores, labels), value);
    return Area(value);
  }

  lemma Quotient(sum: real, pos: nat, neg: nat, wins: real, value: real)
    requires pos > 0 && neg > 0 && pos * neg > 0
    requires sum - pos as real * (pos as real + 1.0) / 2.0 == wins
    requires 0.0 <= wins <= pos as real * neg as real
    requires value == (sum - (pos * (pos + 1)) as real / 2.0) / (pos * neg) as real
    ensures value * (pos * neg) as real == wins && 0.0 <= value <= 1.0
  {
    assert (pos * neg) as real == pos as real * neg as real;
    assert (pos * (pos + 1)) as real == pos as real * (pos as real + 1.0);
    var d := (pos * neg) as real;
    assert d > 0.0 && value == wins / d;
    Share(wins, d, value);
  }

  lemma Share(wins: real, d: real, value: real)
    requires d > 0.0 && value == wins / d && 0.0 <= wins <= d
    ensures value * d == wins && 0.0 <= value <= 1.0
  {
  }

  lemma OneClass(labels: seq<Label>)
    ensures (Positives(labels) == 0 || Positives(labels) == |labels|)
       <==> (forall i, j | 0 <= i < j < |labels| :: labels[i] == labels[j])
  {
    Extremes(labels);
    if forall i, j | 0 <= i < j < |labels| :: labels[i] == labels[j] {
      assert labels != [] ==> (forall j | 0 <= j < |labels| :: labels[j] == labels[0]);
    }
  }

  lemma {:induction false} Extremes(labels: seq<Label>)
    ensures Positives(labels) <= |labels|
    ensures Positives(labels) == 0 <==> (forall i | 0 <= i < |labels| :: labels[i] == 0)
    ensures Positives(labels) == |labels| <==> (forall i | 0 <= i < |labels| :: labels[i] == 1)
  {
    if labels != [] {
      Extremes(labels[..|labels| - 1]);
    }
  }
}
