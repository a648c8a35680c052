/**
 The Walsh-Hadamard transform over 2^n indices: entry (j, k) of the matrix is -1 to the
 number of bits j and k share.
 */
module Hadamard {
  import opened Common
  import opened Sums
  import opened HalfFloat

  /** -1 to the power of the number of common one bits. */
  function Sign(j: nat, k: nat): (s: real) {
    if j == 0 || k == 0 then 1.0 else Flag(j % 2, k % 2) * Sign(j / 2, k / 2)
  }

  /** The factor of one bit position. */
  function Flag(a: nat, b: nat): real { if a == 1 && b == 1 then -1.0 else 1.0 }

  lemma {:induction false} SignSymmetric(j: nat, k: nat)
    ensures Sign(j, k) == Sign(k, j)
  {
    if j > 0 && k > 0 {
      SignSymmetric(j / 2, k / 2);
    }
  }

  lemma SignStep(j: nat, k: nat)
    ensures Sign(j, k) == Flag(j % 2, k % 2) * Sign(j / 2, k / 2)
  {
  }

  /** a * d for a bit a. */
  function Bit(a: nat, d: nat): nat { if a == 1 then d else 0 }

  /** The top bits of j and k contribute one factor. */
  lemma {:induction false} SignTop(m: nat, a: nat, j: nat, b: nat, k: nat)
    requires a < 2 && b < 2 && j < Pow2(m) && k < Pow2(m)
    ensures Sign(Bit(a, Pow2(m)) + j, Bit(b, Pow2(m)) + k) == Flag(a, b) * Sign(j, k)
    decreases m
  {
    hide Sign, Flag;
    if m == 0 {
      SignBase(a, b);
    } else {
      var d := Pow2(m - 1);
      SignTop(m - 1, a, j / 2, b, k / 2);
      SignTopStep(a, Bit(a, d), j, b, Bit(b, d), k);
    }
  }

  lemma SignBase(a: nat, b: nat)
    requires a < 2 && b < 2
    ensures Sign(Bit(a, 1) + 0, Bit(b, 1) + 0) == Flag(a, b) * Sign(0, 0)
  {
  }

  lemma SignTopStep(a: nat, h: nat, j: nat, b: nat, g: nat, k: nat)
    requires Sign(h + j / 2, g + k / 2) == Flag(a, b) * Sign(j / 2, k / 2)
    ensures Sign(2 * h + j, 2 * g + k) == Flag(a, b) * Sign(j, k)
  {
    hide Sign, Flag;
    SignStep(2 * h + j, 2 * g + k);
    SignStep(j, k);
    assert (2 * h + j) / 2 == h + j / 2 && (2 * h + j) % 2 == j % 2;
    assert (2 * g + k) / 2 == g + k / 2 && (2 * g + k) % 2 == k % 2;
    var t, f, s := Flag(j % 2, k % 2), Flag(a, b), Sign(j / 2, k / 2);
    assert t * (f * s) == f * (t * s);
  }

  /** Terms of entry k of the transform of the 2^m values from v(base) on. */
  ghost function Row(v: int -> real, base: int, k: nat): (f: int -> real)
    ensures forall j {:trigger f(j)} | 0 <= j :: f(j) == Sign(j, k) * v(base + j)
  {
    j => if 0 <= j then Sign(j, k) * v(base + j) else 0.0
  }

  /** Entry k of the transform of size 2^n. */
  ghost function Transform(n: nat, v: int -> real, k: nat): real {
    Sum(Pow2(n), Row(v, 0, k))
  }

  // Butterflies

  /** The bit of e at distance d. */
  predicate HighBit(e: int, d: nat)
    requires d > 0
  {
    e / d % 2 == 1
  }

  /** One stage at distance d: pairs (e, e + d) become their sum and difference. */
  ghost function Butterfly(v: int -> real, d: nat): (w: int -> real)
    requires d > 0
    ensures forall e {:trigger w(e)} :: w(e) == if HighBit(e, d) then v(e - d) - v(e) else v(e) + v(e + d)
  {
    e => if HighBit(e, d) then v(e - d) - v(e) else v(e) + v(e + d)
  }

  /** Stages at distances 1, 2, 4, ..., 2^(m-1), in that order. */
  ghost function Stages(v: int -> real, m: nat): int -> real {
    if m == 0 then v else Butterfly(Stages(v, m - 1), Pow2(m - 1))
  }

  /** The first index of group h of 2^m indices. */
  function Start(h: nat, m: nat): nat { h * Pow2(m) }

  lemma StartHalves(h: nat, m: nat)
    requires m > 0
    ensures Start(2 * h, m - 1) == Start(h, m) && Start(2 * h + 1, m - 1) == Start(h, m) + Pow2(m - 1)
  {
    assert (2 * h + 1) * Pow2(m - 1) == 2 * h * Pow2(m - 1) + Pow2(m - 1);
  }

  /** The bit at distance 2^(m-1) inside group h of 2^m indices. */
  lemma GroupBit(h: nat, m: nat, b: nat, low: nat)
    requires m > 0 && b < 2 && low < Pow2(m - 1)
    ensures HighBit(Start(h, m) + Bit(b, Pow2(m - 1)) + low, Pow2(m - 1)) <==> b == 1
  {
    hide Pow2;
    StartHalves(h, m);
    Remainder(2 * h + b, Pow2(m - 1), low);
    assert Start(2 * h + b, m - 1) == Start(h, m) + Bit(b, Pow2(m - 1));
  }

  /** After m stages every aligned group of 2^m values holds its own transform. */
  lemma {:induction false} StagesTransform(v: int -> real, m: nat, h: nat, k: nat)
    requires k < Pow2(m)
    ensures Stages(v, m)(Start(h, m) + k) == Sum(Pow2(m), Row(v, Start(h, m), k))
    decreases m
  {
    hide Start, Sum, Row, Stages;
    if m == 0 {
      FirstRow(v, h);
    } else {
      var d := Pow2(m - 1);
      var b, low := if k < d then 0 else 1, if k < d then k else k - d;
      StagesTransform(v, m - 1, 2 * h, low);
      StagesTransform(v, m - 1, 2 * h + 1, low);
      StagesJoin(v, m, h, b, low);
      assert Bit(b, d) + low == k;
    }
  }

  /** Two neighbouring groups' transforms and one more stage make the transform of both. */
  lemma StagesJoin(v: int -> real, m: nat, h: nat, b: nat, low: nat)
    requires m > 0 && b < 2 && low < Pow2(m - 1)
    requires Stages(v, m - 1)(Start(2 * h, m - 1) + low) == Sum(Pow2(m - 1), Row(v, Start(2 * h, m - 1), low))
    requires Stages(v, m - 1)(Start(2 * h + 1, m - 1) + low) == Sum(Pow2(m - 1), Row(v, Start(2 * h + 1, m - 1), low))
    ensures Stages(v, m)(Start(h, m) + (Bit(b, Pow2(m - 1)) + low))
            == Sum(Pow2(m), Row(v, Start(h, m), Bit(b, Pow2(m - 1)) + low))
  {
    hide Start, Sum, Row, HighBit, Butterfly, Flag, Stages, Bit, Pow2;
    var d, g := Pow2(m - 1), Start(h, m);
    StartHalves(h, m);
    GroupBit(h, m, b, low);
    RowHalves(v, m, g, b, low);
    StageJoin(Stages(v, m - 1), d, g, b, low, Sum(d, Row(v, g, low)), Sum(d, Row(v, g + d, low)));
    StagesStep(v, m);
    assert g + (Bit(b, d) + low) == g + Bit(b, d) + low;
  }

  lemma StagesStep(v: int -> real, m: nat)
    ensures m == 0 ==> Stages(v, m) == v
    ensures m > 0 ==> Stages(v, m) == Butterfly(Stages(v, m - 1), Pow2(m - 1))
  {
  }

  lemma StageJoin(v: int -> real, d: nat, g: int, b: nat, low: nat, x: real, y: real)
    requires d > 0 && b < 2 && (HighBit(g + Bit(b, d) + low, d) <==> b == 1)
    requires v(g + low) == x && v(g + d + low) == y
    ensures Butterfly(v, d)(g + Bit(b, d) + low) == x + Flag(1, b) * y
  {
    hide HighBit, Flag;
    FlagTimes(b, y);
  }

  lemma FlagTimes(b: nat, y: real)
    ensures Flag(1, b) * y == if b == 1 then -y else y
  {
  }

  lemma FirstRow(v: int -> real, h: nat)
    ensures Stages(v, 0)(Start(h, 0)) == Sum(Pow2(0), Row(v, Start(h, 0), 0))
  {
    assert Start(h, 0) == h;
    assert Sum(1, Row(v, h, 0)) == Sum(0, Row(v, h, 0)) + Row(v, h, 0)(0);
  }

  /** A row of size 2^m is built from the two half rows. */
  lemma RowHalves(v: int -> real, m: nat, base: int, b: nat, low: nat)
    requires m > 0 && b < 2 && low < Pow2(m - 1)
    ensures Sum(Pow2(m), Row(v, base, Bit(b, Pow2(m - 1)) + low))
         == Sum(Pow2(m - 1), Row(v, base, low)) + Flag(1, b) * Sum(Pow2(m - 1), Row(v, base + Pow2(m - 1), low))
  {
    hide Sum, Sign, Flag, Row, Bit;
    var d := Pow2(m - 1);
    var f := Row(v, base, Bit(b, d) + low);
    SumSplit(d, d, f);
    forall j | 0 <= j < d
      ensures f(j) == Row(v, base, low)(j)
    {
      SignLow(m - 1, j, b, low);
    }
    SumEq(d, f, Row(v, base, low));
    RowSecondHalf(v, m, base, b, low, i => f(d + i));
  }

  lemma RowSecondHalf(v: int -> real, m: nat, base: int, b: nat, low: nat, second: int -> real)
    requires m > 0 && b < 2 && low < Pow2(m - 1)
    requires forall j {:trigger second(j)} | 0 <= j < Pow2(m - 1) ::
        second(j) == Row(v, base, Bit(b, Pow2(m - 1)) + low)(Pow2(m - 1) + j)
    ensures Sum(Pow2(m - 1), second) == Flag(1, b) * Sum(Pow2(m - 1), Row(v, base + Pow2(m - 1), low))
  {
    hide Sum, Sign, Flag, Row;
    var d := Pow2(m - 1);
    forall j | 0 <= j < d
      ensures second(j) == Flag(1, b) * Row(v, base + d, low)(j)
    {
      SignTop(m - 1, 1, j, b, low);
      Associate(Flag(1, b), Sign(j, low), v(base + d + j));
    }
    SumScale(d, Flag(1, b), Row(v, base + d, low), second);
  }

  lemma SignLow(m: nat, j: nat, b: nat, k: nat)
    requires b < 2 && j < Pow2(m) && k < Pow2(m)
    ensures Sign(j, Bit(b, Pow2(m)) + k) == Sign(j, k)
  {
    hide Sign;
    SignTop(m, 0, j, b, k);
  }

  lemma Associate(a: real, b: real, x: real)
    ensures (a * b) * x == a * (b * x)
  {
  }

  // The transform is its own inverse up to 2^n

  ghost function Product(i: nat, j: nat): (f: int -> real)
    ensures forall k {:trigger f(k)} | 0 <= k :: f(k) == Times(Sign(k, i), Sign(k, j))
  {
    hide Times, Sign;
    k => if 0 <= k then Times(Sign(k, i), Sign(k, j)) else 0.0
  }

  /** Distinct rows are orthogonal; each has square length 2^n. */
  lemma {:induction false} Orthogonal(n: nat, i: nat, j: nat)
    requires i < Pow2(n) && j < Pow2(n)
    ensures Sum(Pow2(n), Product(i, j)) == if i == j then Pow2(n) as real else 0.0
    decreases n
  {
    hide Product;
    if n == 0 {
      FirstProduct();
    } else {
      var d := Pow2(n - 1);
      var a, i' := if i < d then 0 else 1, if i < d then i else i - d;
      var b, j' := if j < d then 0 else 1, if j < d then j else j - d;
      Orthogonal(n - 1, i', j');
      ProductHalves(n, a, i', b, j');
    }
  }

  lemma FirstProduct()
    ensures Sum(1, Product(0, 0)) == 1.0
  {
    assert Sum(1, Product(0, 0)) == Sum(0, Product(0, 0)) + Product(0, 0)(0);
  }

  lemma ProductHalves(n: nat, a: nat, i: nat, b: nat, j: nat)
    requires n > 0 && a < 2 && b < 2 && i < Pow2(n - 1) && j < Pow2(n - 1)
    ensures Sum(Pow2(n), Product(Bit(a, Pow2(n - 1)) + i, Bit(b, Pow2(n - 1)) + j))
         == (if a == b then 2.0 else 0.0) * Sum(Pow2(n - 1), Product(i, j))
  {
    hide Sum, Sign, Product, Bit;
    var d := Pow2(n - 1);
    var f := Product(Bit(a, d) + i, Bit(b, d) + j);
    SumSplit(d, d, f);
    forall k | 0 <= k < d
      ensures f(k) == Product(i, j)(k)
    {
      SignLow(n - 1, k, a, i);
      SignLow(n - 1, k, b, j);
    }
    SumEq(d, f, Product(i, j));
    ProductSecondHalf(n, a, i, b, j, i => f(d + i));
  }

  lemma TopBit(d: nat)
    ensures Bit(1, d) == d
  {
  }

  lemma ProductSecondHalf(n: nat, a: nat, i: nat, b: nat, j: nat, second: int -> real)
    requires n > 0 && a < 2 && b < 2 && i < Pow2(n - 1) && j < Pow2(n - 1)
    requires forall k {:trigger second(k)} | 0 <= k < Pow2(n - 1) ::
        second(k) == Product(Bit(a, Pow2(n - 1)) + i, Bit(b, Pow2(n - 1)) + j)(Pow2(n - 1) + k)
    ensures Sum(Pow2(n - 1), second) == (if a == b then 1.0 else -1.0) * Sum(Pow2(n - 1), Product(i, j))
  {
    hide Sum, Sign, Product, Flag, Bit, Pow2;
    var d, c := Pow2(n - 1), if a == b then 1.0 else -1.0;
    var f := Product(Bit(a, d) + i, Bit(b, d) + j);
    forall k | 0 <= k < d
      ensures second(k) == c * Product(i, j)(k)
    {
      assert second(k) == f(d + k) == Times(Sign(d + k, Bit(a, d) + i), Sign(d + k, Bit(b, d) + j));
      TopBit(d);
      SignTop(n - 1, 1, k, a, i);
      SignTop(n - 1, 1, k, b, j);
      SignPair(a, b, Sign(k, i), Sign(k, j), c);
      assert Product(i, j)(k) == Times(Sign(k, i), Sign(k, j));
    }
    SumScale(d, c, Product(i, j), second);
  }

  lemma SignPair(a: nat, b: nat, s: real, t: real, c: real)
    requires a < 2 && b < 2 && c == if a == b then 1.0 else -1.0
    ensures (Flag(1, a) * s) * (Flag(1, b) * t) == c * (s * t)
  {
    if a == 0 && b == 0 {
    } else if a == 1 && b == 1 {
      assert (-1.0 * s) * (-1.0 * t) == s * t;
    } else if a == 1 {
      assert (-1.0 * s) * t == -1.0 * (s * t);
    } else {
      assert s * (-1.0 * t) == -1.0 * (s * t);
    }
  }

  /** One double-sum cell of H H. */
  ghost function Cell(v: int -> real, i: nat): (f: (int, int) -> real)
    ensures forall k, j {:trigger f(k, j)} | 0 <= k && 0 <= j :: f(k, j) == Times(Sign(k, i), Times(Sign(j, k), v(j)))
  {
    hide Times, Sign;
    (k, j) => if 0 <= k && 0 <= j then Times(Sign(k, i), Times(Sign(j, k), v(j))) else 0.0
  }

  lemma CellColumn(n: nat, v: int -> real, i: nat, j: nat)
    requires i < Pow2(n) && j < Pow2(n)
    ensures Inner(Pow2(n), Flip(Cell(v, i)))(j) == if j == i then Pow2(n) as real * v(i) else 0.0
  {
    hide Sum, Sign, Pow2;
    var column := k => Flip(Cell(v, i))(j, k);
    forall k | 0 <= k < Pow2(n)
      ensures column(k) == v(j) * Product(i, j)(k)
    {
      SignSymmetric(j, k);
      assert Flip(Cell(v, i))(j, k) == Cell(v, i)(k, j) == Sign(k, i) * (Sign(j, k) * v(j));
      Regroup(Sign(k, i), Sign(k, j), v(j));
    }
    SumScale(Pow2(n), v(j), Product(i, j), column);
    SumEq(Pow2(n), column, k => Flip(Cell(v, i))(j, k));
    Orthogonal(n, i, j);
  }

  lemma Regroup(a: real, b: real, x: real)
    ensures a * (b * x) == x * (a * b)
  {
  }

  /** H (H v) = 2^n v, with the inner transform read at any function that agrees with it. */
  lemma TransformTwice(n: nat, v: int -> real, w: int -> real, i: nat)
    requires i < Pow2(n)
    requires forall k | 0 <= k < Pow2(n) :: w(k) == Transform(n, v, k)
    ensures Transform(n, w, i) == Pow2(n) as real * v(i)
  {
    hide Sum, Sign, Pow2;
    var size, cell := Pow2(n), Cell(v, i);
    forall k | 0 <= k < size
      ensures Row(w, 0, i)(k) == Inner(size, cell)(k)
    {
      SumScale(size, Sign(k, i), Row(v, 0, k), j => cell(k, j));
    }
    SumEq(size, Row(w, 0, i), Inner(size, cell));
    SumSwap(size, size, cell);
    forall j | 0 <= j < size
      ensures Inner(size, Flip(cell))(j) == if j == i then size as real * v(i) else 0.0
    {
      CellColumn(n, v, i, j);
    }
    SumDelta(size, i, size as real * v(i), Inner(size, Flip(cell)));
  }
}
