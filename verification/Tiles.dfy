/**
 8x8 SIMD-group matrices as the 32 lanes hold them: lane owns row FragRow and columns FragCol
 and FragCol + 1. A fragment lists the two elements of every lane in lane order.
 */
module Tiles {
  import opened Sums

  /** (quad & 4) + (lane / 2) % 4, with quad = lane / 4. */
  function FragRow(lane: nat): (m: nat)
    requires lane < 32
    ensures m < 8
  {
    4 * (lane / 16 % 2) + lane / 2 % 4
  }

  /** (quad & 2) * 2 + (lane % 2) * 2. */
  function FragCol(lane: nat): (n: nat)
    requires lane < 32
    ensures n < 7
  {
    4 * (lane / 8 % 2) + 2 * (lane % 2)
  }

  function OwnerLane(m: nat, n: nat): (lane: nat)
    requires m < 8 && n < 8
    ensures lane < 32
  {
    16 * (m / 4) + 8 * (n / 4) + 2 * (m % 4) + n / 2 % 2
  }

  /** Lane ownership of the 64 cells is a bijection. */
  lemma OwnershipIsBijective(lane: nat, i: nat, m: nat, n: nat)
    requires lane < 32 && i < 2 && m < 8 && n < 8
    ensures FragRow(lane) == m && FragCol(lane) + i == n <==> lane == OwnerLane(m, n) && i == n % 2
  {
    OwnerBack(m, n);
    if FragRow(lane) == m && FragCol(lane) + i == n {
      OwnerForth(lane, i);
    }
  }

  /** The bits of a lane number make it up. */
  lemma LaneSum(lane: nat)
    requires lane < 32
    ensures lane / 16 < 2 && lane / 16 % 2 == lane / 16
    ensures lane == 16 * (lane / 16) + 8 * (lane / 8 % 2) + 2 * (lane / 2 % 4) + lane % 2
  {
    var h, e, q := lane / 2, lane / 8, lane / 16;
    assert lane == 2 * h + lane % 2;
    assert h == 4 * e + h % 4;
    assert e == 2 * q + e % 2;
  }

  lemma OwnerOf(a: nat, b: nat, c: nat, d: nat, i: nat)
    requires a < 2 && b < 2 && c < 4 && d < 2 && i < 2
    ensures OwnerLane(4 * a + c, 4 * b + 2 * d + i) == 16 * a + 8 * b + 2 * c + d
  {
    RowDigits(a, c);
    ColDigits(b, d, i);
  }

  lemma OwnerForth(lane: nat, i: nat)
    requires lane < 32 && i < 2
    ensures OwnerLane(FragRow(lane), FragCol(lane) + i) == lane && (FragCol(lane) + i) % 2 == i
  {
    var a, b, c, d := lane / 16, lane / 8 % 2, lane / 2 % 4, lane % 2;
    LaneSum(lane);
    RowDigits(a, c);
    ColDigits(b, d, i);
    OwnerOf(a, b, c, d, i);
  }

  lemma RowDigits(a: nat, c: nat)
    requires a < 2 && c < 4
    ensures (4 * a + c) / 4 == a && (4 * a + c) % 4 == c
  {
  }

  lemma ColDigits(b: nat, d: nat, i: nat)
    requires b < 2 && d < 2 && i < 2
    ensures (4 * b + 2 * d + i) / 4 == b && (4 * b + 2 * d + i) / 2 % 2 == d && (4 * b + 2 * d + i) % 2 == i
  {
  }

  lemma LaneDigits(a: nat, b: nat, c: nat, d: nat)
    requires a < 2 && b < 2 && c < 4 && d < 2
    ensures var lane := 16 * a + 8 * b + 2 * c + d;
      lane / 16 % 2 == a && lane / 8 % 2 == b && lane / 2 % 4 == c && lane % 2 == d
  {
  }

  lemma NibbleDigits(n: nat)
    requires n < 8
    ensures n == 4 * (n / 4) + n % 4 && n == 4 * (n / 4) + 2 * (n / 2 % 2) + n % 2
  {
  }

  lemma OwnerBack(m: nat, n: nat)
    requires m < 8 && n < 8
    ensures FragRow(OwnerLane(m, n)) == m && FragCol(OwnerLane(m, n)) + n % 2 == n
  {
    LaneDigits(m / 4, n / 4, m % 4, n / 2 % 2);
    NibbleDigits(m);
    NibbleDigits(n);
  }

  type Fragment = f: seq<real> | |f| == 64 witness seq(64, _ => 0.0)

  function Cell(f: Fragment, m: nat, n: nat): real
    requires m < 8 && n < 8
  {
    f[2 * OwnerLane(m, n) + n % 2]
  }

  /** The fragment whose lanes compute g of their row and column. */
  function Gather(g: (nat, nat) -> real): (f: Fragment) {
    seq(64, idx requires 0 <= idx < 64 => g(FragRow(idx / 2), FragCol(idx / 2) + idx % 2))
  }

  lemma GatherCell(g: (nat, nat) -> real, m: nat, n: nat)
    requires m < 8 && n < 8
    ensures Cell(Gather(g), m, n) == g(m, n)
  {
    hide OwnerLane, FragRow, FragCol;
    OwnerBack(m, n);
    var idx := 2 * OwnerLane(m, n) + n % 2;
    assert idx / 2 == OwnerLane(m, n) && idx % 2 == n % 2;
  }

  /** The eight products behind one cell of a matrix product. */
  function Products(a: Fragment, b: Fragment, m: nat, n: nat): (f: int -> real)
    requires m < 8 && n < 8
  {
    k => if 0 <= k < 8 then Cell(a, m, k) * Cell(b, k, n) else 0.0
  }

  /** simdgroup_multiply_accumulate: a * b + c. */
  function MultiplyAccumulate(a: Fragment, b: Fragment, c: Fragment): (r: Fragment) {
    Gather((m: nat, n: nat) => if m < 8 && n < 8 then Cell(c, m, n) + Sum(8, Products(a, b, m, n)) else 0.0)
  }

  lemma MultiplyAccumulateCell(a: Fragment, b: Fragment, c: Fragment, m: nat, n: nat)
    requires m < 8 && n < 8
    ensures Cell(MultiplyAccumulate(a, b, c), m, n) == Cell(c, m, n) + Sum(8, Products(a, b, m, n))
  {
    hide Cell, Gather, Products, Sum;
    GatherCell((m: nat, n: nat) => if m < 8 && n < 8 then Cell(c, m, n) + Sum(8, Products(a, b, m, n)) else 0.0, m, n);
  }

  const ZERO_FRAGMENT: Fragment := seq(64, _ => 0.0)
}
