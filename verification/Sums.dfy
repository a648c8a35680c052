/**
 Finite sums of reals. Every kernel of the projection, the convolution layout and the
 rank statistic is compared with its reference definition by rearranging such sums.
 */
module Sums {

  /** f(0) + f(1) + ... + f(n - 1) */
  function Sum(n: nat, f: int -> real): real
    decreases n
  {
    if n == 0 then 0.0 else Sum(n - 1, f) + f(n - 1)
  }

  /** A product under a name, for sums whose terms need no multiplying out. */
  function Times(a: real, b: real): real { a * b }

  /** The entries of a list, as terms. */
  ghost function Entries(s: seq<real>): (f: int -> real)
    ensures forall i {:trigger f(i)} | 0 <= i < |s| :: f(i) == s[i]
  {
    i => if 0 <= i < |s| then s[i] else 0.0
  }

  lemma SumNone(f: int -> real)
    ensures Sum(0, f) == 0.0
  {
  }

  lemma SumNext(n: nat, f: int -> real)
    ensures Sum(n + 1, f) == Sum(n, f) + f(n)
  {
  }

  lemma {:induction false} SumEq(n: nat, f: int -> real, g: int -> real)
    requires forall i | 0 <= i < n :: f(i) == g(i)
    ensures Sum(n, f) == Sum(n, g)
  {
    if n > 0 {
      SumEq(n - 1, f, g);
    }
  }

  lemma {:induction false} SumZero(n: nat, f: int -> real)
    requires forall i | 0 <= i < n :: f(i) == 0.0
    ensures Sum(n, f) == 0.0
  {
    if n > 0 {
      SumZero(n - 1, f);
    }
  }

  lemma {:induction false} SumAdd(n: nat, f: int -> real, g: int -> real, h: int -> real)
    requires forall i | 0 <= i < n :: h(i) == f(i) + g(i)
    ensures Sum(n, h) == Sum(n, f) + Sum(n, g)
  {
    if n > 0 {
      SumAdd(n - 1, f, g, h);
    }
  }

  lemma {:induction false} SumScale(n: nat, c: real, f: int -> real, h: int -> real)
    requires forall i | 0 <= i < n :: h(i) == c * f(i)
    ensures Sum(n, h) == c * Sum(n, f)
  {
    if n > 0 {
      SumScale(n - 1, c, f, h);
      assert c * Sum(n, f) == c * Sum(n - 1, f) + c * f(n - 1);
    }
  }

  lemma {:induction false} SumNonNegative(n: nat, f: int -> real)
    requires forall i | 0 <= i < n :: 0.0 <= f(i)
    ensures 0.0 <= Sum(n, f)
  {
    if n > 0 {
      SumNonNegative(n - 1, f);
    }
  }

  /** A sum over n + m indices is the sum of its first n and its last m terms. */
  lemma {:induction false} SumSplit(n: nat, m: nat, f: int -> real)
    ensures Sum(n + m, f) == Sum(n, f) + Sum(m, i => f(n + i))
  {
    if m > 0 {
      SumSplit(n, m - 1, f);
      SumEq(m - 1, i => f(n + i), i => f(n + i));
    }
  }

  /** Exactly one term of a sum differs from zero. */
  lemma {:induction false} SumDelta(n: nat, k: int, c: real, f: int -> real)
    requires forall i | 0 <= i < n :: f(i) == if i == k then c else 0.0
    ensures Sum(n, f) == if 0 <= k < n then c else 0.0
  {
    if n > 0 {
      SumDelta(n - 1, k, c, f);
    }
  }

  /** The inner sum of a double sum, named so that it can be passed on. */
  ghost function Inner(m: nat, f: (int, int) -> real): (g: int -> real)
    ensures forall i {:trigger g(i)} :: g(i) == Sum(m, j => f(i, j))
  {
    i => Sum(m, j => f(i, j))
  }

  ghost function Flip(f: (int, int) -> real): (g: (int, int) -> real)
    ensures forall i, j {:trigger g(i, j)} :: g(i, j) == f(j, i)
  {
    (i, j) => f(j, i)
  }

  /** The two orders of summing a rectangle agree. */
  lemma {:induction false} SumSwap(n: nat, m: nat, f: (int, int) -> real)
    ensures Sum(n, Inner(m, f)) == Sum(m, Inner(n, Flip(f)))
  {
    if n == 0 {
      SumZero(m, Inner(n, Flip(f)));
    } else {
      SumSwap(n - 1, m, f);
      var last := j => f(n - 1, j);
      forall j | 0 <= j < m
        ensures Inner(n, Flip(f))(j) == Inner(n - 1, Flip(f))(j) + last(j)
      {
        SumEq(n - 1, i => Flip(f)(j, i), i => Flip(f)(j, i));
      }
      SumAdd(m, Inner(n - 1, Flip(f)), last, Inner(n, Flip(f)));
      SumEq(m, last, j => f(n - 1, j));
    }
  }

  /** A sum over a * b indices is a sum of a consecutive runs of b terms. */
  lemma {:induction false} SumBlocks(a: nat, b: nat, f: int -> real, g: int -> real)
    requires forall i | 0 <= i < a :: g(i) == Sum(b, j => f(i * b + j))
    ensures Sum(a * b, f) == Sum(a, g)
  {
    hide Sum;
    if a == 0 {
      SumNone(f);
      SumNone(g);
    } else {
      SumBlocks(a - 1, b, f, g);
      SumNextBlock(a - 1, b, f, g(a - 1));
      SumNext(a - 1, g);
    }
  }

  lemma SumNextBlock(a: nat, b: nat, f: int -> real, block: real)
    requires block == Sum(b, j => f(a * b + j))
    ensures Sum((a + 1) * b, f) == Sum(a * b, f) + block
  {
    hide Sum;
    assert (a + 1) * b == a * b + b;
    SumSplit(a * b, b, f);
    SumEq(b, j => f(a * b + j), j => f(a * b + j));
  }

  /** Only the indices congruent to r modulo s. */
  ghost function Residue(s: nat, r: int, f: int -> real): (g: int -> real)
    requires s > 0
    ensures forall i {:trigger g(i)} :: g(i) == if i % s == r then f(i) else 0.0
  {
    i => if i % s == r then f(i) else 0.0
  }

  /** Splitting a sum by an owner of each index loses and repeats nothing. */
  lemma {:induction false} SumByOwner(n: nat, a: nat, owner: int -> int, t: int -> real, g: int -> real)
    requires forall e | 0 <= e < n :: 0 <= owner(e) < a
    requires forall p | 0 <= p < a :: g(p) == Sum(n, e => if owner(e) == p then t(e) else 0.0)
    ensures Sum(a, g) == Sum(n, t)
  {
    var cell := (p: int, e: int) => if owner(e) == p then t(e) else 0.0;
    forall p | 0 <= p < a
      ensures g(p) == Inner(n, cell)(p)
    {
      SumEq(n, e => if owner(e) == p then t(e) else 0.0, e => cell(p, e));
    }
    SumEq(a, g, Inner(n, cell));
    SumSwap(a, n, cell);
    forall e | 0 <= e < n
      ensures Inner(a, Flip(cell))(e) == t(e)
    {
      SumDelta(a, owner(e), t(e), p => Flip(cell)(e, p));
    }
    SumEq(n, Inner(a, Flip(cell)), t);
  }

  lemma {:induction false} SumResidues(n: nat, s: nat, f: int -> real, g: int -> real)
    requires s > 0
    requires forall r | 0 <= r < s :: g(r) == Sum(n, Residue(s, r, f))
    ensures Sum(s, g) == Sum(n, f)
  {
    forall r | 0 <= r < s
      ensures g(r) == Sum(n, e => if (i => i % s)(e) == r then f(e) else 0.0)
    {
      SumEq(n, Residue(s, r, f), e => if (i => i % s)(e) == r then f(e) else 0.0);
    }
    SumByOwner(n, s, i => i % s, f, g);
  }

  /** Within one residue class, a columns' sums add up to the sum of the totals. */
  lemma {:induction false} SumResidueColumns(n: nat, s: nat, r: int, a: nat, cell: (int, int) -> real,
                                             total: int -> real, g: int -> real)
    requires s > 0
    requires forall p | 0 <= p < a :: g(p) == Sum(n, Residue(s, r, k => cell(p, k)))
    requires forall k | 0 <= k < n :: total(k) == Sum(a, p => cell(p, k))
    ensures Sum(a, g) == Sum(n, Residue(s, r, total))
  {
    var masked := (p: int, k: int) => if k % s == r then cell(p, k) else 0.0;
    forall p | 0 <= p < a
      ensures g(p) == Inner(n, masked)(p)
    {
      SumEq(n, Residue(s, r, k => cell(p, k)), k => masked(p, k));
    }
    SumEq(a, g, Inner(n, masked));
    SumSwap(a, n, masked);
    forall k | 0 <= k < n
      ensures Inner(a, Flip(masked))(k) == Residue(s, r, total)(k)
    {
      if k % s == r {
        SumEq(a, p => Flip(masked)(k, p), p => cell(p, k));
      } else {
        SumZero(a, p => Flip(masked)(k, p));
      }
    }
    SumEq(n, Inner(a, Flip(masked)), Residue(s, r, total));
  }

  /** The slots of one owner list exactly the indices it owns. */
  lemma {:induction false} SumOwned(n: nat, b: nat, p: int, element: int -> int, owner: int -> int, slot: int -> int,
                                    t: int -> real)
    requires forall s | 0 <= s < b :: 0 <= element(s) < n && owner(element(s)) == p && slot(element(s)) == s
    requires forall e | 0 <= e < n && owner(e) == p :: 0 <= slot(e) < b && element(slot(e)) == e
    ensures Sum(b, s => t(element(s))) == Sum(n, e => if owner(e) == p then t(e) else 0.0)
  {
    hide Sum;
    var cell := (s: int, e: int) => if element(s) == e then t(e) else 0.0;
    forall s | 0 <= s < b
      ensures t(element(s)) == Inner(n, cell)(s)
    {
      SumDelta(n, element(s), t(element(s)), e => cell(s, e));
    }
    SumEq(b, s => t(element(s)), Inner(n, cell));
    SumSwap(b, n, cell);
    forall e | 0 <= e < n
      ensures Inner(b, Flip(cell))(e) == if owner(e) == p then t(e) else 0.0
    {
      SumDelta(b, if owner(e) == p then slot(e) else -1, t(e), s => Flip(cell)(e, s));
    }
    SumEq(n, Inner(b, Flip(cell)), e => if owner(e) == p then t(e) else 0.0);
  }

  /** a owners with b slots each, between them owning each of n indices exactly once. */
  lemma {:induction false} SumRectangle(n: nat, a: nat, b: nat, element: (int, int) -> int, owner: int -> int,
                                        slot: int -> int,
                                        t: int -> real, g: int -> real)
    requires forall p, s | 0 <= p < a && 0 <= s < b ::
        0 <= element(p, s) < n && owner(element(p, s)) == p && slot(element(p, s)) == s
    requires forall e | 0 <= e < n :: 0 <= owner(e) < a && 0 <= slot(e) < b && element(owner(e), slot(e)) == e
    requires forall p | 0 <= p < a :: g(p) == Sum(b, s => t(element(p, s)))
    ensures Sum(a, g) == Sum(n, t)
  {
    hide Sum;
    forall p | 0 <= p < a
      ensures g(p) == Sum(n, e => if owner(e) == p then t(e) else 0.0)
    {
      SumOwned(n, b, p, s => element(p, s), owner, slot, t);
      SumEq(b, s => t(element(p, s)), s => t((r => element(p, r))(s)));
    }
    SumByOwner(n, a, owner, t, g);
  }

  /** No index strictly between two neighbours of one residue class contributes. */
  lemma {:induction false} ResidueGap(s: nat, r: int, f: int -> real, from: nat, to: nat)
    requires s > 0 && from % s == r
    requires from < to <= from + s
    ensures Sum(to, Residue(s, r, f)) == Sum(from, Residue(s, r, f)) + f(from)
  {
    if to > from + 1 {
      ResidueGap(s, r, f, from, to - 1);
      var last := to - 1;
      ResiduesApart(s, from, last);
    }
  }

  /** Below its first member a residue class sums to nothing. */
  lemma ResidueStart(s: nat, r: nat, f: int -> real, n: nat)
    requires n <= r < s
    ensures Sum(n, Residue(s, r, f)) == 0.0
  {
    SumZero(n, Residue(s, r, f));
  }

  lemma ResiduesApart(s: nat, a: nat, b: nat)
    requires s > 0 && a < b < a + s
    ensures b % s != a % s
  {
    var q := b / s - a / s;
    assert b - a == q * s + (b % s - a % s);
    assert q <= 0 ==> q * s <= 0;
    assert q >= 1 ==> q * s >= s;
  }
}
