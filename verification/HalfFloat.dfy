/**
 Binary16 arithmetic on exact reals: one rounding to nearest, ties to even
 (section 4.3.1 of IEEE 754-2019), over the binary16 grid. Overflow to infinity is outside
 the domain of every function here.
 */
module HalfFloat {

  function Pow2(k: nat): (r: nat)
    ensures r > 0
  {
    if k == 0 then 1 else 2 * Pow2(k - 1)
  }

  /**
   Spacing of binary16 at magnitude a: binade k has the top 2^(k - 13) and the spacing
   2^(k - 24); k = 0 also holds the subnormals.
   */
  function UlpFrom(a: real, k: nat): (ulp: real)
    requires k <= 29
    ensures ulp > 0.0
    decreases 29 - k
  {
    if k == 29 || a * 8192.0 < Pow2(k) as real then Pow2(k) as real / 16777216.0
    else UlpFrom(a, k + 1)
  }

  function Abs(x: real): real {
    if x < 0.0 then -x else x
  }

  /** The integer nearest to x, the even one of two equally near. */
  function RoundEven(x: real): (r: int)
    ensures x - 0.5 <= r as real <= x + 0.5
  {
    var f := x.Floor;
    var rest := x - f as real;
    if rest < 0.5 then f
    else if rest > 0.5 then f + 1
    else if f % 2 == 0 then f
    else f + 1
  }

  /** The binary16 number nearest to x. */
  function Round(x: real): real {
    var ulp := UlpFrom(Abs(x), 0);
    RoundEven(x / ulp) as real * ulp
  }

  function Fma(a: real, b: real, c: real): real { Round(a * b + c) }

  function Sub(a: real, b: real): real { Round(a - b) }

  lemma {:induction false} Pow2Increases(j: nat, k: nat)
    requires j <= k
    ensures Pow2(j) <= Pow2(k)
  {
    if j < k {
      Pow2Increases(j, k - 1);
    }
  }

  lemma {:induction false} UlpInBinade(a: real, j: nat, k: nat)
    requires 0 < k <= 29 && j <= k
    requires Pow2(k - 1) as real <= a * 8192.0 < Pow2(k) as real
    ensures UlpFrom(a, j) == Pow2(k) as real / 16777216.0
    decreases k - j
  {
    if j < k {
      Pow2Increases(j, k - 1);
      UlpInBinade(a, j + 1, k);
    }
  }

  lemma Pow2At24()
    ensures Pow2(23) == 8388608 && Pow2(24) == 16777216
  {
    assert Pow2(10) == 1024;
    assert Pow2(20) == 1048576;
  }

  /** Between 1024 and 2048 the binary16 numbers are exactly the integers. */
  lemma RoundOnIntegerBinade(x: real)
    requires 1024.0 <= x < 2048.0
    ensures Round(x) == RoundEven(x) as real
  {
    Pow2At24();
    UlpInBinade(x, 0, 24);
    assert x / 1.0 == x;
  }

  lemma {:induction false} Pow2Adds(j: nat, k: nat)
    ensures Pow2(j + k) == Pow2(j) * Pow2(k)
  {
    if j > 0 {
      Pow2Adds(j - 1, k);
      assert Pow2(j + k) == 2 * Pow2(j - 1 + k);
    }
  }

  /** Every positive integer below 2048 lies in one of the binades up to the integer one. */
  lemma {:induction false} BinadeOf(n: nat, top: nat) returns (k: nat)
    requires 0 < n && 14 <= top <= 24 && n * 8192 < Pow2(top)
    ensures 0 < k <= top && Pow2(k - 1) <= n * 8192 < Pow2(k)
  {
    assert Pow2(13) == 8192;
    if Pow2(top - 1) <= n * 8192 {
      k := top;
    } else {
      k := BinadeOf(n, top - 1);
    }
  }

  lemma RoundEvenExact(n: int)
    ensures RoundEven(n as real) == n
  {
    assert (n as real).Floor == n;
  }

  lemma RoundMultiple(x: real, m: int, ulp: real)
    requires ulp == UlpFrom(Abs(x), 0)
    requires x / ulp == m as real
    ensures Round(x) == m as real * ulp
  {
    hide UlpFrom, RoundEven;
    RoundEvenExact(m);
  }

  /** Integers of magnitude below 2048 are binary16 numbers: rounding leaves them alone. */
  lemma RoundKeepsInteger(n: int)
    requires -2048 < n < 2048
    ensures Round(n as real) == n as real
  {
    if n == 0 {
      RoundZero(UlpFrom(0.0, 0));
    } else {
      var p, c, ulp := IntegerUlp(if n < 0 then -n else n);
      Rescale(n, p, c, ulp);
      RoundMultiple(n as real, n * c, ulp);
    }
  }

  lemma RoundZero(ulp: real)
    requires ulp == UlpFrom(0.0, 0)
    ensures Round(0.0) == 0.0
  {
    assert 0.0 / ulp == 0.0;
    RoundMultiple(0.0, 0, ulp);
  }

  lemma IntegerUlp(m: nat) returns (p: nat, c: nat, ulp: real)
    requires 0 < m < 2048
    ensures p > 0 && c > 0 && p * c == 16777216
    ensures ulp == p as real / 16777216.0 == UlpFrom(m as real, 0)
  {
    Pow2At24();
    var k := BinadeOf(m, 24);
    assert Pow2(k - 1) as real <= m as real * 8192.0 < Pow2(k) as real;
    UlpInBinade(m as real, 0, k);
    Pow2Adds(k, 24 - k);
    p, c, ulp := Pow2(k), Pow2(24 - k), Pow2(k) as real / 16777216.0;
  }

  /** n divided by p / (p * c) is the integer n * c. */
  lemma Rescale(n: int, p: nat, c: nat, ulp: real)
    requires p > 0 && c > 0 && p * c == 16777216
    requires ulp == p as real / 16777216.0
    ensures ulp > 0.0
    ensures n as real / ulp == (n * c) as real
    ensures (n * c) as real * ulp == n as real
  {
    assert p as real * c as real == 16777216.0;
    assert ulp * c as real == 1.0;
    assert (n * c) as real == n as real * c as real;
    assert (n * c) as real * ulp == n as real * (ulp * c as real);
  }
}
