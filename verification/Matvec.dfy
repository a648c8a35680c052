/**
 bonsai_ptq1_matvec_reuse_impl: one SIMD group of 32 lanes, four lanes to a packed block and
 eight blocks in flight. Each byte's five digits are telescoped: prefixes are dotted with
 y[n] - 3 y[n + 1] and the plain input sum is subtracted at the end.
 */
module Matvec {
  import opened Common
  import opened Sums
  import opened Ptq1
  import opened Projection

  // Lane ownership

  /** The element behind digit n of the lane's byte i (four wide bytes, then two narrow ones). */
  function ByteElement(part: nat, i: nat, n: nat): (e: nat)
    requires part < 4 && i < 6 && n < 5
    ensures e < 128
  {
    if i < 4 then 16 * n + 4 * part + i else 80 + 8 * n + 2 * part + (i - 4)
  }

  /** The code byte behind the lane's byte i. */
  function LaneByte(part: nat, i: nat): (b: nat)
    requires part < 4 && i < 6
    ensures b < 24
  {
    if i < 4 then 4 * part + i else 16 + 2 * part + (i - 4)
  }

  lemma ByteElementLayout(part: nat, i: nat, n: nat)
    requires part < 4 && i < 6 && n < 5
    ensures ByteElement(part, i, n) == ElementAt(LaneByte(part, i), n)
  {
  }

  /** The 32 elements of lane part: five per byte, then its two qh trits. */
  function LaneElement(part: nat, s: nat): (e: nat)
    requires part < 4 && s < 32
    ensures e < 128
  {
    if s < 30 then ByteElement(part, s / 5, s % 5) else 120 + 2 * part + (s - 30)
  }

  function OwnerPart(e: nat): (part: nat)
    requires e < 128
    ensures part < 4
  {
    if e < 80 then e % 16 / 4 else if e < 120 then e % 8 / 2 else e % 8 / 2
  }

  function OwnerSlot(e: nat): (s: nat)
    requires e < 128
    ensures s < 32
  {
    if e < 80 then 5 * (e % 4) + e / 16
    else if e < 120 then 5 * (4 + e % 2) + (e - 80) / 8
    else 30 + e % 2
  }

  /** Every one of the 128 elements belongs to exactly one lane, at exactly one of its slots. */
  lemma OwnershipIsBijective(part: nat, s: nat, e: nat)
    requires part < 4 && s < 32 && e < 128
    ensures LaneElement(part, s) == e <==> part == OwnerPart(e) && s == OwnerSlot(e)
  {
    if LaneElement(part, s) == e {
      OwnedForth(part, s);
    }
    OwnedBack(e);
  }

  lemma OwnedForth(part: nat, s: nat)
    requires part < 4 && s < 32
    ensures OwnerPart(LaneElement(part, s)) == part && OwnerSlot(LaneElement(part, s)) == s
  {
    if s < 30 {
      OwnedDigit(part, s / 5, s % 5);
    }
  }

  lemma OwnedDigit(part: nat, i: nat, n: nat)
    requires part < 4 && i < 6 && n < 5
    ensures OwnerPart(ByteElement(part, i, n)) == part && OwnerSlot(ByteElement(part, i, n)) == 5 * i + n
  {
    if i < 4 {
      Digits(16, 4 * part + i, n);
      Digits(4, i, part);
      Digits(4, i, 4 * n + part);
    } else {
      Digits(8, 2 * part + (i - 4), n);
      Digits(2, i - 4, part);
      Digits(8, 2 * part + (i - 4), 10 + n);
      Digits(2, i - 4, 40 + 4 * n + part);
    }
  }

  lemma OwnedBack(e: nat)
    requires e < 128
    ensures LaneElement(OwnerPart(e), OwnerSlot(e)) == e
  {
    if e < 80 {
      OwnedBackDigit(e, e % 16 / 4, e % 16 % 4, e / 16);
    } else if e < 120 {
      OwnedBackDigit(e, (e - 80) % 8 / 2, 4 + (e - 80) % 8 % 2, (e - 80) / 8);
    }
  }

  lemma OwnedBackDigit(e: nat, part: nat, i: nat, n: nat)
    requires e < 120 && part < 4 && i < 6 && n < 5 && e == ByteElement(part, i, n)
    ensures LaneElement(OwnerPart(e), OwnerSlot(e)) == e
  {
    hide OwnerPart, OwnerSlot, ByteElement;
    OwnedDigit(part, i, n);
    SlotDigits(i, n);
  }

  lemma SlotDigits(i: nat, n: nat)
    requires n < 5
    ensures (5 * i + n) / 5 == i && (5 * i + n) % 5 == n
  {
  }

  // Telescoping

  /** The coefficient of prefix n + 1. */
  function Coefficient(y: seq<real>, n: nat): real
    requires |y| == 5 && n < 5
  {
    if n < 4 then y[n] - 3.0 * y[n + 1] else y[4]
  }

  /** Prefixes p[1..] against the coefficients of y. */
  ghost function PrefixSum(p: seq<real>, y: seq<real>, n: nat): real
    requires |p| == 6 && |y| == 5 && n <= 5
  {
    if n == 0 then 0.0 else PrefixSum(p, y, n - 1) + p[n] * Coefficient(y, n - 1)
  }

  /** Digits p[n + 1] - 3 p[n] against y. */
  ghost function DigitSum(p: seq<real>, y: seq<real>, n: nat): real
    requires |p| == 6 && |y| == 5 && n <= 5
  {
    if n == 0 then 0.0 else DigitSum(p, y, n - 1) + (p[n] - 3.0 * p[n - 1]) * y[n - 1]
  }

  /** After n < 5 prefixes the telescoped sum lags the digits by one pending term. */
  lemma {:induction false} Telescope(p: seq<real>, y: seq<real>, n: nat)
    requires |p| == 6 && |y| == 5 && n <= 5 && p[0] == 0.0
    ensures PrefixSum(p, y, n) == DigitSum(p, y, n) - (if n == 5 then 0.0 else 3.0 * p[n] * y[n])
  {
    if n > 0 {
      Telescope(p, y, n - 1);
      var a, c, v := p[n], p[n - 1], y[n - 1];
      assert (a - 3.0 * c) * v == a * v - 3.0 * c * v;
      if n < 5 {
        assert a * (v - 3.0 * y[n]) == a * v - 3.0 * a * y[n];
      }
    }
  }

  /** The prefixes of one byte, the empty one first. */
  ghost function Prefixes(q: Byte): (p: seq<real>)
    ensures |p| == 6 && p[0] == 0.0
    ensures forall n | 0 <= n <= 5 :: p[n] == Prefix(q, n) as real
  {
    seq(6, n requires 0 <= n => Prefix(q, n) as real)
  }

  // One lane, one block

  /** The five activations of byte i. */
  ghost function ByteInputs(x: seq<real>, part: nat, i: nat): (y: seq<real>)
    requires |x| == 128 && part < 4 && i < 6
    ensures |y| == 5
    ensures forall n | 0 <= n < 5 :: y[n] == x[ByteElement(part, i, n)]
  {
    seq(5, n requires 0 <= n < 5 => x[ByteElement(part, i, n)])
  }

  /** The activations of the lane's slots. */
  ghost function LaneInput(x: seq<real>, part: nat): (f: int -> real)
    requires |x| == 128 && part < 4
    ensures forall s {:trigger f(s)} | 0 <= s < 32 :: f(s) == x[LaneElement(part, s)]
  {
    s => if 0 <= s < 32 then x[LaneElement(part, s)] else 0.0
  }

  /** Terms of the reference dot product at the lane's slots. */
  ghost function LaneTerm(t: int -> real, part: nat): (f: int -> real)
    requires part < 4
    ensures forall s {:trigger f(s)} | 0 <= s < 32 :: f(s) == t(LaneElement(part, s))
  {
    s => if 0 <= s < 32 then t(LaneElement(part, s)) else 0.0
  }

  ghost function Plus(f: int -> real, g: int -> real): (h: int -> real)
    ensures forall s {:trigger h(s)} :: h(s) == f(s) + g(s)
  {
    s => f(s) + g(s)
  }

  lemma {:induction false} SumIsDigitSum(f: int -> real, a: nat, p: seq<real>, y: seq<real>, n: nat)
    requires |p| == 6 && |y| == 5 && n <= 5
    requires forall m | 0 <= m < n :: f(a + m) == (p[m + 1] - 3.0 * p[m]) * y[m]
    ensures Sum(a + n, f) == Sum(a, f) + DigitSum(p, y, n)
  {
    if n > 0 {
      SumIsDigitSum(f, a, p, y, n - 1);
    }
  }

  /** One slot's reference term plus its activation is the raw digit times the activation. */
  lemma SlotValue(codes: seq<Byte>, x: seq<real>, part: nat, i: nat, n: nat)
    requires |codes| == 26 && |x| == 128 && part < 4 && i < 6 && n < 5
    ensures Plus(LaneTerm(Term(codes, x), part), LaneInput(x, part))(5 * i + n)
         == (Prefix(codes[LaneByte(part, i)], n + 1) as real - 3.0 * Prefix(codes[LaneByte(part, i)], n) as real)
            * x[ByteElement(part, i, n)]
  {
    hide Digit, Prefix;
    SlotDigits(i, n);
    ByteElementLayout(part, i, n);
    var q, v := codes[LaneByte(part, i)], x[ByteElement(part, i, n)];
    DigitFromPrefixes(q, n);
    OneMore(Digit(q, n), v);
  }

  lemma OneMore(t: int, v: real)
    ensures (t + 1) as real * v == t as real * v + v
  {
  }

  /** Reference terms and activations of the lane's slots together. */
  ghost function LaneBoth(codes: seq<Byte>, x: seq<real>, part: nat): (f: int -> real)
    requires |codes| == 26 && |x| == 128 && part < 4
  {
    Plus(LaneTerm(Term(codes, x), part), LaneInput(x, part))
  }

  /** What five digits of one byte add to the lane's total. */
  lemma ByteContribution(codes: seq<Byte>, x: seq<real>, part: nat, i: nat)
    requires |codes| == 26 && |x| == 128 && part < 4 && i < 6
    ensures Sum(5 * i + 5, LaneBoth(codes, x, part))
         == Sum(5 * i, LaneBoth(codes, x, part))
            + PrefixSum(Prefixes(codes[LaneByte(part, i)]), ByteInputs(x, part, i), 5)
  {
    hide Digit, Prefix, Trit, ByteElement;
    var p, y := Prefixes(codes[LaneByte(part, i)]), ByteInputs(x, part, i);
    forall n | 0 <= n < 5
      ensures LaneBoth(codes, x, part)(5 * i + n) == (p[n + 1] - 3.0 * p[n]) * y[n]
    {
      SlotValue(codes, x, part, i, n);
    }
    SumIsDigitSum(LaneBoth(codes, x, part), 5 * i, p, y, 5);
    Telescope(p, y, 5);
  }

  /** Loads of one block: digit coefficients per byte, the qh inputs and the lane's input sum. */
  method LoadCoefficients(x: seq<real>, part: nat)
    returns (wide: seq<seq<real>>, narrow: seq<seq<real>>, high: seq<real>, inputSum: real)
    requires |x| == 128 && part < 4
    ensures Loaded(x, part, wide, narrow, high)
    ensures inputSum == Sum(32, LaneInput(x, part))
  {
    var v, u, wideSum, narrowSum := LoadActivations(x, part);
    high := x[120 + 2 * part..122 + 2 * part];
    inputSum := (wideSum[0] + wideSum[1]) + (wideSum[2] + wideSum[3])
    + (narrowSum[0] + narrowSum[1]) + (high[0] + high[1]);
    InputSumIsWhole(x, part);
    wide, narrow := Differences(v, u);
  }

  lemma LoadedVectors(x: seq<real>, part: nat, n: nat, a: seq<real>, c: seq<real>)
    requires |x| == 128 && part < 4 && n < 5
    requires a == x[16 * n + 4 * part..16 * n + 4 * part + 4]
    requires c == x[80 + 8 * n + 2 * part..82 + 8 * n + 2 * part]
    ensures forall i | 0 <= i < 4 :: a[i] == ByteInputs(x, part, i)[n]
    ensures forall i | 0 <= i < 2 :: c[i] == ByteInputs(x, part, 4 + i)[n]
  {
    assert forall i | 0 <= i < 4 :: ByteElement(part, i, n) == 16 * n + 4 * part + i;
    assert forall i | 4 <= i < 6 :: ByteElement(part, i, n) == 80 + 8 * n + 2 * part + (i - 4);
  }

  /** The activation vectors of the five digits and their running sums. */
  method LoadActivations(x: seq<real>, part: nat)
    returns (v: seq<seq<real>>, u: seq<seq<real>>, wideSum: seq<real>, narrowSum: seq<real>)
    requires |x| == 128 && part < 4
    ensures |v| == |u| == 5 && |wideSum| == 4 && |narrowSum| == 2
    ensures forall m | 0 <= m < 5 :: |v[m]| == 4 && |u[m]| == 2
    ensures forall m, i | 0 <= m < 5 && 0 <= i < 4 :: v[m][i] == ByteInputs(x, part, i)[m]
    ensures forall m, i | 0 <= m < 5 && 0 <= i < 2 :: u[m][i] == ByteInputs(x, part, 4 + i)[m]
    ensures forall i | 0 <= i < 4 :: wideSum[i] == Prior(ByteInputs(x, part, i), 5)
    ensures forall i | 0 <= i < 2 :: narrowSum[i] == Prior(ByteInputs(x, part, 4 + i), 5)
  {
    hide ByteElement, ByteInputs;
    v, u := [], [];
    wideSum, narrowSum := [0.0, 0.0, 0.0, 0.0], [0.0, 0.0];
    for n := 0 to 5
      invariant |v| == |u| == n && |wideSum| == 4 && |narrowSum| == 2
      invariant forall m | 0 <= m < n :: |v[m]| == 4 && |u[m]| == 2
      invariant forall m, i | 0 <= m < n && 0 <= i < 4 :: v[m][i] == ByteInputs(x, part, i)[m]
      invariant forall m, i | 0 <= m < n && 0 <= i < 2 :: u[m][i] == ByteInputs(x, part, 4 + i)[m]
      invariant forall i | 0 <= i < 4 :: wideSum[i] == Prior(ByteInputs(x, part, i), n)
      invariant forall i | 0 <= i < 2 :: narrowSum[i] == Prior(ByteInputs(x, part, 4 + i), n)
    {
      var a := x[16 * n + 4 * part..16 * n + 4 * part + 4];
      var c := x[80 + 8 * n + 2 * part..82 + 8 * n + 2 * part];
      LoadedVectors(x, part, n, a, c);
      v, u := v + [a], u + [c];
      wideSum := seq(4, i requires 0 <= i < 4 => wideSum[i] + a[i]);
      narrowSum := seq(2, i requires 0 <= i < 2 => narrowSum[i] + c[i]);
    }
  }

  /** y[n] - 3 y[n + 1] componentwise; the last digit keeps its activation. */
  method Differences(v: seq<seq<real>>, u: seq<seq<real>>) returns (wide: seq<seq<real>>, narrow: seq<seq<real>>)
    requires |v| == |u| == 5
    requires forall n | 0 <= n < 5 :: |v[n]| == 4 && |u[n]| == 2
    ensures |wide| == |narrow| == 5
    ensures forall n | 0 <= n < 5 :: |wide[n]| == 4 && |narrow[n]| == 2
    ensures forall n, i | 0 <= n < 5 && 0 <= i < 4 ::
              wide[n][i] == if n < 4 then v[n][i] - 3.0 * v[n + 1][i] else v[n][i]
    ensures forall n, i | 0 <= n < 5 && 0 <= i < 2 ::
              narrow[n][i] == if n < 4 then u[n][i] - 3.0 * u[n + 1][i] else u[n][i]
  {
    wide, narrow := [], [];
    for n := 0 to 4
      invariant |wide| == |narrow| == n
      invariant forall m | 0 <= m < n :: |wide[m]| == 4 && |narrow[m]| == 2
      invariant forall m, i | 0 <= m < n && 0 <= i < 4 :: wide[m][i] == v[m][i] - 3.0 * v[m + 1][i]
      invariant forall m, i | 0 <= m < n && 0 <= i < 2 :: narrow[m][i] == u[m][i] - 3.0 * u[m + 1][i]
    {
      wide := wide + [seq(4, i requires 0 <= i < 4 => v[n][i] - 3.0 * v[n + 1][i])];
      narrow := narrow + [seq(2, i requires 0 <= i < 2 => u[n][i] - 3.0 * u[n + 1][i])];
    }
    wide, narrow := wide + [v[4]], narrow + [u[4]];
  }

  /** The registers hold the coefficients of this block's activations. */
  ghost predicate Loaded(x: seq<real>, part: nat, wide: seq<seq<real>>, narrow: seq<seq<real>>, high: seq<real>)
    requires |x| == 128 && part < 4
  {
    && |wide| == |narrow| == 5 && |high| == 2
    && (forall n | 0 <= n < 5 :: |wide[n]| == 4 && |narrow[n]| == 2)
    && (forall n, i | 0 <= n < 5 && 0 <= i < 4 :: wide[n][i] == Coefficient(ByteInputs(x, part, i), n))
    && (forall n, i | 0 <= n < 5 && 0 <= i < 2 :: narrow[n][i] == Coefficient(ByteInputs(x, part, 4 + i), n))
    && high == x[120 + 2 * part..122 + 2 * part]
  }

  ghost function Prior(y: seq<real>, n: nat): real
    requires n <= |y|
  {
    if n == 0 then 0.0 else Prior(y, n - 1) + y[n - 1]
  }

  lemma {:induction false} SumIsPrior(f: int -> real, a: nat, y: seq<real>, n: nat)
    requires n <= |y|
    requires forall m | 0 <= m < n :: f(a + m) == y[m]
    ensures Sum(a + n, f) == Sum(a, f) + Prior(y, n)
  {
    if n > 0 {
      SumIsPrior(f, a, y, n - 1);
    }
  }

  lemma ByteInputContribution(x: seq<real>, part: nat, i: nat)
    requires |x| == 128 && part < 4 && i < 6
    ensures Sum(5 * i + 5, LaneInput(x, part)) == Sum(5 * i, LaneInput(x, part)) + Prior(ByteInputs(x, part, i), 5)
  {
    forall n | 0 <= n < 5
      ensures LaneInput(x, part)(5 * i + n) == ByteInputs(x, part, i)[n]
    {
      SlotDigits(i, n);
    }
    SumIsPrior(LaneInput(x, part), 5 * i, ByteInputs(x, part, i), 5);
  }

  lemma InputSumIsWhole(x: seq<real>, part: nat)
    requires |x| == 128 && part < 4
    ensures Sum(32, LaneInput(x, part))
         == Prior(ByteInputs(x, part, 0), 5) + Prior(ByteInputs(x, part, 1), 5) + Prior(ByteInputs(x, part, 2), 5)
            + Prior(ByteInputs(x, part, 3), 5) + Prior(ByteInputs(x, part, 4), 5) + Prior(ByteInputs(x, part, 5), 5)
            + x[120 + 2 * part] + x[121 + 2 * part]
  {
    hide Sum, Prior, ByteInputs, LaneInput, LaneElement;
    ByteInputContribution(x, part, 0);
    ByteInputContribution(x, part, 1);
    ByteInputContribution(x, part, 2);
    ByteInputContribution(x, part, 3);
    ByteInputContribution(x, part, 4);
    ByteInputContribution(x, part, 5);
    var f := LaneInput(x, part);
    SumNone(f);
    SumNext(30, f);
    SumNext(31, f);
    LastInputs(x, part);
  }

  lemma LastInputs(x: seq<real>, part: nat)
    requires |x| == 128 && part < 4
    ensures LaneInput(x, part)(30) == x[120 + 2 * part] && LaneInput(x, part)(31) == x[121 + 2 * part]
  {
  }

  /** The five digit products of the lane's byte i, onto a running total. */
  method AddByte(before: real, q: Byte, i: nat, ghost part: nat, wide: seq<seq<real>>, narrow: seq<seq<real>>,
                 ghost high: seq<real>, ghost x: seq<real>)
    returns (total: real)
    requires |x| == 128 && part < 4 && i < 6
    requires Loaded(x, part, wide, narrow, high)
    ensures total == before + PrefixSum(Prefixes(q), ByteInputs(x, part, i), 5)
  {
    hide Prefix, HalfPrefix, Code;
    ghost var p, y := Prefixes(q), ByteInputs(x, part, i);
    total := before;
    for n := 0 to 5
      invariant total == before + PrefixSum(p, y, n)
    {
      HalfPrefixIsFloor(q, n + 1);
      total := total + HalfPrefix(Code(q), n + 1) * (if i < 4 then wide[n][i] else narrow[n][i - 4]);
    }
  }

  lemma HighLoaded(x: seq<real>, part: nat, wide: seq<seq<real>>, narrow: seq<seq<real>>, high: seq<real>)
    requires |x| == 128 && part < 4 && Loaded(x, part, wide, narrow, high)
    ensures high == x[120 + 2 * part..122 + 2 * part]
  {
  }

  /** One row's digits against the loaded coefficients. */
  method RowTotal(codes: seq<Byte>, part: nat, wide: seq<seq<real>>, narrow: seq<seq<real>>, high: seq<real>,
                  ghost x: seq<real>)
    returns (total: real)
    requires |codes| == 26 && |x| == 128 && part < 4
    requires Loaded(x, part, wide, narrow, high)
    ensures total == Sum(32, LaneBoth(codes, x, part))
  {
    hide Digit, Prefix, Trit, HalfPrefix, FloorTrit, LaneBoth, Sum, PrefixSum, Loaded, Prefixes, ByteInputs,
      Times;
    HighLoaded(x, part, wide, narrow, high);
    ghost var f := LaneBoth(codes, x, part);
    var bytes := codes[4 * part..4 * part + 4] + codes[16 + 2 * part..18 + 2 * part];
    total := 0.0;
    SumNone(f);
    for i := 0 to 6
      invariant total == Sum(5 * i, f)
    {
      total := AddByte(total, bytes[i], i, part, wide, narrow, high, x);
      assert bytes[i] == codes[LaneByte(part, i)];
      ByteContribution(codes, x, part, i);
    }
    for i := 0 to 2
      invariant total == Sum(30 + i, f)
    {
      var term := Times(FloorTrit(codes[24 + i], part) as real, high[i]);
      HighStep(codes, x, part, i, i + 1, high[i], term);
      total := total + term;
    }
  }

  lemma HighTerm(codes: seq<Byte>, x: seq<real>, part: nat, i: nat)
    requires |codes| == 26 && |x| == 128 && part < 4 && i < 2
    ensures LaneBoth(codes, x, part)(30 + i) == (Digit(codes[24 + i], part) + 1) as real * x[120 + 2 * part + i]
  {
    assert LaneElement(part, 30 + i) == ElementAt(24 + i, part);
    OneMore(Digit(codes[24 + i], part), x[120 + 2 * part + i]);
  }

  lemma HighStep(codes: seq<Byte>, x: seq<real>, part: nat, i: nat, next: nat, v: real, term: real)
    requires |codes| == 26 && |x| == 128 && part < 4 && i < 2 && next == i + 1 && v == x[120 + 2 * part + i]
    requires term == Times(FloorTrit(codes[24 + i], part) as real, v)
    ensures Sum(30 + next, LaneBoth(codes, x, part)) == Sum(30 + i, LaneBoth(codes, x, part)) + term
  {
    hide Sum, LaneBoth, FloorTrit, Digit;
    FloorTritIsDigit(codes[24 + i], part);
    HighTerm(codes, x, part, i);
    SumNext(30 + i, LaneBoth(codes, x, part));
  }

  // One lane, all its blocks

  /** The lane's share of block k of a row. */
  ghost function LaneBlock(row: seq<RawBlock<real>>, x: seq<real>, part: nat): (f: int -> real)
    requires ValidRow(row) && 128 * |row| == |x| && part < 4
    ensures forall k {:trigger f(k)} | 0 <= k < |row| :: f(k) == LaneShare(row[k], BlockInput(x, k), part)
  {
    k => if 0 <= k < |row| then LaneShare(row[k], BlockInput(x, k), part) else 0.0
  }

  ghost function LaneShare(b: RawBlock<real>, x: seq<real>, part: nat): real
    requires ValidBlock(b) && |x| == 128 && part < 4
  {
    b.scale * Sum(32, LaneTerm(Term(b.codes, x), part))
  }

  lemma ShareFromTotal(b: RawBlock<real>, x: seq<real>, part: nat)
    requires ValidBlock(b) && |x| == 128 && part < 4
    ensures (Sum(32, LaneBoth(b.codes, x, part)) - Sum(32, LaneInput(x, part))) * b.scale == LaneShare(b, x, part)
  {
    hide Sum, Trit;
    SumAdd(32, LaneTerm(Term(b.codes, x), part), LaneInput(x, part), LaneBoth(b.codes, x, part));
  }

  /** What the lane's register for one row holds at the end: its part of every eighth block. */
  ghost function LaneSum(row: seq<RawBlock<real>>, x: seq<real>, lane: nat): real
    requires ValidRow(row) && 128 * |row| == |x| && lane < 32
  {
    Sum(|row|, Residue(8, lane / 4, LaneBlock(row, x, lane % 4)))
  }

  ghost predicate ValidRows(rowBlocks: seq<seq<RawBlock<real>>>, blocks: nat) {
    forall r | 0 <= r < |rowBlocks| :: |rowBlocks[r]| == blocks && ValidRow(rowBlocks[r])
  }

  /** One block onto the row sums. */
  method AddBlock(rowBlocks: seq<seq<RawBlock<real>>>, blocks: nat, block: nat, input: seq<real>, part: nat,
                  before: seq<real>)
    returns (sums: seq<real>)
    requires ValidRows(rowBlocks, blocks) && 128 * blocks == |input| && block < blocks && part < 4
    requires |before| == |rowBlocks|
    ensures |sums| == |rowBlocks|
    ensures forall r | 0 <= r < |sums| ::
              sums[r] == before[r] + LaneShare(rowBlocks[r][block], BlockInput(input, block), part)
  {
    hide LaneBoth, LaneInput, LaneShare, Sum, Loaded;
    var x := BlockInput(input, block);
    var wide, narrow, high, inputSum := LoadCoefficients(x, part);
    sums := before;
    for r := 0 to |rowBlocks|
      invariant |sums| == |rowBlocks|
      invariant forall k | 0 <= k < r :: sums[k] == before[k] + LaneShare(rowBlocks[k][block], x, part)
      invariant forall k | r <= k < |sums| :: sums[k] == before[k]
    {
      var b := rowBlocks[r][block];
      var total := RowTotal(b.codes, part, wide, narrow, high, x);
      ShareFromTotal(b, x, part);
      sums := sums[r := sums[r] + (total - inputSum) * b.scale];
    }
  }

  method Lane(rowBlocks: seq<seq<RawBlock<real>>>, input: seq<real>, blocks: nat, lane: nat) returns (sums: seq<real>)
    requires ValidRows(rowBlocks, blocks) && 128 * blocks == |input| && lane < 32
    ensures |sums| == |rowBlocks|
    ensures forall r | 0 <= r < |sums| :: sums[r] == LaneSum(rowBlocks[r], input, lane)
  {
    hide LaneShare, LaneRunning, LaneSum;
    var part := lane % 4;
    sums := seq(|rowBlocks|, _ => 0.0);
    var block := lane / 4;
    LaneStart(rowBlocks, input, blocks, lane, sums);
    while block < blocks
      invariant block % 8 == lane / 4 && |sums| == |rowBlocks|
      invariant LaneRunning(rowBlocks, input, blocks, lane, block, sums)
    {
      ghost var before := sums;
      sums := AddBlock(rowBlocks, blocks, block, input, part, sums);
      LaneStep(rowBlocks, input, blocks, lane, block, before, sums);
      block := block + 8;
    }
    LaneEnd(rowBlocks, input, blocks, lane, block, sums);
  }

  /** The sums over the lane's blocks below the given one. */
  ghost predicate LaneRunning(rowBlocks: seq<seq<RawBlock<real>>>, input: seq<real>, blocks: nat, lane: nat, block: nat,
                              sums: seq<real>)
    requires ValidRows(rowBlocks, blocks) && 128 * blocks == |input| && lane < 32 && |sums| == |rowBlocks|
  {
    forall r | 0 <= r < |sums| ::
      sums[r] == Sum(Min(block, blocks), Residue(8, lane / 4, LaneBlock(rowBlocks[r], input, lane % 4)))
  }

  lemma LaneStart(rowBlocks: seq<seq<RawBlock<real>>>, input: seq<real>, blocks: nat, lane: nat, sums: seq<real>)
    requires ValidRows(rowBlocks, blocks) && 128 * blocks == |input| && lane < 32 && |sums| == |rowBlocks|
    requires forall r | 0 <= r < |sums| :: sums[r] == 0.0
    ensures LaneRunning(rowBlocks, input, blocks, lane, lane / 4, sums)
  {
    hide LaneShare, Sum;
    forall r | 0 <= r < |rowBlocks|
      ensures Sum(Min(lane / 4, blocks), Residue(8, lane / 4, LaneBlock(rowBlocks[r], input, lane % 4))) == 0.0
    {
      ResidueStart(8, lane / 4, LaneBlock(rowBlocks[r], input, lane % 4), Min(lane / 4, blocks));
    }
  }

  lemma LaneStep(rowBlocks: seq<seq<RawBlock<real>>>, input: seq<real>, blocks: nat, lane: nat, block: nat,
                 before: seq<real>, sums: seq<real>)
    requires ValidRows(rowBlocks, blocks) && 128 * blocks == |input| && lane < 32 && block < blocks
    requires |sums| == |before| == |rowBlocks| && block % 8 == lane / 4
    requires LaneRunning(rowBlocks, input, blocks, lane, block, before)
    requires forall r | 0 <= r < |sums| ::
               sums[r] == before[r] + LaneShare(rowBlocks[r][block], BlockInput(input, block), lane % 4)
    ensures LaneRunning(rowBlocks, input, blocks, lane, block + 8, sums)
  {
    hide LaneShare, Sum, BlockInput;
    forall r | 0 <= r < |rowBlocks|
      ensures sums[r] == Sum(Min(block + 8, blocks), Residue(8, lane / 4, LaneBlock(rowBlocks[r], input, lane % 4)))
    {
      ResidueGap(8, lane / 4, LaneBlock(rowBlocks[r], input, lane % 4), block, Min(block + 8, blocks));
    }
  }

  lemma LaneEnd(rowBlocks: seq<seq<RawBlock<real>>>, input: seq<real>, blocks: nat, lane: nat, block: nat,
                sums: seq<real>)
    requires ValidRows(rowBlocks, blocks) && 128 * blocks == |input| && lane < 32 && |sums| == |rowBlocks|
    requires block >= blocks && LaneRunning(rowBlocks, input, blocks, lane, block, sums)
    ensures forall r | 0 <= r < |sums| :: sums[r] == LaneSum(rowBlocks[r], input, lane)
  {
    hide LaneShare, Sum;
  }

  // The SIMD group

  /** Four lanes' shares of a block make up the block. */
  lemma LanesCoverBlock(b: RawBlock<real>, x: seq<real>, share: int -> real)
    requires ValidBlock(b) && |x| == 128
    requires forall p | 0 <= p < 4 :: share(p) == LaneShare(b, x, p)
    ensures Sum(4, share) == BlockDot(b, x)
  {
    hide Sum, Trit;
    var t := Term(b.codes, x);
    var inner := p => if 0 <= p < 4 then Sum(32, LaneTerm(t, p)) else 0.0;
    SumScale(4, b.scale, inner, share);
    LanesCoverSum(t, inner);
  }

  lemma LanesCoverSum(t: int -> real, inner: int -> real)
    requires forall p | 0 <= p < 4 :: inner(p) == Sum(32, LaneTerm(t, p))
    ensures Sum(4, inner) == Sum(128, t)
  {
    hide Sum, LaneElement, OwnerPart, OwnerSlot, LaneTerm;
    var element := (p: int, i: int) => if 0 <= p < 4 && 0 <= i < 32 then LaneElement(p, i) else 0;
    var owner := e => if 0 <= e < 128 then OwnerPart(e) else 0;
    var slot := e => if 0 <= e < 128 then OwnerSlot(e) else 0;
    forall p, i | 0 <= p < 4 && 0 <= i < 32
      ensures 0 <= element(p, i) < 128 && owner(element(p, i)) == p && slot(element(p, i)) == i
    {
      OwnedForth(p, i);
    }
    forall e | 0 <= e < 128
      ensures 0 <= owner(e) < 4 && 0 <= slot(e) < 32 && element(owner(e), slot(e)) == e
    {
      OwnedBack(e);
    }
    forall p | 0 <= p < 4
      ensures inner(p) == Sum(32, i => t(element(p, i)))
    {
      SumEq(32, LaneTerm(t, p), i => t(element(p, i)));
    }
    SumRectangle(128, 4, 32, element, owner, slot, t, inner);
  }

  /** The four lanes of residue r sum to the row's blocks of that residue. */
  lemma QuadCoversResidue(row: seq<RawBlock<real>>, x: seq<real>, r: nat, g: int -> real)
    requires ValidRow(row) && 128 * |row| == |x| && r < 8
    requires forall p | 0 <= p < 4 :: g(p) == Sum(|row|, Residue(8, r, LaneBlock(row, x, p)))
    ensures Sum(4, g) == Sum(|row|, Residue(8, r, RowTerm(row, x)))
  {
    hide Sum, LaneShare, BlockDot;
    var cell := (p: int, k: int) => if 0 <= p < 4 then LaneBlock(row, x, p)(k) else 0.0;
    forall p | 0 <= p < 4
      ensures g(p) == Sum(|row|, Residue(8, r, k => cell(p, k)))
    {
      SumEq(|row|, Residue(8, r, LaneBlock(row, x, p)), Residue(8, r, k => cell(p, k)));
    }
    forall k | 0 <= k < |row|
      ensures RowTerm(row, x)(k) == Sum(4, p => cell(p, k))
    {
      LanesCoverBlock(row[k], BlockInput(x, k), p => cell(p, k));
    }
    SumResidueColumns(|row|, 8, r, 4, cell, RowTerm(row, x), g);
  }

  /** The sum over the 32 lanes is the reference dot product. */
  lemma LanesCoverRow(row: seq<RawBlock<real>>, x: seq<real>, g: int -> real)
    requires ValidRow(row) && 128 * |row| == |x|
    requires forall lane | 0 <= lane < 32 :: g(lane) == LaneSum(row, x, lane)
    ensures Sum(32, g) == RowDot(row, x)
  {
    hide Sum, LaneBlock, RowTerm;
    var quad := r => if 0 <= r < 8 then Sum(|row|, Residue(8, r, RowTerm(row, x))) else 0.0;
    forall r | 0 <= r < 8
      ensures quad(r) == Sum(4, p => g(r * 4 + p))
    {
      forall p | 0 <= p < 4
        ensures g(r * 4 + p) == Sum(|row|, Residue(8, r, LaneBlock(row, x, p)))
      {
        assert (r * 4 + p) / 4 == r && (r * 4 + p) % 4 == p;
      }
      QuadCoversResidue(row, x, r, p => g(r * 4 + p));
    }
    SumBlocks(8, 4, g, quad);
    SumResidues(|row|, 8, RowTerm(row, x), quad);
  }

  /** simd_sum of every row's registers. */
  method Group(rowBlocks: seq<seq<RawBlock<real>>>, input: seq<real>, blocks: nat) returns (sums: seq<real>)
    requires ValidRows(rowBlocks, blocks) && 128 * blocks == |input|
    ensures |sums| == |rowBlocks|
    ensures forall r | 0 <= r < |sums| :: sums[r] == RowDot(rowBlocks[r], input)
  {
    hide LaneSum;
    sums := seq(|rowBlocks|, _ => 0.0);
    for lane := 0 to 32
      invariant |sums| == |rowBlocks|
      invariant forall r | 0 <= r < |sums| :: sums[r] == Sum(lane, LaneSums(rowBlocks[r], input))
    {
      var registers := Lane(rowBlocks, input, blocks, lane);
      sums := seq(|sums|, r requires 0 <= r < |sums| && |registers| == |sums| => sums[r] + registers[r]);
    }
    forall r | 0 <= r < |sums|
      ensures sums[r] == RowDot(rowBlocks[r], input)
    {
      LanesCoverRow(rowBlocks[r], input, LaneSums(rowBlocks[r], input));
    }
  }

  ghost function LaneSums(row: seq<RawBlock<real>>, x: seq<real>): (g: int -> real)
    requires ValidRow(row) && 128 * |row| == |x|
    ensures forall lane {:trigger g(lane)} | 0 <= lane < 32 :: g(lane) == LaneSum(row, x, lane)
  {
    lane => if 0 <= lane < 32 then LaneSum(row, x, lane) else 0.0
  }

  /** bonsai_ptq1_rows: rows past the end are clamped to the last one. */
  method ClampedRows(weights: seq<RawBlock<real>>, firstRow: nat, rows: nat, blocks: nat, count: nat)
    returns (rowBlocks: seq<seq<RawBlock<real>>>)
    requires ValidWeights(weights, rows, blocks) && rows > 0
    ensures |rowBlocks| == count && ValidRows(rowBlocks, blocks)
    ensures forall r | 0 <= r < count :: rowBlocks[r] == Row(weights, rows, blocks, Min(firstRow + r, rows - 1))
  {
    rowBlocks := [];
    for r := 0 to count
      invariant |rowBlocks| == r && ValidRows(rowBlocks, blocks)
      invariant forall k | 0 <= k < r :: rowBlocks[k] == Row(weights, rows, blocks, Min(firstRow + k, rows - 1))
    {
      rowBlocks := rowBlocks + [Row(weights, rows, blocks, Min(firstRow + r, rows - 1))];
    }
  }

  /**
   All groups of the matvec over a whole matrix, eight rows each (any positive count works):
   every output row holds its reference dot product and is stored exactly once.
   */
  method Project(weights: seq<RawBlock<real>>, input: seq<real>, output: array<real>, rows: nat, blocks: nat,
                 perGroup: nat)
    returns (stores: multiset<nat>)
    requires ValidWeights(weights, rows, blocks) && 128 * blocks == |input|
    requires output.Length == rows && perGroup > 0
    modifies output
    ensures forall r | 0 <= r < rows :: output[r] == RowDot(Row(weights, rows, blocks, r), input)
    ensures rows > 0 ==> Projected(Batch(weights, rows, blocks, input, 0, 1), output[..])
    ensures forall r: nat :: stores[r] == if r < rows then 1 else 0
  {
    hide RowDot, Projected;
    stores := multiset{};
    var firstRow := 0;
    while firstRow < rows
      invariant forall r | 0 <= r < Min(firstRow, rows) :: output[r] == RowDot(Row(weights, rows, blocks, r), input)
      invariant forall r: nat :: stores[r] == if r < Min(firstRow, rows) then 1 else 0
    {
      var rowBlocks := ClampedRows(weights, firstRow, rows, blocks, perGroup);
      var sums := Group(rowBlocks, input, blocks);
      for row := 0 to perGroup
        invariant forall r | 0 <= r < Min(firstRow + row, rows) ::
                    output[r] == RowDot(Row(weights, rows, blocks, r), input)
        invariant forall r: nat :: stores[r] == if r < Min(firstRow + row, rows) then 1 else 0
      {
        if firstRow + row < rows {
          output[firstRow + row] := sums[row];
          stores := stores + multiset{firstRow + row};
        }
      }
      firstRow := firstRow + perGroup;
    }
    if rows > 0 {
      ProjectedRows(weights, input, output[..], rows, blocks);
    }
  }

  lemma ProjectedRows(weights: seq<RawBlock<real>>, input: seq<real>, output: seq<real>, rows: nat, blocks: nat)
    requires ValidWeights(weights, rows, blocks) && 128 * blocks == |input| && |output| == rows > 0
    requires forall r | 0 <= r < rows :: output[r] == RowDot(Row(weights, rows, blocks, r), input)
    ensures Projected(Batch(weights, rows, blocks, input, 0, 1), output)
  {
    hide RowDot, Row, Projected;
    var batch := Batch(weights, rows, blocks, input, 0, 1);
    assert batch.Valid() by { assert (0 + 1) * (128 * blocks) == |input|; }
    assert batch.Token(0) == input;
    forall t: nat, r: nat | t < batch.tokens && r < batch.rows
      ensures batch.Slot(t, r) < |output| && output[batch.Slot(t, r)] == RowDot(batch.RowAt(r), batch.Token(t))
    {
    }
    AllProjected(batch, output);
  }
}
