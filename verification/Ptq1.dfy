/**
 The PTQ1_0 block: 128 trits in 26 code bytes and one scale. Trit is the reference decoder
 of shaders/bonsai_projection.h; the half-precision prefixes are shown to reproduce it.
 */
module Ptq1 {
  import opened Common
  import HalfFloat

  /** 24 qs bytes followed by the two qh bytes, and the block scale in the arithmetic at hand. */
  datatype RawBlock<F> = Block(codes: seq<Byte>, scale: F)

  ghost predicate ValidBlock<F>(b: RawBlock<F>) { |b.codes| == 26 }

  function Pow3(p: nat): (r: nat)
    ensures r > 0
  {
    if p == 0 then 1 else 3 * Pow3(p - 1)
  }

  // Reference decoder

  /** The byte and the power that hold one element's trit. */
  function ByteOf(e: nat): (b: nat)
    requires e < 128
    ensures b < 26
  {
    if e < 80 then e % 16 else if e < 120 then 16 + (e - 80) % 8 else 24 + (e - 120) % 2
  }

  function PowerOf(e: nat): (p: nat)
    requires e < 128
    ensures p < 5
  {
    if e < 80 then e / 16 else if e < 120 then (e - 80) / 8 else (e - 120) / 2
  }

  /** Digit p of the byte: (((byte * 3^p) & 255) * 3 >> 8) - 1. */
  function Digit(q: Byte, p: nat): (t: int)
    ensures -1 <= t <= 1
  {
    q * Pow3(p) % 256 * 3 / 256 - 1
  }

  function Trit(codes: seq<Byte>, e: nat): (t: int)
    requires |codes| == 26 && e < 128
    ensures -1 <= t <= 1
  {
    Digit(codes[ByteOf(e)], PowerOf(e))
  }

  /** The element at which a byte's power-p trit lands; ByteOf and PowerOf undo it. */
  function ElementAt(b: nat, p: nat): (e: nat)
    requires (b < 24 && p < 5) || (24 <= b < 26 && p < 4)
    ensures e < 128 && ByteOf(e) == b && PowerOf(e) == p
  {
    ElementRoundTrip(b, p);
    if b < 16 then b + 16 * p else if b < 24 then 64 + b + 8 * p else 96 + b + 2 * p
  }

  /** Byte and power are read back from the element. */
  lemma ElementRoundTrip(b: nat, p: nat)
    ensures b < 16 && p < 5 ==> ByteOf(b + 16 * p) == b && PowerOf(b + 16 * p) == p
    ensures 16 <= b < 24 && p < 5 ==> ByteOf(64 + b + 8 * p) == b && PowerOf(64 + b + 8 * p) == p
    ensures 24 <= b < 26 && p < 4 ==> ByteOf(96 + b + 2 * p) == b && PowerOf(96 + b + 2 * p) == p
  {
    if b < 16 {
      Digits(16, b, p);
    } else if b < 24 {
      Digits(8, b - 16, p);
    } else if b < 26 {
      Digits(2, b - 24, p);
    }
  }

  lemma Digits(d: nat, r: nat, p: nat)
    requires d > 0 && r < d
    ensures (p * d + r) % d == r && (p * d + r) / d == p
  {
    var e := p * d + r;
    var q := e / d;
    assert e == q * d + e % d;
    assert q > p ==> q * d >= (p + 1) * d;
    assert q < p ==> q * d <= (p - 1) * d;
  }

  lemma ElementIsOwned(e: nat)
    requires e < 128
    ensures if ByteOf(e) < 24 then PowerOf(e) < 5 else PowerOf(e) < 4
    ensures ElementAt(ByteOf(e), PowerOf(e)) == e
  {
  }

  // Base-3 prefixes

  /** floor(q * 3^p / 256) */
  function Prefix(q: Byte, p: nat): nat { q * Pow3(p) / 256 }

  /** floor(3x) - 3 floor(x), for x = a / 256, is the next base-3 digit of x. */
  lemma FloorDigit(a: nat)
    ensures 3 * a / 256 - 3 * (a / 256) == a % 256 * 3 / 256
  {
  }

  lemma DigitFromPrefixes(q: Byte, p: nat)
    ensures Digit(q, p) == Prefix(q, p + 1) - 3 * Prefix(q, p) - 1
  {
    FloorDigit(q * Pow3(p));
    assert q * Pow3(p + 1) == 3 * (q * Pow3(p));
  }

  /** k_p = (3^p - 1) / 2, the balanced offset. */
  function Balance(p: nat): nat { (Pow3(p) - 1) / 2 }

  lemma {:induction false} Pow3Odd(p: nat)
    ensures Pow3(p) % 2 == 1
  {
    if p > 0 {
      Pow3Odd(p - 1);
      assert Pow3(p) == 3 * Pow3(p - 1);
      TripleOdd(Pow3(p - 1));
    }
  }

  lemma TripleOdd(a: nat)
    requires a % 2 == 1
    ensures 3 * a % 2 == 1
  {
    assert 3 * a == 2 * a + a;
  }

  lemma BalanceStep(p: nat)
    ensures Balance(p + 1) == 3 * Balance(p) + 1
  {
    Pow3Odd(p);
  }

  // Half-precision prefixes

  /** The value of a positive normal binary16 bit pattern. */
  function HalfOfBits(bits: nat): real
    requires 1024 <= bits < 0x7C00
  {
    HalfFloat.Pow2(bits / 1024) as real * (1024 + bits % 1024) as real / 33554432.0
  }

  /** The byte placed in the mantissa of 1024; 0x6400 and the byte share no bits. */
  function Code(q: Byte): real { HalfOfBits(0x6400 + q) }

  lemma CodeIsExact(q: Byte)
    ensures Code(q) == 1024.0 + q as real
  {
    assert HalfFloat.Pow2(10) == 1024 && HalfFloat.Pow2(20) == 1048576;
    assert HalfFloat.Pow2(25) == 33554432;
    assert (0x6400 + q) / 1024 == 25 && (0x6400 + q) % 1024 == q;
  }

  const POWERS: seq<real> := [3.0 / 256.0, 9.0 / 256.0, 27.0 / 256.0, 81.0 / 256.0, 243.0 / 256.0]
  const SHIFTS: seq<real> := [1013.5, 1001.5, 929.5, 821.5, 173.5]
  const PREFIX_OFFSETS: seq<real> := [1026.0, 1038.0, 1038.0, 1146.0, 1146.0]
  const BALANCED_OFFSETS: seq<real> := [1027.0, 1042.0, 1051.0, 1186.0, 1267.0]

  function HalfPrefix(code: real, p: nat): real
    requires 1 <= p <= 5
  {
    HalfFloat.Sub(HalfFloat.Fma(code, POWERS[p - 1], SHIFTS[p - 1]), PREFIX_OFFSETS[p - 1])
  }

  function HalfBalancedPrefix(code: real, p: nat): real
    requires 1 <= p <= 5
  {
    HalfFloat.Sub(HalfFloat.Fma(code, POWERS[p - 1], SHIFTS[p - 1]), BALANCED_OFFSETS[p - 1])
  }

  lemma SmallPowers()
    ensures Pow3(0) == 1 && Pow3(1) == 3 && Pow3(2) == 9 && Pow3(3) == 27 && Pow3(4) == 81 && Pow3(5) == 243
  {
  }

  /**
   One rounding computes the floor: base + 1/2 + a / 256 rounds to base + 1 + floor(a / 256)
   unless 256 divides a positive a; the tie at a = 0 goes up because base is odd.
   */
  lemma RoundingIsFloor(base: int, a: nat)
    requires base % 2 == 1
    requires a % 256 == 0 ==> a == 0
    ensures HalfFloat.RoundEven(base as real + 0.5 + a as real / 256.0) == base + 1 + a / 256
  {
    var x := base as real + 0.5 + a as real / 256.0;
    assert a as real == 256.0 * (a / 256) as real + (a % 256) as real;
    assert x == (base + a / 256) as real + 0.5 + (a % 256) as real / 256.0;
  }

  /** A multiplier with an inverse modulo 256 maps no other byte than 0 to a multiple of 256. */
  lemma Invertible(q: Byte, t: nat, inverse: nat, m: nat, k: nat)
    requires t * inverse == 256 * m + 1 && q * t == 256 * k
    ensures q == 0
  {
    calc {
      q;
      q * (t * inverse) - q * (256 * m);
      { assert q * (t * inverse) == (q * t) * inverse; }
      256 * k * inverse - 256 * (q * m);
      256 * (k * inverse - q * m);
    }
  }

  lemma NoExactMultiple(q: Byte, p: nat)
    requires 1 <= p <= 5
    requires q * Pow3(p) % 256 == 0
    ensures q == 0
  {
    SmallPowers();
    var k := q * Pow3(p) / 256;
    if p == 1 { Invertible(q, 3, 171, 2, k); }
    else if p == 2 { Invertible(q, 9, 57, 2, k); }
    else if p == 3 { Invertible(q, 27, 19, 2, k); }
    else if p == 4 { Invertible(q, 81, 177, 56, k); }
    else { Invertible(q, 243, 59, 56, k); }
  }

  /** The shift puts every product half an integer above its floor. */
  lemma ShiftedProduct(code: real, q: Byte, p: nat)
    requires 1 <= p <= 5 && code == 1024.0 + q as real
    ensures code * POWERS[p - 1] + SHIFTS[p - 1]
         == (PREFIX_OFFSETS[p - 1].Floor - 1) as real + 0.5 + (q * Pow3(p)) as real / 256.0
  {
    SmallPowers();
    if p == 1 { assert POWERS[0] == 3.0 / 256.0; }
    else if p == 2 { assert POWERS[1] == 9.0 / 256.0; }
    else if p == 3 { assert POWERS[2] == 27.0 / 256.0; }
    else if p == 4 { assert POWERS[3] == 81.0 / 256.0; }
    else { assert POWERS[4] == 243.0 / 256.0; }
  }

  lemma OffsetTable(p: nat)
    requires 1 <= p <= 5
    ensures PREFIX_OFFSETS[p - 1] == PREFIX_OFFSETS[p - 1].Floor as real
    ensures 1026 <= PREFIX_OFFSETS[p - 1].Floor <= 1146 && PREFIX_OFFSETS[p - 1].Floor % 2 == 0
    ensures BALANCED_OFFSETS[p - 1] == PREFIX_OFFSETS[p - 1] + Balance(p) as real
  {
    SmallPowers();
  }

  lemma PrefixRange(q: Byte, p: nat)
    requires p <= 5
    ensures Prefix(q, p) < Pow3(p) <= 243
    ensures p > 0 ==> -121 <= Prefix(q, p) - Balance(p) <= 121
  {
    SmallPowers();
    assert q * Pow3(p) < 256 * Pow3(p);
  }

  lemma PrefixIs(q: Byte, p: nat)
    ensures Prefix(q, p) == q * Pow3(p) / 256
  {
    hide Pow3;
  }

  /** The one fused multiply-add behind both prefixes. */
  lemma FmaIsFloor(code: real, q: Byte, p: nat)
    requires 1 <= p <= 5 && code == 1024.0 + q as real
    ensures HalfFloat.Fma(code, POWERS[p - 1], SHIFTS[p - 1]) == PREFIX_OFFSETS[p - 1] + Prefix(q, p) as real
  {
    hide Prefix, Pow3, HalfFloat.Round, HalfFloat.RoundEven;
    OffsetTable(p);
    PrefixRange(q, p);
    PrefixIs(q, p);
    var offset, a := PREFIX_OFFSETS[p - 1].Floor, q * Pow3(p);
    if a % 256 == 0 {
      NoExactMultiple(q, p);
    }
    RoundingIsFloor(offset - 1, a);
    var x := (offset - 1) as real + 0.5 + a as real / 256.0;
    HalfFloat.RoundOnIntegerBinade(x);
    ShiftedProduct(code, q, p);
  }

  /** The prefix kernel returns floor(q * 3^p / 256) for every byte and every p from 1 to 5. */
  lemma HalfPrefixIsFloor(q: Byte, p: nat)
    requires 1 <= p <= 5
    ensures HalfPrefix(Code(q), p) == Prefix(q, p) as real
  {
    CodeIsExact(q);
    FmaIsFloor(Code(q), q, p);
    PrefixRange(q, p);
    HalfFloat.RoundKeepsInteger(Prefix(q, p));
  }

  /** The balanced prefix is the plain one less k_p, and lies in [-121, 121]. */
  lemma HalfBalancedPrefixIsExact(q: Byte, p: nat)
    requires 1 <= p <= 5
    ensures HalfBalancedPrefix(Code(q), p) == (Prefix(q, p) - Balance(p)) as real
    ensures -121 <= Prefix(q, p) - Balance(p) <= 121
  {
    CodeIsExact(q);
    FmaIsFloor(Code(q), q, p);
    OffsetTable(p);
    PrefixRange(q, p);
    HalfFloat.RoundKeepsInteger(Prefix(q, p) - Balance(p));
  }

  /** Trit n is B_{n+1} - 3 B_n, and B_1 is trit 0. */
  /** A digit is a balanced prefix less three times the one before it, which is zero at the start. */
  lemma BalancedDigit(q: Byte, n: nat)
    ensures Digit(q, n) == Prefix(q, n + 1) - Balance(n + 1) - 3 * (Prefix(q, n) - Balance(n))
    ensures -1 <= Digit(q, n) <= 1
    ensures Prefix(q, 0) == Balance(0) == 0
  {
    DigitFromPrefixes(q, n);
    BalanceStep(n);
  }

  lemma TritSum(a: int, b: int, t: int)
    requires t == b - 3 * a
    ensures -3.0 * a as real + b as real == t as real
  {
  }

  lemma TritStep(q: Byte, n: nat, previous: real, balanced: real)
    requires n < 5
    requires n > 0 ==> previous == (Prefix(q, n) - Balance(n)) as real
    requires balanced == (Prefix(q, n + 1) - Balance(n + 1)) as real
    ensures (if n == 0 then balanced else HalfFloat.Fma(-3.0, previous, balanced)) == Digit(q, n) as real
  {
    hide Prefix, Balance, Digit;
    BalancedDigit(q, n);
    var t := Digit(q, n);
    if n > 0 {
      TritSum(Prefix(q, n) - Balance(n), Prefix(q, n + 1) - Balance(n + 1), t);
      HalfFloat.RoundKeepsInteger(t);
    }
  }

  /** The five trits of one byte, each from one further fused multiply-add. */
  method Trits(q: Byte) returns (trits: seq<real>)
    ensures |trits| == 5
    ensures forall n | 0 <= n < 5 :: trits[n] == Digit(q, n) as real
  {
    hide Prefix, Balance, Digit, Code, HalfBalancedPrefix, HalfFloat.Fma;
    trits := [];
    var previous := 0.0;
    for n := 0 to 5
      invariant |trits| == n
      invariant n > 0 ==> previous == (Prefix(q, n) - Balance(n)) as real
      invariant forall m | 0 <= m < n :: trits[m] == Digit(q, m) as real
    {
      var balanced := HalfBalancedPrefix(Code(q), n + 1);
      HalfBalancedPrefixIsExact(q, n + 1);
      TritStep(q, n, previous, balanced);
      trits := trits + [if n == 0 then balanced else HalfFloat.Fma(-3.0, previous, balanced)];
      previous := balanced;
    }
  }

  /** The qh digit by two floors of floats that hold the products exactly. */
  function FloorTrit(q: Byte, p: nat): int {
    var code := q as real * (1.0 / 256.0) * Pow3(p) as real;
    (3.0 * code).Floor - 3 * code.Floor
  }

  lemma FloorTritIsDigit(q: Byte, p: nat)
    ensures FloorTrit(q, p) - 1 == Digit(q, p)
  {
    var a := q * Pow3(p);
    assert q as real * (1.0 / 256.0) * Pow3(p) as real == a as real / 256.0;
    RealFloor(a);
    RealFloor(3 * a);
    DigitFromPrefixes(q, p);
    assert q * Pow3(p + 1) == 3 * a;
  }

  lemma RealFloor(a: nat)
    ensures (a as real / 256.0).Floor == a / 256
  {
    assert a as real == 256.0 * (a / 256) as real + (a % 256) as real;
  }
}
