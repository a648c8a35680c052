/**
 bonsai_fwht_values / bonsai_fwht_impl: the signed Walsh-Hadamard rotation of one 1024-wide
 block by 128 threads. Thread tid holds elements i * 128 + tid in its eight registers; the
 array values lists all threads' registers by element.
 */
module Fwht {
  import opened Common
  import opened Sums
  import opened HalfFloat
  import opened Hadamard
  import opened Floats

  /** An array's contents as a function. */
  ghost function At(s: seq<real>): (f: int -> real)
    ensures forall e {:trigger f(e)} | 0 <= e < |s| :: f(e) == s[e]
  {
    e => if 0 <= e < |s| then s[e] else 0.0
  }

  predicate Distance(d: nat) {
    d == 1 || d == 2 || d == 4 || d == 8 || d == 16 || d == 32 || d == 64 || d == 128 || d == 256 || d == 512
  }

  /** One stage on the block. */
  ghost predicate Staged(was: seq<real>, now: seq<real>, d: nat)
    requires d > 0
  {
    |was| == |now| == 1024 && forall e | 0 <= e < 1024 :: now[e] == Butterfly(At(was), d)(e)
  }

  // Lanes

  /** A thread's partner within its own register index, and its bit, are the element's. */
  lemma ThreadPartner(i: nat, tid: nat, d: nat)
    requires i < 8 && tid < 128 && Distance(d) && d < 128
    ensures Xor(tid, d) < 128 && Xor(i * 128 + tid, d) == i * 128 + Xor(tid, d)
    ensures HighBit(i * 128 + tid, d) <==> tid / d % 2 == 1
  {
    ThreadRange(tid, d);
    ThreadBit(i, 128, tid, d, if d == 1 then 64 else if d == 2 then 32 else if d == 4 then 16 else if d == 8 then 8
                         else if d == 16 then 4 else if d == 32 then 2 else 1);
  }

  /** Whole multiples of twice the distance do not change the bit. */
  lemma ThreadBit(i: nat, p: nat, tid: nat, d: nat, g: nat)
    requires d > 0 && d * (2 * g) == p
    ensures (i * p + tid) / d % 2 == tid / d % 2
  {
    var q, r := tid / d, tid % d;
    Regrouped(i, p, d, g, q);
    ShiftedQuotient(i * p + tid, i * g, d, q, r);
  }

  lemma ShiftedQuotient(e: nat, w: nat, d: nat, q: nat, r: nat)
    requires r < d && e == (2 * w + q) * d + r
    ensures e / d % 2 == q % 2
  {
    Remainder(2 * w + q, d, r);
    assert (2 * w + q) % 2 == q % 2;
  }

  lemma Regrouped(i: nat, p: nat, d: nat, g: nat, q: nat)
    requires d * (2 * g) == p
    ensures (2 * (i * g) + q) * d == i * p + q * d
  {
    calc {
      (2 * (i * g) + q) * d;
      2 * (i * g) * d + q * d;
      i * (d * (2 * g)) + q * d;
      i * p + q * d;
    }
  }

  lemma ThreadRange(tid: nat, d: nat)
    requires tid < 128 && Distance(d) && d < 128
    ensures Xor(tid, d) < 128
  {
    if d == 1 {
    } else if d == 2 {
    } else if d == 4 {
    } else if d == 8 {
    } else if d == 16 {
    } else if d == 32 {
    } else {
    }
  }

  /** A shuffle at a distance below 32 stays inside the SIMD group. */
  lemma SameSimdGroup(tid: nat, d: nat)
    requires tid < 128 && Distance(d) && d < 32
    ensures Xor(tid, d) / 32 == tid / 32
  {
    var group, lane := tid / 32, tid % 32;
    ThreadBit(group, 32, lane, d, if d == 1 then 16 else if d == 2 then 8 else if d == 4 then 4 else if d == 8 then 2
              else 1);
    LaneRange(lane, d);
  }

  lemma LaneRange(lane: nat, d: nat)
    requires lane < 32 && Distance(d) && d < 32
    ensures if lane / d % 2 == 0 then lane + d < 32 else d <= lane
  {
    if d == 1 {
    } else if d == 2 {
    } else if d == 4 {
    } else if d == 8 {
    } else {
    }
  }

  /** The value a thread computes from its own and its partner's register. */
  function Combined(own: real, partner: real, high: bool): real {
    if high then partner - own else own + partner
  }

  /** Xor with a power of two is the butterfly partner. */
  lemma ButterflyByPartner(was: seq<real>, d: nat, e: nat)
    requires |was| == 1024 && Distance(d) && e < 1024
    ensures Xor(e, d) < 1024
    ensures Butterfly(At(was), d)(e) == Combined(was[e], was[Xor(e, d)], HighBit(e, d))
  {
    hide HighBit, Xor, At, Butterfly;
    PartnerInRange(e, d);
    var p := Xor(e, d);
    assert At(was)(e) == was[e] && At(was)(p) == was[p];
  }

  lemma PartnerInRange(e: nat, d: nat)
    requires e < 1024 && Distance(d)
    ensures Xor(e, d) < 1024
    ensures Xor(e, d) == if HighBit(e, d) then e - d else e + d
  {
    if d == 1 {
    } else if d == 2 {
    } else if d == 4 {
    } else if d == 8 {
    } else if d == 16 {
    } else if d == 32 {
    } else if d == 64 {
    } else if d == 128 {
    } else if d == 256 {
    } else {
    }
  }

  // Stages

  /** Elements below n have taken the stage, the others are as they were. */
  ghost predicate Upto(was: seq<real>, now: seq<real>, d: nat, n: nat)
    requires d > 0
  {
    && |was| == |now| == 1024
    && (forall e | 0 <= e < n && e < 1024 :: now[e] == Butterfly(At(was), d)(e))
    && (forall e | n <= e < 1024 :: now[e] == was[e])
  }

  /** One thread's update in register i, with its partner's register at hand. */
  lemma ThreadStep(was: seq<real>, now: seq<real>, d: nat, i: nat, tid: nat, partner: real)
    requires Distance(d) && d < 128 && i < 8 && tid < 128
    requires Upto(was, now, d, i * 128 + tid)
    requires Xor(tid, d) < 128 && partner == was[i * 128 + Xor(tid, d)]
    ensures Upto(was, now[i * 128 + tid := Combined(was[i * 128 + tid], partner, tid / d % 2 == 1)], d,
                 i * 128 + tid + 1)
  {
    hide Distance, Xor, HighBit, Butterfly, At;
    ThreadPartner(i, tid, d);
    ButterflyByPartner(was, d, i * 128 + tid);
  }

  /** Distances 1 to 16: every lane reads its partner's register through a SIMD shuffle. */
  method ShuffleStage(values: array<real>, distance: nat)
    requires values.Length == 1024 && Distance(distance) && distance < 32
    modifies values
    ensures Staged(old(values[..]), values[..], distance)
  {
    hide Xor, Butterfly, Combined;
    ghost var was := values[..];
    for i := 0 to 8
      invariant Upto(was, values[..], distance, i * 128)
    {
      var lanes := values[i * 128..i * 128 + 128];
      for tid := 0 to 128
        invariant Upto(was, values[..], distance, i * 128 + tid)
      {
        ThreadRange(tid, distance);
        SameSimdGroup(tid, distance);
        var a, b := lanes[tid], lanes[Xor(tid, distance)];
        ThreadStep(was, values[..], distance, i, tid, b);
        ghost var now := values[..];
        values[i * 128 + tid] := Combined(a, b, tid / distance % 2 == 1);
        assert values[..] == now[i * 128 + tid := Combined(a, b, tid / distance % 2 == 1)];
      }
    }
  }

  /** Distances 32 and 64: publish all registers, barrier, read the partner's, barrier. */
  method SharedStage(values: array<real>, shared: array<real>, distance: nat)
    requires values.Length == shared.Length == 1024 && values != shared && Distance(distance) && 32 <= distance < 128
    modifies values, shared
    ensures Staged(old(values[..]), values[..], distance)
  {
    hide Xor, Butterfly, Combined;
    ghost var was := values[..];
    for e := 0 to 1024
      invariant values[..] == was
      invariant forall k | 0 <= k < e :: shared[k] == was[k]
    {
      shared[e] := values[e];
    }
    for i := 0 to 8
      invariant Upto(was, values[..], distance, i * 128)
      invariant shared[..] == was
    {
      for tid := 0 to 128
        invariant Upto(was, values[..], distance, i * 128 + tid)
        invariant shared[..] == was
      {
        ThreadRange(tid, distance);
        var a, b := values[i * 128 + tid], shared[i * 128 + Xor(tid, distance)];
        ThreadStep(was, values[..], distance, i, tid, b);
        ghost var now := values[..];
        values[i * 128 + tid] := Combined(a, b, tid / distance % 2 == 1);
        assert values[..] == now[i * 128 + tid := Combined(a, b, tid / distance % 2 == 1)];
      }
    }
  }

  /** Registers a thread has combined before pair j of the run at i. */
  predicate Processed(r: nat, i: nat, j: nat, step: nat) {
    r < i || i <= r < i + j || i + step <= r < i + step + j
  }

  /** Element e has taken the register stage once thread tid is at (i, j). */
  ghost predicate Passed(e: nat, tid: nat, i: nat, j: nat, step: nat) {
    e % 128 < tid || (e % 128 == tid && Processed(e / 128, i, j, step))
  }

  ghost predicate RegisterState(was: seq<real>, now: seq<real>, tid: nat, i: nat, j: nat, step: nat)
    requires step > 0
  {
    && |was| == |now| == 1024
    && forall e | 0 <= e < 1024 ::
         now[e] == if Passed(e, tid, i, j, step) then Butterfly(At(was), 128 * step)(e) else was[e]
  }

  lemma PassedStep(e: nat, tid: nat, i: nat, j: nat, step: nat)
    requires e < 1024 && tid < 128 && j < step && i + j + step < 8
    ensures Passed(e, tid, i, j + 1, step)
       <==> Passed(e, tid, i, j, step) || e == (i + j) * 128 + tid || e == (i + j + step) * 128 + tid
    ensures !Passed((i + j) * 128 + tid, tid, i, j, step) && !Passed((i + j + step) * 128 + tid, tid, i, j, step)
  {
    assert e == e / 128 * 128 + e % 128;
  }

  lemma RegisterBits(i: nat, j: nat, step: nat, tid: nat)
    requires (step == 1 || step == 2 || step == 4) && i % (2 * step) == 0 && i + 2 * step <= 8 && j < step && tid < 128
    ensures !HighBit((i + j) * 128 + tid, 128 * step) && HighBit((i + j + step) * 128 + tid, 128 * step)
  {
    if step == 1 {
    } else if step == 2 {
    } else {
    }
  }

  lemma RegisterStep(was: seq<real>, now: seq<real>, tid: nat, i: nat, j: nat, step: nat)
    requires (step == 1 || step == 2 || step == 4) && i % (2 * step) == 0 && i + 2 * step <= 8 && j < step && tid < 128
    requires RegisterState(was, now, tid, i, j, step)
    ensures var lo, hi := (i + j) * 128 + tid, (i + j + step) * 128 + tid;
      RegisterState(was, now[lo := now[lo] + now[hi]][hi := now[lo] - now[hi]], tid, i, j + 1, step)
  {
    hide Passed, HighBit, Butterfly, At;
    var lo, hi := (i + j) * 128 + tid, (i + j + step) * 128 + tid;
    RegisterBits(i, j, step, tid);
    assert hi == lo + 128 * step;
    forall e | 0 <= e < 1024
      ensures Passed(e, tid, i, j + 1, step) <==> Passed(e, tid, i, j, step) || e == lo || e == hi
    {
      PassedStep(e, tid, i, j, step);
    }
    PassedStep(lo, tid, i, j, step);
  }

  /** Steps 1, 2 and 4: each thread combines its own registers (distances 128 to 512). */
  method RegisterStage(values: array<real>, step: nat)
    requires values.Length == 1024 && (step == 1 || step == 2 || step == 4)
    modifies values
    ensures Staged(old(values[..]), values[..], 128 * step)
  {
    hide RegisterState;
    ghost var was := values[..];
    RegisterStart(was, step);
    for tid := 0 to 128
      invariant RegisterState(was, values[..], tid, 0, 0, step)
    {
      var i := 0;
      while i < 8
        invariant i <= 8 && i % (2 * step) == 0
        invariant RegisterState(was, values[..], tid, i, 0, step)
      {
        for j := 0 to step
          invariant RegisterState(was, values[..], tid, i, j, step)
        {
          RegisterStep(was, values[..], tid, i, j, step);
          ghost var now := values[..];
          var lo, hi := (i + j) * 128 + tid, (i + j + step) * 128 + tid;
          var a, b := values[lo], values[hi];
          values[lo] := a + b;
          values[hi] := a - b;
          assert values[..] == now[lo := now[lo] + now[hi]][hi := now[lo] - now[hi]];
        }
        RegisterRun(was, values[..], tid, i, step);
        i := i + 2 * step;
      }
      RegisterThread(was, values[..], tid, step);
    }
    RegisterFinish(was, values[..], step);
  }

  lemma RegisterStart(was: seq<real>, step: nat)
    requires |was| == 1024 && step > 0
    ensures RegisterState(was, was, 0, 0, 0, step)
  {
    hide Butterfly;
  }

  lemma RegisterRun(was: seq<real>, now: seq<real>, tid: nat, i: nat, step: nat)
    requires step > 0 && RegisterState(was, now, tid, i, step, step)
    ensures RegisterState(was, now, tid, i + 2 * step, 0, step)
  {
    hide Butterfly;
  }

  lemma RegisterThread(was: seq<real>, now: seq<real>, tid: nat, step: nat)
    requires step > 0 && RegisterState(was, now, tid, 8, 0, step)
    ensures RegisterState(was, now, tid + 1, 0, 0, step)
  {
    hide Butterfly;
  }

  lemma RegisterFinish(was: seq<real>, now: seq<real>, step: nat)
    requires step > 0 && RegisterState(was, now, 128, 0, 0, step)
    ensures Staged(was, now, 128 * step)
  {
    hide Butterfly;
  }

  // The rotation

  ghost predicate Holds(v: int -> real, now: seq<real>, m: nat) {
    |now| == 1024 && forall e | 0 <= e < 1024 :: now[e] == Stages(v, m)(e)
  }

  lemma StageAdvances(v: int -> real, was: seq<real>, now: seq<real>, m: nat, d: nat)
    requires Distance(d) && d == Pow2(m)
    requires Holds(v, was, m) && Staged(was, now, d)
    ensures Holds(v, now, m + 1)
  {
    hide Distance, Xor, HighBit, Butterfly, At, Stages;
    StagesStep(v, m + 1);
    forall e | 0 <= e < 1024
      ensures now[e] == Stages(v, m + 1)(e)
    {
      ButterflyByPartner(was, d, e);
      PartnerInRange(e, d);
    }
  }

  lemma SmallPowers()
    ensures Pow2(0) == 1 && Pow2(1) == 2 && Pow2(2) == 4 && Pow2(3) == 8 && Pow2(4) == 16 && Pow2(5) == 32
    ensures Pow2(6) == 64 && Pow2(7) == 128 && Pow2(8) == 256 && Pow2(9) == 512 && Pow2(10) == 1024
  {
  }

  method ShufflePhase(values: array<real>, ghost v: int -> real)
    requires values.Length == 1024 && Holds(v, values[..], 0)
    modifies values
    ensures Holds(v, values[..], 5)
  {
    hide Staged, Holds, Pow2;
    SmallPowers();
    ghost var m := 0;
    var distance := 1;
    while distance < 32
      invariant 0 <= m <= 5 && distance == [1, 2, 4, 8, 16, 32][m] == Pow2(m)
      invariant Holds(v, values[..], m)
    {
      ghost var was := values[..];
      ShuffleStage(values, distance);
      StageAdvances(v, was, values[..], m, distance);
      distance, m := distance * 2, m + 1;
    }
  }

  method SharedPhase(values: array<real>, shared: array<real>, ghost v: int -> real)
    requires values.Length == shared.Length == 1024 && values != shared && Holds(v, values[..], 5)
    modifies values, shared
    ensures Holds(v, values[..], 7)
  {
    hide Staged, Holds, Pow2;
    SmallPowers();
    ghost var m := 5;
    var distance := 32;
    while distance < 128
      invariant 5 <= m <= 7 && distance == [32, 64, 128][m - 5] == Pow2(m)
      invariant Holds(v, values[..], m)
    {
      ghost var was := values[..];
      SharedStage(values, shared, distance);
      StageAdvances(v, was, values[..], m, distance);
      distance, m := distance * 2, m + 1;
    }
  }

  method RegisterPhase(values: array<real>, ghost v: int -> real)
    requires values.Length == 1024 && Holds(v, values[..], 7)
    modifies values
    ensures Holds(v, values[..], 10)
  {
    hide Staged, Holds, Pow2;
    SmallPowers();
    ghost var m := 7;
    var step := 1;
    while step < 8
      invariant 7 <= m <= 10 && step == [1, 2, 4, 8][m - 7] && 128 * step == Pow2(m)
      invariant Holds(v, values[..], m)
    {
      ghost var was := values[..];
      RegisterStage(values, step);
      StageAdvances(v, was, values[..], m, 128 * step);
      step, m := step * 2, m + 1;
    }
  }

  /** Five shuffle, two shared and three register stages: all ten index bits. */
  method Rotate(values: array<real>, shared: array<real>)
    requires values.Length == shared.Length == 1024 && values != shared
    modifies values, shared
    ensures forall e | 0 <= e < 1024 :: values[e] == Transform(10, At(old(values[..])), e)
  {
    hide Holds, At, Transform;
    ghost var v := At(values[..]);
    HoldsStart(values[..]);
    ShufflePhase(values, v);
    SharedPhase(values, shared, v);
    RegisterPhase(values, v);
    HoldsFinish(v, values[..]);
  }

  lemma HoldsStart(s: seq<real>)
    requires |s| == 1024
    ensures Holds(At(s), s, 0)
  {
  }

  /** After all ten stages the block holds its transform. */
  lemma HoldsFinish(v: int -> real, s: seq<real>)
    requires Holds(v, s, 10)
    ensures forall e | 0 <= e < 1024 :: s[e] == Transform(10, v, e)
  {
    hide Stages, Sum, Pow2;
    SmallPowers();
    forall e | 0 <= e < 1024
      ensures s[e] == Transform(10, v, e)
    {
      StagesTransform(v, 10, 0, e);
      assert Start(0, 10) == 0;
    }
  }

  /** What the kernel feeds the transform: the signed, scaled inputs. */
  ghost function Scaled(inverse: bool, x: int -> real, s: int -> real): (w: int -> real)
    ensures forall e {:trigger w(e)} :: w(e) == x(e) * (if inverse then 1.0 else s(e)) * (1.0 / 32.0)
  {
    e => x(e) * (if inverse then 1.0 else s(e)) * (1.0 / 32.0)
  }

  /** The rotation of one block: signs before the transform, or after it for the inverse. */
  ghost function Rotation(inverse: bool, x: int -> real, s: int -> real): (y: int -> real)
    ensures forall e: nat {:trigger y(e)} ::
              y(e) == Times(Transform(10, Scaled(inverse, x, s), e), if inverse then s(e) else 1.0)
  {
    hide Transform, Times, Scaled;
    e => if 0 <= e then Times(Transform(10, Scaled(inverse, x, s), e), if inverse then s(e) else 1.0) else 0.0
  }

  /** The 1024 values from s[base] on. */
  ghost function From(s: seq<real>, base: nat): (f: int -> real)
    ensures forall e {:trigger f(e)} | 0 <= e && base + e < |s| :: f(e) == s[base + e]
  {
    e => if 0 <= e && base + e < |s| then s[base + e] else 0.0
  }

  /** Loads of one block, signed for the forward rotation, and scaled by 1/32. */
  method Load(inverse: bool, input: array<real>, base: nat, signs: seq<real>, signBase: nat)
    returns (values: array<real>)
    requires base + 1024 <= input.Length && signBase + 1024 <= |signs|
    ensures fresh(values) && values.Length == 1024
    ensures forall e | 0 <= e < 1024 :: values[e] == Scaled(inverse, From(input[..], base), From(signs, signBase))(e)
  {
    hide From, Scaled;
    ghost var x, s := From(input[..], base), From(signs, signBase);
    values := new real[1024];
    for local := 0 to 1024
      invariant input[..] == old(input[..])
      invariant forall e | 0 <= e < local :: values[e] == Scaled(inverse, x, s)(e)
    {
      assert x(local) == input[base + local] && s(local) == signs[signBase + local];
      var sign := if inverse then 1.0 else signs[signBase + local];
      values[local] := input[base + local] * sign * (1.0 / 32.0);
    }
  }

  /** Every cell of the block has been stored once more, and no other cell. */
  ghost predicate AddsBlock(before: multiset<(nat, nat)>, stores: multiset<(nat, nat)>, block: nat, n: nat) {
    forall b: nat, e: nat :: stores[(b, e)] == before[(b, e)] + if b == block && e < n then 1 else 0
  }

  lemma AddsCell(before: multiset<(nat, nat)>, stores: multiset<(nat, nat)>, block: nat, n: nat)
    requires AddsBlock(before, stores, block, n)
    ensures AddsBlock(before, stores + multiset{(block, n)}, block, n + 1)
  {
  }

  /** Stores of one block, signed for the inverse rotation. */
  method Store(inverse: bool, values: array<real>, output: array<real>, block: nat, signs: seq<real>, signBase: nat,
               ghost t: int -> real, before: multiset<(nat, nat)>)
    returns (stores: multiset<(nat, nat)>)
    requires values.Length == 1024 && values != output
    requires block * 1024 + 1024 <= output.Length && signBase + 1024 <= |signs|
    requires forall e | 0 <= e < 1024 :: values[e] == t(e)
    modifies output
    ensures AddsBlock(before, stores, block, 1024)
    ensures forall e | 0 <= e < 1024 ::
              output[block * 1024 + e] == t(e) * (if inverse then From(signs, signBase)(e) else 1.0)
    ensures forall k | 0 <= k < output.Length && !(block * 1024 <= k < block * 1024 + 1024) ::
              output[k] == old(output[k])
  {
    hide From, AddsBlock;
    var base := block * 1024;
    stores := before;
    assert AddsBlock(before, stores, block, 0) by { AddsNothing(before, block); }
    for local := 0 to 1024
      invariant forall e | 0 <= e < 1024 :: values[e] == t(e)
      invariant forall e | 0 <= e < local ::
                  output[base + e] == t(e) * (if inverse then From(signs, signBase)(e) else 1.0)
      invariant forall k | 0 <= k < output.Length && !(base <= k < base + local) :: output[k] == old(output[k])
      invariant AddsBlock(before, stores, block, local)
    {
      assert From(signs, signBase)(local) == signs[signBase + local];
      var sign := if inverse then signs[signBase + local] else 1.0;
      output[base + local] := values[local] * sign;
      AddsCell(before, stores, block, local);
      stores := stores + multiset{(block, local)};
    }
  }

  lemma AddsNothing(before: multiset<(nat, nat)>, block: nat)
    ensures AddsBlock(before, before, block, 0)
  {
  }

  ghost function Transformed(v: int -> real): (t: int -> real)
    ensures forall e: nat {:trigger t(e)} :: t(e) == Transform(10, v, e)
  {
    e => if 0 <= e then Transform(10, v, e) else 0.0
  }

  /** bonsai_fwht_impl on one block, in place when input and output are the same buffer. */
  method Kernel(inverse: bool, input: array<real>, signs: seq<real>, output: array<real>, blocksPerRow: nat, block: nat,
                shared: array<real>, before: multiset<(nat, nat)>)
    returns (stores: multiset<(nat, nat)>)
    requires blocksPerRow > 0 && |signs| == blocksPerRow * 1024
    requires (block + 1) * 1024 <= input.Length == output.Length
    requires shared.Length == 1024 && shared != input && shared != output
    modifies output, shared
    ensures AddsBlock(before, stores, block, 1024)
    ensures var x, s := From(old(input[..]), block * 1024), From(signs, block % blocksPerRow * 1024);
      forall e | 0 <= e < 1024 :: output[block * 1024 + e] == Rotation(inverse, x, s)(e)
    ensures forall k | 0 <= k < output.Length && !(block * 1024 <= k < block * 1024 + 1024) ::
              output[k] == old(output[k])
  {
    hide Transform, From, Scaled, AddsBlock;
    var base, signBase := block * 1024, block % blocksPerRow * 1024;
    SignsFit(block % blocksPerRow, blocksPerRow);
    ghost var w := Scaled(inverse, From(input[..], base), From(signs, signBase));
    var values := Load(inverse, input, base, signs, signBase);
    TransformEq(At(values[..]), w);
    Rotate(values, shared);
    stores := Store(inverse, values, output, block, signs, signBase, Transformed(w), before);
  }

  lemma SignsFit(row: nat, rows: nat)
    requires row < rows
    ensures row * 1024 + 1024 <= rows * 1024
  {
  }

  lemma TransformEq(v: int -> real, w: int -> real)
    requires forall e | 0 <= e < 1024 :: v(e) == w(e)
    ensures forall k: nat :: Transform(10, v, k) == Transform(10, w, k)
  {
    hide Sum, Sign;
    SmallPowers();
    forall k: nat
      ensures Transform(10, v, k) == Transform(10, w, k)
    {
      SumEq(1024, Row(v, 0, k), Row(w, 0, k));
    }
  }

  // All blocks

  /** The rotation of element e of a block of a buffer whose rows share their signs. */
  ghost function Rotated(inverse: bool, input: seq<real>, signs: seq<real>, blocksPerRow: nat, block: nat, e: nat): real
    requires blocksPerRow > 0
  {
    Rotation(inverse, From(input, block * 1024), From(signs, block % blocksPerRow * 1024))(e)
  }

  /** The rotation of a block depends on the values of that block only. */
  lemma RotationEq(inverse: bool, x: int -> real, y: int -> real, s: int -> real, e: nat)
    requires e < 1024 && forall k | 0 <= k < 1024 :: x(k) == y(k)
    ensures Rotation(inverse, x, s)(e) == Rotation(inverse, y, s)(e)
  {
    hide Transform, Rotation;
    TransformEq(Scaled(inverse, x, s), Scaled(inverse, y, s));
  }

  /** The first n blocks of the output are rotated, the rest of the buffer is as it was. */
  ghost predicate RotatedTo(inverse: bool, input: seq<real>, signs: seq<real>, blocksPerRow: nat, was: seq<real>,
                            output: seq<real>, n: nat)
    requires blocksPerRow > 0
  {
    && |input| == |output| == |was| && n * 1024 <= |output|
    && (forall b: nat, e: nat | b < n && e < 1024 :: IsRotated(inverse, input, signs, blocksPerRow, output, b, e))
    && forall k | n * 1024 <= k < |output| :: output[k] == was[k]
  }

  ghost predicate IsRotated(inverse: bool, input: seq<real>, signs: seq<real>, blocksPerRow: nat, output: seq<real>,
                            b: nat, e: nat)
    requires blocksPerRow > 0
  {
    b * 1024 + e < |output| && output[b * 1024 + e] == Rotated(inverse, input, signs, blocksPerRow, b, e)
  }

  /** One more block, whose inputs no earlier block has changed. */
  lemma RotatedNext(inverse: bool, input: seq<real>, signs: seq<real>, blocksPerRow: nat, was: seq<real>,
                    now: seq<real>, output: seq<real>, next: seq<real>, n: nat)
    requires blocksPerRow > 0 && RotatedTo(inverse, input, signs, blocksPerRow, was, output, n)
    requires (n + 1) * 1024 <= |output| == |next| == |now| && forall k | n * 1024 <= k < |now| :: now[k] == input[k]
    requires forall e | 0 <= e < 1024 :: next[n * 1024 + e] == Rotated(inverse, now, signs, blocksPerRow, n, e)
    requires forall k | 0 <= k < |next| && !(n * 1024 <= k < n * 1024 + 1024) :: next[k] == output[k]
    ensures RotatedTo(inverse, input, signs, blocksPerRow, was, next, n + 1)
  {
    hide Rotation, Transform, From;
    forall b: nat, e: nat | b < n + 1 && e < 1024
      ensures IsRotated(inverse, input, signs, blocksPerRow, next, b, e)
    {
      if b < n {
        assert IsRotated(inverse, input, signs, blocksPerRow, output, b, e);
        assert next[b * 1024 + e] == output[b * 1024 + e];
      } else {
        SameBlock(input, now, n);
        RotationEq(inverse, From(now, n * 1024), From(input, n * 1024), From(signs, n % blocksPerRow * 1024), e);
        assert next[n * 1024 + e] == Rotated(inverse, now, signs, blocksPerRow, n, e);
      }
    }
  }

  lemma SameBlock(input: seq<real>, now: seq<real>, n: nat)
    requires (n + 1) * 1024 <= |input| == |now| && forall k | n * 1024 <= k < |now| :: now[k] == input[k]
    ensures forall e | 0 <= e < 1024 :: From(now, n * 1024)(e) == From(input, n * 1024)(e)
  {
  }

  /** bonsai_fwht_forward and bonsai_fwht_inverse: one threadgroup for every block of every row. */
  method Dispatch(inverse: bool, input: array<real>, signs: seq<real>, output: array<real>, blocksPerRow: nat,
                  blocks: nat)
    returns (stores: multiset<(nat, nat)>)
    requires blocksPerRow > 0 && |signs| == blocksPerRow * 1024 && blocks * 1024 <= input.Length == output.Length
    modifies output
    ensures StoredOnce(blocks, 1024, stores)
    ensures RotatedTo(inverse, old(input[..]), signs, blocksPerRow, old(output[..]), output[..], blocks)
  {
    hide RotatedTo, Rotated, Rotation, From, Transform, AddsBlock, StoredOnce;
    ghost var x, was := input[..], output[..];
    stores := multiset{};
    NoneRotated(inverse, x, signs, blocksPerRow, was);
    for block := 0 to blocks
      invariant RotatedTo(inverse, x, signs, blocksPerRow, was, output[..], block) && StoredOnce(block, 1024, stores)
      invariant forall k | block * 1024 <= k < input.Length :: input[k] == x[k]
      invariant input != output ==> input[..] == x
    {
      var shared := new real[1024];
      ghost var now, done, before := input[..], output[..], stores;
      stores := Kernel(inverse, input, signs, output, blocksPerRow, block, shared, stores);
      RotatedIs(inverse, now, signs, blocksPerRow, output[..], block);
      RotatedNext(inverse, x, signs, blocksPerRow, was, now, done, output[..], block);
      StoredNext(before, stores, block);
    }
  }

  lemma RotatedIs(inverse: bool, now: seq<real>, signs: seq<real>, blocksPerRow: nat, output: seq<real>, block: nat)
    requires blocksPerRow > 0 && block * 1024 + 1024 <= |output|
    requires var x, s := From(now, block * 1024), From(signs, block % blocksPerRow * 1024);
      forall e | 0 <= e < 1024 :: output[block * 1024 + e] == Rotation(inverse, x, s)(e)
    ensures forall e | 0 <= e < 1024 ::
              output[block * 1024 + e] == Rotated(inverse, now, signs, blocksPerRow, block, e)
  {
    hide Rotation, From, Transform;
  }

  lemma NoneRotated(inverse: bool, input: seq<real>, signs: seq<real>, blocksPerRow: nat, was: seq<real>)
    requires blocksPerRow > 0 && |input| == |was|
    ensures RotatedTo(inverse, input, signs, blocksPerRow, was, was, 0) && StoredOnce(0, 1024, multiset{})
  {
  }

  lemma StoredNext(before: multiset<(nat, nat)>, stores: multiset<(nat, nat)>, block: nat)
    requires StoredOnce(block, 1024, before) && AddsBlock(before, stores, block, 1024)
    ensures StoredOnce(block + 1, 1024, stores)
  {
  }

  // Round trips

  lemma TransformScale(c: real, v: int -> real, w: int -> real, e: nat)
    requires forall k | 0 <= k < 1024 :: w(k) == c * v(k)
    ensures Transform(10, w, e) == c * Transform(10, v, e)
  {
    hide Sum, Sign;
    SmallPowers();
    forall k | 0 <= k < 1024
      ensures Row(w, 0, e)(k) == c * Row(v, 0, e)(k)
    {
      Commute(Sign(k, e), c, v(k));
    }
    SumScale(1024, c, Row(v, 0, e), Row(w, 0, e));
  }

  lemma Commute(a: real, c: real, x: real)
    ensures a * (c * x) == c * (a * x)
  {
  }

  /** The inverse kernel after the forward kernel multiplies by the squared sign. */
  lemma RoundTrip(x: int -> real, s: int -> real, e: nat)
    requires e < 1024
    ensures Rotation(true, Rotation(false, x, s), s)(e) == x(e) * s(e) * s(e)
  {
    hide Transform, Rotation, Scaled;
    SmallPowers();
    var y, w := Rotation(false, x, s), Scaled(false, x, s);
    assert forall k | 0 <= k < 1024 :: y(k) == Transform(10, w, k);
    TransformTwice(10, w, y, e);
    TransformScale(1.0 / 32.0, y, Scaled(true, y, s), e);
    assert w(e) == x(e) * s(e) * (1.0 / 32.0);
    Cancel(x(e) * s(e), s(e));
  }

  lemma Cancel(a: real, b: real)
    ensures 1.0 / 32.0 * (1024.0 * (a * (1.0 / 32.0))) * b == a * b
  {
    assert 1.0 / 32.0 * (1024.0 * (a * (1.0 / 32.0))) == a;
  }

  /** With signs of +1 and -1 the forward kernel also undoes the inverse. */
  lemma RoundTripBack(y: int -> real, s: int -> real, e: nat)
    requires e < 1024 && forall k | 0 <= k < 1024 :: s(k) == 1.0 || s(k) == -1.0
    ensures Rotation(false, Rotation(true, y, s), s)(e) == y(e)
  {
    hide Transform, Rotation, Scaled;
    SmallPowers();
    var z, u := Rotation(true, y, s), Scaled(true, y, s);
    var t := Transformed(u);
    forall k | 0 <= k < 1024
      ensures Scaled(false, z, s)(k) == 1.0 / 32.0 * t(k)
    {
      assert z(k) == t(k) * s(k);
    }
    TransformScale(1.0 / 32.0, t, Scaled(false, z, s), e);
    TransformTwice(10, u, t, e);
  }

  /** The round trip returns every block exactly when every sign is +1 or -1. */
  lemma RoundTripExactly(s: int -> real)
    ensures (forall x: int -> real, e: nat {:trigger Rotation(true, Rotation(false, x, s), s)(e)} | e < 1024 ::
               Rotation(true, Rotation(false, x, s), s)(e) == x(e))
       <==> forall e: nat | e < 1024 :: s(e) == 1.0 || s(e) == -1.0
  {
    hide Rotation, Transform, Scaled;
    if forall e: nat | e < 1024 :: s(e) == 1.0 || s(e) == -1.0 {
      forall x: int -> real, e: nat | e < 1024
        ensures Rotation(true, Rotation(false, x, s), s)(e) == x(e)
      {
        UnitTrip(x, s, e);
      }
    }
    if forall x: int -> real, e: nat {:trigger Rotation(true, Rotation(false, x, s), s)(e)} | e < 1024 ::
         Rotation(true, Rotation(false, x, s), s)(e) == x(e) {
      forall e: nat | e < 1024
        ensures s(e) == 1.0 || s(e) == -1.0
      {
        assert Rotation(true, Rotation(false, Ones(), s), s)(e) == Ones()(e);
        SignFromTrip(s, e);
      }
    }
  }

  ghost function Ones(): (f: int -> real)
    ensures forall e {:trigger f(e)} :: f(e) == 1.0
  {
    _ => 1.0
  }

  lemma UnitTrip(x: int -> real, s: int -> real, e: nat)
    requires e < 1024 && (s(e) == 1.0 || s(e) == -1.0)
    ensures Rotation(true, Rotation(false, x, s), s)(e) == x(e)
  {
    hide Rotation, Transform, Scaled;
    RoundTrip(x, s, e);
    UnitTwice(x(e), s(e));
  }

  /** Over a whole buffer: the inverse dispatch after the forward dispatch multiplies by the squared signs. */
  lemma DispatchRoundTrip(input: seq<real>, middle: seq<real>, signs: seq<real>, blocksPerRow: nat, was: seq<real>,
                          blocks: nat, b: nat, e: nat)
    requires blocksPerRow > 0 && |signs| == blocksPerRow * 1024 && b < blocks && e < 1024
    requires RotatedTo(false, input, signs, blocksPerRow, was, middle, blocks)
    ensures b * 1024 + e < |input| && b % blocksPerRow * 1024 + e < |signs|
    ensures var sign := signs[b % blocksPerRow * 1024 + e];
            Rotated(true, middle, signs, blocksPerRow, b, e) == input[b * 1024 + e] * sign * sign
  {
    hide Rotation, Transform;
    var x, s := From(input, b * 1024), From(signs, b % blocksPerRow * 1024);
    SignsFit(b % blocksPerRow, blocksPerRow);
    forall k | 0 <= k < 1024
      ensures From(middle, b * 1024)(k) == Rotation(false, x, s)(k)
    {
      assert IsRotated(false, input, signs, blocksPerRow, middle, b, k);
    }
    RotationEq(true, From(middle, b * 1024), Rotation(false, x, s), s, e);
    RoundTrip(x, s, e);
  }

  lemma UnitTwice(v: real, a: real)
    requires a == 1.0 || a == -1.0
    ensures v * a * a == v
  {
  }

  lemma SignFromTrip(s: int -> real, e: nat)
    requires e < 1024 && Rotation(true, Rotation(false, Ones(), s), s)(e) == 1.0
    ensures s(e) == 1.0 || s(e) == -1.0
  {
    hide Rotation, Transform, Scaled;
    var one := Ones();
    RoundTrip(one, s, e);
    assert one(e) == 1.0;
    UnitSquare(s(e));
  }

  lemma UnitSquare(a: real)
    ensures 1.0 * a * a == 1.0 <==> a == 1.0 || a == -1.0
  {
    assert (a - 1.0) * (a + 1.0) == a * a - 1.0;
  }
}
