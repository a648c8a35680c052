/**
 bonsai_ptq1_small_batch_impl: one SIMD group of sixteen lane pairs. The two lanes of a pair
 walk the same elements for different output rows; each loads one token of a pair of tokens
 and takes the other from its partner.
 */
module SmallBatch {
  import opened Common
  import opened Sums
  import opened Floats
  import opened Ptq1
  import opened Projection

  /** One dispatch; batch.tokens and rowsPerLane are the kernel's template arguments. */
  datatype Job<!F> = Job(arith: Arith<F>, batch: Batch<F>, rowsPerLane: nat) {
    ghost predicate Valid() {
      rowsPerLane > 0 && batch.Valid()
    }
  }

  // The expression every output is

  /** The element of slot i of a sixteen-element part. */
  function PartElement(part: nat, i: nat): (e: nat)
    requires part < 8 && i < 16
    ensures e < 128
  {
    if i < 10 then 2 * part + i / 5 + 16 * (i % 5)
    else if i < 15 then 80 + part + 8 * (i - 10)
    else 120 + part
  }

  /** The first n trit * input products of a part, added in slot order. */
  function PartChain<F>(a: Arith<F>, codes: seq<Byte>, x: seq<F>, part: nat, n: nat): F
    requires |codes| == 26 && |x| == 128 && part < 8 && n <= 16
  {
    if n == 0 then a.zero
    else
      var e := PartElement(part, n - 1);
      a.add(PartChain(a, codes, x, part, n - 1), a.mul(a.widen(Trit(codes, e) as real), x[e]))
  }

  /** A lane pair's sum over its blocks below n: every second block, scaled, in order. */
  function LaneChain<F>(a: Arith<F>, row: seq<RawBlock<F>>, x: seq<F>, pair: nat, n: nat): F
    requires ValidRow(row) && |x| == 128 * |row| && pair < 16 && n <= |row|
  {
    if n == 0 then a.zero
    else if (n - 1) % 2 != pair / 8 then LaneChain(a, row, x, pair, n - 1)
    else
      a.add(LaneChain(a, row, x, pair, n - 1),
            a.mul(PartChain(a, row[n - 1].codes, BlockInput(x, n - 1), pair % 8, 16), row[n - 1].scale))
  }

  /** The shuffle reduction after j stages, at pair p. */
  function Tree<F>(a: Arith<F>, leaves: seq<F>, j: nat, p: nat): F
    requires |leaves| == 16 && p < 16 && j <= 4
  {
    if j == 0 then leaves[p]
    else a.add(Tree(a, leaves, j - 1, p), Tree(a, leaves, j - 1, Partner(p, j - 1)))
  }

  /** p ^ 2^j */
  function Partner(p: nat, j: nat): (q: nat)
    requires p < 16 && j < 4
    ensures q < 16
  {
    if j == 0 then Xor(p, 1) else if j == 1 then Xor(p, 2) else if j == 2 then Xor(p, 4) else Xor(p, 8)
  }

  function Leaves<F>(a: Arith<F>, row: seq<RawBlock<F>>, x: seq<F>): (leaves: seq<F>)
    requires ValidRow(row) && |x| == 128 * |row|
    ensures |leaves| == 16
    ensures forall p | 0 <= p < 16 :: leaves[p] == LaneChain(a, row, x, p, |row|)
  {
    seq(16, p requires 0 <= p < 16 => LaneChain(a, row, x, p, |row|))
  }

  /** The value of one output, fixed by its row and its token alone. */
  function Result<F>(a: Arith<F>, row: seq<RawBlock<F>>, x: seq<F>): F
    requires ValidRow(row) && |x| == 128 * |row|
  {
    Tree(a, Leaves(a, row, x), 4, 0)
  }

  // Which token a register accumulates

  /** Register column c of lane slice: its own token, then its partner's; an odd last token is its own. */
  function TokenOf(tokens: nat, slice: nat, c: nat): (t: nat)
    requires slice < 2 && c < tokens
    ensures t < tokens
  {
    if 2 * (c / 2) + 1 < tokens then 2 * (c / 2) + (slice + c) % 2 else c
  }

  /** TokenOf permutes the tokens: it is its own inverse. */
  lemma TokenOfInvolutive(tokens: nat, slice: nat, c: nat)
    requires slice < 2 && c < tokens
    ensures TokenOf(tokens, slice, TokenOf(tokens, slice, c)) == c
  {
  }

  // Decoding

  /** Sixteen factors of one row at one part. */
  method Factors<F>(b: RawBlock<F>, part: nat) returns (factors: seq<real>)
    requires ValidBlock(b) && part < 8
    ensures |factors| == 16
    ensures forall i | 0 <= i < 16 :: factors[i] == Trit(b.codes, PartElement(part, i)) as real
  {
    hide Digit;
    factors := [];
    for k := 0 to 3
      invariant |factors| == 5 * k
      invariant forall i | 0 <= i < 5 * k :: factors[i] == Trit(b.codes, PartElement(part, i)) as real
    {
      var byte := if k < 2 then 2 * part + k else 16 + part;
      var trits := Trits(b.codes[byte]);
      forall n | 0 <= n < 5
        ensures trits[n] == Trit(b.codes, PartElement(part, 5 * k + n)) as real
      {
        FactorElement(part, k, n);
      }
      factors := factors + trits;
    }
    FloorTritIsDigit(b.codes[24 + part % 2], part / 2);
    assert PartElement(part, 15) == ElementAt(24 + part % 2, part / 2);
    factors := factors + [(FloorTrit(b.codes[24 + part % 2], part / 2) - 1) as real];
  }

  lemma FactorElement(part: nat, k: nat, n: nat)
    requires part < 8 && k < 3 && n < 5
    ensures PartElement(part, 5 * k + n) == ElementAt(if k < 2 then 2 * part + k else 16 + part, n)
  {
    if k < 2 {
      assert (5 * k + n) / 5 == k && (5 * k + n) % 5 == n;
    }
  }

  /** bonsai_ptq1_values: one token's sixteen activations in factor order. */
  method Values<F>(x: seq<F>, part: nat) returns (values: seq<F>)
    requires |x| == 128 && part < 8
    ensures |values| == 16
    ensures forall i | 0 <= i < 16 :: values[i] == x[PartElement(part, i)]
  {
    values := [];
    for k := 0 to 3
      invariant |values| == 5 * k
      invariant forall i | 0 <= i < 5 * k :: values[i] == x[PartElement(part, i)]
    {
      var offset := if k < 2 then 2 * part + k else 80 + part;
      var stride := if k < 2 then 16 else 8;
      for n := 0 to 5
        invariant |values| == 5 * k + n
        invariant forall i | 0 <= i < 5 * k + n :: values[i] == x[PartElement(part, i)]
      {
        FactorElement(part, k, n);
        values := values + [x[offset + n * stride]];
      }
    }
    values := values + [x[120 + part]];
  }

  // One lane pair in lockstep

  /** The matrix row behind a lane's row, clamped to a real one. */
  function SourceRow<F>(job: Job<F>, group: nat, slice: nat, row: nat): (r: nat)
    requires job.Valid()
    ensures r < job.batch.rows
  {
    Min((2 * group + slice) * job.rowsPerLane + row, job.batch.rows - 1)
  }

  /** The expression in a lane's register for one row and one column, blocks below n done. */
  ghost function Register<F>(job: Job<F>, group: nat, slice: nat, pair: nat, row: nat, c: nat, n: nat): F
    requires job.Valid() && slice < 2 && pair < 16 && c < job.batch.tokens && n <= job.batch.blocks
  {
    LaneChain(job.arith, job.batch.RowAt(SourceRow(job, group, slice, row)),
              job.batch.Token(TokenOf(job.batch.tokens, slice, c)), pair, n)
  }

  /** Columns below done hold blocks below after, the others blocks below before. */
  ghost predicate Registers<F>(job: Job<F>, group: nat, slice: nat, pair: nat, sums: seq<seq<F>>,
                               done: nat, before: nat, after: nat)
    requires job.Valid() && slice < 2 && pair < 16 && before <= job.batch.blocks && after <= job.batch.blocks
  {
    && |sums| == job.rowsPerLane
    && (forall row | 0 <= row < |sums| :: |sums[row]| == 2 * ((job.batch.tokens + 1) / 2))
    && (forall row, c | 0 <= row < |sums| && 0 <= c < job.batch.tokens ::
          sums[row][c] == Register(job, group, slice, pair, row, c, if c < done then after else before))
  }

  /** The factors and scales a lane derives once per block. */
  ghost predicate Decoded<F>(job: Job<F>, group: nat, slice: nat, pair: nat, block: nat,
                             factors: seq<seq<real>>, scales: seq<F>)
    requires job.Valid() && pair < 16 && block < job.batch.blocks
  {
    && |factors| == |scales| == job.rowsPerLane
    && (forall row | 0 <= row < |factors| :: |factors[row]| == 16)
    && (forall row | 0 <= row < |factors| ::
          scales[row] == job.batch.RowAt(SourceRow(job, group, slice, row))[block].scale)
    && (forall row, i | 0 <= row < |factors| && 0 <= i < 16 ::
          factors[row][i]
            == Trit(job.batch.RowAt(SourceRow(job, group, slice, row))[block].codes, PartElement(pair % 8, i)) as real)
  }

  method Decode<F>(job: Job<F>, group: nat, slice: nat, pair: nat, block: nat)
    returns (factors: seq<seq<real>>, scales: seq<F>)
    requires job.Valid() && pair < 16 && block < job.batch.blocks
    ensures Decoded(job, group, slice, pair, block, factors, scales)
  {
    hide Trit, PartElement;
    factors, scales := [], [];
    for row := 0 to job.rowsPerLane
      invariant |factors| == |scales| == row
      invariant forall k | 0 <= k < row :: |factors[k]| == 16
      invariant forall k | 0 <= k < row :: scales[k] == job.batch.RowAt(SourceRow(job, group, slice, k))[block].scale
      invariant forall k, i | 0 <= k < row && 0 <= i < 16 ::
          factors[k][i]
            == Trit(job.batch.RowAt(SourceRow(job, group, slice, k))[block].codes, PartElement(pair % 8, i)) as real
    {
      var b := job.batch.RowAt(SourceRow(job, group, slice, row))[block];
      var f := Factors(b, pair % 8);
      factors, scales := factors + [f], scales + [b.scale];
    }
  }

  /** The sixteen products in factor order. */
  method PartTotal<F>(a: Arith<F>, factors: seq<real>, values: seq<F>, ghost codes: seq<Byte>, ghost x: seq<F>,
                      ghost part: nat)
    returns (total: F)
    requires |codes| == 26 && |x| == 128 && part < 8 && |factors| == |values| == 16
    requires forall i | 0 <= i < 16 :: factors[i] == Trit(codes, PartElement(part, i)) as real
    requires forall i | 0 <= i < 16 :: values[i] == x[PartElement(part, i)]
    ensures total == PartChain(a, codes, x, part, 16)
  {
    hide Trit, PartElement;
    total := a.zero;
    for i := 0 to 16
      invariant total == PartChain(a, codes, x, part, i)
    {
      total := a.add(total, a.mul(a.widen(factors[i]), values[i]));
    }
  }

  /** Skipping to the pair's next block leaves its chain alone. */
  lemma ChainStep<F>(a: Arith<F>, row: seq<RawBlock<F>>, x: seq<F>, pair: nat, block: nat)
    requires ValidRow(row) && |x| == 128 * |row| && pair < 16 && block < |row| && block % 2 == pair / 8
    ensures LaneChain(a, row, x, pair, Min(block + 2, |row|))
         == a.add(LaneChain(a, row, x, pair, block),
                  a.mul(PartChain(a, row[block].codes, BlockInput(x, block), pair % 8, 16), row[block].scale))
  {
    hide PartChain;
    assert LaneChain(a, row, x, pair, block + 1)
        == a.add(LaneChain(a, row, x, pair, block),
                 a.mul(PartChain(a, row[block].codes, BlockInput(x, block), pair % 8, 16), row[block].scale));
  }

  lemma ChainStart<F>(a: Arith<F>, row: seq<RawBlock<F>>, x: seq<F>, pair: nat, n: nat)
    requires ValidRow(row) && |x| == 128 * |row| && pair < 16 && n <= |row| && n <= pair / 8
    ensures LaneChain(a, row, x, pair, n) == a.zero
  {
  }

  /** One token's activations into column c of a lane's registers. */
  method AddToken<F>(job: Job<F>, group: nat, slice: nat, pair: nat, block: nat, factors: seq<seq<real>>,
                     scales: seq<F>,
                     values: seq<F>, c: nat, before: seq<seq<F>>)
    returns (sums: seq<seq<F>>)
    requires job.Valid() && slice < 2 && pair < 16 && block < job.batch.blocks && block % 2 == pair / 8
             && c < job.batch.tokens
    requires Decoded(job, group, slice, pair, block, factors, scales)
    requires |values| == 16
    requires forall i | 0 <= i < 16 ::
        values[i] == BlockInput(job.batch.Token(TokenOf(job.batch.tokens, slice, c)), block)[PartElement(pair % 8, i)]
    requires Registers(job, group, slice, pair, before, c, block, Min(block + 2, job.batch.blocks))
    ensures Registers(job, group, slice, pair, sums, c + 1, block, Min(block + 2, job.batch.blocks))
  {
    hide Trit, PartElement, LaneChain, PartChain, TokenOf;
    sums := before;
    var next := Min(block + 2, job.batch.blocks);
    for row := 0 to job.rowsPerLane
      invariant |sums| == job.rowsPerLane
      invariant forall k | 0 <= k < |sums| :: |sums[k]| == 2 * ((job.batch.tokens + 1) / 2)
      invariant forall k, d | 0 <= k < |sums| && 0 <= d < job.batch.tokens ::
          sums[k][d] == Register(job, group, slice, pair, k, d, if d < c || (d == c && k < row) then next else block)
    {
      ghost var source, x :=
                  job.batch.RowAt(SourceRow(job, group, slice, row)),
                    job.batch.Token(TokenOf(job.batch.tokens, slice, c));
      var total := PartTotal(job.arith, factors[row], values, source[block].codes, BlockInput(x, block), pair % 8);
      ChainStep(job.arith, source, x, pair, block);
      sums := sums[row := sums[row][c := job.arith.add(sums[row][c], job.arith.mul(total, scales[row]))]];
    }
  }

  lemma LaneTokens(tokens: nat, step: nat)
    requires 2 * step < tokens
    ensures TokenOf(tokens, 0, 2 * step) == 2 * step
    ensures TokenOf(tokens, 1, 2 * step) == 2 * step + (if 2 * step + 1 < tokens then 1 else 0)
    ensures 2 * step + 1 < tokens ==> TokenOf(tokens, 0, 2 * step + 1) == 2 * step + 1
    ensures 2 * step + 1 < tokens ==> TokenOf(tokens, 1, 2 * step + 1) == 2 * step
  {
  }

  /** One block for both lanes of a pair: each loads one token and shuffles the other. */
  method PairBlock<F>(job: Job<F>, group: nat, pair: nat, block: nat, before0: seq<seq<F>>, before1: seq<seq<F>>)
    returns (sums0: seq<seq<F>>, sums1: seq<seq<F>>)
    requires job.Valid() && pair < 16 && block < job.batch.blocks && block % 2 == pair / 8
    requires Registers(job, group, 0, pair, before0, 0, block, Min(block + 2, job.batch.blocks))
    requires Registers(job, group, 1, pair, before1, 0, block, Min(block + 2, job.batch.blocks))
    ensures Registers(job, group, 0, pair, sums0, job.batch.tokens, block, Min(block + 2, job.batch.blocks))
    ensures Registers(job, group, 1, pair, sums1, job.batch.tokens, block, Min(block + 2, job.batch.blocks))
  {
    hide Trit, PartElement, Registers, Decoded, TokenOf, BlockInput;
    var factors0, scales0 := Decode(job, group, 0, pair, block);
    var factors1, scales1 := Decode(job, group, 1, pair, block);
    sums0, sums1 := before0, before1;
    var steps := (job.batch.tokens + 1) / 2;
    for step := 0 to steps
      invariant Registers(job, group, 0, pair, sums0, Min(2 * step, job.batch.tokens), block,
                          Min(block + 2, job.batch.blocks))
      invariant Registers(job, group, 1, pair, sums1, Min(2 * step, job.batch.tokens), block,
                          Min(block + 2, job.batch.blocks))
    {
      var paired := 2 * step + 1 < job.batch.tokens;
      LaneTokens(job.batch.tokens, step);
      var own0 := Values(BlockInput(job.batch.Token(2 * step), block), pair % 8);
      var own1 := Values(BlockInput(job.batch.Token(2 * step + (if paired then 1 else 0)), block), pair % 8);
      for m := 0 to if paired then 2 else 1
        invariant Registers(job, group, 0, pair, sums0, 2 * step + m, block, Min(block + 2, job.batch.blocks))
        invariant Registers(job, group, 1, pair, sums1, 2 * step + m, block, Min(block + 2, job.batch.blocks))
      {
        var values0 := if m == 0 then own0 else own1;
        var values1 := if m == 0 then own1 else own0;
        sums0 := AddToken(job, group, 0, pair, block, factors0, scales0, values0, 2 * step + m, sums0);
        sums1 := AddToken(job, group, 1, pair, block, factors1, scales1, values1, 2 * step + m, sums1);
      }
    }
  }

  /** All blocks of a pair. Both lanes take the same trips, so a shuffle partner is always active. */
  method Pair<F>(job: Job<F>, group: nat, pair: nat) returns (sums0: seq<seq<F>>, sums1: seq<seq<F>>)
    requires job.Valid() && pair < 16
    ensures Registers(job, group, 0, pair, sums0, job.batch.tokens, 0, job.batch.blocks)
    ensures Registers(job, group, 1, pair, sums1, job.batch.tokens, 0, job.batch.blocks)
  {
    hide LaneChain;
    var zeros := seq(job.rowsPerLane, _ => seq(2 * ((job.batch.tokens + 1) / 2), _ => job.arith.zero));
    sums0, sums1 := zeros, zeros;
    var block := pair / 8;
    Initial(job, group, 0, pair, Min(block, job.batch.blocks), zeros);
    Initial(job, group, 1, pair, Min(block, job.batch.blocks), zeros);
    while block < job.batch.blocks
      invariant block % 2 == pair / 8
      invariant Registers(job, group, 0, pair, sums0, job.batch.tokens, 0, Min(block, job.batch.blocks))
      invariant Registers(job, group, 1, pair, sums1, job.batch.tokens, 0, Min(block, job.batch.blocks))
    {
      sums0, sums1 := PairBlock(job, group, pair, block, sums0, sums1);
      block := block + 2;
    }
  }

  lemma Initial<F>(job: Job<F>, group: nat, slice: nat, pair: nat, n: nat, zeros: seq<seq<F>>)
    requires job.Valid() && slice < 2 && pair < 16 && n <= job.batch.blocks && n <= pair / 8
    requires |zeros| == job.rowsPerLane
    requires forall row | 0 <= row < |zeros| :: |zeros[row]| == 2 * ((job.batch.tokens + 1) / 2)
    requires forall row, c | 0 <= row < |zeros| && 0 <= c < |zeros[row]| :: zeros[row][c] == job.arith.zero
    ensures Registers(job, group, slice, pair, zeros, job.batch.tokens, 0, n)
  {
    hide LaneChain;
    forall row, c | 0 <= row < |zeros| && 0 <= c < job.batch.tokens
      ensures zeros[row][c] == Register(job, group, slice, pair, row, c, n)
    {
      ChainStart(job.arith, job.batch.RowAt(SourceRow(job, group, slice, row)),
                 job.batch.Token(TokenOf(job.batch.tokens, slice, c)), pair, n);
    }
  }

  // Reduction

  /** Stage j shuffles over lane distance 2^(j+1), which keeps the slice and pairs p with Partner(p, j). */
  lemma StageKeepsSlice(p: nat, j: nat, distance: nat)
    requires p < 16 && j < 4 && distance == [2, 4, 8, 16][j]
    ensures Xor(2 * p, distance) == 2 * Partner(p, j) && Xor(2 * p + 1, distance) == 2 * Partner(p, j) + 1
  {
    var d := distance / 2;
    assert distance == 2 * d && Partner(p, j) == Xor(p, d);
    XorDoubled(p, d);
  }

  /** Doubling index and distance doubles the partner; the low bit stays. */
  lemma XorDoubled(p: nat, d: nat)
    requires d > 0
    ensures Xor(2 * p, 2 * d) == 2 * Xor(p, d) && Xor(2 * p + 1, 2 * d) == 2 * Xor(p, d) + 1
  {
    var q, r := p / d, p % d;
    assert p == q * d + r;
    HalfQuotient(2 * p, 2 * d, q, 2 * r);
    HalfQuotient(2 * p + 1, 2 * d, q, 2 * r + 1);
  }

  lemma HalfQuotient(e: nat, d: nat, q: nat, r: nat)
    requires d > 0 && r < d && e == q * d + r
    ensures e / d == q
  {
    var h := e / d;
    assert e == h * d + e % d;
    assert h > q ==> h * d >= (q + 1) * d;
    assert h < q ==> h * d <= (q - 1) * d;
  }

  /** Four shuffle stages; lanes of one slice only meet lanes of the same slice. */
  method Reduce<F>(a: Arith<F>, start: seq<F>, ghost leaves0: seq<F>, ghost leaves1: seq<F>) returns (totals: seq<F>)
    requires |start| == 32 && |leaves0| == |leaves1| == 16
    requires forall p | 0 <= p < 16 :: start[2 * p] == leaves0[p] && start[2 * p + 1] == leaves1[p]
    ensures |totals| == 32
    ensures totals[0] == Tree(a, leaves0, 4, 0) && totals[1] == Tree(a, leaves1, 4, 0)
  {
    hide Xor, Partner;
    totals := start;
    var distance := 2;
    ghost var j := 0;
    while distance < 32
      invariant 0 <= j <= 4 && distance == [2, 4, 8, 16, 32][j]
      invariant |totals| == 32
      invariant StageHolds(a, totals, leaves0, leaves1, j)
    {
      StageAdvances(a, totals, leaves0, leaves1, j, distance);
      totals := Shuffled(a, totals, distance);
      distance := distance * 2;
      j := j + 1;
    }
  }

  /** total += simd_shuffle_xor(total, distance), in every lane at once. */
  function Shuffled<F>(a: Arith<F>, totals: seq<F>, distance: nat): (next: seq<F>)
    requires |totals| == 32 && (distance == 2 || distance == 4 || distance == 8 || distance == 16)
    ensures |next| == 32
    ensures forall lane | 0 <= lane < 32 ::
        Xor(lane, distance) < 32 && next[lane] == a.add(totals[lane], totals[Xor(lane, distance)])
  {
    hide Xor;
    StaysInGroup(distance);
    seq(32, lane requires 0 <= lane < 32 => a.add(totals[lane], totals[Xor(lane, distance)]))
  }

  /** A shuffle at one of the four distances stays among the 32 lanes. */
  lemma StaysInGroup(distance: nat)
    requires distance == 2 || distance == 4 || distance == 8 || distance == 16
    ensures forall lane | 0 <= lane < 32 :: Xor(lane, distance) < 32
  {
    forall lane | 0 <= lane < 32
      ensures Xor(lane, distance) < 32
    {
      if distance == 2 {
        XorBelow(lane, 2, 8);
      } else if distance == 4 {
        XorBelow(lane, 4, 4);
      } else if distance == 8 {
        XorBelow(lane, 8, 2);
      } else {
        XorBelow(lane, 16, 1);
      }
    }
  }

  /** Among pairs of runs of d lanes, i ^ d stays below a whole number of pairs. */
  lemma XorBelow(i: nat, d: nat, pairs: nat)
    requires d > 0 && i < 2 * d * pairs
    ensures Xor(i, d) < 2 * d * pairs
  {
    hide Xor;
    var q, r := i / d, i % d;
    assert i == q * d + r;
    XorSplit(i, d, q, r);
    if q % 2 == 0 {
      BelowEven(q, d, pairs, i);
      assert (q + 1) * d == q * d + d;
      assert (q + 2) * d == q * d + 2 * d;
    }
  }

  lemma XorSplit(i: nat, d: nat, q: nat, r: nat)
    requires d > 0 && q == i / d
    ensures Xor(i, d) == if q % 2 == 0 then i + d else i - d
  {
  }

  lemma BelowEven(q: nat, d: nat, pairs: nat, i: nat)
    requires q % 2 == 0 && d > 0 && q * d <= i < 2 * d * pairs
    ensures (q + 2) * d <= 2 * d * pairs
  {
    var h := q / 2;
    assert q == 2 * h;
    assert h * (2 * d) == q * d;
    assert h >= pairs ==> h * (2 * d) >= pairs * (2 * d);
    assert (h + 1) * (2 * d) <= pairs * (2 * d);
  }

  /** Every lane holds its node of the reduction tree. */
  ghost predicate StageHolds<F>(a: Arith<F>, totals: seq<F>, leaves0: seq<F>, leaves1: seq<F>, j: nat)
    requires |totals| == 32 && |leaves0| == |leaves1| == 16 && j <= 4
  {
    forall p | 0 <= p < 16 :: totals[2 * p] == Tree(a, leaves0, j, p) && totals[2 * p + 1] == Tree(a, leaves1, j, p)
  }

  lemma StageAdvances<F>(a: Arith<F>, totals: seq<F>, leaves0: seq<F>, leaves1: seq<F>, j: nat, distance: nat)
    requires |totals| == 32 && |leaves0| == |leaves1| == 16 && j < 4 && distance == [2, 4, 8, 16][j]
    requires StageHolds(a, totals, leaves0, leaves1, j)
    ensures StageHolds(a, Shuffled(a, totals, distance), leaves0, leaves1, j + 1)
  {
    hide Xor, Partner;
    var next := Shuffled(a, totals, distance);
    forall p | 0 <= p < 16
      ensures next[2 * p] == Tree(a, leaves0, j + 1, p) && next[2 * p + 1] == Tree(a, leaves1, j + 1, p)
    {
      StageKeepsSlice(p, j, distance);
    }
  }

  // Stores

  /** What each output must hold. */
  ghost function Expected<F>(job: Job<F>): (value: (nat, nat) -> F)
    requires job.Valid()
    ensures forall t: nat, r: nat {:trigger value(t, r)} | t < job.batch.tokens && r < job.batch.rows ::
        value(t, r) == Result(job.arith, job.batch.RowAt(r), job.batch.Token(t))
  {
    (t: nat, r: nat) =>
      if t < job.batch.tokens && r < job.batch.rows then Result(job.arith, job.batch.RowAt(r), job.batch.Token(t))
      else job.arith.zero
  }

  /** Rows of a group stored so far: whole rows below row, and c0 / c1 columns of row in the two slices. */
  ghost predicate Stored(tokens: nat, base: nat, perLane: nat, row: nat, c0: nat, c1: nat, t: nat, r: nat)
    requires t < tokens
  {
    || r < base + row
    || (r == base + row && TokenOf(tokens, 0, t) < c0)
    || base + perLane <= r < base + perLane + row
    || (r == base + perLane + row && TokenOf(tokens, 1, t) < c1)
  }

  ghost predicate Counts<F>(job: Job<F>, stores: multiset<(nat, nat)>, base: nat, row: nat, c0: nat, c1: nat) {
    forall t: nat, r: nat ::
      stores[(t, r)] == if t < job.batch.tokens && r < job.batch.rows
        && Stored(job.batch.tokens, base, job.rowsPerLane, row, c0, c1, t, r) then 1 else 0
  }

  lemma CountsSlice0<F>(job: Job<F>, before: multiset<(nat, nat)>, after: multiset<(nat, nat)>, base: nat, row: nat,
                        c: nat)
    requires row < job.rowsPerLane && c < job.batch.tokens
    requires Counts(job, before, base, row, c, c)
    requires after == if base + row < job.batch.rows
             then before + multiset{(TokenOf(job.batch.tokens, 0, c), base + row)} else before
    ensures Counts(job, after, base, row, c + 1, c)
  {
    hide TokenOf;
    forall t: nat, r: nat
      ensures after[(t, r)]
           == if t < job.batch.tokens && r < job.batch.rows
             && Stored(job.batch.tokens, base, job.rowsPerLane, row, c + 1, c, t, r) then 1 else 0
    {
      if t < job.batch.tokens {
        TokenOfInvolutive(job.batch.tokens, 0, t);
        TokenOfInvolutive(job.batch.tokens, 0, c);
      }
      assert before[(t, r)]
          == if t < job.batch.tokens && r < job.batch.rows
            && Stored(job.batch.tokens, base, job.rowsPerLane, row, c, c, t, r) then 1 else 0;
    }
  }

  lemma CountsSlice1<F>(job: Job<F>, before: multiset<(nat, nat)>, after: multiset<(nat, nat)>, base: nat, row: nat,
                        c: nat)
    requires row < job.rowsPerLane && c < job.batch.tokens
    requires Counts(job, before, base, row, c + 1, c)
    requires after == if base + job.rowsPerLane + row < job.batch.rows
                      then before + multiset{(TokenOf(job.batch.tokens, 1, c), base + job.rowsPerLane + row)}
                        else before
    ensures Counts(job, after, base, row, c + 1, c + 1)
  {
    hide TokenOf;
    forall t: nat, r: nat
      ensures after[(t, r)]
           == if t < job.batch.tokens && r < job.batch.rows
             && Stored(job.batch.tokens, base, job.rowsPerLane, row, c + 1, c + 1, t, r) then 1 else 0
    {
      if t < job.batch.tokens {
        TokenOfInvolutive(job.batch.tokens, 1, t);
        TokenOfInvolutive(job.batch.tokens, 1, c);
      }
      assert before[(t, r)]
          == if t < job.batch.tokens && r < job.batch.rows
            && Stored(job.batch.tokens, base, job.rowsPerLane, row, c + 1, c, t, r) then 1 else 0;
    }
  }

  lemma CountsNextRow<F>(job: Job<F>, stores: multiset<(nat, nat)>, base: nat, row: nat)
    requires row < job.rowsPerLane
    requires Counts(job, stores, base, row, job.batch.tokens, job.batch.tokens)
    ensures Counts(job, stores, base, row + 1, 0, 0)
  {
    forall t: nat, r: nat | t < job.batch.tokens
      ensures Stored(job.batch.tokens, base, job.rowsPerLane, row, job.batch.tokens, job.batch.tokens, t, r)
           == Stored(job.batch.tokens, base, job.rowsPerLane, row + 1, 0, 0, t, r)
    {
    }
  }

  lemma CountsNone<F>(job: Job<F>)
    ensures Counts(job, multiset{}, 0, 0, 0, 0)
  {
  }

  lemma CountsNextGroup<F>(job: Job<F>, stores: multiset<(nat, nat)>, base: nat)
    requires Counts(job, stores, base, job.rowsPerLane, 0, 0)
    ensures Counts(job, stores, base + 2 * job.rowsPerLane, 0, 0, 0)
  {
    forall t: nat, r: nat | t < job.batch.tokens
      ensures Stored(job.batch.tokens, base, job.rowsPerLane, job.rowsPerLane, 0, 0, t, r)
           == Stored(job.batch.tokens, base + 2 * job.rowsPerLane, job.rowsPerLane, 0, 0, 0, t, r)
    {
    }
  }

  lemma CountsAll<F>(job: Job<F>, stores: multiset<(nat, nat)>, base: nat)
    requires job.batch.rows <= base && Counts(job, stores, base, 0, 0, 0)
    ensures StoredOnce(job.batch.tokens, job.batch.rows, stores)
  {
  }

  /** All 32 lanes hold their finished registers. */
  ghost predicate LanesHold<F>(job: Job<F>, group: nat, sums: seq<seq<seq<F>>>, pairs: nat)
    requires job.Valid() && pairs <= 16
  {
    && |sums| == 2 * pairs
    && (forall p | 0 <= p < pairs :: Registers(job, group, 0, p, sums[2 * p], job.batch.tokens, 0, job.batch.blocks))
    && (forall p | 0 <= p < pairs ::
          Registers(job, group, 1, p, sums[2 * p + 1], job.batch.tokens, 0, job.batch.blocks))
  }

  method AllPairs<F>(job: Job<F>, group: nat) returns (sums: seq<seq<seq<F>>>)
    requires job.Valid()
    ensures LanesHold(job, group, sums, 16)
  {
    hide Registers;
    sums := [];
    for pair := 0 to 16
      invariant LanesHold(job, group, sums, pair)
    {
      var sums0, sums1 := Pair(job, group, pair);
      sums := sums + [sums0, sums1];
    }
  }

  /** The reduction of row and column c gives the two slices their results. */
  method ReduceColumn<F>(job: Job<F>, group: nat, sums: seq<seq<seq<F>>>, row: nat, c: nat)
    returns (total0: F, total1: F)
    requires job.Valid() && LanesHold(job, group, sums, 16) && row < job.rowsPerLane && c < job.batch.tokens
    ensures total0 == Result(job.arith, job.batch.RowAt(SourceRow(job, group, 0, row)),
                             job.batch.Token(TokenOf(job.batch.tokens, 0, c)))
    ensures total1 == Result(job.arith, job.batch.RowAt(SourceRow(job, group, 1, row)),
                             job.batch.Token(TokenOf(job.batch.tokens, 1, c)))
  {
    hide LaneChain, Tree, TokenOf, SourceRow;
    forall lane | 0 <= lane < 32
      ensures row < |sums[lane]| && c < |sums[lane][row]|
    {
      assert lane == 2 * (lane / 2) || lane == 2 * (lane / 2) + 1;
    }
    var start := seq(32, lane requires 0 <= lane < 32 => sums[lane][row][c]);
    var totals := Reduce(job.arith, start,
                         Leaves(job.arith, job.batch.RowAt(SourceRow(job, group, 0, row)),
                                job.batch.Token(TokenOf(job.batch.tokens, 0, c))),
                         Leaves(job.arith, job.batch.RowAt(SourceRow(job, group, 1, row)),
                                job.batch.Token(TokenOf(job.batch.tokens, 1, c))));
    total0, total1 := totals[0], totals[1];
  }

  lemma SourceRowsInRange<F>(job: Job<F>, group: nat, base: nat, row: nat)
    requires job.Valid() && base == 2 * group * job.rowsPerLane
    ensures base + row < job.batch.rows ==> SourceRow(job, group, 0, row) == base + row
    ensures base + job.rowsPerLane + row < job.batch.rows ==>
              SourceRow(job, group, 1, row) == base + job.rowsPerLane + row
  {
    assert (2 * group + 1) * job.rowsPerLane == base + job.rowsPerLane;
  }

  /** Reduction and guarded stores of one row of each slice, for every token. */
  method StoreRow<F>(job: Job<F>, group: nat, base: nat, sums: seq<seq<seq<F>>>, row: nat, output: array<F>,
                     before: multiset<(nat, nat)>)
    returns (stores: multiset<(nat, nat)>)
    requires job.Valid() && base == 2 * group * job.rowsPerLane && LanesHold(job, group, sums, 16)
    requires row < job.rowsPerLane && HasRoom(job.batch, output)
    requires Written(job.batch, Expected(job), output, before) && Counts(job, before, base, row, 0, 0)
    modifies output
    ensures Written(job.batch, Expected(job), output, stores) && Counts(job, stores, base, row + 1, 0, 0)
    ensures Untouched(job.batch, old(output[..]), output[..])
  {
    hide Result, LanesHold, Counts, Written, TokenOf, SourceRow, Untouched, HasRoom, Expected;
    stores := before;
    UntouchedNever(job.batch, output[..]);
    SourceRowsInRange(job, group, base, row);
    for c := 0 to job.batch.tokens
      invariant Written(job.batch, Expected(job), output, stores) && Counts(job, stores, base, row, c, c)
      invariant Untouched(job.batch, old(output[..]), output[..])
    {
      var total0, total1 := ReduceColumn(job, group, sums, row, c);
      ghost var now := output[..];
      var stores0 :=
            StoreCell(job.batch, Expected(job), output, TokenOf(job.batch.tokens, 0, c), base + row, total0, stores);
      CountsSlice0(job, stores, stores0, base, row, c);
      UntouchedTwice(job.batch, old(output[..]), now, output[..]);
      now := output[..];
      stores :=
        StoreCell(job.batch, Expected(job), output, TokenOf(job.batch.tokens, 1, c), base + job.rowsPerLane + row,
                  total1, stores0);
      CountsSlice1(job, stores0, stores, base, row, c);
      UntouchedTwice(job.batch, old(output[..]), now, output[..]);
    }
    CountsNextRow(job, stores, base, row);
  }

  /** One threadgroup: sixteen pairs, then the reduction and the guarded stores of pair 0. */
  method Group<F>(job: Job<F>, group: nat, base: nat, output: array<F>, before: multiset<(nat, nat)>)
    returns (stores: multiset<(nat, nat)>)
    requires job.Valid() && base == 2 * group * job.rowsPerLane
    requires HasRoom(job.batch, output)
    requires Written(job.batch, Expected(job), output, before) && Counts(job, before, base, 0, 0, 0)
    modifies output
    ensures Written(job.batch, Expected(job), output, stores) && Counts(job, stores, base, job.rowsPerLane, 0, 0)
    ensures Untouched(job.batch, old(output[..]), output[..])
  {
    hide Result, LanesHold, Counts, Written;
    var sums := AllPairs(job, group);
    stores := before;
    for row := 0 to job.rowsPerLane
      invariant Written(job.batch, Expected(job), output, stores) && Counts(job, stores, base, row, 0, 0)
      invariant Untouched(job.batch, old(output[..]), output[..])
    {
      stores := StoreRow(job, group, base, sums, row, output, stores);
    }
  }

  /**
   ceil(rows / (2 * rowsPerLane)) groups. Every (token, row) is stored exactly once and holds
   Result of its own row and token, whatever the token count, the rows per lane, the lane
   that loaded the token and the clamped tail; nothing else is written.
   */
  method Dispatch<F>(job: Job<F>, output: array<F>) returns (stores: multiset<(nat, nat)>)
    requires job.Valid() && HasRoom(job.batch, output)
    modifies output
    ensures StoredOnce(job.batch.tokens, job.batch.rows, stores)
    ensures forall t: nat, r: nat | t < job.batch.tokens && r < job.batch.rows ::
        job.batch.Slot(t, r) < output.Length
          && output[job.batch.Slot(t, r)] == Result(job.arith, job.batch.RowAt(r), job.batch.Token(t))
    ensures Untouched(job.batch, old(output[..]), output[..])
  {
    hide Result, Counts, StoredOnce, Written;
    stores := multiset{};
    var group, base := 0, 0;
    CountsNone(job);
    NothingWritten(job.batch, Expected(job), output);
    while base < job.batch.rows
      invariant base == 2 * group * job.rowsPerLane
      invariant Written(job.batch, Expected(job), output, stores) && Counts(job, stores, base, 0, 0, 0)
      invariant Untouched(job.batch, old(output[..]), output[..])
    {
      stores := Group(job, group, base, output, stores);
      CountsNextGroup(job, stores, base);
      group, base := group + 1, base + 2 * job.rowsPerLane;
    }
    CountsAll(job, stores, base);
    AllWritten(job.batch, Expected(job), output, stores);
  }

  // The same result as the reference

  /** Products of a part's first n slots. */
  lemma PartChainNone(codes: seq<Byte>, x: seq<real>, part: nat)
    requires |codes| == 26 && |x| == 128 && part < 8
    ensures PartChain(Exact(), codes, x, part, 0) == 0.0
  {
  }

  lemma PartChainNext(codes: seq<Byte>, x: seq<real>, part: nat, n: nat)
    requires |codes| == 26 && |x| == 128 && part < 8 && n < 16
    ensures PartChain(Exact(), codes, x, part, n + 1)
         == PartChain(Exact(), codes, x, part, n) + Term(codes, x)(PartElement(part, n))
  {
    hide Trit, PartElement;
  }

  lemma {:induction false} PartChainExact(codes: seq<Byte>, x: seq<real>, part: nat, n: nat, f: int -> real)
    requires |codes| == 26 && |x| == 128 && part < 8 && n <= 16
    requires forall i | 0 <= i < n :: f(i) == Term(codes, x)(PartElement(part, i))
    ensures PartChain(Exact(), codes, x, part, n) == Sum(n, f)
  {
    hide Trit, PartElement, PartChain, Sum, Term;
    if n == 0 {
      PartChainNone(codes, x, part);
      SumNone(f);
    } else {
      PartChainExact(codes, x, part, n - 1, f);
      PartChainNext(codes, x, part, n - 1);
      SumNext(n - 1, f);
    }
  }

  function PartOf(e: nat): (part: nat)
    requires e < 128
    ensures part < 8
  {
    if e < 80 then e % 16 / 2 else e % 8
  }

  function SlotOf(e: nat): (i: nat)
    requires e < 128
    ensures i < 16
  {
    if e < 80 then 5 * (e % 2) + e / 16 else if e < 120 then 10 + (e - 80) / 8 else 15
  }

  /** Eight parts of sixteen slots own every element exactly once. */
  lemma PartsAreBijective(part: nat, i: nat, e: nat)
    requires part < 8 && i < 16 && e < 128
    ensures PartElement(part, i) == e <==> part == PartOf(e) && i == SlotOf(e)
  {
    if PartElement(part, i) == e {
      PartForth(part, i);
    }
    PartBack(e);
  }

  lemma PartForth(part: nat, i: nat)
    requires part < 8 && i < 16
    ensures PartOf(PartElement(part, i)) == part && SlotOf(PartElement(part, i)) == i
  {
    if i < 10 {
      PartDigits(part, i / 5, i % 5);
    }
  }

  lemma PartDigits(part: nat, k: nat, n: nat)
    requires part < 8 && k < 2 && n < 5
    ensures var e := 2 * part + k + 16 * n; e / 16 == n && e % 16 == 2 * part + k && e % 2 == k && e % 16 / 2 == part
  {
  }

  lemma PartBack(e: nat)
    requires e < 128
    ensures PartElement(PartOf(e), SlotOf(e)) == e
  {
    if e < 80 {
      PartDigits(e % 16 / 2, e % 16 % 2, e / 16);
      assert SlotOf(e) / 5 == e % 2 && SlotOf(e) % 5 == e / 16;
    }
  }

  /** The eight parts of a block add up to the block. */
  lemma PartsCoverBlock(codes: seq<Byte>, x: seq<real>, g: int -> real)
    requires |codes| == 26 && |x| == 128
    requires forall p | 0 <= p < 8 :: g(p) == PartWhole(codes, x, p)
    ensures Sum(8, g) == Sum(128, Term(codes, x))
  {
    hide Sum, PartElement, PartOf, SlotOf, PartChain, Term, Elements, Parts, Slots;
    var t, element, owner, slot := Term(codes, x), Elements(), Parts(), Slots();
    forall p, i | 0 <= p < 8 && 0 <= i < 16
      ensures 0 <= element(p, i) < 128 && owner(element(p, i)) == p && slot(element(p, i)) == i
    {
      PartForth(p, i);
    }
    forall e | 0 <= e < 128
      ensures 0 <= owner(e) < 8 && 0 <= slot(e) < 16 && element(owner(e), slot(e)) == e
    {
      PartBack(e);
    }
    forall p | 0 <= p < 8
      ensures g(p) == Sum(16, i => t(element(p, i)))
    {
      PartChainExact(codes, x, p, 16, i => t(element(p, i)));
    }
    SumRectangle(128, 8, 16, element, owner, slot, t, g);
  }

  ghost function Elements(): (f: (int, int) -> int)
    ensures forall p, i {:trigger f(p, i)} | 0 <= p < 8 && 0 <= i < 16 :: f(p, i) == PartElement(p, i)
  {
    (p, i) => if 0 <= p < 8 && 0 <= i < 16 then PartElement(p, i) else 0
  }

  ghost function Parts(): (f: int -> int)
    ensures forall e {:trigger f(e)} | 0 <= e < 128 :: f(e) == PartOf(e)
  {
    e => if 0 <= e < 128 then PartOf(e) else 0
  }

  ghost function Slots(): (f: int -> int)
    ensures forall e {:trigger f(e)} | 0 <= e < 128 :: f(e) == SlotOf(e)
  {
    e => if 0 <= e < 128 then SlotOf(e) else 0
  }

  /** The exact sum of a part's sixteen products. */
  ghost function PartWhole(codes: seq<Byte>, x: seq<real>, part: nat): real
    requires |codes| == 26 && |x| == 128 && part < 8
  {
    PartChain(Exact(), codes, x, part, 16)
  }

  /** A pair's scaled share of block k. */
  ghost function PartShare(row: seq<RawBlock<real>>, x: seq<real>, part: nat): (f: int -> real)
    requires ValidRow(row) && |x| == 128 * |row| && part < 8
    ensures forall k {:trigger f(k)} | 0 <= k < |row| ::
        f(k) == row[k].scale * PartWhole(row[k].codes, BlockInput(x, k), part)
  {
    hide PartWhole;
    k => if 0 <= k < |row| then row[k].scale * PartWhole(row[k].codes, BlockInput(x, k), part) else 0.0
  }

  lemma {:induction false} LaneChainExact(row: seq<RawBlock<real>>, x: seq<real>, pair: nat, n: nat)
    requires ValidRow(row) && |x| == 128 * |row| && pair < 16 && n <= |row|
    ensures LaneChain(Exact(), row, x, pair, n) == Sum(n, Residue(2, pair / 8, PartShare(row, x, pair % 8)))
  {
    hide PartChain, LaneChain, Sum, BlockInput;
    var f := Residue(2, pair / 8, PartShare(row, x, pair % 8));
    if n == 0 {
      LaneChainNone(row, x, pair);
      SumNone(f);
    } else {
      LaneChainExact(row, x, pair, n - 1);
      LaneChainNext(row, x, pair, n - 1);
      SumNext(n - 1, f);
    }
  }

  lemma LaneChainNone(row: seq<RawBlock<real>>, x: seq<real>, pair: nat)
    requires ValidRow(row) && |x| == 128 * |row| && pair < 16
    ensures LaneChain(Exact(), row, x, pair, 0) == 0.0
  {
  }

  lemma LaneChainNext(row: seq<RawBlock<real>>, x: seq<real>, pair: nat, n: nat)
    requires ValidRow(row) && |x| == 128 * |row| && pair < 16 && n < |row|
    ensures LaneChain(Exact(), row, x, pair, n + 1)
         == LaneChain(Exact(), row, x, pair, n) + if n % 2 == pair / 8 then PartShare(row, x, pair % 8)(n) else 0.0
  {
    hide PartChain, BlockInput;
  }

  ghost function At(leaves: seq<real>): (f: int -> real)
    ensures forall p {:trigger f(p)} | 0 <= p < |leaves| :: f(p) == leaves[p]
  {
    p => if 0 <= p < |leaves| then leaves[p] else 0.0
  }

  /** Without rounding the reduction tree is the plain sum of its leaves. */
  lemma TreeExact(l: seq<real>)
    requires |l| == 16
    ensures Tree(Exact(), l, 4, 0) == Sum(16, At(l))
  {
    var a, f := Exact(), At(l);
    TreePair(l, 0); TreePair(l, 2); TreePair(l, 4); TreePair(l, 6);
    TreePair(l, 8); TreePair(l, 10); TreePair(l, 12); TreePair(l, 14);
    assert Tree(a, l, 2, 0) == Tree(a, l, 1, 0) + Tree(a, l, 1, 2);
    assert Tree(a, l, 2, 4) == Tree(a, l, 1, 4) + Tree(a, l, 1, 6);
    assert Tree(a, l, 2, 8) == Tree(a, l, 1, 8) + Tree(a, l, 1, 10);
    assert Tree(a, l, 2, 12) == Tree(a, l, 1, 12) + Tree(a, l, 1, 14);
    assert Tree(a, l, 3, 0) == Tree(a, l, 2, 0) + Tree(a, l, 2, 4);
    assert Tree(a, l, 3, 8) == Tree(a, l, 2, 8) + Tree(a, l, 2, 12);
  }

  lemma TreePair(l: seq<real>, p: nat)
    requires |l| == 16 && p < 16 && p % 2 == 0
    ensures Sum(p + 2, At(l)) == Sum(p, At(l)) + Tree(Exact(), l, 1, p)
  {
    assert Sum(p + 2, At(l)) == Sum(p + 1, At(l)) + l[p + 1];
    assert Partner(p, 0) == p + 1;
  }

  /** In exact arithmetic every output is the reference dot product. */
  lemma ResultExact(row: seq<RawBlock<real>>, x: seq<real>)
    requires ValidRow(row) && |x| == 128 * |row|
    ensures Result(Exact(), row, x) == RowDot(row, x)
  {
    hide Sum, LaneChain, Tree, PartChain, BlockDot;
    var leaves := Leaves(Exact(), row, x);
    TreeExact(leaves);
    var half := h => if 0 <= h < 2 then Sum(|row|, Residue(2, h, RowTerm(row, x))) else 0.0;
    forall h | 0 <= h < 2
      ensures half(h) == Sum(8, p => At(leaves)(h * 8 + p))
    {
      PartsCoverResidue(row, x, h, p => At(leaves)(h * 8 + p));
    }
    SumBlocks(2, 8, At(leaves), half);
    SumResidues(|row|, 2, RowTerm(row, x), half);
  }

  /** In exact arithmetic a dispatch leaves every output its sum over the raw buffers. */
  lemma DispatchExact(job: Job<real>, output: seq<real>)
    requires job.Valid() && job.arith == Exact()
    requires forall t: nat, r: nat | t < job.batch.tokens && r < job.batch.rows ::
               job.batch.Slot(t, r) < |output|
               && output[job.batch.Slot(t, r)] == Result(job.arith, job.batch.RowAt(r), job.batch.Token(t))
    ensures Projected(job.batch, output)
  {
    hide Result, RowDot, Exact, Projected;
    var batch := job.batch;
    forall t: nat, r: nat | t < batch.tokens && r < batch.rows
      ensures batch.Slot(t, r) < |output| && output[batch.Slot(t, r)] == RowDot(batch.RowAt(r), batch.Token(t))
    {
      ResultExact(batch.RowAt(r), batch.Token(t));
    }
    AllProjected(batch, output);
  }

  lemma PartsCoverResidue(row: seq<RawBlock<real>>, x: seq<real>, h: nat, g: int -> real)
    requires ValidRow(row) && |x| == 128 * |row| && h < 2
    requires forall p | 0 <= p < 8 :: g(p) == LaneChain(Exact(), row, x, h * 8 + p, |row|)
    ensures Sum(8, g) == Sum(|row|, Residue(2, h, RowTerm(row, x)))
  {
    hide Sum, LaneChain, PartChain, Term;
    var cell := (p: int, k: int) => if 0 <= p < 8 then PartShare(row, x, p)(k) else 0.0;
    forall p | 0 <= p < 8
      ensures g(p) == Sum(|row|, Residue(2, h, k => cell(p, k)))
    {
      assert (h * 8 + p) / 8 == h && (h * 8 + p) % 8 == p;
      LaneChainExact(row, x, h * 8 + p, |row|);
      SumEq(|row|, Residue(2, h, PartShare(row, x, p)), Residue(2, h, k => cell(p, k)));
    }
    forall k | 0 <= k < |row|
      ensures RowTerm(row, x)(k) == Sum(8, p => cell(p, k))
    {
      var y := BlockInput(x, k);
      var chain := p => if 0 <= p < 8 then PartWhole(row[k].codes, y, p) else 0.0;
      PartsCoverBlock(row[k].codes, y, chain);
      forall p | 0 <= p < 8
        ensures cell(p, k) == row[k].scale * chain(p)
      {
        assert PartShare(row, x, p)(k) == row[k].scale * PartWhole(row[k].codes, y, p);
      }
      SumScale(8, row[k].scale, chain, p => cell(p, k));
    }
    SumResidueColumns(|row|, 2, h, 8, cell, RowTerm(row, x), g);
  }
}
