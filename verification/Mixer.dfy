/**
 The BF16 projection and the causal convolution of shaders/bonsai_mixer.h, over
 uninterpreted arithmetic: equal results are equal expressions in source order.
 */
module Mixer {
  import opened Common
  import opened Sums
  import opened Projection

  /** W is the packed weight type; widen is the shift of a BF16 pattern into an F32. */
  datatype Ops<!F, !W> = Ops(
    zero: F,
    mul: (F, F) -> F,
    fma: (F, F, F) -> F,
    silu: F -> F,
    simdSum: seq<F> -> F,
    widen: W -> F)

  // Strided chains

  /** A lane's fused multiply-adds over its columns below n, in column order. */
  function Chain<F, W>(o: Ops<F, W>, w: seq<W>, x: seq<F>, lane: nat, n: nat): F
    requires n <= |w| && n <= |x|
  {
    if n == 0 then o.zero
    else if (n - 1) % 32 == lane then o.fma(o.widen(w[n - 1]), x[n - 1], Chain(o, w, x, lane, n - 1))
    else Chain(o, w, x, lane, n - 1)
  }

  /** From one column of the lane to the next the chain grows by one step. */
  lemma {:induction false} ChainStep<F, W>(o: Ops<F, W>, w: seq<W>, x: seq<F>, lane: nat, column: nat, upto: nat)
    requires lane < 32 && column % 32 == lane && column < upto <= column + 32 && upto <= |w| && upto <= |x|
    ensures Chain(o, w, x, lane, upto) == o.fma(o.widen(w[column]), x[column], Chain(o, w, x, lane, column))
    decreases upto
  {
    if upto > column + 1 {
      ChainStep(o, w, x, lane, column, upto - 1);
    }
  }

  lemma {:induction false} ChainStart<F, W>(o: Ops<F, W>, w: seq<W>, x: seq<F>, lane: nat, n: nat)
    requires n <= lane < 32 && n <= |w| && n <= |x|
    ensures Chain(o, w, x, lane, n) == o.zero
  {
    if n > 0 {
      ChainStart(o, w, x, lane, n - 1);
    }
  }

  /** One output, fixed by its weight row and its token's activations. */
  function Result<F, W>(o: Ops<F, W>, w: seq<W>, x: seq<F>): F
    requires |w| == |x|
  {
    o.simdSum(seq(32, lane requires 0 <= lane < 32 => Chain(o, w, x, lane, |w|)))
  }

  lemma StaysInLane(column: nat, i: nat, lane: nat)
    requires column % 32 == lane
    ensures (column + i * 32) % 32 == lane
  {
  }

  /** Eight activations loaded, then their fused multiply-adds in column order. */
  method EightSteps<F, W>(o: Ops<F, W>, weight: seq<F>, x: seq<F>, lane: nat, column: nat, before: F, ghost w: seq<W>)
    returns (sum: F)
    requires |w| == |x| && lane < 32 && column % 32 == lane && column + 7 * 32 < |w|
    requires |weight| == 8 && forall i | 0 <= i < 8 :: weight[i] == o.widen(w[column + i * 32])
    requires before == Chain(o, w, x, lane, column)
    ensures sum == Chain(o, w, x, lane, Min(column + 256, |w|))
  {
    hide Chain;
    var value := seq(8, i requires 0 <= i < 8 => x[column + i * 32]);
    sum := before;
    for i := 0 to 8
      invariant sum == Chain(o, w, x, lane, Min(column + i * 32, |w|))
    {
      StaysInLane(column, i, lane);
      ChainStep(o, w, x, lane, column + i * 32, Min(column + i * 32 + 32, |w|));
      sum := o.fma(weight[i], value[i], sum);
    }
  }

  /** bonsai_bf16_mv_impl in one lane: eight columns at a time, then the tail. */
  method SingleLane<F, W>(o: Ops<F, W>, w: seq<W>, x: seq<F>, lane: nat) returns (sum: F)
    requires |w| == |x| && lane < 32
    ensures sum == Chain(o, w, x, lane, |w|)
  {
    hide Chain;
    var columns := |w|;
    sum := o.zero;
    var column := lane;
    ChainStart(o, w, x, lane, Min(lane, columns));
    while column + 7 * 32 < columns
      invariant column % 32 == lane && sum == Chain(o, w, x, lane, Min(column, columns))
    {
      var weight := seq(8, i requires 0 <= i < 8 => o.widen(w[column + i * 32]));
      sum := EightSteps(o, weight, x, lane, column, sum, w);
      StaysInLane(column, 8, lane);
      column := column + 8 * 32;
    }
    while column < columns
      invariant column % 32 == lane && sum == Chain(o, w, x, lane, Min(column, columns))
    {
      ChainStep(o, w, x, lane, column, Min(column + 32, columns));
      sum := o.fma(o.widen(w[column]), x[column], sum);
      StaysInLane(column, 1, lane);
      column := column + 32;
    }
  }

  /** Several tokens' chains advanced to column n. */
  ghost predicate Chains<F, W>(o: Ops<F, W>, w: seq<W>, xs: seq<seq<F>>, lane: nat, n: nat, done: nat, upto: nat,
                               sums: seq<F>)
    requires n <= |w| && upto <= |w| && forall t | 0 <= t < |xs| :: |xs[t]| == |w|
  {
    |sums| == |xs| && forall t | 0 <= t < |xs| :: sums[t] == Chain(o, w, xs[t], lane, if t < done then upto else n)
  }

  /** bonsai_bf16_mv_tokens_impl in one lane: each weight loaded once serves every token's own chain. */
  method TokensLane<F, W>(o: Ops<F, W>, w: seq<W>, xs: seq<seq<F>>, lane: nat) returns (sums: seq<F>)
    requires lane < 32 && forall t | 0 <= t < |xs| :: |xs[t]| == |w|
    ensures Chains(o, w, xs, lane, |w|, 0, |w|, sums)
  {
    hide Chain;
    var columns := |w|;
    sums := seq(|xs|, _ => o.zero);
    var column := lane;
    forall t | 0 <= t < |xs| {
      ChainStart(o, w, xs[t], lane, Min(lane, columns));
    }
    while column + 7 * 32 < columns
      invariant column % 32 == lane && Chains(o, w, xs, lane, Min(column, columns), 0, 0, sums)
    {
      sums := EightColumns(o, w, xs, lane, column, sums);
      StaysInLane(column, 8, lane);
      column := column + 8 * 32;
    }
    while column < columns
      invariant column % 32 == lane && Chains(o, w, xs, lane, Min(column, columns), 0, 0, sums)
    {
      var weight := o.widen(w[column]);
      for t := 0 to |xs|
        invariant Chains(o, w, xs, lane, column, t, Min(column + 32, columns), sums)
      {
        ChainStep(o, w, xs[t], lane, column, Min(column + 32, columns));
        sums := sums[t := o.fma(weight, xs[t][column], sums[t])];
      }
      StaysInLane(column, 1, lane);
      column := column + 32;
    }
  }

  /** Eight columns for every token, from one load of their weights. */
  method EightColumns<F, W>(o: Ops<F, W>, w: seq<W>, xs: seq<seq<F>>, lane: nat, column: nat, before: seq<F>)
    returns (sums: seq<F>)
    requires lane < 32 && forall t | 0 <= t < |xs| :: |xs[t]| == |w|
    requires column % 32 == lane && column + 7 * 32 < |w| && Chains(o, w, xs, lane, column, 0, 0, before)
    ensures Chains(o, w, xs, lane, Min(column + 256, |w|), 0, 0, sums)
  {
    hide Chain;
    sums := before;
    var weight := seq(8, i requires 0 <= i < 8 => o.widen(w[column + i * 32]));
    for t := 0 to |xs|
      invariant Chains(o, w, xs, lane, column, t, Min(column + 256, |w|), sums)
    {
      var sum := EightSteps(o, weight, xs[t], lane, column, sums[t], w);
      sums := sums[t := sum];
    }
  }

  // Dispatches

  /** rows x columns weights, tokens x columns activations and tokens x rows outputs. */
  datatype Job<!F, !W> = Job(ops: Ops<F, W>, weights: seq<W>, input: seq<F>, rows: nat, columns: nat, tokens: nat) {
    ghost predicate Valid() {
      |weights| == rows * columns && |input| == tokens * columns
    }

    function RowAt(r: nat): (w: seq<W>)
      requires Valid() && r < rows
      ensures |w| == columns
    {
      TokenFits(r, rows, columns);
      weights[r * columns..r * columns + columns]
    }

    function TokenAt(t: nat): (x: seq<F>)
      requires Valid() && t < tokens
      ensures |x| == columns
    {
      TokenFits(t, tokens, columns);
      input[t * columns..t * columns + columns]
    }

    function Value(t: nat, r: nat): F
      requires Valid() && t < tokens && r < rows
    {
      Result(ops, RowAt(r), TokenAt(t))
    }
  }

  /** The output cell, and group, of a token and row. */
  function GroupOf(t: nat, rows: nat, r: nat): nat { t * rows + r }

  lemma GroupFits(t: nat, tokens: nat, r: nat, rows: nat)
    requires t < tokens && r < rows
    ensures GroupOf(t, rows, r) < tokens * rows
  {
    Index2(t, tokens, r, rows);
  }

  lemma SameGroup(rows: nat, t: nat, r: nat, u: nat, q: nat)
    requires r < rows && q < rows && GroupOf(t, rows, r) == GroupOf(u, rows, q)
    ensures t == u && r == q
  {
    SlotsDiffer(rows, t, r, u, q);
  }

  /** Stored cells hold their values. */
  ghost predicate Holds<F, W>(job: Job<F, W>, output: seq<F>, stores: multiset<(nat, nat)>)
    requires job.Valid()
  {
    forall t: nat, r: nat | t < job.tokens && r < job.rows && (t, r) in stores :: HoldsAt(job, output, t, r)
  }

  ghost predicate HoldsAt<F, W>(job: Job<F, W>, output: seq<F>, t: nat, r: nat)
    requires job.Valid() && t < job.tokens && r < job.rows
  {
    GroupOf(t, job.rows, r) < |output| && output[GroupOf(t, job.rows, r)] == job.Value(t, r)
  }

  lemma HoldsAfter<F, W>(job: Job<F, W>, output: seq<F>, stores: multiset<(nat, nat)>, t: nat, r: nat, v: F)
    requires job.Valid() && |output| == job.tokens * job.rows && t < job.tokens && r < job.rows
    requires Holds(job, output, stores) && v == job.Value(t, r)
    ensures GroupOf(t, job.rows, r) < |output|
    ensures Holds(job, output[GroupOf(t, job.rows, r) := v], stores + multiset{(t, r)})
  {
    hide Job.Value, Job.Valid, GroupOf;
    GroupFits(t, job.tokens, r, job.rows);
    var next := output[GroupOf(t, job.rows, r) := v];
    forall u: nat, q: nat | u < job.tokens && q < job.rows && (u, q) in stores + multiset{(t, r)}
      ensures HoldsAt(job, next, u, q)
    {
      if GroupOf(u, job.rows, q) == GroupOf(t, job.rows, r) {
        SameGroup(job.rows, u, q, t, r);
      } else {
        assert HoldsAt(job, output, u, q);
      }
    }
  }

  method SingleGroup<F, W>(o: Ops<F, W>, w: seq<W>, x: seq<F>) returns (total: F)
    requires |w| == |x|
    ensures total == Result(o, w, x)
  {
    hide Chain;
    var lanes: seq<F> := [];
    for lane := 0 to 32
      invariant |lanes| == lane && forall i | 0 <= i < lane :: lanes[i] == Chain(o, w, x, i, |w|)
    {
      var sum := SingleLane(o, w, x, lane);
      lanes := lanes + [sum];
    }
    assert lanes == seq(32, lane requires 0 <= lane < 32 => Chain(o, w, x, lane, |w|));
    total := o.simdSum(lanes);
  }

  /** Exactly the cells of the first groups are stored, each once. */
  ghost predicate StoredBelow<F, W>(job: Job<F, W>, stores: multiset<(nat, nat)>, group: nat) {
    forall t: nat, r: nat ::
      stores[(t, r)] == if t < job.tokens && r < job.rows && GroupOf(t, job.rows, r) < group then 1 else 0
  }

  /** A group is one token and row: its quotient and its remainder. */
  method GroupSplit(group: nat, tokens: nat, rows: nat) returns (token: nat, row: nat)
    requires group < tokens * rows
    ensures token < tokens && row < rows && GroupOf(token, rows, row) == group
  {
    Positive(tokens, rows);
    Quotient(group, tokens, rows);
    row, token := group % rows, group / rows;
  }

  lemma Positive(tokens: nat, rows: nat)
    requires tokens * rows > 0
    ensures rows > 0
  {
  }

  lemma Quotient(group: nat, tokens: nat, rows: nat)
    requires rows > 0 && group < tokens * rows
    ensures group / rows < tokens && group == group / rows * rows + group % rows
  {
    var t := group / rows;
    assert group == t * rows + group % rows;
    if tokens <= t {
      MulMonotone(tokens, t, rows);
    }
  }

  lemma StoredNextGroup<F, W>(job: Job<F, W>, stores: multiset<(nat, nat)>, token: nat, row: nat)
    requires token < job.tokens && row < job.rows && StoredBelow(job, stores, GroupOf(token, job.rows, row))
    ensures StoredBelow(job, stores + multiset{(token, row)}, GroupOf(token, job.rows, row) + 1)
  {
    hide GroupOf;
    var group := GroupOf(token, job.rows, row);
    var next := stores + multiset{(token, row)};
    forall t: nat, r: nat
      ensures next[(t, r)] == if t < job.tokens && r < job.rows && GroupOf(t, job.rows, r) < group + 1 then 1 else 0
    {
      if t < job.tokens && r < job.rows && GroupOf(t, job.rows, r) == group {
        SameGroup(job.rows, t, r, token, row);
      }
    }
  }

  lemma AllGroupsStored<F, W>(job: Job<F, W>, stores: multiset<(nat, nat)>)
    requires StoredBelow(job, stores, job.tokens * job.rows)
    ensures StoredOnce(job.tokens, job.rows, stores)
  {
    hide GroupOf;
    forall t: nat, r: nat | t < job.tokens && r < job.rows ensures GroupOf(t, job.rows, r) < job.tokens * job.rows {
      GroupFits(t, job.tokens, r, job.rows);
    }
  }

  /** bonsai_bf16_mv_impl for every group, whose row and token are its remainder and quotient. */
  method Single<F, W>(job: Job<F, W>, output: array<F>) returns (stores: multiset<(nat, nat)>)
    requires job.Valid() && output.Length == job.tokens * job.rows
    modifies output
    ensures StoredOnce(job.tokens, job.rows, stores) && Holds(job, output[..], stores)
    ensures Multiplied(job, output[..])
  {
    hide Multiplied, Holds, Result, StoredOnce, StoredBelow, GroupOf, Job.Valid;
    stores := multiset{};
    NoneHeld(job, output[..]);
    NoneStored(job);
    for group := 0 to output.Length
      invariant Holds(job, output[..], stores) && StoredBelow(job, stores, group)
    {
      var token, row := GroupSplit(group, job.tokens, job.rows);
      StoredNextGroup(job, stores, token, row);
      var total := SingleGroup(job.ops, job.RowAt(row), job.TokenAt(token));
      ghost var now := output[..];
      HoldsAfter(job, now, stores, token, row, total);
      output[group] := total;
      assert output[..] == now[group := total];
      stores := stores + multiset{(token, row)};
    }
    AllGroupsStored(job, stores);
    AllMultiplied(job, output[..], stores);
  }

  lemma NoneStored<F, W>(job: Job<F, W>)
    ensures StoredBelow(job, multiset{}, 0)
  {
  }

  lemma NoneHeld<F, W>(job: Job<F, W>, output: seq<F>)
    requires job.Valid() && |output| == job.tokens * job.rows
    ensures Holds(job, output, multiset{})
  {
  }

  /** Every lane's chains of a group of tokens, summed over the lanes. */
  method TokensGroup<F, W>(o: Ops<F, W>, w: seq<W>, xs: seq<seq<F>>) returns (totals: seq<F>)
    requires forall t | 0 <= t < |xs| :: |xs[t]| == |w|
    ensures |totals| == |xs| && forall t | 0 <= t < |xs| :: totals[t] == Result(o, w, xs[t])
  {
    hide Chain;
    var lanes: seq<seq<F>> := [];
    for lane := 0 to 32
      invariant |lanes| == lane
      invariant forall i | 0 <= i < lane :: |lanes[i]| == |xs|
      invariant forall i, t | 0 <= i < lane && 0 <= t < |xs| :: lanes[i][t] == Chain(o, w, xs[t], i, |w|)
    {
      var sums := TokensLane(o, w, xs, lane);
      lanes := lanes + [sums];
    }
    totals := [];
    for t := 0 to |xs|
      invariant |totals| == t && forall u | 0 <= u < t :: totals[u] == Result(o, w, xs[u])
    {
      var sum := seq(32, lane requires 0 <= lane < 32 => lanes[lane][t]);
      assert sum == seq(32, lane requires 0 <= lane < 32 => Chain(o, w, xs[t], lane, |w|));
      totals := totals + [o.simdSum(sum)];
    }
  }

  /** Cells of row row stored so far: whole rows below it, and tokens below n in it. */
  ghost predicate StoredTo<F, W>(job: Job<F, W>, stores: multiset<(nat, nat)>, row: nat, n: nat) {
    forall t: nat, r: nat ::
      stores[(t, r)] == if t < job.tokens && r < job.rows && (r < row || (r == row && t < n)) then 1 else 0
  }

  /** One SIMD group's totals; tokens past the end read a real token. */
  method GroupTotals<F, W>(job: Job<F, W>, groupTokens: nat, firstToken: nat, row: nat) returns (totals: seq<F>)
    requires job.Valid() && row < job.rows && firstToken < job.tokens
    ensures |totals| == groupTokens
    ensures forall t | 0 <= t < groupTokens && firstToken + t < job.tokens ::
              totals[t] == job.Value(firstToken + t, row)
  {
    hide Result, Job.RowAt, Job.TokenAt, Job.Valid;
    var xs: seq<seq<F>> := [];
    for t := 0 to groupTokens
      invariant |xs| == t
      invariant forall u | 0 <= u < t :: |xs[u]| == job.columns
                  && xs[u] == job.TokenAt(Min(firstToken + u, job.tokens - 1))
    {
      xs := xs + [job.TokenAt(Min(firstToken + t, job.tokens - 1))];
    }
    totals := TokensGroup(job.ops, job.RowAt(row), xs);
  }

  lemma StoredNext<F, W>(job: Job<F, W>, stores: multiset<(nat, nat)>, row: nat, token: nat)
    requires row < job.rows && StoredTo(job, stores, row, token)
    ensures StoredTo(job, if token < job.tokens then stores + multiset{(token, row)} else stores, row, token + 1)
  {
  }

  /** The guarded stores of one group of tokens. */
  method StoreGroup<F, W>(job: Job<F, W>, groupTokens: nat, firstToken: nat, row: nat, output: array<F>,
                          before: multiset<(nat, nat)>)
    returns (stores: multiset<(nat, nat)>)
    requires job.Valid() && output.Length == job.tokens * job.rows && row < job.rows && firstToken < job.tokens
    requires Holds(job, output[..], before) && StoredTo(job, before, row, firstToken)
    modifies output
    ensures Holds(job, output[..], stores) && StoredTo(job, stores, row, firstToken + groupTokens)
  {
    hide Holds, StoredTo, Job.Value, Job.Valid;
    var totals := GroupTotals(job, groupTokens, firstToken, row);
    stores := before;
    for t := 0 to groupTokens
      invariant Holds(job, output[..], stores) && StoredTo(job, stores, row, firstToken + t)
    {
      var token := firstToken + t;
      StoredNext(job, stores, row, token);
      if token < job.tokens {
        ghost var now := output[..];
        HoldsAfter(job, now, stores, token, row, totals[t]);
        output[GroupOf(token, job.rows, row)] := totals[t];
        assert output[..] == now[GroupOf(token, job.rows, row) := totals[t]];
        stores := stores + multiset{(token, row)};
      }
    }
  }

  /**
   bonsai_bf16_mv_tokens_impl for every row and every group of groupTokens tokens: the same
   values as Single, expression for expression, each stored exactly once.
   */
  method Tokens<F, W>(job: Job<F, W>, groupTokens: nat, output: array<F>) returns (stores: multiset<(nat, nat)>)
    requires job.Valid() && groupTokens > 0 && output.Length == job.tokens * job.rows
    modifies output
    ensures StoredOnce(job.tokens, job.rows, stores) && Holds(job, output[..], stores)
    ensures Multiplied(job, output[..])
  {
    hide Multiplied, Holds, Job.Valid;
    stores := multiset{};
    NoneHeld(job, output[..]);
    for row := 0 to job.rows
      invariant Holds(job, output[..], stores) && StoredTo(job, stores, row, 0)
    {
      var firstToken := 0;
      while firstToken < job.tokens
        invariant Holds(job, output[..], stores) && StoredTo(job, stores, row, firstToken)
      {
        stores := StoreGroup(job, groupTokens, firstToken, row, output, stores);
        firstToken := firstToken + groupTokens;
      }
    }
    AllMultiplied(job, output[..], stores);
  }

  // The products over the raw buffers

  lemma RawFits(r: nat, rows: nat, columns: nat, n: nat, j: nat)
    requires n == rows * columns && r < rows && j < columns
    ensures r * columns + j < n
  {
    Index2(r, rows, j, columns);
  }

  /** Lane's chain for token t and row r over its columns below n, weights and activations at their places. */
  ghost function RawChain<F, W>(job: Job<F, W>, t: nat, r: nat, lane: nat, n: nat): F
    requires job.Valid() && t < job.tokens && r < job.rows && n <= job.columns
  {
    if n == 0 then job.ops.zero
    else if (n - 1) % 32 == lane then
      RawFits(r, job.rows, job.columns, |job.weights|, n - 1);
      RawFits(t, job.tokens, job.columns, |job.input|, n - 1);
      job.ops.fma(job.ops.widen(job.weights[r * job.columns + (n - 1)]), job.input[t * job.columns + (n - 1)],
                  RawChain(job, t, r, lane, n - 1))
    else RawChain(job, t, r, lane, n - 1)
  }

  ghost function RawLanes<F, W>(job: Job<F, W>, t: nat, r: nat): (lanes: seq<F>)
    requires job.Valid() && t < job.tokens && r < job.rows
    ensures |lanes| == 32 && forall lane | 0 <= lane < 32 :: lanes[lane] == RawChain(job, t, r, lane, job.columns)
  {
    seq(32, lane requires 0 <= lane < 32 && job.Valid() && t < job.tokens && r < job.rows =>
      RawChain(job, t, r, lane, job.columns))
  }

  /** Every output, at its place, is the reduction of 32 lanes that each chain their own columns of the raw buffers. */
  ghost predicate Multiplied<F, W>(job: Job<F, W>, output: seq<F>)
    requires job.Valid()
  {
    forall t: nat, r: nat | t < job.tokens && r < job.rows :: MultipliedAt(job, output, t, r)
  }

  ghost predicate MultipliedAt<F, W>(job: Job<F, W>, output: seq<F>, t: nat, r: nat)
    requires job.Valid() && t < job.tokens && r < job.rows
  {
    t * job.rows + r < |output| && output[t * job.rows + r] == job.ops.simdSum(RawLanes(job, t, r))
  }

  lemma {:induction false} ChainIsRaw<F, W>(job: Job<F, W>, t: nat, r: nat, lane: nat, n: nat)
    requires job.Valid() && t < job.tokens && r < job.rows && n <= job.columns
    ensures Chain(job.ops, job.RowAt(r), job.TokenAt(t), lane, n) == RawChain(job, t, r, lane, n)
  {
    if n > 0 {
      hide Job.Valid, Job.RowAt, Job.TokenAt;
      ChainIsRaw(job, t, r, lane, n - 1);
      RawAt(job, t, r, n - 1);
    }
  }

  lemma RawAt<F, W>(job: Job<F, W>, t: nat, r: nat, j: nat)
    requires job.Valid() && t < job.tokens && r < job.rows && j < job.columns
    ensures r * job.columns + j < |job.weights| && job.RowAt(r)[j] == job.weights[r * job.columns + j]
    ensures t * job.columns + j < |job.input| && job.TokenAt(t)[j] == job.input[t * job.columns + j]
  {
    RawFits(r, job.rows, job.columns, |job.weights|, j);
    RawFits(t, job.tokens, job.columns, |job.input|, j);
    TokenFits(r, job.rows, job.columns);
    TokenFits(t, job.tokens, job.columns);
    SliceAt(job.weights, r * job.columns, job.columns, job.RowAt(r), j);
    SliceAt(job.input, t * job.columns, job.columns, job.TokenAt(t), j);
  }

  lemma ValueIsRaw<F, W>(job: Job<F, W>, t: nat, r: nat)
    requires job.Valid() && t < job.tokens && r < job.rows
    ensures job.Value(t, r) == job.ops.simdSum(RawLanes(job, t, r))
  {
    hide Chain, RawChain, Job.Valid, Job.RowAt, Job.TokenAt;
    var w, x := job.RowAt(r), job.TokenAt(t);
    forall lane | 0 <= lane < 32
      ensures Chain(job.ops, w, x, lane, |w|) == RawChain(job, t, r, lane, job.columns)
    {
      ChainIsRaw(job, t, r, lane, job.columns);
    }
    assert RawLanes(job, t, r) == seq(32, lane requires 0 <= lane < 32 => Chain(job.ops, w, x, lane, |w|));
  }

  lemma AllMultiplied<F, W>(job: Job<F, W>, output: seq<F>, stores: multiset<(nat, nat)>)
    requires job.Valid() && Holds(job, output, stores) && StoredOnce(job.tokens, job.rows, stores)
    ensures Multiplied(job, output)
  {
    hide Job.Valid, Job.Value;
    forall t: nat, r: nat | t < job.tokens && r < job.rows
      ensures MultipliedAt(job, output, t, r)
    {
      assert stores[(t, r)] == 1;
      assert HoldsAt(job, output, t, r);
      ValueIsRaw(job, t, r);
    }
  }

  /** Exact arithmetic: a fused multiply-add multiplies and adds, and lanes are reduced by adding them up. */
  ghost predicate Exact<W>(o: Ops<real, W>) {
    && o.zero == 0.0 && (forall a, b, c :: o.fma(a, b, c) == a * b + c)
    && forall s: seq<real> {:trigger o.simdSum(s)} :: o.simdSum(s) == Sum(|s|, Entries(s))
  }

  /** Weight times activation in column j. */
  ghost function RawProduct<W>(job: Job<real, W>, t: nat, r: nat): (f: int -> real)
    requires job.Valid() && t < job.tokens && r < job.rows
  {
    j => if 0 <= j < job.columns then
        RawFits(r, job.rows, job.columns, |job.weights|, j);
        RawFits(t, job.tokens, job.columns, |job.input|, j);
        job.ops.widen(job.weights[r * job.columns + j]) * job.input[t * job.columns + j]
      else 0.0
  }

  lemma {:induction false} RawChainExact<W>(job: Job<real, W>, t: nat, r: nat, lane: nat, n: nat)
    requires job.Valid() && t < job.tokens && r < job.rows && n <= job.columns && Exact(job.ops)
    ensures RawChain(job, t, r, lane, n) == Sum(n, Residue(32, lane, RawProduct(job, t, r)))
  {
    if n == 0 {
      SumNone(Residue(32, lane, RawProduct(job, t, r)));
    } else {
      hide Sum, Job.Valid, RawChain, RawProduct, Exact;
      RawChainExact(job, t, r, lane, n - 1);
      SumNext(n - 1, Residue(32, lane, RawProduct(job, t, r)));
      RawChainNext(job, t, r, lane, n - 1);
    }
  }

  lemma RawChainNext<W>(job: Job<real, W>, t: nat, r: nat, lane: nat, n: nat)
    requires job.Valid() && t < job.tokens && r < job.rows && n < job.columns && Exact(job.ops)
    ensures RawChain(job, t, r, lane, n + 1)
         == RawChain(job, t, r, lane, n) + if n % 32 == lane then RawProduct(job, t, r)(n) else 0.0
  {
    hide Job.Valid;
    RawAt(job, t, r, n);
  }

  /** In exact arithmetic the reduced lanes are the dot product of row r and token t. */
  lemma MultipliedExact<W>(job: Job<real, W>, t: nat, r: nat)
    requires job.Valid() && t < job.tokens && r < job.rows && Exact(job.ops)
    ensures job.ops.simdSum(RawLanes(job, t, r)) == Sum(job.columns, RawProduct(job, t, r))
  {
    hide Sum, RawChain, RawProduct, Job.Valid;
    var f, g := RawProduct(job, t, r), Entries(RawLanes(job, t, r));
    forall lane | 0 <= lane < 32
      ensures g(lane) == Sum(job.columns, Residue(32, lane, f))
    {
      RawChainExact(job, t, r, lane, job.columns);
    }
    SumResidues(job.columns, 32, f, g);
  }

  // The causal convolution

  const CHANNELS: nat := 10240

  /** One channel's history followed by its tokens' inputs. */
  function Line<F>(h: (F, F, F), input: seq<F>, channel: nat, tokens: nat): (line: seq<F>)
    requires channel < CHANNELS && |input| >= tokens * CHANNELS
    ensures |line| == tokens + 3
  {
    [h.0, h.1, h.2] + seq(tokens, t requires 0 <= t < tokens && |input| >= tokens * CHANNELS && channel < CHANNELS =>
      input[t * CHANNELS + channel])
  }

  /** Four taps over the line from t on, then silu. */
  function ConvOutput<F, W>(o: Ops<F, W>, taps: (F, F, F, F), line: seq<F>, t: nat): F
    requires t + 3 < |line|
  {
    o.silu(o.fma(taps.3, line[t + 3], o.fma(taps.2, line[t + 2], o.fma(taps.1, line[t + 1], o.mul(taps.0, line[t])))))
  }

  /** One channel's line and taps. */
  function LineOf<F>(history: seq<F>, input: seq<F>, channel: nat, tokens: nat): (line: seq<F>)
    requires channel < CHANNELS && |history| == 3 * CHANNELS && |input| >= tokens * CHANNELS
    ensures |line| == tokens + 3
    ensures line[0] == history[3 * channel] && line[1] == history[3 * channel + 1]
            && line[2] == history[3 * channel + 2]
    ensures forall t | 0 <= t < tokens :: line[t + 3] == input[t * CHANNELS + channel]
  {
    Line((history[3 * channel], history[3 * channel + 1], history[3 * channel + 2]), input, channel, tokens)
  }

  function Taps<F>(weights: seq<F>, channel: nat): (F, F, F, F)
    requires channel < CHANNELS && |weights| == 4 * CHANNELS
  {
    var w := channel * 4;
    (weights[w], weights[w + 1], weights[w + 2], weights[w + 3])
  }

  /** bonsai_conv_impl for one channel; history and finalHistory may be the same buffer. */
  method Conv<F, W>(o: Ops<F, W>, input: seq<F>, weights: seq<F>, history: array<F>, output: array<F>,
                    finalHistory: array<F>,
                    tokens: nat, channel: nat)
    requires |input| >= tokens * CHANNELS && |weights| == 4 * CHANNELS
    requires history.Length == finalHistory.Length == 3 * CHANNELS && output.Length >= tokens * CHANNELS
    requires output != history && output != finalHistory
    modifies output, finalHistory
    ensures channel >= CHANNELS ==> output[..] == old(output[..]) && finalHistory[..] == old(finalHistory[..])
    ensures channel < CHANNELS ==>
      var line, taps := LineOf(old(history[..]), input, channel, tokens), Taps(weights, channel);
      forall k | 0 <= k < output.Length ::
        output[k] == if k % CHANNELS == channel && k / CHANNELS < tokens then ConvOutput(o, taps, line, k / CHANNELS)
          else old(output[k])
    ensures channel < CHANNELS ==>
      var line := LineOf(old(history[..]), input, channel, tokens);
      forall k | 0 <= k < 3 * CHANNELS ::
        finalHistory[k] == if k / 3 == channel then line[tokens + k % 3] else old(finalHistory[k])
  {
    hide LineOf, ConvOutput;
    if channel >= CHANNELS {
      return;
    }
    var h, w := channel * 3, channel * 4;
    var h0, h1, h2 := history[h], history[h + 1], history[h + 2];
    ghost var taps, line := Taps(weights, channel), LineOf(history[..], input, channel, tokens);
    for token := 0 to tokens
      invariant line[token] == h0 && line[token + 1] == h1 && line[token + 2] == h2
      invariant finalHistory[..] == old(finalHistory[..])
      invariant forall k | 0 <= k < output.Length ::
          output[k] == if k % CHANNELS == channel && k / CHANNELS < token
            then ConvOutput(o, taps, line, k / CHANNELS) else old(output[k])
    {
      var index := token * CHANNELS + channel;
      assert index / CHANNELS == token && index % CHANNELS == channel && line[token + 3] == input[index];
      var sum := o.mul(weights[w], h0);
      sum := o.fma(weights[w + 1], h1, sum);
      sum := o.fma(weights[w + 2], h2, sum);
      sum := o.fma(weights[w + 3], input[index], sum);
      ConvStep(o, taps, line, token, o.silu(sum));
      h0, h1, h2 := h1, h2, input[index];
      output[index] := o.silu(sum);
    }
    finalHistory[h], finalHistory[h + 1], finalHistory[h + 2] := h0, h1, h2;
  }

  lemma ConvStep<F, W>(o: Ops<F, W>, taps: (F, F, F, F), line: seq<F>, t: nat, v: F)
    requires t + 3 < |line|
    requires v == o.silu(o.fma(taps.3, line[t + 3],
                               o.fma(taps.2, line[t + 2], o.fma(taps.1, line[t + 1], o.mul(taps.0, line[t])))))
    ensures v == ConvOutput(o, taps, line, t)
  {
  }

  /**
   Chaining at any split: the line of a second block that starts from the first block's final
   history is the rest of the whole line, so its outputs and final history are the whole
   block's.
   */
  lemma ChainedConv<F, W>(o: Ops<F, W>, taps: (F, F, F, F), h: (F, F, F), input: seq<F>, channel: nat, n: nat, m: nat)
    requires channel < CHANNELS && |input| == (n + m) * CHANNELS
    ensures var whole := Line(h, input, channel, n + m);
      var first := Line(h, input[..n * CHANNELS], channel, n);
      var second := Line((first[n], first[n + 1], first[n + 2]), input[n * CHANNELS..], channel, m);
      && (forall t | 0 <= t < n :: ConvOutput(o, taps, whole, t) == ConvOutput(o, taps, first, t))
      && (forall t | 0 <= t < m :: ConvOutput(o, taps, whole, n + t) == ConvOutput(o, taps, second, t))
      && whole[n + m..] == second[m..]
  {
    var whole := Line(h, input, channel, n + m);
    var first := Line(h, input[..n * CHANNELS], channel, n);
    var second := Line((first[n], first[n + 1], first[n + 2]), input[n * CHANNELS..], channel, m);
    assert forall t | 0 <= t < n + 3 :: whole[t] == first[t];
    assert second == whole[n..] by {
      forall t | 0 <= t < m + 3
        ensures second[t] == whole[n + t]
      {
        if t >= 3 {
          assert n * CHANNELS + ((t - 3) * CHANNELS + channel) == (n + t - 3) * CHANNELS + channel;
        }
      }
    }
  }
}
