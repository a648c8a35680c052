/**
 The Gated DeltaNet recurrence in exact arithmetic, over the raw buffers: which inputs a value row reads,
 what one token does to its state, and what a whole dispatch leaves behind.
 */
module GdnExact {
  import opened Common
  import opened Sums
  import opened Gdn

  // Which inputs a value row reads

  /** The inputs of token t, at their places: head group * rows / 128 and key head that modulo 16. */
  lemma TokenIsRaw<F, S>(job: Job<F, S>, t: nat, tokens: nat)
    requires job.rows > 0 && job.Valid(tokens) && t < tokens
    ensures var token, head := TokenIn(job, t, tokens), job.group * job.rows / 128;
            && t * 10240 + 10240 <= |job.qkv| && head < 48 && t * 48 + 48 <= |job.decay| && t * 48 + 48 <= |job.beta|
            && head % 16 * 128 + 128 <= 2048 && job.group * job.rows + job.rows <= 6144
            && |token.q| == |token.k| == 128 && |token.v| == job.rows
            && (forall c | 0 <= c < 128 :: token.q[c] == job.qkv[t * 10240 + (head % 16 * 128 + c)])
            && (forall c | 0 <= c < 128 :: token.k[c] == job.qkv[t * 10240 + 2048 + (head % 16 * 128 + c)])
            && (forall r | 0 <= r < job.rows :: token.v[r] == job.qkv[t * 10240 + 4096 + (job.group * job.rows + r)])
            && token.d == job.decay[t * 48 + head] && token.b == job.beta[t * 48 + head]
  {
    hide TokenIn;
    TokenParts(job, t, tokens);
  }

  /** When the row count divides 128, a group's rows all belong to that head. */
  lemma OneHead(group: nat, rows: nat, r: nat)
    requires rows > 0 && 128 % rows == 0 && r < rows
    ensures (group * rows + r) / 128 == group * rows / 128
  {
    var n := 128 / rows;
    assert n * rows == 128;
    var q, m := group / n, group % n;
    HeadSplit(group, rows, n, q, m);
    MulMonotone(m + 1, n, rows);
    Distribute(m + 1, 1, rows);
    MulMonotone(0, m, rows);
  }

  lemma HeadSplit(group: nat, rows: nat, n: nat, q: nat, m: nat)
    requires group == q * n + m && n * rows == 128
    ensures group * rows == q * 128 + m * rows
  {
    assert (q * n + m) * rows == q * (n * rows) + m * rows;
  }

  // One token

  /** Real arithmetic; the storage type may round as it likes. */
  ghost predicate RealArithmetic<S>(o: Ops<real, S>) {
    && o.zero == 0.0 && (forall a, b :: o.mul(a, b) == a * b) && (forall a, b :: o.sub(a, b) == a - b)
    && (forall a, b, c :: o.fma(a, b, c) == a * b + c)
    && forall s: seq<real> {:trigger o.simdSum(s)} :: o.simdSum(s) == Sum(|s|, Entries(s))
  }

  ghost function Products(a: seq<real>, b: seq<real>): (f: int -> real)
    requires |a| == |b| == 128
    ensures forall j {:trigger f(j)} | 0 <= j < 128 :: f(j) == a[j] * b[j]
  {
    j => if 0 <= j < 128 then a[j] * b[j] else 0.0
  }

  /** The products of a lane's columns. */
  ghost function LaneTerm(a: seq<real>, b: seq<real>, lane: int): (f: int -> real)
    requires |a| == |b| == 128
    ensures forall i {:trigger f(i)} :: f(i) == Products(a, b)(i * 32 + lane)
  {
    i => Products(a, b)(i * 32 + lane)
  }

  lemma {:induction false} ChainExact<S>(o: Ops<real, S>, a: seq<real>, b: seq<real>, lane: nat, n: nat)
    requires RealArithmetic(o) && |a| == |b| == 128 && lane < 32 && n <= 4
    ensures Chain(o, a, b, lane, n) == Sum(n, LaneTerm(a, b, lane))
  {
    hide Sum;
    if n == 0 {
      SumNone(LaneTerm(a, b, lane));
    } else {
      ChainExact(o, a, b, lane, n - 1);
      SumNext(n - 1, LaneTerm(a, b, lane));
      assert lane + 32 * (n - 1) == (n - 1) * 32 + lane;
    }
  }

  /** The lanes' chains reduced are a dot product over all 128 columns. */
  lemma DotExact<S>(o: Ops<real, S>, a: seq<real>, b: seq<real>)
    requires RealArithmetic(o) && |a| == |b| == 128
    ensures o.simdSum(Chains(o, a, b, 4)) == Sum(128, Products(a, b))
  {
    hide Sum, Chain, RealArithmetic, Products;
    var p, lanes := Products(a, b), Chains(o, a, b, 4);
    var f := (lane: int, i: int) => p(i * 32 + lane);
    SimdSumIs(o, lanes);
    forall lane | 0 <= lane < 32
      ensures Entries(lanes)(lane) == Inner(4, f)(lane)
    {
      ChainExact(o, a, b, lane, 4);
      SumEq(4, LaneTerm(a, b, lane), i => f(lane, i));
    }
    SumEq(32, Entries(lanes), Inner(4, f));
    SumSwap(32, 4, f);
    forall i | 0 <= i < 4
      ensures Inner(32, Flip(f))(i) == Sum(32, j => p(i * 32 + j))
    {
      SumEq(32, j => Flip(f)(i, j), j => p(i * 32 + j));
    }
    SumBlocks(4, 32, p, Inner(32, Flip(f)));
  }

  lemma SimdSumIs<S>(o: Ops<real, S>, s: seq<real>)
    requires RealArithmetic(o)
    ensures o.simdSum(s) == Sum(|s|, Entries(s))
  {
  }

  /** The state with every column decayed. */
  ghost function Faded(s: seq<real>, d: real): (r: seq<real>)
    requires |s| == 128
    ensures |r| == 128
  {
    seq(128, c requires 0 <= c < 128 => d * s[c])
  }

  /** The gated delta rule: decay, then move along the key by beta times what the decayed state mispredicts. */
  ghost function DeltaRule(s: seq<real>, k: seq<real>, v: real, d: real, b: real): (r: seq<real>)
    requires |s| == |k| == 128
    ensures |r| == 128
  {
    Moved(s, k, d, b, v - Sum(128, Products(Faded(s, d), k)))
  }

  ghost function Moved(s: seq<real>, k: seq<real>, d: real, b: real, miss: real): (r: seq<real>)
    requires |s| == |k| == 128
    ensures |r| == 128
  {
    seq(128, c requires 0 <= c < 128 => d * s[c] + k[c] * (b * miss))
  }

  lemma DecayedIsFaded<S>(o: Ops<real, S>, s: seq<real>, d: real)
    requires RealArithmetic(o) && |s| == 128
    ensures Decayed(o, s, d, 4) == Faded(s, d)
  {
    hide Sum;
    var a, b := Decayed(o, s, d, 4), Faded(s, d);
    assert forall c | 0 <= c < 128 :: a[c] == b[c];
  }

  /** One token takes a row's state by the delta rule and reads it out along the query. */
  lemma StepExact<S>(o: Ops<real, S>, s: seq<real>, token: Token<real>, r: nat)
    requires RealArithmetic(o) && |s| == |token.q| == |token.k| == 128 && r < |token.v|
    ensures StepRow(o, s, token, r) == DeltaRule(s, token.k, token.v[r], token.d, token.b)
    ensures StepOutput(o, s, token, r)
         == o.outScale * Sum(128, Products(DeltaRule(s, token.k, token.v[r], token.d, token.b), token.q))
  {
    hide Sum, Products, Chains, Decayed, Faded, Moved, Corrected, RealArithmetic;
    DecayedIsFaded(o, s, token.d);
    DotExact(o, Faded(s, token.d), token.k);
    var miss := token.v[r] - Sum(128, Products(Faded(s, token.d), token.k));
    Multiplies(o, miss, token.b, token.v[r], Sum(128, Products(Faded(s, token.d), token.k)));
    CorrectedExact(o, s, token.k, token.d, token.b, miss, Correction(o, s, token, r));
    var next := DeltaRule(s, token.k, token.v[r], token.d, token.b);
    assert StepRow(o, s, token, r) == next;
    DotExact(o, next, token.q);
    Scales(o, Sum(128, Products(next, token.q)));
  }

  lemma Multiplies<S>(o: Ops<real, S>, miss: real, b: real, v: real, sum: real)
    requires RealArithmetic(o) && miss == v - sum
    ensures o.mul(o.sub(v, sum), b) == miss * b
  {
  }

  lemma Scales<S>(o: Ops<real, S>, sum: real)
    requires RealArithmetic(o)
    ensures o.mul(sum, o.outScale) == o.outScale * sum
  {
  }

  lemma CorrectedExact<S>(o: Ops<real, S>, s: seq<real>, k: seq<real>, d: real, b: real, miss: real,
                          correction: real)
    requires RealArithmetic(o) && |s| == |k| == 128 && correction == miss * b
    ensures Corrected(o, Faded(s, d), k, correction, 4) == Moved(s, k, d, b, miss)
  {
    hide Sum;
    var x, y := Corrected(o, Faded(s, d), k, correction, 4), Moved(s, k, d, b, miss);
    forall c | 0 <= c < 128
      ensures x[c] == y[c]
    {
      assert x[c] == k[c] * correction + d * s[c];
      assert correction == b * miss;
    }
  }

  // Whole dispatches

  /** A value row of the state buffer, loaded. */
  ghost function RawStart<S>(o: Ops<real, S>, state: seq<S>, row: nat): (s: seq<real>)
    requires |state| == 786432 && row < 6144
    ensures |s| == 128
  {
    seq(128, c requires 0 <= c < 128 => o.load(state[row * 128 + c]))
  }

  /** Value row r's registers before token t, from the raw buffers. */
  ghost function RawState<S>(job: Job<real, S>, state: seq<S>, r: nat, t: nat, tokens: nat): (s: seq<real>)
    requires |state| == 786432 && job.group * job.rows + job.rows <= 6144 && r < job.rows
    ensures |s| == 128
  {
    hide RawStep, RawStart;
    if t == 0 then RawStart(job.ops, state, job.group * job.rows + r)
    else
      var next := RawStep(job, RawState(job, state, r, t - 1, tokens), r, t - 1);
      if t % 128 == 0 && t < tokens then seq(128, c requires 0 <= c < 128 => job.ops.load(job.ops.store(next[c])))
      else next
  }

  /** The delta rule on the inputs that token t has for value row r. */
  ghost function RawStep<S>(job: Job<real, S>, s: seq<real>, r: nat, t: nat): (next: seq<real>)
    requires |s| == 128
    ensures |next| == 128
  {
    var head := job.group * job.rows / 128;
    DeltaRule(s, RawColumns(job, t * 10240 + 2048), Entries(job.qkv)(t * 10240 + 4096 + (job.group * job.rows + r)),
              Entries(job.decay)(t * 48 + head), Entries(job.beta)(t * 48 + head))
  }

  /** The 128 columns of the group's key head in the part of the buffer that begins at the given place. */
  ghost function RawColumns<S>(job: Job<real, S>, from: nat): (k: seq<real>)
    ensures |k| == 128
  {
    var head := job.group * job.rows / 128;
    seq(128, c requires 0 <= c < 128 => Entries(job.qkv)(from + (head % 16 * 128 + c)))
  }

  /** The output of value row r for token t. */
  ghost function RawOutput<S>(job: Job<real, S>, state: seq<S>, r: nat, t: nat, tokens: nat): real
    requires |state| == 786432 && job.group * job.rows + job.rows <= 6144 && r < job.rows
  {
    job.ops.outScale
    * Sum(128, Products(RawStep(job, RawState(job, state, r, t, tokens), r, t), RawColumns(job, t * 10240)))
  }

  lemma RawStepIs<S>(job: Job<real, S>, s: seq<real>, r: nat, t: nat, tokens: nat)
    requires job.rows > 0 && job.Valid(tokens) && r < job.rows && t < tokens && |s| == 128
    ensures var token := TokenIn(job, t, tokens);
            && RawStep(job, s, r, t) == DeltaRule(s, token.k, token.v[r], token.d, token.b)
            && token.q == RawColumns(job, t * 10240)
  {
    hide TokenIn, DeltaRule, Job.Valid, RawColumns;
    QueryAndKey(job, t, tokens);
    Scalars(job, r, t, tokens);
  }

  lemma QueryAndKey<S>(job: Job<real, S>, t: nat, tokens: nat)
    requires job.rows > 0 && job.Valid(tokens) && t < tokens
    ensures TokenIn(job, t, tokens).q == RawColumns(job, t * 10240)
    ensures TokenIn(job, t, tokens).k == RawColumns(job, t * 10240 + 2048)
  {
    hide TokenIn, Job.Valid, RawColumns;
    TokenIsRaw(job, t, tokens);
    ColumnsAre(job, t, tokens, 0, TokenIn(job, t, tokens).q);
    ColumnsAre(job, t, tokens, 2048, TokenIn(job, t, tokens).k);
  }

  lemma Scalars<S>(job: Job<real, S>, r: nat, t: nat, tokens: nat)
    requires job.rows > 0 && job.Valid(tokens) && r < job.rows && t < tokens
    ensures var token, head := TokenIn(job, t, tokens), job.group * job.rows / 128;
            && token.v[r] == Entries(job.qkv)(t * 10240 + 4096 + (job.group * job.rows + r))
            && token.d == Entries(job.decay)(t * 48 + head) && token.b == Entries(job.beta)(t * 48 + head)
  {
    hide TokenIn, Job.Valid;
    TokenIsRaw(job, t, tokens);
  }

  lemma ColumnsAre<S>(job: Job<real, S>, t: nat, tokens: nat, part: nat, k: seq<real>)
    requires |k| == 128 && part <= 2048 && t * 10240 + 10240 <= |job.qkv|
    requires forall c | 0 <= c < 128 :: k[c] == job.qkv[t * 10240 + part + (job.group * job.rows / 128 % 16 * 128 + c)]
    ensures k == RawColumns(job, t * 10240 + part)
  {
    var key, columns := job.group * job.rows / 128 % 16 * 128, RawColumns(job, t * 10240 + part);
    forall c | 0 <= c < 128
      ensures k[c] == columns[c]
    {
      var at := t * 10240 + part + (key + c);
      assert at < |job.qkv| && k[c] == job.qkv[at];
      assert columns[c] == Entries(job.qkv)(at);
    }
  }

  lemma {:induction false} StateExact<S>(job: Job<real, S>, state: seq<S>, r: nat, t: nat, tokens: nat)
    requires job.rows > 0 && job.Valid(tokens) && r < job.rows && t <= tokens && |state| == STATE
    requires RealArithmetic(job.ops)
    ensures job.group * job.rows + job.rows <= 6144
    ensures StateAt(job, StartRow(job, state, r), r, t, tokens) == RawState(job, state, r, t, tokens)
    decreases t
  {
    hide StateAt, RawState, StepRow, RawStep, StartRow, TokenIn, DeltaRule, RealArithmetic, Job.Valid;
    FitsRows(job, tokens);
    if t > 0 {
      StateExact(job, state, r, t - 1, tokens);
      StepExact(job.ops, RawState(job, state, r, t - 1, tokens), TokenIn(job, t - 1, tokens), r);
      RawStepIs(job, RawState(job, state, r, t - 1, tokens), r, t - 1, tokens);
      StateNext(job, state, r, t - 1, tokens);
    } else {
      StartIs(job, state, r, tokens);
    }
  }

  lemma StateNext<S>(job: Job<real, S>, state: seq<S>, r: nat, t: nat, tokens: nat)
    requires job.rows > 0 && job.Valid(tokens) && r < job.rows && t < tokens && |state| == STATE
             && job.FirstRow() + job.rows <= VALUE_ROWS
    requires var s := RawState(job, state, r, t, tokens);
             && StateAt(job, StartRow(job, state, r), r, t, tokens) == s
             && StepRow(job.ops, s, TokenIn(job, t, tokens), r) == RawStep(job, s, r, t)
    ensures StateAt(job, StartRow(job, state, r), r, t + 1, tokens) == RawState(job, state, r, t + 1, tokens)
  {
    hide StepRow, RawStep, StartRow, TokenIn, Job.Valid, Rounded, RoundsAfter;
    RoundedIs(job.ops, RawStep(job, RawState(job, state, r, t, tokens), r, t));
    RoundsIs(t + 1, tokens);
  }

  lemma RoundedIs<S>(o: Ops<real, S>, s: seq<real>)
    requires |s| == 128
    ensures Rounded(o, s) == seq(128, c requires 0 <= c < 128 => o.load(o.store(s[c])))
  {
  }

  lemma RoundsIs(t: nat, tokens: nat)
    requires t > 0
    ensures RoundsAfter(t - 1, tokens) <==> t % 128 == 0 && t < tokens
  {
  }

  lemma StartIs<S>(job: Job<real, S>, state: seq<S>, r: nat, tokens: nat)
    requires job.rows > 0 && job.Valid(tokens) && |state| == STATE && job.FirstRow() + job.rows <= VALUE_ROWS
             && r < job.rows
    ensures StateAt(job, StartRow(job, state, r), r, 0, tokens) == RawState(job, state, r, 0, tokens)
  {
    hide RawStep, StepRow, Rounded, Job.Valid;
    var a, b := StartRow(job, state, r), RawState(job, state, r, 0, tokens);
    assert forall c | 0 <= c < 128 :: a[c] == b[c];
  }

  lemma OutputExact<S>(job: Job<real, S>, state: seq<S>, r: nat, t: nat, tokens: nat)
    requires job.rows > 0 && job.Valid(tokens) && r < job.rows && t < tokens && |state| == STATE
    requires RealArithmetic(job.ops)
    ensures job.group * job.rows + job.rows <= 6144
    ensures CellOutput(job, state, tokens, t, r) == RawOutput(job, state, r, t, tokens)
  {
    hide StateAt, RawState, StepOutput, RawStep, StartRow, TokenIn, DeltaRule, Sum, Products, RealArithmetic;
    StateExact(job, state, r, t, tokens);
    var s, token := RawState(job, state, r, t, tokens), TokenIn(job, t, tokens);
    StepExact(job.ops, s, token, r);
    RawStepIs(job, s, r, t, tokens);
  }

  /**
   What a dispatch leaves behind, for any row count, group, token count and storage type: at output
   t * 6144 + group * rows + r the read-out of value row r after token t, and at state
   (group * rows + r) * 128 + c its stored registers.
   */
  lemma DispatchExact<S>(job: Job<real, S>, state: seq<S>, tokens: nat, was: seq<real>, output: seq<real>,
                         wasState: seq<S>, final: seq<S>, t: nat, r: nat, c: nat)
    requires job.rows > 0 && job.Valid(tokens) && |state| == STATE && RealArithmetic(job.ops)
    requires Outputs(job, state, tokens, tokens, was, output) && FinalState(job, state, tokens, wasState, final)
    requires t < tokens && r < job.rows && c < 128
    ensures job.group * job.rows + job.rows <= 6144
    ensures t * 6144 + (job.group * job.rows + r) < |output|
            && output[t * 6144 + (job.group * job.rows + r)] == RawOutput(job, state, r, t, tokens)
    ensures |final| == 786432
            && final[(job.group * job.rows + r) * 128 + c] == job.ops.store(RawState(job, state, r, tokens, tokens)[c])
  {
    hide StateAt, RawState, StartRow, RawOutput, CellOutput, RealArithmetic;
    FitsRows(job, tokens);
    var row := job.FirstRow() + r;
    var k, m := t * 6144 + row, row * 128 + c;
    RowOfCell(k, t, row);
    CellFits(t, tokens, row);
    assert OutputCell(job, state, tokens, tokens, was, output, k);
    OutputExact(job, state, r, t, tokens);
    assert m / 128 == row && m % 128 == c;
    StateExact(job, state, r, tokens, tokens);
  }
}
