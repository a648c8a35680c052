/**
 The Gated DeltaNet recurrence of shaders/bonsai_gdn.h over uninterpreted arithmetic: every
 equality below is an equality of expressions in source order. One SIMD group of 32 lanes
 owns rows value rows of 128 columns; lane l holds columns l, l + 32, l + 64 and l + 96.
 */
module Gdn {

  /** Arithmetic of the F32 registers and the state's storage type S. */
  datatype Ops<!F, !S> = Ops(
    zero: F,
    outScale: F,
    mul: (F, F) -> F,
    sub: (F, F) -> F,
    fma: (F, F, F) -> F,
    simdSum: seq<F> -> F,
    store: F -> S,
    load: S -> F)
  {
    /** bonsai_round_state: the register as it would be stored, read back. */
    function Round(x: F): F { load(store(x)) }
  }

  const ROUND_ROWS: nat := 128
  const QKV: nat := 10240
  const HEADS: nat := 48
  const VALUE_ROWS: nat := 6144

  // One row, one token

  /** The first i column quarters decayed. */
  function Decayed<F, S>(o: Ops<F, S>, s: seq<F>, d: F, i: nat): (r: seq<F>)
    requires |s| == 128
    ensures |r| == 128
  {
    seq(128, c requires 0 <= c < 128 => if c < 32 * i then o.mul(s[c], d) else s[c])
  }

  /** A lane's fused multiply-adds over its first n columns. */
  function Chain<F, S>(o: Ops<F, S>, a: seq<F>, b: seq<F>, lane: nat, n: nat): F
    requires lane < 32 && n <= 4 && |a| == |b| == 128
  {
    if n == 0 then o.zero
    else o.fma(a[lane + 32 * (n - 1)], b[lane + 32 * (n - 1)], Chain(o, a, b, lane, n - 1))
  }

  function Chains<F, S>(o: Ops<F, S>, a: seq<F>, b: seq<F>, n: nat): (r: seq<F>)
    requires n <= 4 && |a| == |b| == 128
    ensures |r| == 32
  {
    seq(32, lane requires 0 <= lane < 32 => Chain(o, a, b, lane, n))
  }

  /** The first i column quarters corrected. */
  function Corrected<F, S>(o: Ops<F, S>, s: seq<F>, k: seq<F>, correction: F, i: nat): (r: seq<F>)
    requires |s| == |k| == 128
    ensures |r| == 128
  {
    seq(128, c requires 0 <= c < 128 => if c < 32 * i then o.fma(k[c], correction, s[c]) else s[c])
  }

  /** What one token brings: its query, key, gates, and one value per row. */
  datatype Token<F> = Token(q: seq<F>, k: seq<F>, v: seq<F>, d: F, b: F)

  function Correction<F, S>(o: Ops<F, S>, s: seq<F>, token: Token<F>, r: nat): F
    requires |s| == |token.k| == 128 && r < |token.v|
  {
    o.mul(o.sub(token.v[r], o.simdSum(Chains(o, Decayed(o, s, token.d, 4), token.k, 4))), token.b)
  }

  /** A row's state after one token. */
  function StepRow<F, S>(o: Ops<F, S>, s: seq<F>, token: Token<F>, r: nat): (next: seq<F>)
    requires |s| == |token.q| == |token.k| == 128 && r < |token.v|
    ensures |next| == 128
  {
    Corrected(o, Decayed(o, s, token.d, 4), token.k, Correction(o, s, token, r), 4)
  }

  /** The row's output for that token. */
  function StepOutput<F, S>(o: Ops<F, S>, s: seq<F>, token: Token<F>, r: nat): F
    requires |s| == |token.q| == |token.k| == 128 && r < |token.v|
  {
    o.mul(o.simdSum(Chains(o, StepRow(o, s, token, r), token.q, 4)), o.outScale)
  }

  // Whole blocks

  function Slice<T>(s: seq<T>, at: nat, width: nat): (r: seq<T>)
    requires at + width <= |s|
    ensures |r| == width
  {
    s[at..at + width]
  }

  /** The inputs of one dispatch for one SIMD group. */
  datatype Job<!F, !S> = Job(ops: Ops<F, S>, qkv: seq<F>, decay: seq<F>, beta: seq<F>, rows: nat, group: nat) {
    function FirstRow(): nat { group * rows }

    ghost predicate Valid(tokens: nat) {
      && FirstRow() + rows <= VALUE_ROWS
      && |qkv| >= tokens * QKV && |decay| >= tokens * HEADS && |beta| >= tokens * HEADS
    }

    function Head(): nat { FirstRow() / 128 }

    function KeyColumn(): nat { Head() % 16 * 128 }

    /** Token t's inputs, wherever in the program they are loaded. */
    function TokenAt(t: nat): (token: Token<F>)
      requires rows > 0 && Valid(t + 1)
      ensures |token.q| == |token.k| == 128 && |token.v| == rows
    {
      Offsets(this, t);
      var at := t * QKV;
      Token(Slice(qkv, at + KeyColumn(), 128),
            Slice(qkv, at + 2048 + KeyColumn(), 128),
            Slice(qkv, at + 4096 + FirstRow(), rows),
            decay[t * HEADS + Head()],
            beta[t * HEADS + Head()])
    }
  }

  lemma Offsets<F, S>(job: Job<F, S>, t: nat)
    requires job.rows > 0 && job.Valid(t + 1)
    ensures job.Head() < HEADS && job.KeyColumn() + 128 <= 2048
    ensures t * QKV + QKV <= |job.qkv| && t * HEADS + HEADS <= |job.decay| && t * HEADS + HEADS <= |job.beta|
  {
  }

  function Rounded<F, S>(o: Ops<F, S>, s: seq<F>): (r: seq<F>)
    ensures |r| == |s|
  {
    seq(|s|, c requires 0 <= c < |s| => o.Round(s[c]))
  }

  /** In-loop rounding happens every 128 tokens, but not at the end of the block. */
  predicate RoundsAfter(t: nat, tokens: nat) { (t + 1) % ROUND_ROWS == 0 && t + 1 < tokens }

  /** Row r's registers before token t of a block of tokens. */
  function StateAt<F, S>(job: Job<F, S>, start: seq<F>, r: nat, t: nat, tokens: nat): (s: seq<F>)
    requires job.rows > 0 && job.Valid(tokens) && r < job.rows && |start| == 128 && t <= tokens
    ensures |s| == 128
  {
    if t == 0 then start
    else
      var next := StepRow(job.ops, StateAt(job, start, r, t - 1, tokens), TokenIn(job, t - 1, tokens), r);
      if RoundsAfter(t - 1, tokens) then Rounded(job.ops, next) else next
  }

  function TokenIn<F, S>(job: Job<F, S>, t: nat, tokens: nat): (token: Token<F>)
    requires job.rows > 0 && job.Valid(tokens) && t < tokens
    ensures |token.q| == |token.k| == 128 && |token.v| == job.rows
  {
    job.TokenAt(t)
  }

  function OutputAt<F, S>(job: Job<F, S>, start: seq<F>, r: nat, t: nat, tokens: nat): F
    requires job.rows > 0 && job.Valid(tokens) && r < job.rows && |start| == 128 && t < tokens
  {
    StepOutput(job.ops, StateAt(job, start, r, t, tokens), TokenIn(job, t, tokens), r)
  }

  // Register updates

  /** Rows below r have decayed i + 1 quarters and predicted over them, the others i. */
  ghost predicate Decaying<F, S>(o: Ops<F, S>, was: seq<seq<F>>, key: seq<F>, d: F, values: seq<seq<F>>,
                                 prediction: seq<seq<F>>,
                                 i: nat, r: nat)
    requires |key| == 128 && i + 1 <= 4 + (if r == 0 then 1 else 0)
  {
    && |was| == |values| == |prediction|
    && (forall k | 0 <= k < |was| :: |was[k]| == 128)
    && (forall k | 0 <= k < |was| :: values[k] == Decayed(o, was[k], d, if k < r then i + 1 else i))
    && (forall k | 0 <= k < |was| ::
          prediction[k] == Chains(o, Decayed(o, was[k], d, 4), key, if k < r then i + 1 else i))
  }

  /** One row and one column quarter, in all lanes: values *= d, then prediction = fma(values, k, prediction). */
  method DecayRow<F, S>(o: Ops<F, S>, row: seq<F>, prediction: seq<F>, i: nat, k: seq<F>, d: F, ghost was: seq<F>,
                        ghost key: seq<F>)
    returns (next: seq<F>, predicted: seq<F>)
    requires i < 4 && |was| == |key| == 128 && 32 * (i + 1) <= |k| <= 128 && k == key[..|k|]
    requires row == Decayed(o, was, d, i) && prediction == Chains(o, Decayed(o, was, d, 4), key, i)
    ensures next == Decayed(o, was, d, i + 1) && predicted == Chains(o, Decayed(o, was, d, 4), key, i + 1)
  {
    next := seq(128, c requires 0 <= c < 128 => if 32 * i <= c < 32 * i + 32 then o.mul(row[c], d) else row[c]);
    predicted :=
      seq(32, lane requires 0 <= lane < 32 => o.fma(next[lane + 32 * i], k[lane + 32 * i], prediction[lane]));
  }

  method DecayQuarter<F, S>(o: Ops<F, S>, before: seq<seq<F>>, predictionBefore: seq<seq<F>>, i: nat, k: seq<F>, d: F,
                            ghost was: seq<seq<F>>, ghost key: seq<F>)
    returns (values: seq<seq<F>>, prediction: seq<seq<F>>)
    requires i < 4 && |key| == 128 && 32 * (i + 1) <= |k| <= 128 && k == key[..|k|]
    requires Decaying(o, was, key, d, before, predictionBefore, i, 0)
    ensures Decaying(o, was, key, d, values, prediction, i + 1, 0)
  {
    hide Decayed, Chains;
    values, prediction := before, predictionBefore;
    for r := 0 to |before|
      invariant Decaying(o, was, key, d, values, prediction, i, r)
    {
      var row, p := DecayRow(o, values[r], prediction[r], i, k, d, was[r], key);
      values, prediction := values[r := row], prediction[r := p];
    }
  }

  /** One row's correction and output, quarter by quarter. */
  method CorrectRow<F, S>(o: Ops<F, S>, row: seq<F>, q: seq<F>, k: seq<F>, correction: F)
    returns (next: seq<F>, result: seq<F>)
    requires |row| == |q| == |k| == 128
    ensures next == Corrected(o, row, k, correction, 4) && result == Chains(o, next, q, 4)
  {
    next := row;
    result := seq(32, _ => o.zero);
    ghost var done := Corrected(o, row, k, correction, 4);
    for i := 0 to 4
      invariant next == Corrected(o, row, k, correction, i)
      invariant result == Chains(o, done, q, i)
    {
      next := seq(128, c requires 0 <= c < 128 && |next| == 128 =>
                if 32 * i <= c < 32 * i + 32 then o.fma(k[c], correction, next[c]) else next[c]);
      result := seq(32, lane requires 0 <= lane < 32 && |result| == 32 && |next| == 128 =>
                  o.fma(next[lane + 32 * i], q[lane + 32 * i], result[lane]));
    }
  }

  /** All rows advanced by one token. */
  ghost predicate Stepped<F, S>(o: Ops<F, S>, was: seq<seq<F>>, token: Token<F>, values: seq<seq<F>>)
    requires |token.q| == |token.k| == 128
  {
    && |was| == |values| == |token.v|
    && forall r | 0 <= r < |was| :: |was[r]| == 128 && values[r] == StepRow(o, was[r], token, r)
  }

  // One token in either kernel

  /** The outputs of one token's rows, and nothing else, are written. */
  ghost predicate Wrote<F, S>(job: Job<F, S>, was: seq<F>, now: seq<F>, states: seq<seq<F>>, token: Token<F>, t: nat,
                              n: nat)
    requires |token.q| == |token.k| == 128 && |token.v| == |states| == job.rows && n <= job.rows
    requires forall r | 0 <= r < |states| :: |states[r]| == 128
  {
    var at := t * VALUE_ROWS + job.FirstRow();
    && |was| == |now| && at + n <= |now|
    && (forall r | 0 <= r < n :: now[at + r] == StepOutput(job.ops, states[r], token, r))
    && (forall k | 0 <= k < |now| && !(at <= k < at + n) :: now[k] == was[k])
  }

  ghost predicate ReadyRows<F>(values: seq<seq<F>>, rows: nat) {
    |values| == rows && forall r | 0 <= r < rows :: |values[r]| == 128
  }

  /** Rows below r are corrected and written; the others are decayed and predicted. */
  ghost predicate Correcting<F, S>(job: Job<F, S>, was: seq<F>, now: seq<F>, before: seq<seq<F>>, token: Token<F>,
                                   t: nat,
                                   values: seq<seq<F>>, r: nat)
    requires |token.q| == |token.k| == 128 && |token.v| == job.rows && ReadyRows(before, job.rows) && r <= job.rows
  {
    && |values| == job.rows
    && (forall c | 0 <= c < r :: values[c] == StepRow(job.ops, before[c], token, c))
    && (forall c | r <= c < job.rows :: values[c] == Decayed(job.ops, before[c], token.d, 4))
    && Wrote(job, was, now, before, token, t, r)
  }

  /** One row's correction, state update and output store. */
  method CorrectOne<F, S>(job: Job<F, S>, t: nat, tokens: nat, r: nat, q: seq<F>, k: seq<F>, v: F, b: F,
                          predicted: seq<F>,
                          values: seq<seq<F>>, output: array<F>, ghost was: seq<F>, ghost before: seq<seq<F>>,
                          ghost token: Token<F>)
    returns (next: seq<seq<F>>)
    requires job.rows > 0 && job.Valid(tokens) && t < tokens && ReadyRows(before, job.rows) && r < job.rows
    requires |token.q| == |token.k| == 128 && |token.v| == job.rows
    requires q == token.q && k == token.k && v == token.v[r] && b == token.b
    requires predicted == Chains(job.ops, Decayed(job.ops, before[r], token.d, 4), token.k, 4)
    requires output.Length >= tokens * VALUE_ROWS
    requires Correcting(job, was, output[..], before, token, t, values, r)
    modifies output
    ensures Correcting(job, was, output[..], before, token, t, next, r + 1)
  {
    hide Decayed, Chains, Corrected;
    var o := job.ops;
    var correction := o.mul(o.sub(v, o.simdSum(predicted)), b);
    var row, result := CorrectRow(o, values[r], q, k, correction);
    next := values[r := row];
    CellFits(t, tokens, job.FirstRow() + r);
    output[t * VALUE_ROWS + job.FirstRow() + r] := o.mul(o.simdSum(result), o.outScale);
  }

  lemma CellFits(t: nat, tokens: nat, row: nat)
    requires t < tokens && row < VALUE_ROWS
    ensures t * VALUE_ROWS + row < tokens * VALUE_ROWS
  {
  }

  lemma CorrectStart<F, S>(job: Job<F, S>, now: seq<F>, before: seq<seq<F>>, token: Token<F>, t: nat, tokens: nat,
                           values: seq<seq<F>>, prediction: seq<seq<F>>)
    requires job.rows > 0 && job.Valid(tokens) && t < tokens && |now| >= tokens * VALUE_ROWS
    requires |token.q| == |token.k| == 128 && |token.v| == job.rows && ReadyRows(before, job.rows)
    requires Decaying(job.ops, before, token.k, token.d, values, prediction, 4, 0)
    ensures Correcting(job, now, now, before, token, t, values, 0)
  {
    hide Decayed, Chains;
    CellFits(t, tokens, job.FirstRow());
  }

  lemma CorrectEnd<F, S>(job: Job<F, S>, was: seq<F>, now: seq<F>, before: seq<seq<F>>, token: Token<F>, t: nat,
                         values: seq<seq<F>>)
    requires |token.q| == |token.k| == 128 && |token.v| == job.rows && ReadyRows(before, job.rows)
    requires Correcting(job, was, now, before, token, t, values, job.rows)
    ensures Stepped(job.ops, before, token, values) && Wrote(job, was, now, before, token, t, job.rows)
  {
  }

  /** A further quarter of 128 values from a given place on. */
  lemma Quarter<T>(s: seq<T>, at: nat, i: nat)
    requires i < 4 && at + 128 <= |s|
    ensures s[at..at + 128][..32 * i] + s[at + 32 * i..at + 32 * i + 32] == s[at..at + 128][..32 * (i + 1)]
  {
    var n := 32 * i;
    var a, b := s[at..at + 128][..n] + s[at + n..at + n + 32], s[at..at + 128][..n + 32];
    forall k | 0 <= k < n + 32
      ensures a[k] == s[at + k] == b[k]
    {
    }
    assert a == b;
  }

  method DecayDirect<F, S>(job: Job<F, S>, t: nat, tokens: nat, d: F, before: seq<seq<F>>)
    returns (values: seq<seq<F>>, prediction: seq<seq<F>>, q: seq<F>, k: seq<F>)
    requires job.rows > 0 && job.Valid(tokens) && t < tokens && ReadyRows(before, job.rows)
    requires d == TokenIn(job, t, tokens).d
    ensures q == TokenIn(job, t, tokens).q && k == TokenIn(job, t, tokens).k
    ensures Decaying(job.ops, before, k, d, values, prediction, 4, 0)
  {
    hide Decaying;
    ghost var token := TokenIn(job, t, tokens);
    TokenParts(job, t, tokens);
    hide TokenIn, Job.KeyColumn, Job.FirstRow, Job.Head, Job.Valid;
    var at, key := t * QKV, job.KeyColumn();
    q, k := [], [];
    values := before;
    prediction := seq(job.rows, _ => seq(32, _ => job.ops.zero));
    DecayStart(job.ops, before, token.k, d, prediction);
    for i := 0 to 4
      invariant q == token.q[..32 * i] && k == token.k[..32 * i]
      invariant Decaying(job.ops, before, token.k, d, values, prediction, i, 0)
    {
      Quarter(job.qkv, at + key, i);
      Quarter(job.qkv, at + 2048 + key, i);
      q := q + job.qkv[at + key + 32 * i..at + key + 32 * i + 32];
      k := k + job.qkv[at + 2048 + key + 32 * i..at + 2048 + key + 32 * i + 32];
      values, prediction := DecayQuarter(job.ops, values, prediction, i, k, d, before, token.k);
    }
  }

  /** bonsai_gdn_rows: every load sits where it is used. */
  method StepDirect<F, S>(job: Job<F, S>, t: nat, tokens: nat, before: seq<seq<F>>, output: array<F>)
    returns (values: seq<seq<F>>)
    requires job.rows > 0 && job.Valid(tokens) && t < tokens && ReadyRows(before, job.rows)
    requires output.Length >= tokens * VALUE_ROWS
    modifies output
    ensures Stepped(job.ops, before, TokenIn(job, t, tokens), values)
    ensures Wrote(job, old(output[..]), output[..], before, TokenIn(job, t, tokens), t, job.rows)
  {
    hide Correcting, Stepped, Wrote, Decayed, Chains;
    ghost var token := TokenIn(job, t, tokens);
    Offsets(job, t);
    var d, b := job.decay[t * HEADS + job.Head()], job.beta[t * HEADS + job.Head()];
    var prediction, q, k;
    values, prediction, q, k := DecayDirect(job, t, tokens, d, before);
    CorrectStart(job, output[..], before, token, t, tokens, values, prediction);
    for r := 0 to job.rows
      invariant Correcting(job, old(output[..]), output[..], before, token, t, values, r)
    {
      var v := job.qkv[t * QKV + 4096 + job.FirstRow() + r];
      values :=
        CorrectOne(job, t, tokens, r, q, k, v, b, prediction[r], values, output, old(output[..]), before, token);
    }
    CorrectEnd(job, old(output[..]), output[..], before, token, t, values);
  }

  lemma DecayStart<F, S>(o: Ops<F, S>, was: seq<seq<F>>, key: seq<F>, d: F, prediction: seq<seq<F>>)
    requires |key| == 128 && |prediction| == |was| && forall r | 0 <= r < |was| :: |was[r]| == 128
    requires forall r | 0 <= r < |was| :: prediction[r] == seq(32, _ => o.zero)
    ensures Decaying(o, was, key, d, was, prediction, 0, 0)
  {
  }

  /** The prefill kernel's load lambda: all of a token's inputs into the next_ registers. */
  method Load<F, S>(job: Job<F, S>, t: nat, tokens: nat) returns (next: Token<F>)
    requires job.rows > 0 && job.Valid(tokens) && t < tokens
    ensures next == TokenIn(job, t, tokens)
  {
    TokenParts(job, t, tokens);
    hide TokenIn, Job.KeyColumn, Job.FirstRow, Job.Head, Job.Valid;
    var at, key := t * QKV, job.KeyColumn();
    var d, b := job.decay[t * HEADS + job.Head()], job.beta[t * HEADS + job.Head()];
    var q, k, v: seq<F> := [], [], [];
    ghost var token := TokenIn(job, t, tokens);
    for i := 0 to 4
      invariant q == token.q[..32 * i] && k == token.k[..32 * i]
    {
      Quarter(job.qkv, at + key, i);
      Quarter(job.qkv, at + 2048 + key, i);
      q := q + job.qkv[at + key + 32 * i..at + key + 32 * i + 32];
      k := k + job.qkv[at + 2048 + key + 32 * i..at + 2048 + key + 32 * i + 32];
    }
    for r := 0 to job.rows
      invariant v == token.v[..r]
    {
      v := v + [job.qkv[at + 4096 + job.FirstRow() + r]];
    }
    assert q == token.q && k == token.k && v == token.v;
    next := Token(q, k, v, d, b);
  }

  /** bonsai_gdn_prefill_rows: the token's inputs are already in registers. */
  method StepLoaded<F, S>(job: Job<F, S>, t: nat, tokens: nat, token: Token<F>, before: seq<seq<F>>, output: array<F>)
    returns (values: seq<seq<F>>)
    requires job.rows > 0 && job.Valid(tokens) && t < tokens && ReadyRows(before, job.rows)
    requires |token.q| == |token.k| == 128 && |token.v| == job.rows
    requires output.Length >= tokens * VALUE_ROWS
    modifies output
    ensures Stepped(job.ops, before, token, values)
    ensures Wrote(job, old(output[..]), output[..], before, token, t, job.rows)
  {
    hide Correcting, Stepped, Wrote, Decayed, Chains;
    values := before;
    var prediction := seq(job.rows, _ => seq(32, _ => job.ops.zero));
    DecayStart(job.ops, before, token.k, token.d, prediction);
    for i := 0 to 4
      invariant Decaying(job.ops, before, token.k, token.d, values, prediction, i, 0)
      invariant output[..] == old(output[..])
    {
      values, prediction := DecayQuarter(job.ops, values, prediction, i, token.k, token.d, before, token.k);
    }
    CorrectStart(job, output[..], before, token, t, tokens, values, prediction);
    for r := 0 to job.rows
      invariant Correcting(job, old(output[..]), output[..], before, token, t, values, r)
    {
      values := CorrectOne(job, t, tokens, r, token.q, token.k, token.v[r], token.b, prediction[r], values, output,
                           old(output[..]), before, token);
    }
    CorrectEnd(job, old(output[..]), output[..], before, token, t, values);
  }

  // The two kernels

  const STATE: nat := 786432

  /** Row r of the stored state, loaded into registers. */
  function StartRow<F, S>(job: Job<F, S>, state: seq<S>, r: nat): (s: seq<F>)
    requires |state| == STATE && job.FirstRow() + job.rows <= VALUE_ROWS && r < job.rows
    ensures |s| == 128
  {
    seq(128, c requires 0 <= c < 128 => job.ops.load(state[(job.FirstRow() + r) * 128 + c]))
  }

  /** Cell k of the output belongs to this group and to a token below n. */
  predicate Owned<F, S>(job: Job<F, S>, k: nat, n: nat) {
    k / VALUE_ROWS < n && job.FirstRow() <= k % VALUE_ROWS < job.FirstRow() + job.rows
  }

  /** The block's outputs for tokens below n, and no other cell, are written. */
  ghost predicate Outputs<F, S>(job: Job<F, S>, state: seq<S>, tokens: nat, n: nat, was: seq<F>, now: seq<F>)
    requires job.rows > 0 && job.Valid(tokens) && |state| == STATE && n <= tokens
  {
    && |was| == |now| && tokens * VALUE_ROWS <= |now|
    && forall k | 0 <= k < |now| :: OutputCell(job, state, tokens, n, was, now, k)
  }

  /** A cell holds its row's output for its token when a token below n owns it, and is as it was otherwise. */
  ghost predicate OutputCell<F, S>(job: Job<F, S>, state: seq<S>, tokens: nat, n: nat, was: seq<F>, now: seq<F>, k: nat)
    requires job.rows > 0 && job.Valid(tokens) && |state| == STATE && n <= tokens && k < |was| == |now|
  {
    now[k] == if Owned(job, k, n) then CellOutput(job, state, tokens, k / VALUE_ROWS, k % VALUE_ROWS - job.FirstRow())
              else was[k]
  }

  ghost function CellOutput<F, S>(job: Job<F, S>, state: seq<S>, tokens: nat, t: nat, r: nat): F
    requires job.rows > 0 && job.Valid(tokens) && |state| == STATE && t < tokens && r < job.rows
  {
    OutputAt(job, StartRow(job, state, r), r, t, tokens)
  }

  /** The group's rows of the state hold the stored registers, and no other row changed. */
  ghost predicate FinalState<F, S>(job: Job<F, S>, state: seq<S>, tokens: nat, was: seq<S>, now: seq<S>)
    requires job.rows > 0 && job.Valid(tokens) && |state| == STATE
  {
    && |was| == |now| == STATE
    && forall k | 0 <= k < STATE ::
         now[k] == if job.FirstRow() <= k / 128 < job.FirstRow() + job.rows
                   then job.ops.store(StateAt(job, StartRow(job, state, k / 128 - job.FirstRow()),
                                              k / 128 - job.FirstRow(),
                                              tokens, tokens)[k % 128])
                   else was[k]
  }

  /** The registers before token t. */
  ghost predicate AtToken<F, S>(job: Job<F, S>, state: seq<S>, tokens: nat, t: nat, values: seq<seq<F>>)
    requires job.rows > 0 && job.Valid(tokens) && |state| == STATE && t <= tokens
  {
    |values| == job.rows && forall r | 0 <= r < job.rows ::
                              values[r] == StateAt(job, StartRow(job, state, r), r, t, tokens)
  }

  method LoadState<F, S>(job: Job<F, S>, initial: array<S>) returns (values: seq<seq<F>>)
    requires initial.Length == STATE && job.FirstRow() + job.rows <= VALUE_ROWS
    ensures |values| == job.rows
    ensures forall r | 0 <= r < job.rows :: values[r] == StartRow(job, initial[..], r)
  {
    values := [];
    for r := 0 to job.rows
      invariant |values| == r
      invariant forall c | 0 <= c < r :: values[c] == StartRow(job, initial[..], c)
    {
      values := values + [StartRow(job, initial[..], r)];
    }
  }

  /** The rounding between tokens. */
  method RoundRows<F, S>(o: Ops<F, S>, t: nat, tokens: nat, before: seq<seq<F>>) returns (values: seq<seq<F>>)
    ensures |values| == |before|
    ensures forall r | 0 <= r < |before| ::
              values[r] == if RoundsAfter(t, tokens) then Rounded(o, before[r]) else before[r]
  {
    values := before;
    if (t + 1) % ROUND_ROWS == 0 && t + 1 < tokens {
      for r := 0 to |before|
        invariant |values| == |before|
        invariant forall c | 0 <= c < r :: values[c] == Rounded(o, before[c])
        invariant forall c | r <= c < |before| :: values[c] == before[c]
      {
        values := values[r := Rounded(o, values[r])];
      }
    }
  }

  method StoreState<F, S>(job: Job<F, S>, finalState: array<S>, values: seq<seq<F>>, ghost state: seq<S>, tokens: nat)
    requires job.rows > 0 && job.Valid(tokens) && |state| == STATE == finalState.Length
    requires AtToken(job, state, tokens, tokens, values)
    modifies finalState
    ensures FinalState(job, state, tokens, old(finalState[..]), finalState[..])
  {
    hide StateAt, StartRow;
    var first := job.FirstRow();
    ghost var was := finalState[..];
    for r := 0 to job.rows
      invariant forall k | 0 <= k < STATE ::
          finalState[k] == if first <= k / 128 < first + r then job.ops.store(values[k / 128 - first][k % 128])
            else was[k]
    {
      for c := 0 to 128
        invariant forall k | 0 <= k < STATE ::
            finalState[k] == if first <= k / 128 < first + r || (k / 128 == first + r && k % 128 < c)
                             then job.ops.store(values[k / 128 - first][k % 128]) else was[k]
      {
        finalState[(first + r) * 128 + c] := job.ops.store(values[r][c]);
      }
    }
  }

  lemma OutputsAdvance<F, S>(job: Job<F, S>, state: seq<S>, tokens: nat, t: nat, was: seq<F>, now: seq<F>,
                             next: seq<F>, values: seq<seq<F>>)
    requires job.rows > 0 && job.Valid(tokens) && |state| == STATE && t < tokens
    requires AtToken(job, state, tokens, t, values) && ReadyRows(values, job.rows)
    requires Outputs(job, state, tokens, t, was, now)
    requires Wrote(job, now, next, values, TokenIn(job, t, tokens), t, job.rows)
    ensures Outputs(job, state, tokens, t + 1, was, next)
  {
    hide OutputCell, TokenIn, StepOutput, StateAt, StartRow, Job.Valid;
    var n := t + 1;
    forall k | 0 <= k < |next|
      ensures OutputCell(job, state, tokens, n, was, next, k)
    {
      assert OutputCell(job, state, tokens, t, was, now, k);
      var at := t * VALUE_ROWS + job.FirstRow();
      if at <= k < at + job.rows {
        assert next[at + (k - at)] == StepOutput(job.ops, values[k - at], TokenIn(job, t, tokens), k - at);
        OutputWritten(job, state, tokens, t, was, next, values, k);
      } else {
        OutputKept(job, state, tokens, t, was, now, next, k);
      }
    }
  }

  lemma OutputWritten<F, S>(job: Job<F, S>, state: seq<S>, tokens: nat, t: nat, was: seq<F>, next: seq<F>,
                            values: seq<seq<F>>, k: nat)
    requires job.rows > 0 && job.Valid(tokens) && |state| == STATE && t < tokens && k < |was| == |next|
    requires AtToken(job, state, tokens, t, values) && ReadyRows(values, job.rows)
    requires 0 <= k - (t * VALUE_ROWS + job.FirstRow()) < job.rows
    requires var r := k - (t * VALUE_ROWS + job.FirstRow());
             next[k] == StepOutput(job.ops, values[r], TokenIn(job, t, tokens), r)
    ensures OutputCell(job, state, tokens, t + 1, was, next, k)
  {
    hide TokenIn, StepOutput, StateAt, StartRow;
    FitsRows(job, tokens);
    var first := job.FirstRow();
    RowOfCell(k, t, k - t * VALUE_ROWS);
    assert Owned(job, k, t + 1);
  }

  lemma OutputKept<F, S>(job: Job<F, S>, state: seq<S>, tokens: nat, t: nat, was: seq<F>, now: seq<F>, next: seq<F>,
                         k: nat)
    requires job.rows > 0 && job.Valid(tokens) && |state| == STATE && t < tokens && k < |was| == |now| == |next|
    requires !(t * VALUE_ROWS + job.FirstRow() <= k < t * VALUE_ROWS + job.FirstRow() + job.rows)
    requires OutputCell(job, state, tokens, t, was, now, k) && next[k] == now[k]
    ensures OutputCell(job, state, tokens, t + 1, was, next, k)
  {
    hide CellOutput;
    OwnedByNext(job, k, t);
  }

  lemma FitsRows<F, S>(job: Job<F, S>, tokens: nat)
    requires job.Valid(tokens)
    ensures job.FirstRow() + job.rows <= VALUE_ROWS
  {
  }

  lemma RowOfCell(k: nat, t: nat, row: nat)
    requires k == t * VALUE_ROWS + row && row < VALUE_ROWS
    ensures k / VALUE_ROWS == t && k % VALUE_ROWS == row
  {
  }

  /** The cells that a further token owns are its own. */
  lemma OwnedByNext<F, S>(job: Job<F, S>, k: nat, t: nat)
    requires !(t * VALUE_ROWS + job.FirstRow() <= k < t * VALUE_ROWS + job.FirstRow() + job.rows)
    ensures Owned(job, k, t + 1) <==> Owned(job, k, t)
  {
    hide Job.FirstRow;
    assert k == k / VALUE_ROWS * VALUE_ROWS + k % VALUE_ROWS;
  }

  lemma StateAdvance<F, S>(job: Job<F, S>, state: seq<S>, tokens: nat, t: nat, values: seq<seq<F>>,
                           stepped: seq<seq<F>>, next: seq<seq<F>>)
    requires job.rows > 0 && job.Valid(tokens) && |state| == STATE && t < tokens
    requires AtToken(job, state, tokens, t, values) && Stepped(job.ops, values, TokenIn(job, t, tokens), stepped)
    requires |next| == job.rows
    requires forall r | 0 <= r < job.rows ::
               next[r] == if RoundsAfter(t, tokens) then Rounded(job.ops, stepped[r]) else stepped[r]
    ensures AtToken(job, state, tokens, t + 1, next)
  {
    hide StartRow, TokenIn, StepRow, Rounded, RoundsAfter;
  }

  /** bonsai_gdn_rows. initial and finalState may be the same buffer. */
  method Direct<F, S>(job: Job<F, S>, initial: array<S>, finalState: array<S>, output: array<F>, tokens: nat)
    requires job.rows > 0 && job.Valid(tokens)
    requires initial.Length == finalState.Length == STATE && output.Length >= tokens * VALUE_ROWS
    requires output as object != initial as object && output as object != finalState as object
    modifies finalState, output
    ensures Outputs(job, old(initial[..]), tokens, tokens, old(output[..]), output[..])
    ensures FinalState(job, old(initial[..]), tokens, old(finalState[..]), finalState[..])
  {
    hide Outputs, FinalState, AtToken, Stepped, Wrote;
    ghost var state := initial[..];
    var values := LoadState(job, initial);
    Begin(job, state, tokens, output[..], values);
    for t := 0 to tokens
      invariant finalState[..] == old(finalState[..])
      invariant AtToken(job, state, tokens, t, values)
      invariant Outputs(job, state, tokens, t, old(output[..]), output[..])
    {
      ghost var now := output[..];
      Ready(job, state, tokens, t, values);
      var stepped := StepDirect(job, t, tokens, values, output);
      OutputsAdvance(job, state, tokens, t, old(output[..]), now, output[..], values);
      SteppedLength(job, values, TokenIn(job, t, tokens), stepped);
      var next := RoundRows(job.ops, t, tokens, stepped);
      StateAdvance(job, state, tokens, t, values, stepped, next);
      values := next;
    }
    StoreState(job, finalState, values, state, tokens);
  }

  /**
   bonsai_gdn_prefill_rows: token t's inputs are loaded while token t - 1 runs. Its contract
   is the direct kernel's, expression for expression.
   */
  method Prefill<F, S>(job: Job<F, S>, initial: array<S>, finalState: array<S>, output: array<F>, tokens: nat)
    requires job.rows > 0 && job.Valid(tokens) && tokens > 0
    requires initial.Length == finalState.Length == STATE && output.Length >= tokens * VALUE_ROWS
    requires output as object != initial as object && output as object != finalState as object
    modifies finalState, output
    ensures Outputs(job, old(initial[..]), tokens, tokens, old(output[..]), output[..])
    ensures FinalState(job, old(initial[..]), tokens, old(finalState[..]), finalState[..])
  {
    hide Outputs, FinalState, AtToken, Stepped, Wrote, TokenIn;
    ghost var state := initial[..];
    var values := LoadState(job, initial);
    Begin(job, state, tokens, output[..], values);
    var ahead := Load(job, 0, tokens);
    for t := 0 to tokens
      invariant finalState[..] == old(finalState[..])
      invariant t < tokens ==> ahead == TokenIn(job, t, tokens)
      invariant AtToken(job, state, tokens, t, values)
      invariant Outputs(job, state, tokens, t, old(output[..]), output[..])
    {
      var token := ahead;
      if t + 1 < tokens {
        ahead := Load(job, t + 1, tokens);
      }
      ghost var now := output[..];
      Ready(job, state, tokens, t, values);
      var stepped := StepLoaded(job, t, tokens, token, values, output);
      OutputsAdvance(job, state, tokens, t, old(output[..]), now, output[..], values);
      SteppedLength(job, values, token, stepped);
      var next := RoundRows(job.ops, t, tokens, stepped);
      StateAdvance(job, state, tokens, t, values, stepped, next);
      values := next;
    }
    StoreState(job, finalState, values, state, tokens);
  }

  lemma Begin<F, S>(job: Job<F, S>, state: seq<S>, tokens: nat, now: seq<F>, values: seq<seq<F>>)
    requires job.rows > 0 && job.Valid(tokens) && |state| == STATE && tokens * VALUE_ROWS <= |now|
    requires |values| == job.rows && forall r | 0 <= r < job.rows :: values[r] == StartRow(job, state, r)
    ensures AtToken(job, state, tokens, 0, values) && Outputs(job, state, tokens, 0, now, now)
  {
    hide StartRow;
  }

  lemma Ready<F, S>(job: Job<F, S>, state: seq<S>, tokens: nat, t: nat, values: seq<seq<F>>)
    requires job.rows > 0 && job.Valid(tokens) && |state| == STATE && t <= tokens
    requires AtToken(job, state, tokens, t, values)
    ensures ReadyRows(values, job.rows)
  {
    hide StartRow;
  }

  lemma SteppedLength<F, S>(job: Job<F, S>, values: seq<seq<F>>, token: Token<F>, stepped: seq<seq<F>>)
    requires |token.q| == |token.k| == 128 && Stepped(job.ops, values, token, stepped)
    ensures |stepped| == |token.v|
  {
  }

  // Chaining blocks through the stored state

  /** The inputs from token n on. */
  function Tail<F, S>(job: Job<F, S>, n: nat): (tail: Job<F, S>)
    requires job.Valid(n)
  {
    job.(qkv := job.qkv[n * QKV..], decay := job.decay[n * HEADS..], beta := job.beta[n * HEADS..])
  }

  lemma TailValid<F, S>(job: Job<F, S>, n: nat, m: nat)
    requires job.Valid(n + m)
    ensures job.Valid(n) && Tail(job, n).Valid(m)
  {
  }

  lemma TokensAdd(n: nat, t: nat)
    ensures (n + t) * QKV == n * QKV + t * QKV && (n + t) * HEADS == n * HEADS + t * HEADS
  {
  }

  lemma TailToken<F, S>(job: Job<F, S>, n: nat, m: nat, t: nat)
    requires job.rows > 0 && job.Valid(n + m) && t < m
    ensures job.Valid(n) && Tail(job, n).Valid(m) && TokenIn(Tail(job, n), t, m) == TokenIn(job, n + t, n + m)
  {
    hide TokenIn, Job.Valid, Job.KeyColumn, Job.FirstRow, Job.Head, Tail, Slice;
    TailValid(job, n, m);
    FewerTokens(job, n + t + 1, n + m);
    FewerTokens(Tail(job, n), t + 1, m);
    TailFields(job, n);
    Offsets(job, n + t);
    Offsets(Tail(job, n), t);
    FitsRows(job, n + m);
    SameColumns(job, n);
    TokensAdd(n, t);
    TailSlice(job, n, t, job.KeyColumn(), 128);
    TailSlice(job, n, t, 2048 + job.KeyColumn(), 128);
    TailSlice(job, n, t, 4096 + job.FirstRow(), job.rows);
    TailAt(job, n, t, job.Head());
    TokenParts(job, n + t, n + m);
    TokenParts(Tail(job, n), t, m);
  }

  lemma FewerTokens<F, S>(job: Job<F, S>, n: nat, m: nat)
    requires job.Valid(m) && n <= m
    ensures job.Valid(n)
  {
  }

  lemma TokenParts<F, S>(job: Job<F, S>, t: nat, tokens: nat)
    requires job.rows > 0 && job.Valid(tokens) && t < tokens
    ensures var at := t * QKV;
            && job.KeyColumn() + 128 <= 2048 && job.FirstRow() + job.rows <= VALUE_ROWS && at + QKV <= |job.qkv|
            && job.Head() < HEADS && t * HEADS + HEADS <= |job.decay| && t * HEADS + HEADS <= |job.beta|
            && TokenIn(job, t, tokens)
               == Token(Slice(job.qkv, at + job.KeyColumn(), 128),
                        Slice(job.qkv, at + 2048 + job.KeyColumn(), 128),
                        Slice(job.qkv, at + 4096 + job.FirstRow(), job.rows),
                        job.decay[t * HEADS + job.Head()], job.beta[t * HEADS + job.Head()])
  {
    Offsets(job, t);
  }

  lemma SameColumns<F, S>(job: Job<F, S>, n: nat)
    requires job.Valid(n)
    ensures Tail(job, n).KeyColumn() == job.KeyColumn() && Tail(job, n).FirstRow() == job.FirstRow()
    ensures Tail(job, n).Head() == job.Head()
  {
  }

  lemma TailSlice<F, S>(job: Job<F, S>, n: nat, t: nat, from: nat, width: nat)
    requires job.Valid(n) && from + width <= QKV && (n + t) * QKV + QKV <= |job.qkv|
    requires (n + t) * QKV == n * QKV + t * QKV && t * QKV + QKV <= |Tail(job, n).qkv|
    ensures Slice(Tail(job, n).qkv, t * QKV + from, width) == Slice(job.qkv, (n + t) * QKV + from, width)
  {
    SliceOfTail(job.qkv, n * QKV, t * QKV + from, t * QKV + from + width);
  }

  lemma TailAt<F, S>(job: Job<F, S>, n: nat, t: nat, head: nat)
    requires job.Valid(n) && head < HEADS && (n + t) * HEADS == n * HEADS + t * HEADS
    requires (n + t) * HEADS + HEADS <= |job.decay| && (n + t) * HEADS + HEADS <= |job.beta|
    ensures t * HEADS + head < |Tail(job, n).decay| && t * HEADS + head < |Tail(job, n).beta|
    ensures Tail(job, n).decay[t * HEADS + head] == job.decay[(n + t) * HEADS + head]
    ensures Tail(job, n).beta[t * HEADS + head] == job.beta[(n + t) * HEADS + head]
  {
  }

  lemma SliceOfTail<T>(s: seq<T>, a: nat, from: nat, to: nat)
    requires from <= to && a + to <= |s|
    ensures s[a..][from..to] == s[a + from..a + to]
  {
  }

  /** A longer block agrees with a shorter one before the shorter one's end. */
  lemma {:induction false} PrefixState<F, S>(job: Job<F, S>, start: seq<F>, r: nat, t: nat, n: nat, m: nat)
    requires job.rows > 0 && job.Valid(n + m) && r < job.rows && |start| == 128 && t < n
    ensures job.Valid(n) && StateAt(job, start, r, t, n + m) == StateAt(job, start, r, t, n)
    decreases t
  {
    hide StepRow, Rounded, Job.TokenAt;
    TailValid(job, n, m);
    if t > 0 {
      PrefixState(job, start, r, t - 1, n, m);
    }
  }

  /** Storing and loading changes no register, as with the F32 state. */
  ghost predicate Exact<F(!new), S>(o: Ops<F, S>) {
    forall x: F :: o.Round(x) == x
  }

  /** A block may be split after n tokens: 128 divides n, or storage is exact. */
  ghost predicate Splits<F(!new), S>(o: Ops<F, S>, n: nat) {
    n % ROUND_ROWS == 0 || Exact(o)
  }

  lemma ExactRounded<F(!new), S>(o: Ops<F, S>, s: seq<F>)
    requires Exact(o)
    ensures Rounded(o, s) == s
  {
  }

  /** Where the shorter block stops and stores, a longer one rounds as well, or rounding does nothing. */
  lemma BoundaryState<F(!new), S>(job: Job<F, S>, start: seq<F>, r: nat, n: nat, m: nat)
    requires job.rows > 0 && job.Valid(n + m) && r < job.rows && |start| == 128 && n > 0 && m > 0
             && Splits(job.ops, n)
    ensures job.Valid(n) && StateAt(job, start, r, n, n + m) == Rounded(job.ops, StateAt(job, start, r, n, n))
  {
    hide StepRow, Rounded, Job.TokenAt;
    TailValid(job, n, m);
    PrefixState(job, start, r, n - 1, n, m);
    if Exact(job.ops) {
      ExactRounded(job.ops, StateAt(job, start, r, n, n));
    }
  }

  /** From the boundary on, the second block runs in step with the long one. */
  lemma {:induction false} SuffixState<F(!new), S>(job: Job<F, S>, start: seq<F>, second: seq<F>, r: nat, t: nat,
                                         n: nat,
                                             m: nat)
    requires job.rows > 0 && job.Valid(n + m) && r < job.rows && |start| == |second| == 128 && t <= m
             && Splits(job.ops, n)
    requires second == StateAt(job, start, r, n, n + m)
    ensures job.Valid(n) && Tail(job, n).Valid(m)
    ensures StateAt(job, start, r, n + t, n + m) == StateAt(Tail(job, n), second, r, t, m)
    decreases t
  {
    hide StepRow, Rounded, Tail, TokenIn, RoundsAfter, Job.Valid;
    TailValid(job, n, m);
    TailFields(job, n);
    if t > 0 {
      SuffixState(job, start, second, r, t - 1, n, m);
      TailToken(job, n, m, t - 1);
      assert n + t - 1 == n + (t - 1);
      if n % ROUND_ROWS == 0 {
        RoundsShift(n, t - 1, m);
      } else {
        var before := StateAt(job, start, r, n + t - 1, n + m);
        ExactRounded(job.ops, StepRow(job.ops, before, TokenIn(job, n + t - 1, n + m), r));
      }
    }
  }

  lemma RoundsShift(n: nat, t: nat, m: nat)
    requires n % ROUND_ROWS == 0
    ensures RoundsAfter(n + t, n + m) == RoundsAfter(t, m)
  {
    assert (n + t + 1) % ROUND_ROWS == (t + 1) % ROUND_ROWS;
  }

  lemma TailFields<F, S>(job: Job<F, S>, n: nat)
    requires job.Valid(n)
    ensures Tail(job, n).ops == job.ops && Tail(job, n).rows == job.rows && Tail(job, n).group == job.group
  {
  }

  /** Reading back the state the first block stored is rounding its registers. */
  lemma StoredStart<F, S>(job: Job<F, S>, state: seq<S>, was: seq<S>, middle: seq<S>, n: nat, r: nat)
    requires job.rows > 0 && job.Valid(n) && |state| == STATE && r < job.rows
    requires FinalState(job, state, n, was, middle)
    ensures StartRow(job, middle, r) == Rounded(job.ops, StateAt(job, StartRow(job, state, r), r, n, n))
  {
    hide StateAt;
    var s := StateAt(job, StartRow(job, state, r), r, n, n);
    forall c | 0 <= c < 128
      ensures StartRow(job, middle, r)[c] == job.ops.Round(s[c])
    {
      var k := (job.FirstRow() + r) * 128 + c;
      assert k / 128 == job.FirstRow() + r && k % 128 == c;
    }
  }

  /**
   One block of n + m tokens equals a block of n tokens, its state stored and loaded, and a
   block of m tokens, whenever 128 divides n or storage is exact: every register, output and stored value.
   */
  lemma ChainedBlocks<F(!new), S>(job: Job<F, S>, state: seq<S>, was: seq<S>, middle: seq<S>, n: nat, m: nat, r: nat,
                        t: nat)
    requires job.rows > 0 && job.Valid(n + m) && |state| == STATE && r < job.rows
    requires n > 0 && m > 0 && Splits(job.ops, n) && t <= m
    requires job.Valid(n) && FinalState(job, state, n, was, middle)
    ensures Tail(job, n).Valid(m)
    ensures forall u | 0 <= u < n ::
        OutputAt(job, StartRow(job, state, r), r, u, n + m) == OutputAt(job, StartRow(job, state, r), r, u, n)
    ensures StateAt(job, StartRow(job, state, r), r, n + t, n + m)
            == StateAt(Tail(job, n), StartRow(Tail(job, n), middle, r), r, t, m)
    ensures t < m ==>
              OutputAt(job, StartRow(job, state, r), r, n + t, n + m)
                == OutputAt(Tail(job, n), StartRow(Tail(job, n), middle, r), r, t, m)
  {
    hide StateAt, StartRow, StepOutput, Rounded, Tail, TokenIn;
    TailValid(job, n, m);
    TailFields(job, n);
    var start := StartRow(job, state, r);
    forall u | 0 <= u < n
      ensures OutputAt(job, start, r, u, n + m) == OutputAt(job, start, r, u, n)
    {
      PrefixState(job, start, r, u, n, m);
      SameToken(job, u, n, n + m);
    }
    BoundaryState(job, start, r, n, m);
    StoredStart(job, state, was, middle, n, r);
    TailStart(job, middle, n, r);
    SuffixState(job, start, StartRow(job, middle, r), r, t, n, m);
    if t < m {
      TailToken(job, n, m, t);
    }
  }

  lemma SameToken<F, S>(job: Job<F, S>, t: nat, n: nat, m: nat)
    requires job.rows > 0 && job.Valid(n) && job.Valid(m) && t < n && t < m
    ensures TokenIn(job, t, n) == TokenIn(job, t, m)
  {
  }

  lemma TailStart<F, S>(job: Job<F, S>, state: seq<S>, n: nat, r: nat)
    requires job.rows > 0 && job.Valid(n) && |state| == STATE && r < job.rows
    ensures StartRow(Tail(job, n), state, r) == StartRow(job, state, r)
  {
    var a, b := StartRow(Tail(job, n), state, r), StartRow(job, state, r);
    assert forall c | 0 <= c < 128 :: a[c] == b[c];
  }

  // Alignment is necessary

  /**
   An arithmetic in which every token adds one to the state and the storage type keeps multiples of
   128 only.
   */
  function CoarseOps(): Ops<int, int> {
    Ops(0, 0, (a: int, b: int) => a + 1, (a: int, b: int) => 0, (a: int, b: int, c: int) => c, (lanes: seq<int>) => 0,
        (x: int) => x / 128, (s: int) => s * 128)
  }

  /** Like the storage types of the kernel it keeps what it has stored, so rounding twice is rounding once. */
  lemma CoarseStorage(s: int, x: int)
    ensures CoarseOps().store(CoarseOps().load(s)) == s
    ensures CoarseOps().Round(CoarseOps().Round(x)) == CoarseOps().Round(x)
  {
    assert s * 128 / 128 == s && x / 128 * 128 / 128 == x / 128;
  }

  lemma CoarseStep(s: seq<int>, token: Token<int>, r: nat)
    requires |s| == |token.q| == |token.k| == 128 && r < |token.v|
    ensures StepRow(CoarseOps(), s, token, r) == Shifted(s, 1)
  {
    assert forall c | 0 <= c < 128 :: StepRow(CoarseOps(), s, token, r)[c] == s[c] + 1;
  }

  function Shifted(s: seq<int>, n: int): (r: seq<int>)
    ensures |r| == |s|
  {
    seq(|s|, c requires 0 <= c < |s| => s[c] + n)
  }

  lemma ShiftedTwice(s: seq<int>, n: int)
    ensures Shifted(Shifted(s, n), 1) == Shifted(s, n + 1)
  {
  }

  lemma CoarseRound(x: int, n: nat)
    requires x % 128 == 0
    ensures CoarseOps().Round(x + n) == x + n - n % 128
  {
    var q := x / 128;
    assert x == q * 128;
    assert (x + n) / 128 == q + n / 128;
  }

  ghost predicate Multiples(s: seq<int>) {
    forall c | 0 <= c < |s| :: s[c] % 128 == 0
  }

  lemma CoarseRounded(s: seq<int>, n: nat)
    requires Multiples(s)
    ensures Rounded(CoarseOps(), Shifted(s, n)) == Shifted(s, n - n % 128)
  {
    forall c | 0 <= c < |s| ensures Rounded(CoarseOps(), Shifted(s, n))[c] == s[c] + (n - n % 128) {
      CoarseRound(s[c], n);
    }
  }

  /** From a stored state the roundings inside a block change nothing: they come at multiples of 128 tokens. */
  lemma {:induction false} CoarseState(job: Job<int, int>, start: seq<int>, r: nat, t: nat, tokens: nat)
    requires job.ops == CoarseOps() && job.rows > 0 && job.Valid(tokens) && r < job.rows && t <= tokens
    requires |start| == 128 && Multiples(start)
    ensures StateAt(job, start, r, t, tokens) == Shifted(start, t)
  {
    hide StepRow, TokenIn, Job.Valid, Rounded, CoarseOps, Multiples;
    if t > 0 {
      CoarseState(job, start, r, t - 1, tokens);
      CoarseStep(StateAt(job, start, r, t - 1, tokens), TokenIn(job, t - 1, tokens), r);
      ShiftedTwice(start, t - 1);
      hide Shifted;
      if RoundsAfter(t - 1, tokens) {
        CoarseRounded(start, t);
      }
    } else {
      assert Shifted(start, 0) == start;
    }
  }

  /**
   For every block length n that 128 does not divide, chaining one more token through the stored state
   differs from one longer block: under the coarse arithmetic every register is behind by n % 128.
   */
  lemma UnalignedBlocksDiffer(job: Job<int, int>, start: seq<int>, r: nat, n: nat)
    requires job.ops == CoarseOps() && job.rows > 0 && job.Valid(n + 1) && r < job.rows
    requires |start| == 128 && Multiples(start)
    requires n % ROUND_ROWS != 0
    ensures job.Valid(n) && Tail(job, n).Valid(1)
    ensures forall c | 0 <= c < 128 ::
              StateAt(Tail(job, n), Rounded(job.ops, StateAt(job, start, r, n, n)), r, 1, 1)[c]
              == StateAt(job, start, r, n + 1, n + 1)[c] - n % ROUND_ROWS
  {
    hide StateAt, StepRow, TokenIn, Tail, CoarseOps, Rounded;
    TailValid(job, n, 1);
    TailFields(job, n);
    CoarseState(job, start, r, n, n);
    CoarseState(job, start, r, n + 1, n + 1);
    CoarseRounded(start, n);
    CoarseState(Tail(job, n), Shifted(start, n - n % ROUND_ROWS), r, 1, 1);
  }
}
