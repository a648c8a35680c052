/**
 The reference meaning of a PTQ1_0 projection: for every output row the sum, over the row's
 blocks, of the block scale times the dot product of 128 trits with 128 activations.
 */
module Projection {
  import opened Common
  import opened Sums
  import opened Ptq1

  /** A packed matrix: block b of a row r is entry r * blocks + b. */
  ghost predicate ValidWeights<F>(weights: seq<RawBlock<F>>, rows: nat, blocks: nat) {
    && |weights| == rows * blocks
    && forall k | 0 <= k < |weights| :: ValidBlock(weights[k])
  }

  /** One trit times its activation. */
  ghost function Term(codes: seq<Byte>, x: seq<real>): (f: int -> real)
    requires |codes| == 26 && |x| == 128
    ensures forall e {:trigger f(e)} | 0 <= e < 128 :: f(e) == Trit(codes, e) as real * x[e]
  {
    e => if 0 <= e < 128 then Trit(codes, e) as real * x[e] else 0.0
  }

  ghost function BlockDot(b: RawBlock<real>, x: seq<real>): real
    requires ValidBlock(b) && |x| == 128
  {
    b.scale * Sum(128, Term(b.codes, x))
  }

  /** The activations of block b of a token. */
  function BlockInput<F>(x: seq<F>, b: nat): (y: seq<F>)
    requires 128 * b + 128 <= |x|
    ensures |y| == 128
  {
    x[128 * b..128 * b + 128]
  }

  ghost function RowTerm(row: seq<RawBlock<real>>, x: seq<real>): (f: int -> real)
    requires ValidRow(row) && 128 * |row| == |x|
    ensures forall k {:trigger f(k)} | 0 <= k < |row| :: f(k) == BlockDot(row[k], BlockInput(x, k))
  {
    k => if 0 <= k < |row| then BlockDot(row[k], BlockInput(x, k)) else 0.0
  }

  /** One output of the projection: a packed row against one token's activations. */
  ghost function RowDot(row: seq<RawBlock<real>>, x: seq<real>): real
    requires ValidRow(row) && 128 * |row| == |x|
  {
    Sum(|row|, RowTerm(row, x))
  }

  ghost predicate ValidRow<F>(row: seq<RawBlock<F>>) {
    forall k | 0 <= k < |row| :: ValidBlock(row[k])
  }

  /** The blocks of row r of a packed matrix. */
  function Row<F>(weights: seq<RawBlock<F>>, rows: nat, blocks: nat, r: nat): (row: seq<RawBlock<F>>)
    requires |weights| == rows * blocks && r < rows
    ensures |row| == blocks
    ensures forall b | 0 <= b < blocks :: 0 <= r * blocks + b < |weights| && row[b] == weights[r * blocks + b]
  {
    assert r * blocks + blocks == (r + 1) * blocks <= rows * blocks;
    weights[r * blocks..r * blocks + blocks]
  }

  // Batches of tokens and their outputs

  /** [tokens, columns] activations and [tokens, rows] results; tokens firstToken.. are the batch. */
  datatype Batch<F> = Batch(
    weights: seq<RawBlock<F>>,
    rows: nat,
    blocks: nat,
    input: seq<F>,
    firstToken: nat,
    tokens: nat)
  {
    ghost predicate Valid() {
      && rows > 0 && tokens > 0
      && ValidWeights(weights, rows, blocks)
      && (firstToken + tokens) * (128 * blocks) <= |input|
    }

    /** The activations of token t of the batch. */
    function Token(t: nat): (x: seq<F>)
      requires Valid() && t < tokens
      ensures |x| == 128 * blocks
    {
      TokenFits(firstToken + t, firstToken + tokens, 128 * blocks);
      input[(firstToken + t) * (128 * blocks)..(firstToken + t) * (128 * blocks) + 128 * blocks]
    }

    function RowAt(r: nat): (row: seq<RawBlock<F>>)
      requires Valid() && r < rows
      ensures |row| == blocks && ValidRow(row)
    {
      Row(weights, rows, blocks, r)
    }

    /** The output cell of token t and row r. */
    function Slot(t: nat, r: nat): nat {
      (firstToken + t) * rows + r
    }
  }

  lemma TokenFits(t: nat, tokens: nat, columns: nat)
    requires t < tokens
    ensures t * columns + columns <= tokens * columns
  {
    assert (t + 1) * columns <= tokens * columns;
  }

  /** Token m, clamped to a real one. */
  function TokenAt(batch: Batch<real>, m: nat): (x: seq<real>)
    requires batch.Valid()
    ensures |x| == 128 * batch.blocks
  {
    batch.Token(Min(m, batch.tokens - 1))
  }

  lemma Fits<F>(batch: Batch<F>, t: nat, r: nat)
    requires t < batch.tokens && r < batch.rows
    ensures batch.firstToken * batch.rows <= batch.Slot(t, r) < (batch.firstToken + batch.tokens) * batch.rows
  {
    Index2(batch.firstToken + t, batch.firstToken + batch.tokens, r, batch.rows);
    assert (batch.firstToken + t) * batch.rows >= batch.firstToken * batch.rows;
  }

  /** Room for every output of the batch. */
  ghost predicate HasRoom<F>(batch: Batch<F>, output: array<F>) {
    output.Length >= (batch.firstToken + batch.tokens) * batch.rows
  }

  /** Every stored cell holds the value wanted of its token and row. */
  ghost predicate Written<F>(batch: Batch<F>, value: (nat, nat) -> F, output: array<F>, stores: multiset<(nat, nat)>)
    requires HasRoom(batch, output)
    reads output
  {
    forall t: nat, r: nat | t < batch.tokens && r < batch.rows && (t, r) in stores ::
      Fits(batch, t, r); output[batch.Slot(t, r)] == value(t, r)
  }

  /** Cells of other tokens keep their contents. */
  ghost predicate Untouched<F>(batch: Batch<F>, was: seq<F>, now: seq<F>) {
    && |was| == |now|
    && forall k | 0 <= k < |now|
         && !(batch.firstToken * batch.rows <= k < (batch.firstToken + batch.tokens) * batch.rows) ::
         now[k] == was[k]
  }

  lemma UntouchedTwice<F>(batch: Batch<F>, a: seq<F>, b: seq<F>, c: seq<F>)
    requires Untouched(batch, a, b) && Untouched(batch, b, c)
    ensures Untouched(batch, a, c)
  {
  }

  lemma UntouchedNever<F>(batch: Batch<F>, a: seq<F>)
    ensures Untouched(batch, a, a)
  {
  }

  /** A guarded store: rows past the end are never written. */
  method StoreCell<F>(batch: Batch<F>, ghost value: (nat, nat) -> F, output: array<F>, t: nat, r: nat, v: F,
                      before: multiset<(nat, nat)>)
    returns (stores: multiset<(nat, nat)>)
    requires t < batch.tokens && HasRoom(batch, output)
    requires r < batch.rows ==> v == value(t, r)
    requires Written(batch, value, output, before)
    modifies output
    ensures stores == if r < batch.rows then before + multiset{(t, r)} else before
    ensures Written(batch, value, output, stores)
    ensures Untouched(batch, old(output[..]), output[..])
  {
    stores := before;
    if r < batch.rows {
      Fits(batch, t, r);
      output[batch.Slot(t, r)] := v;
      stores := stores + multiset{(t, r)};
      forall u: nat, q: nat | u < batch.tokens && q < batch.rows && (u, q) in before && (u, q) != (t, r)
        ensures batch.Slot(u, q) != batch.Slot(t, r)
      {
        if batch.Slot(u, q) == batch.Slot(t, r) {
          SlotsDiffer(batch.rows, batch.firstToken + u, q, batch.firstToken + t, r);
        }
      }
    }
  }

  lemma NothingWritten<F>(batch: Batch<F>, value: (nat, nat) -> F, output: array<F>)
    requires HasRoom(batch, output)
    ensures Written(batch, value, output, multiset{})
  {
  }

  lemma AllWritten<F>(batch: Batch<F>, value: (nat, nat) -> F, output: array<F>, stores: multiset<(nat, nat)>)
    requires HasRoom(batch, output) && Written(batch, value, output, stores)
             && StoredOnce(batch.tokens, batch.rows, stores)
    ensures forall t: nat, r: nat | t < batch.tokens && r < batch.rows ::
        batch.Slot(t, r) < output.Length && output[batch.Slot(t, r)] == value(t, r)
  {
    forall t: nat, r: nat | t < batch.tokens && r < batch.rows
      ensures batch.Slot(t, r) < output.Length && output[batch.Slot(t, r)] == value(t, r)
    {
      Fits(batch, t, r);
      assert stores[(t, r)] == 1;
    }
  }

  /** The reference dot product of every token and row. */
  ghost function Reference(batch: Batch<real>): (value: (nat, nat) -> real)
    requires batch.Valid()
    ensures forall t: nat, r: nat {:trigger value(t, r)} | t < batch.tokens && r < batch.rows ::
        value(t, r) == RowDot(batch.RowAt(r), batch.Token(t))
  {
    (t: nat, r: nat) => if t < batch.tokens && r < batch.rows then RowDot(batch.RowAt(r), batch.Token(t)) else 0.0
  }

  // The projection over the raw buffers

  lemma RawFits<F>(batch: Batch<F>, t: nat, r: nat, j: nat)
    requires batch.Valid() && t < batch.tokens && r < batch.rows && j < 128 * batch.blocks
    ensures r * batch.blocks + j / 128 < |batch.weights|
    ensures ValidBlock(batch.weights[r * batch.blocks + j / 128])
    ensures (batch.firstToken + t) * (128 * batch.blocks) + j < |batch.input|
  {
    Index2(r, batch.rows, j / 128, batch.blocks);
    Index2(batch.firstToken + t, batch.firstToken + batch.tokens, j, 128 * batch.blocks);
  }

  /**
   Column j of row r against column j of token t: scale times trit times activation, each at its place
   in its buffer.
   */
  ghost function RawTerm(batch: Batch<real>, t: nat, r: nat): (f: int -> real)
    requires batch.Valid() && t < batch.tokens && r < batch.rows
  {
    j => if 0 <= j < 128 * batch.blocks then
        RawFits(batch, t, r, j);
        var block := batch.weights[r * batch.blocks + j / 128];
        block.scale * Trit(block.codes,
                           j % 128) as real * batch.input[(batch.firstToken + t) * (128 * batch.blocks) + j]
      else 0.0
  }

  /** The output wanted of token t and row r, as a sum over the columns of the buffers. */
  ghost function RawDot(batch: Batch<real>, t: nat, r: nat): real
    requires batch.Valid() && t < batch.tokens && r < batch.rows
  {
    Sum(128 * batch.blocks, RawTerm(batch, t, r))
  }

  /** Column e of block k: the raw term is the scaled reference term. */
  lemma RawTermAt(batch: Batch<real>, t: nat, r: nat, k: nat, e: nat)
    requires batch.Valid() && t < batch.tokens && r < batch.rows && k < batch.blocks && e < 128
    ensures var b := batch.RowAt(r)[k];
            ValidBlock(b)
            && RawTerm(batch, t, r)(k * 128 + e) == b.scale * Term(b.codes, BlockInput(batch.Token(t), k))(e)
  {
    hide Trit, Batch.Valid, Batch.RowAt, Batch.Token, BlockInput;
    var j := k * 128 + e;
    ColumnDigits(k, e);
    RawFits(batch, t, r, j);
    RawBlockAt(batch, r, k);
    RawInputAt(batch, t, k, e);
    var b := batch.RowAt(r)[k];
    Regrouped(b.scale, Trit(b.codes, e) as real, BlockInput(batch.Token(t), k)[e]);
  }

  lemma ColumnDigits(k: nat, e: nat)
    requires e < 128
    ensures (k * 128 + e) / 128 == k && (k * 128 + e) % 128 == e
  {
  }

  lemma RawBlockAt<F>(batch: Batch<F>, r: nat, k: nat)
    requires batch.Valid() && r < batch.rows && k < batch.blocks
    ensures r * batch.blocks + k < |batch.weights| && batch.RowAt(r)[k] == batch.weights[r * batch.blocks + k]
    ensures ValidBlock(batch.RowAt(r)[k])
  {
    Index2(r, batch.rows, k, batch.blocks);
  }

  lemma RawInputAt<F>(batch: Batch<F>, t: nat, k: nat, e: nat)
    requires batch.Valid() && t < batch.tokens && k < batch.blocks && e < 128
    ensures var at := (batch.firstToken + t) * (128 * batch.blocks) + (k * 128 + e);
            at < |batch.input| && BlockInput(batch.Token(t), k)[e] == batch.input[at]
  {
    var from := (batch.firstToken + t) * (128 * batch.blocks);
    TokenFits(batch.firstToken + t, batch.firstToken + batch.tokens, 128 * batch.blocks);
    SliceAt(batch.input, from, 128 * batch.blocks, batch.Token(t), k * 128 + e);
    SliceAt(batch.Token(t), 128 * k, 128, BlockInput(batch.Token(t), k), e);
  }

  lemma SliceAt<F>(s: seq<F>, from: nat, n: nat, slice: seq<F>, i: nat)
    requires from + n <= |s| && slice == s[from..from + n] && i < n
    ensures slice[i] == s[from + i]
  {
  }

  lemma Regrouped(a: real, b: real, c: real)
    ensures a * b * c == a * (b * c)
  {
  }

  /** The reference dot product of a row and a token is the sum over the raw buffers. */
  lemma RowDotIsRaw(batch: Batch<real>, t: nat, r: nat)
    requires batch.Valid() && t < batch.tokens && r < batch.rows
    ensures RowDot(batch.RowAt(r), batch.Token(t)) == RawDot(batch, t, r)
  {
    hide Sum, RawTerm, RowTerm, Batch.Valid, Batch.RowAt, Batch.Token;
    var row, x, f := batch.RowAt(r), batch.Token(t), RawTerm(batch, t, r);
    forall k | 0 <= k < batch.blocks
      ensures RowTerm(row, x)(k) == Sum(128, j => f(k * 128 + j))
    {
      RawBlockSum(batch, t, r, k);
      SumEq(128, FromBlock(f, k), j => f(k * 128 + j));
    }
    SumBlocks(batch.blocks, 128, f, RowTerm(row, x));
    assert batch.blocks * 128 == 128 * batch.blocks;
  }

  /** The terms of block k. */
  ghost function FromBlock(f: int -> real, k: nat): (g: int -> real)
    ensures forall j {:trigger g(j)} :: g(j) == f(k * 128 + j)
  {
    j => f(k * 128 + j)
  }

  lemma RawBlockSum(batch: Batch<real>, t: nat, r: nat, k: nat)
    requires batch.Valid() && t < batch.tokens && r < batch.rows && k < batch.blocks
    ensures RowTerm(batch.RowAt(r), batch.Token(t))(k) == Sum(128, FromBlock(RawTerm(batch, t, r), k))
  {
    hide Sum, RawTerm, Term, BlockInput, Batch.Valid, Batch.RowAt, Batch.Token;
    var b, x, g := batch.RowAt(r)[k], BlockInput(batch.Token(t), k), FromBlock(RawTerm(batch, t, r), k);
    forall e | 0 <= e < 128
      ensures g(e) == b.scale * Term(b.codes, x)(e)
    {
      RawTermAt(batch, t, r, k, e);
    }
    SumScale(128, b.scale, Term(b.codes, x), g);
  }

  /** Every output of the batch, at its place in the output buffer, is its sum over the raw buffers. */
  ghost predicate Projected(batch: Batch<real>, output: seq<real>)
    requires batch.Valid()
  {
    forall t: nat, r: nat | t < batch.tokens && r < batch.rows :: ProjectedAt(batch, output, t, r)
  }

  ghost predicate ProjectedAt(batch: Batch<real>, output: seq<real>, t: nat, r: nat)
    requires batch.Valid() && t < batch.tokens && r < batch.rows
  {
    && (batch.firstToken + t) * batch.rows + r < |output|
    && output[(batch.firstToken + t) * batch.rows + r] == RawDot(batch, t, r)
  }

  lemma AllProjected(batch: Batch<real>, output: seq<real>)
    requires batch.Valid()
    requires forall t: nat, r: nat | t < batch.tokens && r < batch.rows ::
               batch.Slot(t, r) < |output| && output[batch.Slot(t, r)] == RowDot(batch.RowAt(r), batch.Token(t))
    ensures Projected(batch, output)
  {
    hide RowDot, RawDot, Batch.RowAt, Batch.Token;
    forall t: nat, r: nat | t < batch.tokens && r < batch.rows
      ensures ProjectedAt(batch, output, t, r)
    {
      RowDotIsRaw(batch, t, r);
      assert batch.Slot(t, r) == (batch.firstToken + t) * batch.rows + r;
    }
  }
}
