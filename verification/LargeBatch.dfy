/**
 bonsai_ptq1_large_batch_impl: a threadgroup of 128 threads owns 64 rows and 64 tokens. Each
 packed block is decoded once into threadgroup memory as trit * scale; four SIMD groups then
 multiply a 32-token by 32-row quarter each.
 */
module LargeBatch {
  import opened Common
  import opened Sums
  import opened Ptq1
  import opened Projection
  import opened Tiles
  import opened TileStore

  // Decoding one block into threadgroup memory

  function Address(e: nat, row: nat): (k: nat)
    requires e < 128 && row < 64
    ensures k < 8192 && k / 64 == e && k % 64 == row
  {
    64 * e + row
  }

  /** Which of a row's two threads decodes an element: qs bytes below 12 and qh byte 24 are thread 0's. */
  function HalfOf(e: nat): (h: nat)
    requires e < 128
    ensures h < 2
  {
    if ByteOf(e) < 12 || ByteOf(e) == 24 then 0 else 1
  }

  /** Elements a thread has decoded after b qs bytes and n digits of the next, then high qh digits. */
  ghost predicate Passed(e: nat, h: nat, b: nat, n: nat, high: nat)
    requires e < 128
  {
    && HalfOf(e) == h
    && if e < 120 then ByteOf(e) < 12 * h + b || (ByteOf(e) == 12 * h + b && PowerOf(e) < n) else PowerOf(e) < high
  }

  /** Memory and write counts while one thread decodes: exactly its passed elements, once each. */
  ghost predicate ThreadState(was: seq<real>, now: seq<real>, before: multiset<nat>, writes: multiset<nat>,
                              codes: seq<Byte>, scale: real, row: nat, h: nat, b: nat, n: nat, high: nat)
    requires |codes| == 26
  {
    && |was| == |now| == 8192
    && (forall k | 0 <= k < 8192 ::
          now[k] == if Marked(k, row, h, b, n, high) then Trit(codes, k / 64) as real * scale else was[k])
    && (forall k | 0 <= k < 8192 :: writes[k] == before[k] + if Marked(k, row, h, b, n, high) then 1 else 0)
  }

  ghost predicate Marked(k: nat, row: nat, h: nat, b: nat, n: nat, high: nat)
    requires k < 8192
  {
    k % 64 == row && Passed(k / 64, h, b, n, high)
  }

  lemma MarkedStep(row: nat, h: nat, b: nat, n: nat, high: nat, at: nat, b': nat, n': nat, high': nat, k: nat)
    requires row < 64 && at < 128 && k < 8192
    requires Passed(k / 64, h, b', n', high') <==> Passed(k / 64, h, b, n, high) || k / 64 == at
    requires !Passed(at, h, b, n, high)
    ensures Marked(k, row, h, b', n', high') <==> Marked(k, row, h, b, n, high) || k == Address(at, row)
    ensures !Marked(Address(at, row), row, h, b, n, high)
  {
    hide Passed;
    assert k == 64 * (k / 64) + k % 64;
  }

  lemma PassedByte(e: nat, h: nat, b: nat, n: nat, at: nat)
    requires e < 128 && h < 2 && b < 12 && n < 5 && at == ElementAt(12 * h + b, n)
    ensures Passed(e, h, b, n + 1, 0) <==> Passed(e, h, b, n, 0) || e == at
    ensures !Passed(at, h, b, n, 0)
  {
    ElementIsOwned(e);
  }

  lemma PassedHigh(e: nat, h: nat, n: nat, at: nat)
    requires e < 128 && h < 2 && n < 4 && at == ElementAt(24 + h, n)
    ensures Passed(e, h, 12, 0, n + 1) <==> Passed(e, h, 12, 0, n) || e == at
    ensures !Passed(at, h, 12, 0, n)
  {
    ElementIsOwned(e);
  }

  lemma PassedBytes(h: nat, b: nat, n: nat, at: nat)
    requires h < 2 && b < 12 && n < 5 && at == ElementAt(12 * h + b, n)
    ensures forall e | 0 <= e < 128 :: Passed(e, h, b, n + 1, 0) <==> Passed(e, h, b, n, 0) || e == at
    ensures !Passed(at, h, b, n, 0)
  {
    hide Passed;
    forall e | 0 <= e < 128
      ensures Passed(e, h, b, n + 1, 0) <==> Passed(e, h, b, n, 0) || e == at
    {
      PassedByte(e, h, b, n, at);
    }
    PassedByte(at, h, b, n, at);
  }

  lemma PassedHighs(h: nat, n: nat, at: nat)
    requires h < 2 && n < 4 && at == ElementAt(24 + h, n)
    ensures forall e | 0 <= e < 128 :: Passed(e, h, 12, 0, n + 1) <==> Passed(e, h, 12, 0, n) || e == at
    ensures !Passed(at, h, 12, 0, n)
  {
    hide Passed;
    forall e | 0 <= e < 128
      ensures Passed(e, h, 12, 0, n + 1) <==> Passed(e, h, 12, 0, n) || e == at
    {
      PassedHigh(e, h, n, at);
    }
    PassedHigh(at, h, n, at);
  }

  lemma ByteFinished(h: nat, b: nat)
    requires h < 2 && b < 12
    ensures forall e | 0 <= e < 128 :: Passed(e, h, b + 1, 0, 0) <==> Passed(e, h, b, 5, 0)
  {
  }

  /** A thread ends up with all and only the elements of its half. */
  lemma ThreadFinished(e: nat, h: nat)
    requires e < 128 && h < 2
    ensures Passed(e, h, 12, 0, 4) <==> HalfOf(e) == h
    ensures !Passed(e, h, 0, 0, 0)
  {
  }

  /** One decoded cell moves the state from (b, n, high) to (b', n', high'). */
  lemma ThreadStep(was: seq<real>, now: seq<real>, before: multiset<nat>, writes: multiset<nat>, codes: seq<Byte>,
                   scale: real,
                   row: nat, h: nat, b: nat, n: nat, high: nat, at: nat, v: real, b': nat, n': nat, high': nat)
    requires |codes| == 26 && row < 64 && at < 128 && v == Trit(codes, at) as real * scale
    requires ThreadState(was, now, before, writes, codes, scale, row, h, b, n, high)
    requires forall e | 0 <= e < 128 :: Passed(e, h, b', n', high') <==> Passed(e, h, b, n, high) || e == at
    requires !Passed(at, h, b, n, high)
    ensures ThreadState(was, now[Address(at, row) := v], before, writes + multiset{Address(at, row)},
                        codes, scale, row, h, b', n', high')
  {
    hide Trit, Passed, Marked, Address;
    forall k | 0 <= k < 8192
      ensures Marked(k, row, h, b', n', high') <==> Marked(k, row, h, b, n, high) || k == Address(at, row)
    {
      MarkedStep(row, h, b, n, high, at, b', n', high', k);
    }
    MarkedStep(row, h, b, n, high, at, b', n', high', Address(at, row));
  }

  lemma ThreadSame(was: seq<real>, now: seq<real>, before: multiset<nat>, writes: multiset<nat>, codes: seq<Byte>,
                   scale: real,
                   row: nat, h: nat, b: nat, n: nat, high: nat, b': nat, n': nat, high': nat)
    requires |codes| == 26
    requires ThreadState(was, now, before, writes, codes, scale, row, h, b, n, high)
    requires forall e | 0 <= e < 128 :: Passed(e, h, b', n', high') <==> Passed(e, h, b, n, high)
    ensures ThreadState(was, now, before, writes, codes, scale, row, h, b', n', high')
  {
    hide Trit, Passed;
  }

  /** Store digit n of byte: its trit times the scale, at its element. */
  method PutDigit(codes: seq<Byte>, byte: nat, n: nat, trit: real, scale: real, row: nat, decoded: array<real>,
                  before: multiset<nat>,
                  ghost was: seq<real>, ghost start: multiset<nat>, ghost h: nat,
                  ghost b: nat, ghost d: nat, ghost high: nat, ghost d': nat, ghost high': nat)
    returns (writes: multiset<nat>)
    requires |codes| == 26 && row < 64 && decoded.Length == 8192
    requires (byte < 24 && n < 5) || (24 <= byte < 26 && n < 4)
    requires trit == Digit(codes[byte], n) as real
    requires ThreadState(was, decoded[..], start, before, codes, scale, row, h, b, d, high)
    requires forall e | 0 <= e < 128 :: Passed(e, h, b, d', high')
               <==> Passed(e, h, b, d, high) || e == ElementAt(byte, n)
    requires !Passed(ElementAt(byte, n), h, b, d, high)
    modifies decoded
    ensures ThreadState(was, decoded[..], start, writes, codes, scale, row, h, b, d', high')
  {
    hide Trit, Digit, ElementAt, Passed, ThreadState, Address;
    ghost var now := decoded[..];
    ByteDigit(codes, byte, n);
    var v := trit * scale;
    ThreadStep(was, now, start, before, codes, scale, row, h, b, d, high, ElementAt(byte, n), v, b, d', high');
    decoded[Address(ElementAt(byte, n), row)] := v;
    writes := before + multiset{Address(ElementAt(byte, n), row)};
    assert decoded[..] == now[Address(ElementAt(byte, n), row) := v];
  }

  /** Thread (row, h): twelve qs bytes, then the four used digits of one qh byte. */
  method DecodeThread(codes: seq<Byte>, scale: real, row: nat, h: nat, decoded: array<real>, before: multiset<nat>)
    returns (writes: multiset<nat>)
    requires |codes| == 26 && row < 64 && h < 2 && decoded.Length == 8192
    modifies decoded
    ensures ThreadState(old(decoded[..]), decoded[..], before, writes, codes, scale, row, h, 12, 0, 4)
  {
    hide Trit, Digit, Passed, ThreadState, ElementAt;
    writes := before;
    ghost var was := decoded[..];
    ThreadStart(was, before, codes, scale, row, h);
    for b := 0 to 12
      invariant ThreadState(was, decoded[..], before, writes, codes, scale, row, h, b, 0, 0)
    {
      var trits := Trits(codes[12 * h + b]);
      for n := 0 to 5
        invariant ThreadState(was, decoded[..], before, writes, codes, scale, row, h, b, n, 0)
      {
        PassedBytes(h, b, n, ElementAt(12 * h + b, n));
        writes :=
          PutDigit(codes, 12 * h + b, n, trits[n], scale, row, decoded, writes, was, before, h, b, n, 0, n + 1, 0);
      }
      ByteFinished(h, b);
      ThreadSame(was, decoded[..], before, writes, codes, scale, row, h, b, 5, 0, b + 1, 0, 0);
    }
    var trits := Trits(codes[24 + h]);
    for n := 0 to 4
      invariant ThreadState(was, decoded[..], before, writes, codes, scale, row, h, 12, 0, n)
    {
      PassedHighs(h, n, ElementAt(24 + h, n));
      writes := PutDigit(codes, 24 + h, n, trits[n], scale, row, decoded, writes, was, before, h, 12, 0, n, 0, n + 1);
    }
  }

  lemma ThreadStart(now: seq<real>, before: multiset<nat>, codes: seq<Byte>, scale: real, row: nat, h: nat)
    requires |codes| == 26 && |now| == 8192 && h < 2
    ensures ThreadState(now, now, before, before, codes, scale, row, h, 0, 0, 0)
  {
    hide Trit, Passed;
    forall e | 0 <= e < 128 {
      ThreadFinished(e, h);
    }
  }

  lemma ByteDigit(codes: seq<Byte>, b: nat, n: nat)
    requires |codes| == 26 && ((b < 24 && n < 5) || (24 <= b < 26 && n < 4))
    ensures Trit(codes, ElementAt(b, n)) == Digit(codes[b], n)
  {
  }

  // All 128 threads

  /** Row of the tile, clamped to a real row. */
  function RowOf(batch: Batch<real>, firstRow: nat, row: nat): (r: nat)
    requires batch.Valid()
    ensures r < batch.rows
  {
    Min(firstRow + row, batch.rows - 1)
  }

  ghost function BlockOf(batch: Batch<real>, firstRow: nat, row: nat, block: nat): (b: RawBlock<real>)
    requires batch.Valid() && block < batch.blocks
    ensures ValidBlock(b)
  {
    batch.RowAt(RowOf(batch, firstRow, row))[block]
  }

  /** trit * scale of an element and row of the tile. */
  ghost function CellValue(batch: Batch<real>, firstRow: nat, block: nat, e: nat, row: nat): real
    requires batch.Valid() && block < batch.blocks && e < 128
  {
    Trit(BlockOf(batch, firstRow, row, block).codes, e) as real * BlockOf(batch, firstRow, row, block).scale
  }

  /** Cells of threads below tid are written once and hold their values; the others are untouched. */
  ghost predicate TileState(batch: Batch<real>, firstRow: nat, block: nat, now: seq<real>, writes: multiset<nat>,
                            tid: nat)
    requires batch.Valid() && block < batch.blocks && |now| == 8192
  {
    && (forall k | 0 <= k < 8192 && ThreadOf(k) < tid :: now[k] == CellValue(batch, firstRow, block, k / 64, k % 64))
    && (forall k | 0 <= k < 8192 :: writes[k] == if ThreadOf(k) < tid then 1 else 0)
  }

  /** The one thread that decodes cell k. */
  function ThreadOf(k: nat): (tid: nat)
    requires k < 8192
    ensures tid < 128
  {
    2 * (k % 64) + HalfOf(k / 64)
  }

  lemma ThreadTurn(k: nat, tid: nat)
    requires k < 8192 && tid < 128
    ensures ThreadOf(k) == tid <==> k % 64 == tid / 2 && HalfOf(k / 64) == tid % 2
  {
    hide HalfOf;
  }

  lemma TileStep(batch: Batch<real>, firstRow: nat, block: nat, was: seq<real>, now: seq<real>,
                 before: multiset<nat>, writes: multiset<nat>, tid: nat)
    requires batch.Valid() && block < batch.blocks && tid < 128 && |was| == |now| == 8192
    requires TileState(batch, firstRow, block, was, before, tid)
    requires var b := BlockOf(batch, firstRow, tid / 2, block);
      ThreadState(was, now, before, writes, b.codes, b.scale, tid / 2, tid % 2, 12, 0, 4)
    ensures TileState(batch, firstRow, block, now, writes, tid + 1)
  {
    hide Trit, Passed, HalfOf, ThreadOf, BlockOf;
    forall k | 0 <= k < 8192
      ensures Marked(k, tid / 2, tid % 2, 12, 0, 4) <==> ThreadOf(k) == tid
      ensures ThreadOf(k) == tid ==> k % 64 == tid / 2
    {
      ThreadTurn(k, tid);
      ThreadFinished(k / 64, tid % 2);
    }
  }

  /** Between two barriers every cell of the 128 x 64 tile is written by exactly one thread. */
  method DecodeBlock(batch: Batch<real>, firstRow: nat, block: nat, decoded: array<real>)
    returns (writes: multiset<nat>)
    requires batch.Valid() && block < batch.blocks && decoded.Length == 8192
    modifies decoded
    ensures forall k | 0 <= k < 8192 :: writes[k] == 1
    ensures forall e, row | 0 <= e < 128 && 0 <= row < 64 ::
        decoded[Address(e, row)] == CellValue(batch, firstRow, block, e, row)
  {
    hide TileState, ThreadState, BlockOf, CellValue;
    writes := multiset{};
    TileStart(batch, firstRow, block, decoded[..]);
    for tid := 0 to 128
      invariant TileState(batch, firstRow, block, decoded[..], writes, tid)
    {
      ghost var was := decoded[..];
      var b := batch.RowAt(RowOf(batch, firstRow, tid / 2))[block];
      TheBlock(batch, firstRow, tid / 2, block);
      var next := DecodeThread(b.codes, b.scale, tid / 2, tid % 2, decoded, writes);
      TileStep(batch, firstRow, block, was, decoded[..], writes, next, tid);
      writes := next;
    }
    TileFinished(batch, firstRow, block, decoded[..], writes);
  }

  lemma TheBlock(batch: Batch<real>, firstRow: nat, row: nat, block: nat)
    requires batch.Valid() && block < batch.blocks
    ensures BlockOf(batch, firstRow, row, block) == batch.RowAt(RowOf(batch, firstRow, row))[block]
  {
  }

  lemma TileStart(batch: Batch<real>, firstRow: nat, block: nat, now: seq<real>)
    requires batch.Valid() && block < batch.blocks && |now| == 8192
    ensures TileState(batch, firstRow, block, now, multiset{}, 0)
  {
    hide CellValue;
  }

  lemma TileFinished(batch: Batch<real>, firstRow: nat, block: nat, now: seq<real>, writes: multiset<nat>)
    requires batch.Valid() && block < batch.blocks && |now| == 8192
    requires TileState(batch, firstRow, block, now, writes, 128)
    ensures forall k | 0 <= k < 8192 :: writes[k] == 1
    ensures forall e, row | 0 <= e < 128 && 0 <= row < 64 ::
              now[Address(e, row)] == CellValue(batch, firstRow, block, e, row)
  {
    hide CellValue, ThreadOf;
  }

  // Multiplying

  /** simdgroup_load: rows k.. of the decoded tile, columns from column. */
  method LoadW(decoded: array<real>, k: nat, column: nat) returns (w: Fragment)
    requires decoded.Length == 8192 && k + 8 <= 128 && column + 8 <= 64
    ensures forall i, n | 0 <= i < 8 && 0 <= n < 8 :: Cell(w, i, n) == decoded[Address(k + i, column + n)]
  {
    hide Cell, Gather, Address;
    var memory := decoded[..];
    var g := (i: nat, n: nat) => if i < 8 && n < 8 then memory[Address(k + i, column + n)] else 0.0;
    w := Gather(g);
    forall i, n | 0 <= i < 8 && 0 <= n < 8
      ensures Cell(w, i, n) == decoded[Address(k + i, column + n)]
    {
      GatherCell(g, i, n);
    }
  }

  /** Eight activations of eight tokens, straight from device memory. */
  function LoadX(batch: Batch<real>, token: nat, block: nat, k: nat): Fragment
    requires batch.Valid() && block < batch.blocks && k + 8 <= 128
  {
    Gather((m: nat, i: nat) => if i < 8 then BlockInput(TokenAt(batch, token + m), block)[k + i] else 0.0)
  }

  lemma LoadXCell(batch: Batch<real>, token: nat, block: nat, k: nat, m: nat, i: nat)
    requires batch.Valid() && block < batch.blocks && k + 8 <= 128 && m < 8 && i < 8
    ensures Cell(LoadX(batch, token, block, k), m, i) == BlockInput(TokenAt(batch, token + m), block)[k + i]
  {
    hide Cell, Gather, TokenAt, BlockInput;
    GatherCell((m: nat, i: nat) => if i < 8 then BlockInput(TokenAt(batch, token + m), block)[k + i] else 0.0, m, i);
  }

  /** Products of one cell at one block: activation times trit * scale. */
  ghost function ScaledTerm(batch: Batch<real>, firstRow: nat, block: nat, token: nat, row: nat): (f: int -> real)
    requires batch.Valid() && block < batch.blocks
    ensures forall e {:trigger f(e)} | 0 <= e < 128 ::
        f(e) == BlockInput(TokenAt(batch, token), block)[e] * CellValue(batch, firstRow, block, e, row)
  {
    hide CellValue, TokenAt, BlockInput;
    e => if 0 <= e < 128 then BlockInput(TokenAt(batch, token), block)[e] * CellValue(batch, firstRow, block, e, row)
      else 0.0
  }

  /** Scaling every trit or the whole dot product is the same. */
  lemma ScaledBlock(batch: Batch<real>, firstRow: nat, block: nat, token: nat, row: nat)
    requires batch.Valid() && block < batch.blocks
    ensures Sum(128, ScaledTerm(batch, firstRow, block, token, row))
         == BlockDot(BlockOf(batch, firstRow, row, block), BlockInput(TokenAt(batch, token), block))
  {
    hide Sum, Trit, TokenAt, BlockInput, BlockOf;
    var b, x := BlockOf(batch, firstRow, row, block), BlockInput(TokenAt(batch, token), block);
    var f := ScaledTerm(batch, firstRow, block, token, row);
    forall e | 0 <= e < 128
      ensures f(e) == b.scale * Term(b.codes, x)(e)
    {
      Commute(x[e], Trit(b.codes, e) as real, b.scale);
    }
    SumScale(128, b.scale, Term(b.codes, x), f);
  }

  lemma Commute(x: real, t: real, s: real)
    ensures x * (t * s) == s * (t * x)
  {
  }

  /** Cell (m, n) of the accumulator at (token, row), blocks below block and elements below k of block done. */
  ghost predicate SumAt(batch: Batch<real>, firstRow: nat, block: nat, k: nat, token: nat, row: nat, v: real)
    requires batch.Valid() && block <= batch.blocks && k <= 128 && (block < batch.blocks || k == 0)
  {
    v == Sum(block, RowTerm(batch.RowAt(RowOf(batch, firstRow, row)), TokenAt(batch, token)))
         + if k == 0 then 0.0 else Sum(k, ScaledTerm(batch, firstRow, block, token, row))
  }

  ghost predicate Accumulator(batch: Batch<real>, firstRow: nat, block: nat, k: nat, token: nat, row: nat, s: Fragment)
    requires batch.Valid() && block <= batch.blocks && k <= 128 && (block < batch.blocks || k == 0)
  {
    forall m, n | 0 <= m < 8 && 0 <= n < 8 :: SumAt(batch, firstRow, block, k, token + m, row + n, Cell(s, m, n))
  }

  lemma AccumulateCell(batch: Batch<real>, firstRow: nat, block: nat, k: nat, token: nat, row: nat,
                       a: Fragment, w: Fragment, s: Fragment, m: nat, n: nat)
    requires batch.Valid() && block < batch.blocks && k + 8 <= 128 && m < 8 && n < 8
    requires forall i | 0 <= i < 8 :: Cell(a, m, i) == BlockInput(TokenAt(batch, token + m), block)[k + i]
    requires forall i | 0 <= i < 8 :: Cell(w, i, n) == CellValue(batch, firstRow, block, k + i, row + n)
    requires SumAt(batch, firstRow, block, k, token + m, row + n, Cell(s, m, n))
    ensures SumAt(batch, firstRow, block, k + 8, token + m, row + n, Cell(MultiplyAccumulate(a, w, s), m, n))
  {
    hide Sum, Cell, MultiplyAccumulate, TokenAt, BlockInput, CellValue, RowOf, RowTerm, Row, Batch.RowAt;
    MultiplyAccumulateCell(a, w, s, m, n);
    var f := ScaledTerm(batch, firstRow, block, token + m, row + n);
    SumSplit(k, 8, f);
    SumEq(8, Products(a, w, m, n), i => f(k + i));
    SumZero(0, f);
  }

  lemma Accumulate(batch: Batch<real>, firstRow: nat, block: nat, k: nat, token: nat, row: nat, w: Fragment,
                   s: Fragment)
    requires batch.Valid() && block < batch.blocks && k + 8 <= 128
    requires forall i, n | 0 <= i < 8 && 0 <= n < 8 ::
               Cell(w, i, n) == CellValue(batch, firstRow, block, k + i, row + n)
    requires Accumulator(batch, firstRow, block, k, token, row, s)
    ensures Accumulator(batch, firstRow, block, k + 8, token, row,
                        MultiplyAccumulate(LoadX(batch, token, block, k), w, s))
  {
    hide Cell, MultiplyAccumulate, TokenAt, BlockInput, CellValue, LoadX, SumAt;
    var a := LoadX(batch, token, block, k);
    forall m, n | 0 <= m < 8 && 0 <= n < 8
      ensures SumAt(batch, firstRow, block, k + 8, token + m, row + n, Cell(MultiplyAccumulate(a, w, s), m, n))
    {
      forall i | 0 <= i < 8
        ensures Cell(a, m, i) == BlockInput(TokenAt(batch, token + m), block)[k + i]
      {
        LoadXCell(batch, token, block, k, m, i);
      }
      AccumulateCell(batch, firstRow, block, k, token, row, a, w, s, m, n);
    }
  }

  /** A finished block joins the row's sum. */
  lemma BlockFinished(batch: Batch<real>, firstRow: nat, block: nat, token: nat, row: nat, s: Fragment)
    requires batch.Valid() && block < batch.blocks
    requires Accumulator(batch, firstRow, block, 128, token, row, s)
    ensures Accumulator(batch, firstRow, block + 1, 0, token, row, s)
  {
    hide Cell, TokenAt, BlockInput, RowOf, Row, Batch.RowAt, BlockDot;
    forall m, n | 0 <= m < 8 && 0 <= n < 8
      ensures SumAt(batch, firstRow, block + 1, 0, token + m, row + n, Cell(s, m, n))
    {
      ScaledBlock(batch, firstRow, block, token + m, row + n);
      assert SumAt(batch, firstRow, block, 128, token + m, row + n, Cell(s, m, n));
    }
  }

  // One SIMD group's quarter: sixteen accumulators, q = 4 i + j at tokens 8 i and rows 8 j

  ghost predicate Quarter(batch: Batch<real>, firstRow: nat, token: nat, row: nat, block: nat, done: nat, k: nat,
                          s: seq<Fragment>)
    requires batch.Valid() && block <= batch.blocks && k <= 128 && (block < batch.blocks || k == 0)
    requires done > 0 ==> k + 8 <= 128 && block < batch.blocks
  {
    && |s| == 16
    && forall q | 0 <= q < 16 ::
         Accumulator(batch, firstRow, block, if q < done then k + 8
                     else k, token + 8 * (q / 4), row + 8 * (q % 4), s[q])
  }

  ghost predicate DecodedTile(batch: Batch<real>, firstRow: nat, block: nat, decoded: array<real>)
    requires batch.Valid() && block < batch.blocks && decoded.Length == 8192
    reads decoded
  {
    forall e, row | 0 <= e < 128 && 0 <= row < 64 ::
      decoded[Address(e, row)] == CellValue(batch, firstRow, block, e, row)
  }

  /** Four W tiles from the decoded rows, for eight elements. */
  method LoadWTiles(batch: Batch<real>, firstRow: nat, block: nat, decoded: array<real>, k: nat, row: nat)
    returns (w: seq<Fragment>)
    requires batch.Valid() && block < batch.blocks && decoded.Length == 8192 && k + 8 <= 128 && row + 32 <= 64
    requires DecodedTile(batch, firstRow, block, decoded)
    ensures |w| == 4
    ensures forall j, i, n | 0 <= j < 4 && 0 <= i < 8 && 0 <= n < 8 ::
        Cell(w[j], i, n) == CellValue(batch, firstRow, block, k + i, row + 8 * j + n)
  {
    hide Cell, Address, CellValue;
    w := [];
    for j := 0 to 4
      invariant |w| == j
      invariant forall c, i, n | 0 <= c < j && 0 <= i < 8 && 0 <= n < 8 ::
          Cell(w[c], i, n) == CellValue(batch, firstRow, block, k + i, row + 8 * c + n)
    {
      var tile := LoadW(decoded, k, row + 8 * j);
      w := w + [tile];
    }
  }

  /** Sixteen multiplies for eight elements: every W tile serves four, every activation tile four more. */
  method MultiplyStep(batch: Batch<real>, firstRow: nat, token: nat, row: nat, block: nat, k: nat, w: seq<Fragment>,
                      before: seq<Fragment>)
    returns (s: seq<Fragment>)
    requires batch.Valid() && block < batch.blocks && k + 8 <= 128 && |w| == 4
    requires forall j, i, n | 0 <= j < 4 && 0 <= i < 8 && 0 <= n < 8 ::
        Cell(w[j], i, n) == CellValue(batch, firstRow, block, k + i, row + 8 * j + n)
    requires Quarter(batch, firstRow, token, row, block, 0, k, before)
    ensures Quarter(batch, firstRow, token, row, block, 0, k + 8, s)
  {
    hide Cell, MultiplyAccumulate, CellValue, LoadX, Accumulator;
    s := before;
    for q := 0 to 16
      invariant Quarter(batch, firstRow, token, row, block, q, k, s)
    {
      var i, j := q / 4, q % 4;
      Accumulate(batch, firstRow, block, k, token + 8 * i, row + 8 * j, w[j], s[q]);
      s := s[q := MultiplyAccumulate(LoadX(batch, token + 8 * i, block, k), w[j], s[q])];
    }
  }

  lemma QuarterFinished(batch: Batch<real>, firstRow: nat, token: nat, row: nat, block: nat, s: seq<Fragment>)
    requires batch.Valid() && block < batch.blocks
    requires Quarter(batch, firstRow, token, row, block, 0, 128, s)
    ensures Quarter(batch, firstRow, token, row, block + 1, 0, 0, s)
  {
    hide Accumulator;
    forall q | 0 <= q < 16 {
      BlockFinished(batch, firstRow, block, token + 8 * (q / 4), row + 8 * (q % 4), s[q]);
    }
  }

  /** The block's sixteen k steps of one SIMD group. */
  method MultiplyBlock(batch: Batch<real>, firstRow: nat, token: nat, row: nat, block: nat, decoded: array<real>,
                       before: seq<Fragment>)
    returns (s: seq<Fragment>)
    requires batch.Valid() && block < batch.blocks && decoded.Length == 8192 && row + 32 <= 64
    requires DecodedTile(batch, firstRow, block, decoded)
    requires Quarter(batch, firstRow, token, row, block, 0, 0, before)
    ensures Quarter(batch, firstRow, token, row, block + 1, 0, 0, s)
  {
    hide Cell, CellValue, DecodedTile, Quarter;
    s := before;
    var k := 0;
    while k < 128
      invariant k % 8 == 0 && k <= 128
      invariant Quarter(batch, firstRow, token, row, block, 0, k, s)
    {
      var w := LoadWTiles(batch, firstRow, block, decoded, k, row);
      s := MultiplyStep(batch, firstRow, token, row, block, k, w, s);
      k := k + 8;
    }
    QuarterFinished(batch, firstRow, token, row, block, s);
  }

  // The threadgroup

  /** SIMD group simd covers tokens 32 (simd / 2).. and rows 32 (simd & 1)... */
  ghost predicate Quarters(batch: Batch<real>, firstRow: nat, firstToken: nat, block: nat, sums: seq<seq<Fragment>>)
    requires batch.Valid() && block <= batch.blocks
  {
    && |sums| == 4
    && forall g | 0 <= g < 4 :: Quarter(batch, firstRow, firstToken + 32 * (g / 2), 32 * (g % 2), block, 0, 0, sums[g])
  }

  method Compute(batch: Batch<real>, firstRow: nat, firstToken: nat) returns (sums: seq<seq<Fragment>>)
    requires batch.Valid()
    ensures Quarters(batch, firstRow, firstToken, batch.blocks, sums)
  {
    hide Quarter, CellValue;
    var decoded := new real[8192];
    sums := seq(4, _ => seq(16, _ => ZERO_FRAGMENT));
    forall g | 0 <= g < 4 {
      QuarterStart(batch, firstRow, firstToken + 32 * (g / 2), 32 * (g % 2));
    }
    for block := 0 to batch.blocks
      invariant Quarters(batch, firstRow, firstToken, block, sums)
    {
      var writes := DecodeBlock(batch, firstRow, block, decoded);
      for g := 0 to 4
        invariant |sums| == 4 && DecodedTile(batch, firstRow, block, decoded)
        invariant forall f | 0 <= f < 4 ::
            Quarter(batch, firstRow, firstToken + 32 * (f / 2), 32 * (f % 2), if f < g then block + 1
                    else block, 0, 0, sums[f])
      {
        var s := MultiplyBlock(batch, firstRow, firstToken + 32 * (g / 2), 32 * (g % 2), block, decoded, sums[g]);
        sums := sums[g := s];
      }
    }
  }

  lemma QuarterStart(batch: Batch<real>, firstRow: nat, token: nat, row: nat)
    requires batch.Valid()
    ensures Quarter(batch, firstRow, token, row, 0, 0, 0, seq(16, _ => ZERO_FRAGMENT))
  {
    hide OwnerLane, RowTerm, Row, Batch.RowAt;
  }

  /** A finished accumulator holds reference values wherever it is stored. */
  lemma TileValues(batch: Batch<real>, firstRow: nat, token: nat, row: nat, s: Fragment)
    requires batch.Valid()
    requires Accumulator(batch, firstRow, batch.blocks, 0, token, row, s)
    ensures TileHolds(batch, Reference(batch), s, token, firstRow + row)
  {
    hide Cell, RowTerm, Row, Batch.RowAt, Batch.Token, Sum;
    forall m, n | 0 <= m < 8 && 0 <= n < 8 && token + m < batch.tokens && firstRow + row + n < batch.rows
      ensures Cell(s, m, n) == Reference(batch)(token + m, firstRow + row + n)
    {
      assert SumAt(batch, firstRow, batch.blocks, 0, token + m, row + n, Cell(s, m, n));
      assert RowOf(batch, firstRow, row + n) == firstRow + row + n;
    }
  }

  /** Four tiles side by side: eight tokens by 32 rows. */
  method StoreLine(batch: Batch<real>, firstRow: nat, token: nat, row: nat, s: seq<Fragment>, output: array<real>,
                   before: multiset<(nat, nat)>)
    returns (stores: multiset<(nat, nat)>)
    requires batch.Valid() && HasRoom(batch, output) && Written(batch, Reference(batch), output, before)
    requires |s| == 4
    requires forall j | 0 <= j < 4 :: Accumulator(batch, firstRow, batch.blocks, 0, token, row + 8 * j, s[j])
    modifies output
    ensures Written(batch, Reference(batch), output, stores) && Untouched(batch, old(output[..]), output[..])
    ensures AddsRectangle(batch, before, stores, token, 8, firstRow + row, 32)
  {
    hide Written, Reference, AddsRectangle, Cell, Accumulator, Untouched, HasRoom, Batch.Valid, TileHolds;
    stores := before;
    UntouchedNever(batch, output[..]);
    RectangleNone(batch, before, token, 8, firstRow + row, 0);
    for j := 0 to 4
      invariant Written(batch, Reference(batch), output, stores) && Untouched(batch, old(output[..]), output[..])
      invariant AddsRectangle(batch, before, stores, token, 8, firstRow + row, 8 * j)
    {
      TileValues(batch, firstRow, token, row + 8 * j, s[j]);
      ghost var now := output[..];
      var next := StoreTile(batch, Reference(batch), output, s[j], token, firstRow + row + 8 * j, stores);
      RectangleRight(batch, before, stores, next, token, 8, firstRow + row, 8 * j, 8);
      UntouchedTwice(batch, old(output[..]), now, output[..]);
      stores := next;
    }
  }

  /** Accumulators 4 i.. of a quarter. */
  method Line(batch: Batch<real>, firstRow: nat, token: nat, row: nat, s: seq<Fragment>, i: nat)
    returns (line: seq<Fragment>)
    requires batch.Valid() && i < 4 && Quarter(batch, firstRow, token, row, batch.blocks, 0, 0, s)
    ensures |line| == 4
    ensures forall j | 0 <= j < 4 :: Accumulator(batch, firstRow, batch.blocks, 0, token + 8 * i, row + 8 * j, line[j])
  {
    hide Accumulator, Batch.Valid;
    line := s[4 * i..4 * i + 4];
    forall j | 0 <= j < 4
      ensures Accumulator(batch, firstRow, batch.blocks, 0, token + 8 * i, row + 8 * j, line[j])
    {
      var q := 4 * i + j;
      assert q / 4 == i && q % 4 == j;
    }
  }

  /** The guarded stores of one SIMD group: sixteen tiles make a 32 x 32 rectangle. */
  method StoreQuarter(batch: Batch<real>, firstRow: nat, token: nat, row: nat, s: seq<Fragment>, output: array<real>,
                      before: multiset<(nat, nat)>)
    returns (stores: multiset<(nat, nat)>)
    requires batch.Valid() && HasRoom(batch, output) && Written(batch, Reference(batch), output, before)
    requires Quarter(batch, firstRow, token, row, batch.blocks, 0, 0, s)
    modifies output
    ensures Written(batch, Reference(batch), output, stores) && Untouched(batch, old(output[..]), output[..])
    ensures AddsRectangle(batch, before, stores, token, 32, firstRow + row, 32)
  {
    hide Written, Reference, AddsRectangle, Accumulator, Untouched, HasRoom, Batch.Valid, Quarter;
    stores := before;
    UntouchedNever(batch, output[..]);
    RectangleNone(batch, before, token, 0, firstRow + row, 32);
    for i := 0 to 4
      invariant Written(batch, Reference(batch), output, stores) && Untouched(batch, old(output[..]), output[..])
      invariant AddsRectangle(batch, before, stores, token, 8 * i, firstRow + row, 32)
    {
      ghost var now := output[..];
      var line := Line(batch, firstRow, token, row, s, i);
      var next := StoreLine(batch, firstRow, token + 8 * i, row, line, output, stores);
      RectangleDown(batch, before, stores, next, token, 8 * i, 8, firstRow + row, 32);
      UntouchedTwice(batch, old(output[..]), now, output[..]);
      stores := next;
    }
  }

  /** One threadgroup stores its 64 x 64 rectangle. */
  method Threadgroup(batch: Batch<real>, firstRow: nat, firstToken: nat, output: array<real>,
                     before: multiset<(nat, nat)>)
    returns (stores: multiset<(nat, nat)>)
    requires batch.Valid() && HasRoom(batch, output) && Written(batch, Reference(batch), output, before)
    modifies output
    ensures Written(batch, Reference(batch), output, stores) && Untouched(batch, old(output[..]), output[..])
    ensures AddsRectangle(batch, before, stores, firstToken, 64, firstRow, 64)
  {
    hide Written, Reference, AddsRectangle, Quarter;
    var sums := Compute(batch, firstRow, firstToken);
    var a := StoreQuarter(batch, firstRow, firstToken, 0, sums[0], output, before);
    var b := StoreQuarter(batch, firstRow, firstToken, 32, sums[1], output, a);
    RectangleRight(batch, before, a, b, firstToken, 32, firstRow, 32, 32);
    var c := StoreQuarter(batch, firstRow, firstToken + 32, 0, sums[2], output, b);
    stores := StoreQuarter(batch, firstRow, firstToken + 32, 32, sums[3], output, c);
    RectangleRight(batch, b, c, stores, firstToken + 32, 32, firstRow, 32, 32);
    RectangleDown(batch, before, b, stores, firstToken, 32, 32, firstRow, 64);
  }

  /**
   ceil(rows / 64) by ceil(tokens / 64) threadgroups: every (token, row) is stored exactly
   once and holds the reference dot product.
   */
  method Dispatch(batch: Batch<real>, output: array<real>) returns (stores: multiset<(nat, nat)>)
    requires batch.Valid() && HasRoom(batch, output)
    modifies output
    ensures StoredOnce(batch.tokens, batch.rows, stores)
    ensures forall t: nat, r: nat | t < batch.tokens && r < batch.rows ::
        batch.Slot(t, r) < output.Length && output[batch.Slot(t, r)] == RowDot(batch.RowAt(r), batch.Token(t))
    ensures Projected(batch, output[..])
    ensures Untouched(batch, old(output[..]), output[..])
  {
    hide Projected, RowDot, Written, AddsRectangle, StoredOnce;
    stores := multiset{};
    NothingWritten(batch, Reference(batch), output);
    var columns := (batch.rows + 63) / 64;
    var firstToken := 0;
    RectangleNone(batch, stores, 0, 0, 0, 64 * columns);
    while firstToken < batch.tokens
      invariant Written(batch, Reference(batch), output, stores) && Untouched(batch, old(output[..]), output[..])
      invariant AddsRectangle(batch, multiset{}, stores, 0, firstToken, 0, 64 * columns)
    {
      ghost var line := stores;
      RectangleNone(batch, line, firstToken, 64, 0, 0);
      for group := 0 to columns
        invariant Written(batch, Reference(batch), output, stores) && Untouched(batch, old(output[..]), output[..])
        invariant AddsRectangle(batch, line, stores, firstToken, 64, 0, 64 * group)
      {
        var next := Threadgroup(batch, 64 * group, firstToken, output, stores);
        RectangleRight(batch, line, stores, next, firstToken, 64, 0, 64 * group, 64);
        stores := next;
      }
      RectangleDown(batch, multiset{}, line, stores, 0, firstToken, 64, 0, 64 * columns);
      firstToken := firstToken + 64;
    }
    RectangleAll(batch, stores, firstToken, 64 * columns);
    AllWritten(batch, Reference(batch), output, stores);
    AllProjected(batch, output[..]);
  }
}
