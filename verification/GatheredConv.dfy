/**
 kk_conv of shaders/kokoro.metal: a convolution as a product of gathered inputs, in 32 x 32 tiles that a
 threadgroup of 128 threads loads into shared memory and four SIMD groups multiply in 8 x 8 pieces.
 */
module GatheredConv {
  import opened Common
  import opened Sums
  import opened Tiles

  /** A line of a shared tile: 32 values and 4 of padding. */
  const LINE: nat := 36
  const SHARED: nat := 1152

  // The convolution

  /** The kernel's parameters and inputs: weights [cout][taps][cin], inputs [cin][inRow]. */
  datatype Conv = Conv(cout: nat, cin: nat, taps: nat, columns: nat, inStride: int, inDil: int, inOffset: int,
                       inLen: nat, inRow: nat, outStride: nat, outOffset: nat, outRow: nat,
                       addBias: bool, accumulate: bool, scale: real, w: seq<real>, x: seq<real>, bias: seq<real>)
  {
    ghost predicate Valid() {
      && |w| == cout * taps * cin && inLen <= inRow && |x| == cin * inRow
      && (addBias ==> |bias| == cout)
      && (columns > 0 ==> outStride > 0 && (columns - 1) * outStride + outOffset < outRow)
    }

    /** The input index of a column and tap. */
    function Index(col: nat, tap: nat): int { col * inStride + tap * inDil + inOffset }

    /** A weight; rows and channels past the end read zero. */
    function Weight(o: nat, tap: nat, c: nat): real
      requires Valid()
    {
      if o < cout && tap < taps && c < cin then
        WeightFits(this, o, tap, c);
        w[Join(Join(o, taps, tap), cin, c)]
      else 0.0
    }

    /** A gathered input; channels, columns and indices out of range read zero. */
    function Input(c: nat, col: nat, tap: nat): real
      requires Valid()
    {
      if c < cin && col < columns && 0 <= Index(col, tap) < inLen then
        InputFits(this, c, Index(col, tap));
        x[Join(c, inRow, Index(col, tap))]
      else 0.0
    }

    function Bias(o: nat): real
      requires Valid() && o < cout
    {
      if addBias then bias[o] else 0.0
    }

    /** The output cell of a row and column. */
    function Out(o: nat, col: nat): nat { o * outRow + (col * outStride + outOffset) }
  }

  lemma WeightFits(conv: Conv, o: nat, tap: nat, c: nat)
    requires conv.Valid() && o < conv.cout && tap < conv.taps && c < conv.cin
    ensures Join(Join(o, conv.taps, tap), conv.cin, c) < |conv.w|
  {
    Index2(o, conv.cout, tap, conv.taps);
    Index2(o * conv.taps + tap, conv.cout * conv.taps, c, conv.cin);
  }

  lemma InputFits(conv: Conv, c: nat, index: nat)
    requires conv.Valid() && c < conv.cin && index < conv.inLen
    ensures Join(c, conv.inRow, index) < |conv.x|
  {
    Index2(c, conv.cin, index, conv.inRow);
  }

  lemma OutFits(conv: Conv, o: nat, col: nat)
    requires conv.Valid() && o < conv.cout && col < conv.columns
    ensures col * conv.outStride + conv.outOffset < conv.outRow
    ensures conv.Out(o, col) < conv.cout * conv.outRow
  {
    MulMonotone(col, conv.columns - 1, conv.outStride);
    Index2(o, conv.cout, col * conv.outStride + conv.outOffset, conv.outRow);
  }

  lemma OutsDiffer(conv: Conv, o: nat, col: nat, o': nat, col': nat)
    requires conv.Valid() && o < conv.cout && col < conv.columns && o' < conv.cout && col' < conv.columns
    requires conv.Out(o, col) == conv.Out(o', col')
    ensures o == o' && col == col'
  {
    OutFits(conv, o, col);
    OutFits(conv, o', col');
    SlotsDiffer(conv.outRow, o, col * conv.outStride + conv.outOffset, o', col' * conv.outStride + conv.outOffset);
    SlotsDiffer(conv.outStride, col, 0, col', 0);
  }

  /** The products of one tap over the channels. */
  ghost function Term(conv: Conv, o: nat, col: nat, tap: nat): (f: int -> real)
    requires conv.Valid()
    ensures forall c {:trigger f(c)} | 0 <= c :: f(c) == Times(conv.Weight(o, tap, c), conv.Input(c, col, tap))
  {
    hide Times, Conv.Weight, Conv.Input;
    c => if 0 <= c then Times(conv.Weight(o, tap, c), conv.Input(c, col, tap)) else 0.0
  }

  ghost function TapSum(conv: Conv, o: nat, col: nat): (f: int -> real)
    requires conv.Valid()
    ensures forall tap {:trigger f(tap)} | 0 <= tap :: f(tap) == Sum(conv.cin, Term(conv, o, col, tap))
  {
    hide Sum;
    tap => if 0 <= tap then Sum(conv.cin, Term(conv, o, col, tap)) else 0.0
  }

  /** The reference: weights against gathered inputs, over all taps and channels. */
  ghost function Dot(conv: Conv, o: nat, col: nat): real
    requires conv.Valid()
  {
    Sum(conv.taps, TapSum(conv, o, col))
  }

  /** What the kernel stores in place of the given value. */
  ghost function Value(conv: Conv, o: nat, col: nat, was: real): real
    requires conv.Valid() && o < conv.cout
  {
    conv.scale * (Dot(conv, o, col) + conv.Bias(o)) + if conv.accumulate then was else 0.0
  }

  // Loading a tile

  function Address(line: nat, k: nat): nat { line * LINE + k }

  lemma AddressFits(line: nat, k: nat)
    requires line < 32 && k < 32
    ensures Address(line, k) < SHARED
  {
  }

  lemma AddressesDiffer(line: nat, k: nat, line': nat, k': nat)
    requires k < 32 && k' < 32 && Address(line, k) == Address(line', k')
    ensures line == line' && k == k'
  {
  }

  /** The shared tiles hold weights and inputs of 32 rows, columns and channels. */
  ghost predicate Loaded(conv: Conv, row0: nat, col0: nat, tap: nat, ci0: nat, ws: seq<real>, xs: seq<real>)
    requires conv.Valid() && |ws| == |xs| == SHARED
  {
    forall line, k | 0 <= line < 32 && 0 <= k < 32 :: LoadedAt(conv, row0, col0, tap, ci0, ws, xs, line, k)
  }

  ghost predicate LoadedAt(conv: Conv, row0: nat, col0: nat, tap: nat, ci0: nat, ws: seq<real>, xs: seq<real>,
                           line: nat, k: nat)
    requires conv.Valid() && |ws| == |xs| == SHARED && line < 32 && k < 32
  {
    AddressFits(line, k);
    && ws[Address(line, k)] == conv.Weight(row0 + line, tap, ci0 + k)
    && xs[Address(line, k)] == conv.Input(ci0 + line, col0 + k, tap)
  }

  ghost predicate LoadedTo(conv: Conv, row0: nat, col0: nat, tap: nat, ci0: nat, ws: seq<real>, xs: seq<real>, p: nat)
    requires conv.Valid() && |ws| == |xs| == SHARED
  {
    forall line, k | 0 <= line < 32 && 0 <= k < 32 && 32 * line + k < p ::
      LoadedAt(conv, row0, col0, tap, ci0, ws, xs, line, k)
  }

  lemma LoadedNext(conv: Conv, row0: nat, col0: nat, tap: nat, ci0: nat, ws: seq<real>, xs: seq<real>, line: nat,
                   k: nat,
                   a: real, b: real)
    requires conv.Valid() && |ws| == |xs| == SHARED && line < 32 && k < 32
    requires LoadedTo(conv, row0, col0, tap, ci0, ws, xs, 32 * line + k)
    requires a == conv.Weight(row0 + line, tap, ci0 + k) && b == conv.Input(ci0 + line, col0 + k, tap)
    ensures Address(line, k) < SHARED
    ensures LoadedTo(conv, row0, col0, tap, ci0, ws[Address(line, k) := a], xs[Address(line, k) := b],
                     32 * line + k + 1)
  {
    hide Conv.Valid, Conv.Weight, Conv.Input, Address;
    AddressFits(line, k);
    var ws', xs' := ws[Address(line, k) := a], xs[Address(line, k) := b];
    forall i, j | 0 <= i < 32 && 0 <= j < 32 && 32 * i + j < 32 * line + k + 1
      ensures LoadedAt(conv, row0, col0, tap, ci0, ws', xs', i, j)
    {
      AddressFits(i, j);
      if Address(i, j) == Address(line, k) {
        AddressesDiffer(i, j, line, k);
      } else {
        assert i != line || j != k;
        assert LoadedAt(conv, row0, col0, tap, ci0, ws, xs, i, j);
      }
    }
  }

  /** All threads: thread tid fills eight places of line tid / 4 in either tile. */
  method LoadTiles(conv: Conv, row0: nat, col0: nat, tap: nat, ci0: nat, ws: array<real>, xs: array<real>)
    requires conv.Valid() && tap < conv.taps && ws.Length == xs.Length == SHARED && ws != xs
    modifies ws, xs
    ensures Loaded(conv, row0, col0, tap, ci0, ws[..], xs[..])
  {
    hide Conv.Valid, Conv.Weight, Conv.Input, Address, LoadedTo, LoadedAt;
    NothingLoaded(conv, row0, col0, tap, ci0, ws[..], xs[..]);
    for tid := 0 to 128
      invariant LoadedTo(conv, row0, col0, tap, ci0, ws[..], xs[..], 8 * tid)
    {
      var line, k8 := tid / 4, tid % 4 * 8;
      ThreadPlace(tid);
      for i := 0 to 8
        invariant LoadedTo(conv, row0, col0, tap, ci0, ws[..], xs[..], 32 * line + k8 + i)
      {
        var a, b := conv.Weight(row0 + line, tap, ci0 + (k8 + i)), conv.Input(ci0 + line, col0 + (k8 + i), tap);
        ghost var ws0, xs0 := ws[..], xs[..];
        LoadedNext(conv, row0, col0, tap, ci0, ws0, xs0, line, k8 + i, a, b);
        ws[Address(line, k8 + i)] := a;
        xs[Address(line, k8 + i)] := b;
        assert ws[..] == ws0[Address(line, k8 + i) := a] && xs[..] == xs0[Address(line, k8 + i) := b];
      }
    }
    AllLoaded(conv, row0, col0, tap, ci0, ws[..], xs[..]);
  }

  lemma ThreadPlace(tid: nat)
    requires tid < 128
    ensures tid / 4 < 32 && tid % 4 * 8 + 8 <= 32 && 32 * (tid / 4) + tid % 4 * 8 == 8 * tid
  {
  }

  lemma NothingLoaded(conv: Conv, row0: nat, col0: nat, tap: nat, ci0: nat, ws: seq<real>, xs: seq<real>)
    requires conv.Valid() && |ws| == |xs| == SHARED
    ensures LoadedTo(conv, row0, col0, tap, ci0, ws, xs, 0)
  {
  }

  lemma AllLoaded(conv: Conv, row0: nat, col0: nat, tap: nat, ci0: nat, ws: seq<real>, xs: seq<real>)
    requires conv.Valid() && |ws| == |xs| == SHARED && LoadedTo(conv, row0, col0, tap, ci0, ws, xs, 8 * 128)
    ensures Loaded(conv, row0, col0, tap, ci0, ws, xs)
  {
    hide LoadedAt;
  }

  // Multiplying

  /** Accumulator a belongs to SIMD group a / 4, which owns a 16 x 16 quarter as 2 x 2 pieces. */
  function PieceRow(a: nat): (r: nat)
    requires a < 16
    ensures r <= 24
  {
    a / 8 * 16 + a / 2 % 2 * 8
  }

  function PieceCol(a: nat): (c: nat)
    requires a < 16
    ensures c <= 24
  {
    a / 4 % 2 * 16 + a % 2 * 8
  }

  /** simdgroup_load from a shared tile. */
  method LoadPiece(tile: array<real>, line: nat, k: nat) returns (f: Fragment)
    requires tile.Length == SHARED && line + 8 <= 32 && k + 8 <= 32
    ensures IsPiece(tile[..], f, line, k)
  {
    hide Cell, Gather;
    var memory := tile[..];
    var g := (m: nat, n: nat) => if m < 8 && n < 8 then memory[Address(line + m, k + n)] else 0.0;
    f := Gather(g);
    forall m, n | 0 <= m < 8 && 0 <= n < 8
      ensures PieceAt(memory, f, line, k, m, n)
    {
      GatherCell(g, m, n);
    }
  }

  ghost predicate IsPiece(tile: seq<real>, f: Fragment, line: nat, k: nat) {
    forall m, n | 0 <= m < 8 && 0 <= n < 8 :: PieceAt(tile, f, line, k, m, n)
  }

  ghost predicate PieceAt(tile: seq<real>, f: Fragment, line: nat, k: nat, m: nat, n: nat)
    requires m < 8 && n < 8
  {
    Address(line + m, k + n) < |tile| && Cell(f, m, n) == tile[Address(line + m, k + n)]
  }

  /** The products behind one cell of the product of the two tiles. */
  ghost function Cross(ws: seq<real>, xs: seq<real>, i: nat, j: nat): (f: int -> real)
    requires |ws| == |xs| == SHARED && i < 32 && j < 32
    ensures forall k {:trigger f(k)} | 0 <= k < 32 ::
              Address(i, k) < SHARED && Address(k, j) < SHARED && f(k) == Times(ws[Address(i, k)], xs[Address(k, j)])
  {
    hide Times;
    k => if 0 <= k < 32 then Times(ws[Address(i, k)], xs[Address(k, j)]) else 0.0
  }

  /** The accumulators after kk of the 32 products, from what they were before. */
  ghost predicate Multiplied(ws: seq<real>, xs: seq<real>, before: seq<Fragment>, acc: seq<Fragment>, kk: nat,
                             done: nat)
    requires |ws| == |xs| == SHARED && |before| == |acc| == 16 && kk <= 32
  {
    forall a | 0 <= a < 16 :: PieceMultiplied(ws, xs, before[a], acc[a], a, if a < done then kk + 8 else kk)
  }

  ghost predicate PieceMultiplied(ws: seq<real>, xs: seq<real>, before: Fragment, acc: Fragment, a: nat, kk: nat)
    requires |ws| == |xs| == SHARED && a < 16
  {
    forall m, n | 0 <= m < 8 && 0 <= n < 8 :: CellMultiplied(ws, xs, before, acc, a, kk, m, n)
  }

  ghost predicate CellMultiplied(ws: seq<real>, xs: seq<real>, before: Fragment, acc: Fragment, a: nat, kk: nat,
                                 m: nat, n: nat)
    requires |ws| == |xs| == SHARED && a < 16 && m < 8 && n < 8
  {
    Cell(acc, m, n) == Cell(before, m, n) + Sum(kk, Cross(ws, xs, PieceRow(a) + m, PieceCol(a) + n))
  }

  lemma PieceStep(ws: seq<real>, xs: seq<real>, before: Fragment, acc: Fragment, a: nat, kk: nat, am: Fragment,
                  bm: Fragment)
    requires |ws| == |xs| == SHARED && a < 16 && kk + 8 <= 32 && PieceMultiplied(ws, xs, before, acc, a, kk)
    requires IsPiece(ws, am, PieceRow(a), kk) && IsPiece(xs, bm, kk, PieceCol(a))
    ensures PieceMultiplied(ws, xs, before, MultiplyAccumulate(am, bm, acc), a, kk + 8)
  {
    hide Cell, MultiplyAccumulate, Address, Sum, PieceRow, PieceCol, Cross;
    var next, k8 := MultiplyAccumulate(am, bm, acc), kk + 8;
    forall m, n | 0 <= m < 8 && 0 <= n < 8
      ensures CellMultiplied(ws, xs, before, next, a, k8, m, n)
    {
      assert CellMultiplied(ws, xs, before, acc, a, kk, m, n);
      var f := Cross(ws, xs, PieceRow(a) + m, PieceCol(a) + n);
      MultiplyAccumulateCell(am, bm, acc, m, n);
      forall i | 0 <= i < 8
        ensures Products(am, bm, m, n)(i) == f(kk + i)
      {
        assert PieceAt(ws, am, PieceRow(a), kk, m, i) && PieceAt(xs, bm, kk, PieceCol(a), i, n);
      }
      SumSplit(kk, 8, f);
      SumEq(8, Products(am, bm, m, n), i => f(kk + i));
    }
  }

  /** Eight of the 32 products for all four SIMD groups. */
  method MultiplyEight(ws: array<real>, xs: array<real>, ghost start: seq<Fragment>, before: seq<Fragment>, kk: nat)
    returns (acc: seq<Fragment>)
    requires ws.Length == xs.Length == SHARED && |start| == |before| == 16 && kk + 8 <= 32
    requires Multiplied(ws[..], xs[..], start, before, kk, 0)
    ensures |acc| == 16 && Multiplied(ws[..], xs[..], start, acc, kk + 8, 0)
  {
    hide Cell, MultiplyAccumulate, Address, PieceMultiplied, PieceRow, PieceCol, IsPiece;
    acc := before;
    for a := 0 to 16
      invariant |acc| == 16 && Multiplied(ws[..], xs[..], start, acc, kk, a)
    {
      var am := LoadPiece(ws, PieceRow(a), kk);
      var bm := LoadPiece(xs, kk, PieceCol(a));
      PieceStep(ws[..], xs[..], start[a], acc[a], a, kk, am, bm);
      acc := acc[a := MultiplyAccumulate(am, bm, acc[a])];
    }
  }

  /** The product of the two tiles onto the accumulators. */
  method MultiplyTiles(ws: array<real>, xs: array<real>, before: seq<Fragment>) returns (acc: seq<Fragment>)
    requires ws.Length == xs.Length == SHARED && |before| == 16
    ensures |acc| == 16 && Multiplied(ws[..], xs[..], before, acc, 32, 0)
  {
    hide Multiplied;
    acc := before;
    NothingMultiplied(ws[..], xs[..], before);
    var kk := 0;
    while kk < 32
      invariant kk % 8 == 0 && kk <= 32 && |acc| == 16 && Multiplied(ws[..], xs[..], before, acc, kk, 0)
    {
      acc := MultiplyEight(ws, xs, before, acc, kk);
      kk := kk + 8;
    }
  }

  lemma NothingMultiplied(ws: seq<real>, xs: seq<real>, before: seq<Fragment>)
    requires |ws| == |xs| == SHARED && |before| == 16
    ensures Multiplied(ws, xs, before, before, 0, 0)
  {
    hide Cell, PieceRow, PieceCol, Sum;
    forall a | 0 <= a < 16
      ensures PieceMultiplied(ws, xs, before[a], before[a], a, 0)
    {
      forall m, n | 0 <= m < 8 && 0 <= n < 8
        ensures CellMultiplied(ws, xs, before[a], before[a], a, 0, m, n)
      {
        SumNone(Cross(ws, xs, PieceRow(a) + m, PieceCol(a) + n));
      }
    }
  }

  // Summing over taps and channels

  /** The sum up to channel ci of a tap. */
  ghost function Running(conv: Conv, o: nat, col: nat, tap: nat, ci: nat): real
    requires conv.Valid()
  {
    Sum(tap, TapSum(conv, o, col)) + Sum(ci, Term(conv, o, col, tap))
  }

  ghost predicate Accumulated(conv: Conv, row0: nat, col0: nat, tap: nat, ci: nat, acc: seq<Fragment>)
    requires conv.Valid() && |acc| == 16
  {
    forall a | 0 <= a < 16 :: PieceAccumulated(conv, row0, col0, tap, ci, acc[a], a)
  }

  ghost predicate PieceAccumulated(conv: Conv, row0: nat, col0: nat, tap: nat, ci: nat, acc: Fragment, a: nat)
    requires conv.Valid() && a < 16
  {
    forall m, n | 0 <= m < 8 && 0 <= n < 8 ::
      Cell(acc, m, n) == Running(conv, row0 + (PieceRow(a) + m), col0 + (PieceCol(a) + n), tap, ci)
  }

  /** The product of two loaded tiles is the sum over their 32 channels. */
  lemma TileSum(conv: Conv, row0: nat, col0: nat, tap: nat, ci0: nat, ws: seq<real>, xs: seq<real>, i: nat, j: nat)
    requires conv.Valid() && |ws| == |xs| == SHARED && i < 32 && j < 32 && Loaded(conv, row0, col0, tap, ci0, ws, xs)
    ensures Running(conv, row0 + i, col0 + j, tap, ci0) + Sum(32, Cross(ws, xs, i, j))
         == Running(conv, row0 + i, col0 + j, tap, ci0 + 32)
  {
    hide Sum, Times, Conv.Weight, Conv.Input, Conv.Valid, Address, Cross;
    var f, g := Term(conv, row0 + i, col0 + j, tap), Cross(ws, xs, i, j);
    forall k | 0 <= k < 32
      ensures g(k) == f(ci0 + k)
    {
      assert LoadedAt(conv, row0, col0, tap, ci0, ws, xs, i, k);
      assert LoadedAt(conv, row0, col0, tap, ci0, ws, xs, k, j);
    }
    SumEq(32, g, k => f(ci0 + k));
    SumSplit(ci0, 32, f);
  }

  lemma AccumulatedNext(conv: Conv, row0: nat, col0: nat, tap: nat, ci0: nat, ws: seq<real>, xs: seq<real>,
                        before: seq<Fragment>, acc: seq<Fragment>)
    requires conv.Valid() && |ws| == |xs| == SHARED && |before| == |acc| == 16
    requires Loaded(conv, row0, col0, tap, ci0, ws, xs) && Multiplied(ws, xs, before, acc, 32, 0)
    requires Accumulated(conv, row0, col0, tap, ci0, before)
    ensures Accumulated(conv, row0, col0, tap, ci0 + 32, acc)
  {
    hide Cell, Sum, Running, Loaded, Cross, Conv.Valid, PieceRow, PieceCol;
    forall a | 0 <= a < 16
      ensures PieceAccumulated(conv, row0, col0, tap, ci0 + 32, acc[a], a)
    {
      assert PieceMultiplied(ws, xs, before[a], acc[a], a, 32)
             && PieceAccumulated(conv, row0, col0, tap, ci0, before[a], a);
      forall m, n | 0 <= m < 8 && 0 <= n < 8
        ensures Cell(acc[a], m, n) == Running(conv, row0 + (PieceRow(a) + m), col0 + (PieceCol(a) + n), tap, ci0 + 32)
      {
        assert CellMultiplied(ws, xs, before[a], acc[a], a, 32, m, n);
        TileSum(conv, row0, col0, tap, ci0, ws, xs, PieceRow(a) + m, PieceCol(a) + n);
      }
    }
  }

  /** Past the last channel nothing is added: the next tap begins. */
  lemma TapDone(conv: Conv, o: nat, col: nat, tap: nat, ci: nat)
    requires conv.Valid() && ci >= conv.cin
    ensures Running(conv, o, col, tap, ci) == Running(conv, o, col, tap + 1, 0)
  {
    hide Sum;
    var f := Term(conv, o, col, tap);
    SumSplit(conv.cin, ci - conv.cin, f);
    SumZero(ci - conv.cin, c => f(conv.cin + c));
    SumNext(tap, TapSum(conv, o, col));
    SumNone(Term(conv, o, col, tap + 1));
  }

  lemma NextTap(conv: Conv, row0: nat, col0: nat, tap: nat, ci: nat, acc: seq<Fragment>)
    requires conv.Valid() && ci >= conv.cin && |acc| == 16 && Accumulated(conv, row0, col0, tap, ci, acc)
    ensures Accumulated(conv, row0, col0, tap + 1, 0, acc)
  {
    hide Cell, Running, Conv.Valid, PieceRow, PieceCol;
    forall a | 0 <= a < 16
      ensures PieceAccumulated(conv, row0, col0, tap + 1, 0, acc[a], a)
    {
      assert PieceAccumulated(conv, row0, col0, tap, ci, acc[a], a);
      forall m, n | 0 <= m < 8 && 0 <= n < 8
        ensures Cell(acc[a], m, n) == Running(conv, row0 + (PieceRow(a) + m), col0 + (PieceCol(a) + n), tap + 1, 0)
      {
        TapDone(conv, row0 + (PieceRow(a) + m), col0 + (PieceCol(a) + n), tap, ci);
      }
    }
  }

  lemma NothingAccumulated(conv: Conv, row0: nat, col0: nat, acc: seq<Fragment>)
    requires conv.Valid() && |acc| == 16 && forall a | 0 <= a < 16 :: acc[a] == ZERO_FRAGMENT
    ensures Accumulated(conv, row0, col0, 0, 0, acc)
  {
    hide Sum, PieceRow, PieceCol;
    forall a, m, n | 0 <= a < 16 && 0 <= m < 8 && 0 <= n < 8
      ensures Cell(acc[a], m, n) == Running(conv, row0 + (PieceRow(a) + m), col0 + (PieceCol(a) + n), 0, 0)
    {
      SumNone(TapSum(conv, row0 + (PieceRow(a) + m), col0 + (PieceCol(a) + n)));
      SumNone(Term(conv, row0 + (PieceRow(a) + m), col0 + (PieceCol(a) + n), 0));
    }
  }

  /** All taps and channels of one threadgroup. */
  method Compute(conv: Conv, row0: nat, col0: nat) returns (acc: seq<Fragment>)
    requires conv.Valid()
    ensures |acc| == 16 && Accumulated(conv, row0, col0, conv.taps, 0, acc)
  {
    hide Accumulated, Loaded, Multiplied, Conv.Valid;
    var ws, xs := new real[SHARED](_ => 0.0), new real[SHARED](_ => 0.0);
    acc := seq(16, _ => ZERO_FRAGMENT);
    NothingAccumulated(conv, row0, col0, acc);
    for tap := 0 to conv.taps
      invariant |acc| == 16 && Accumulated(conv, row0, col0, tap, 0, acc) && fresh(ws) && fresh(xs)
    {
      var ci0 := 0;
      while ci0 < conv.cin
        invariant |acc| == 16 && Accumulated(conv, row0, col0, tap, ci0, acc) && fresh(ws) && fresh(xs)
      {
        LoadTiles(conv, row0, col0, tap, ci0, ws, xs);
        ghost var before := acc;
        acc := MultiplyTiles(ws, xs, acc);
        AccumulatedNext(conv, row0, col0, tap, ci0, ws[..], xs[..], before, acc);
        ci0 := ci0 + 32;
      }
      NextTap(conv, row0, col0, tap, ci0, acc);
    }
  }

  // Storing

  /** The piece that holds a cell of the 32 x 32 tile. */
  function PieceOf(i: nat, j: nat): (a: nat)
    requires i < 32 && j < 32
    ensures a < 16
  {
    i / 16 * 8 + j / 16 * 4 + i / 8 % 2 * 2 + j / 8 % 2
  }

  lemma PieceOwns(i: nat, j: nat)
    requires i < 32 && j < 32
    ensures PieceRow(PieceOf(i, j)) + i % 8 == i && PieceCol(PieceOf(i, j)) + j % 8 == j
  {
    var p, q, r, s := i / 16, j / 16, i / 8 % 2, j / 8 % 2;
    PieceDigits(p, q, r, s);
    LineDigits(i);
    LineDigits(j);
  }

  lemma PieceDigits(p: nat, q: nat, r: nat, s: nat)
    requires p < 2 && q < 2 && r < 2 && s < 2
    ensures var a := p * 8 + q * 4 + r * 2 + s; a / 8 == p && a / 4 % 2 == q && a / 2 % 2 == r && a % 2 == s
  {
  }

  lemma LineDigits(i: nat)
    requires i < 32
    ensures i / 16 < 2 && i == i / 16 * 16 + i / 8 % 2 * 8 + i % 8
  {
    var e := i / 8;
    assert i == e * 8 + i % 8;
    assert e == e / 2 * 2 + e % 2;
  }

  /** The shared result tile holds the accumulated sums. */
  ghost predicate Shared(conv: Conv, row0: nat, col0: nat, cs: seq<real>)
    requires conv.Valid() && |cs| == SHARED
  {
    forall i, j | 0 <= i < 32 && 0 <= j < 32 :: SharedAt(conv, row0, col0, cs, i, j)
  }

  ghost predicate SharedAt(conv: Conv, row0: nat, col0: nat, cs: seq<real>, i: nat, j: nat)
    requires conv.Valid() && |cs| == SHARED && i < 32 && j < 32
  {
    AddressFits(i, j);
    cs[Address(i, j)] == Dot(conv, row0 + i, col0 + j)
  }

  /** simdgroup_store of all sixteen pieces: the piece that owns a cell writes it. */
  method Publish(conv: Conv, row0: nat, col0: nat, acc: seq<Fragment>, cs: array<real>)
    requires conv.Valid() && |acc| == 16 && Accumulated(conv, row0, col0, conv.taps, 0, acc) && cs.Length == SHARED
    modifies cs
    ensures Shared(conv, row0, col0, cs[..])
  {
    hide Accumulated, Conv.Valid, Address, SharedAt, PieceRow, PieceCol;
    for a := 0 to 16
      invariant forall i, j | 0 <= i < 32 && 0 <= j < 32 && PieceOf(i, j) < a ::
                  SharedAt(conv, row0, col0, cs[..], i, j)
    {
      PublishPiece(conv, row0, col0, acc, a, cs);
    }
  }

  ghost predicate PublishedTo(conv: Conv, row0: nat, col0: nat, cs: seq<real>, a: nat, p: nat)
    requires conv.Valid() && |cs| == SHARED
  {
    forall i, j | 0 <= i < 32 && 0 <= j < 32
      && (PieceOf(i, j) < a || (PieceOf(i, j) == a && 8 * (i % 8) + j % 8 < p)) ::
      SharedAt(conv, row0, col0, cs, i, j)
  }

  method PublishPiece(conv: Conv, row0: nat, col0: nat, acc: seq<Fragment>, a: nat, cs: array<real>)
    requires conv.Valid() && |acc| == 16 && Accumulated(conv, row0, col0, conv.taps, 0, acc) && cs.Length == SHARED
             && a < 16
    requires forall i, j | 0 <= i < 32 && 0 <= j < 32 && PieceOf(i, j) < a :: SharedAt(conv, row0, col0, cs[..], i, j)
    modifies cs
    ensures forall i, j | 0 <= i < 32 && 0 <= j < 32 && PieceOf(i, j) < a + 1 ::
              SharedAt(conv, row0, col0, cs[..], i, j)
  {
    hide Accumulated, Conv.Valid, Address, SharedAt, PieceRow, PieceCol, PieceOf, Cell, PublishedTo;
    PieceStarts(conv, row0, col0, cs[..], a);
    for m := 0 to 8
      invariant PublishedTo(conv, row0, col0, cs[..], a, 8 * m)
    {
      for n := 0 to 8
        invariant PublishedTo(conv, row0, col0, cs[..], a, 8 * m + n)
      {
        ghost var now := cs[..];
        PublishNext(conv, row0, col0, now, acc, a, m, n);
        cs[Address(PieceRow(a) + m, PieceCol(a) + n)] := Cell(acc[a], m, n);
        assert cs[..] == now[Address(PieceRow(a) + m, PieceCol(a) + n) := Cell(acc[a], m, n)];
      }
    }
    PieceEnds(conv, row0, col0, cs[..], a);
  }

  lemma PieceStarts(conv: Conv, row0: nat, col0: nat, cs: seq<real>, a: nat)
    requires conv.Valid() && |cs| == SHARED
    requires forall i, j | 0 <= i < 32 && 0 <= j < 32 && PieceOf(i, j) < a :: SharedAt(conv, row0, col0, cs, i, j)
    ensures PublishedTo(conv, row0, col0, cs, a, 0)
  {
    hide SharedAt, PieceOf;
  }

  lemma PieceEnds(conv: Conv, row0: nat, col0: nat, cs: seq<real>, a: nat)
    requires conv.Valid() && |cs| == SHARED && PublishedTo(conv, row0, col0, cs, a, 64)
    ensures forall i, j | 0 <= i < 32 && 0 <= j < 32 && PieceOf(i, j) < a + 1 :: SharedAt(conv, row0, col0, cs, i, j)
  {
    hide SharedAt, PieceOf;
  }

  lemma PublishNext(conv: Conv, row0: nat, col0: nat, cs: seq<real>, acc: seq<Fragment>, a: nat, m: nat, n: nat)
    requires conv.Valid() && |cs| == SHARED && |acc| == 16 && a < 16 && m < 8 && n < 8
    requires Accumulated(conv, row0, col0, conv.taps, 0, acc) && PublishedTo(conv, row0, col0, cs, a, 8 * m + n)
    ensures Address(PieceRow(a) + m, PieceCol(a) + n) < SHARED
    ensures PublishedTo(conv, row0, col0, cs[Address(PieceRow(a) + m, PieceCol(a) + n) := Cell(acc[a], m, n)], a,
                        8 * m + n + 1)
  {
    hide Conv.Valid, Address, PieceRow, PieceCol, PieceOf, Cell, Dot, Running;
    var i0, j0 := PieceRow(a) + m, PieceCol(a) + n;
    AddressFits(i0, j0);
    var next := cs[Address(i0, j0) := Cell(acc[a], m, n)];
    assert PieceAccumulated(conv, row0, col0, conv.taps, 0, acc[a], a);
    FinalSum(conv, row0 + i0, col0 + j0);
    forall i, j | 0 <= i < 32 && 0 <= j < 32
      && (PieceOf(i, j) < a || (PieceOf(i, j) == a && 8 * (i % 8) + j % 8 < 8 * m + n + 1))
      ensures SharedAt(conv, row0, col0, next, i, j)
    {
      AddressFits(i, j);
      PieceOwns(i, j);
      if Address(i, j) == Address(i0, j0) {
        AddressesDiffer(i, j, i0, j0);
      } else {
        assert PieceOf(i, j) == a ==> i % 8 != m || j % 8 != n;
        assert SharedAt(conv, row0, col0, cs, i, j);
      }
    }
  }

  lemma FinalSum(conv: Conv, o: nat, col: nat)
    requires conv.Valid()
    ensures Running(conv, o, col, conv.taps, 0) == Dot(conv, o, col)
  {
    hide Sum;
    SumNone(Term(conv, o, col, conv.taps));
  }

  /** Outputs stored once the threadgroups before (gx, gy), and p places of that one, are done. */
  ghost predicate Done(o: nat, col: nat, gx: nat, gy: nat, p: nat) {
    || o / 32 < gx
    || (o / 32 == gx && (col / 32 < gy || (col / 32 == gy && 32 * (o % 32) + col % 32 < p)))
  }

  lemma DoneStep(o: nat, col: nat, gx: nat, gy: nat, line: nat, k: nat)
    requires line < 32 && k < 32
    ensures Done(o, col, gx, gy, 32 * line + k + 1)
       <==> Done(o, col, gx, gy, 32 * line + k) || (o == 32 * gx + line && col == 32 * gy + k)
  {
    Split32(o);
    Split32(col);
    Digits32(gx, line);
    Digits32(gy, k);
  }

  lemma Split32(o: nat)
    ensures o == 32 * (o / 32) + o % 32
  {
  }

  lemma Digits32(g: nat, line: nat)
    requires line < 32
    ensures (32 * g + line) / 32 == g && (32 * g + line) % 32 == line
  {
  }

  /** The outputs stored so far hold their values, every other cell is as it was, and each is stored once. */
  ghost predicate Progress(conv: Conv, was: seq<real>, y: seq<real>, stores: multiset<(nat, nat)>, gx: nat, gy: nat,
                           p: nat)
    requires conv.Valid()
  {
    && |was| == |y| == conv.cout * conv.outRow
    && (forall o: nat, col: nat ::
          stores[(o, col)] == if o < conv.cout && col < conv.columns && Done(o, col, gx, gy, p) then 1 else 0)
    && (forall o: nat, col: nat | o < conv.cout && col < conv.columns ::
          OutputAt(conv, was, y, o, col, Done(o, col, gx, gy, p)))
    && Untouched(conv, was, y)
  }

  ghost predicate OutputAt(conv: Conv, was: seq<real>, y: seq<real>, o: nat, col: nat, done: bool)
    requires conv.Valid() && o < conv.cout
  {
    && conv.Out(o, col) < |was| == |y|
    && var before := was[conv.Out(o, col)];
       y[conv.Out(o, col)] == if done then Value(conv, o, col, before) else before
  }

  ghost predicate Untouched(conv: Conv, was: seq<real>, y: seq<real>)
    requires |was| == |y|
  {
    forall k | 0 <= k < |y| && !IsOutput(conv, k) :: y[k] == was[k]
  }

  ghost predicate IsOutput(conv: Conv, k: nat) {
    exists o: nat, col: nat :: o < conv.cout && col < conv.columns && conv.Out(o, col) == k
  }

  lemma ProgressStore(conv: Conv, was: seq<real>, y: seq<real>, stores: multiset<(nat, nat)>, gx: nat, gy: nat,
                      line: nat, k: nat,
                      v: real)
    requires conv.Valid() && line < 32 && k < 32 && 32 * gx + line < conv.cout && 32 * gy + k < conv.columns
    requires Progress(conv, was, y, stores, gx, gy, 32 * line + k)
    requires conv.Out(32 * gx + line, 32 * gy + k) < |y|
    requires v == Value(conv, 32 * gx + line, 32 * gy + k, y[conv.Out(32 * gx + line, 32 * gy + k)])
    ensures Progress(conv, was, y[conv.Out(32 * gx + line, 32 * gy + k) := v],
                     stores + multiset{(32 * gx + line, 32 * gy + k)},
                     gx, gy, 32 * line + k + 1)
  {
    hide Value, Conv.Out, Conv.Valid, Done;
    var o, col := 32 * gx + line, 32 * gy + k;
    var next, p, p' := y[conv.Out(o, col) := v], 32 * line + k, 32 * line + k + 1;
    NotDone(gx, gy, line, k);
    assert OutputAt(conv, was, y, o, col, Done(o, col, gx, gy, p));
    forall o': nat, col': nat
      ensures Done(o', col', gx, gy, p') <==> Done(o', col', gx, gy, p) || (o' == o && col' == col)
    {
      DoneStep(o', col', gx, gy, line, k);
    }
    forall o': nat, col': nat | o' < conv.cout && col' < conv.columns
      ensures OutputAt(conv, was, next, o', col', Done(o', col', gx, gy, p'))
    {
      assert OutputAt(conv, was, y, o', col', Done(o', col', gx, gy, p));
      if conv.Out(o', col') == conv.Out(o, col) {
        OutsDiffer(conv, o', col', o, col);
      }
    }
    assert IsOutput(conv, conv.Out(o, col));
  }

  lemma NotDone(gx: nat, gy: nat, line: nat, k: nat)
    requires line < 32 && k < 32
    ensures !Done(32 * gx + line, 32 * gy + k, gx, gy, 32 * line + k)
  {
    Digits32(gx, line);
    Digits32(gy, k);
  }

  lemma ProgressSkip(conv: Conv, was: seq<real>, y: seq<real>, stores: multiset<(nat, nat)>, gx: nat, gy: nat,
                     line: nat, k: nat)
    requires conv.Valid() && line < 32 && k < 32 && (32 * gx + line >= conv.cout || 32 * gy + k >= conv.columns)
    requires Progress(conv, was, y, stores, gx, gy, 32 * line + k)
    ensures Progress(conv, was, y, stores, gx, gy, 32 * line + k + 1)
  {
    hide Conv.Valid, Done, Progress;
    var p, p' := 32 * line + k, 32 * line + k + 1;
    forall o: nat, col: nat | o < conv.cout && col < conv.columns
      ensures Done(o, col, gx, gy, p) <==> Done(o, col, gx, gy, p')
    {
      DoneStep(o, col, gx, gy, line, k);
    }
    ProgressSame(conv, was, y, stores, gx, gy, p, gx, gy, p');
  }

  /** Where no output lies between, the place may move. */
  lemma ProgressSame(conv: Conv, was: seq<real>, y: seq<real>, stores: multiset<(nat, nat)>, gx: nat, gy: nat, p: nat,
                     gx': nat, gy': nat, p': nat)
    requires conv.Valid() && Progress(conv, was, y, stores, gx, gy, p)
    requires forall o: nat, col: nat | o < conv.cout && col < conv.columns ::
               Done(o, col, gx, gy, p) <==> Done(o, col, gx', gy', p')
    ensures Progress(conv, was, y, stores, gx', gy', p')
  {
    hide Conv.Valid, Done, OutputAt, Untouched;
    forall o: nat, col: nat | o < conv.cout && col < conv.columns
      ensures OutputAt(conv, was, y, o, col, Done(o, col, gx', gy', p'))
    {
      assert OutputAt(conv, was, y, o, col, Done(o, col, gx, gy, p));
    }
  }

  /** All threads store: thread tid eight columns of line tid / 4, as far as row and column exist. */
  method StoreTile(conv: Conv, gx: nat, gy: nat, cs: array<real>, y: array<real>, before: multiset<(nat, nat)>,
                   ghost was: seq<real>)
    returns (stores: multiset<(nat, nat)>)
    requires conv.Valid() && cs.Length == SHARED && cs != y && Shared(conv, 32 * gx, 32 * gy, cs[..])
    requires Progress(conv, was, y[..], before, gx, gy, 0)
    modifies y
    ensures Progress(conv, was, y[..], stores, gx, gy, 1024)
  {
    hide Conv.Valid, Progress, Shared;
    stores := before;
    for tid := 0 to 128
      invariant Progress(conv, was, y[..], stores, gx, gy, 8 * tid) && Shared(conv, 32 * gx, 32 * gy, cs[..])
    {
      var line, k8 := tid / 4, tid % 4 * 8;
      ThreadPlace(tid);
      for i := 0 to 8
        invariant Progress(conv, was, y[..], stores, gx, gy, 32 * line + k8 + i)
                  && Shared(conv, 32 * gx, 32 * gy, cs[..])
      {
        stores := StoreOne(conv, gx, gy, line, k8 + i, cs, y, stores, was);
      }
    }
  }

  method StoreOne(conv: Conv, gx: nat, gy: nat, line: nat, k: nat, cs: array<real>, y: array<real>,
                  before: multiset<(nat, nat)>,
                  ghost was: seq<real>)
    returns (stores: multiset<(nat, nat)>)
    requires conv.Valid() && cs.Length == SHARED && cs != y && Shared(conv, 32 * gx, 32 * gy, cs[..]) && line < 32
             && k < 32
    requires Progress(conv, was, y[..], before, gx, gy, 32 * line + k)
    modifies y
    ensures Progress(conv, was, y[..], stores, gx, gy, 32 * line + k + 1)
  {
    hide Conv.Valid, Progress, Address, Dot, Conv.Out, Conv.Bias;
    var o, col := 32 * gx + line, 32 * gy + k;
    ghost var now := y[..];
    if o >= conv.cout || col >= conv.columns {
      ProgressSkip(conv, was, now, before, gx, gy, line, k);
      return before;
    }
    assert SharedAt(conv, 32 * gx, 32 * gy, cs[..], line, k);
    AddressFits(line, k);
    InRange(conv, was, now, before, gx, gy, 32 * line + k, o, col);
    var value := conv.scale * (cs[Address(line, k)] + conv.Bias(o));
    var stored := if conv.accumulate then y[conv.Out(o, col)] + value else value;
    ProgressStore(conv, was, now, before, gx, gy, line, k, stored);
    y[conv.Out(o, col)] := stored;
    assert y[..] == now[conv.Out(o, col) := stored];
    stores := before + multiset{(o, col)};
  }

  lemma InRange(conv: Conv, was: seq<real>, y: seq<real>, stores: multiset<(nat, nat)>, gx: nat, gy: nat, p: nat,
                o: nat, col: nat)
    requires conv.Valid() && Progress(conv, was, y, stores, gx, gy, p) && o < conv.cout && col < conv.columns
    ensures conv.Out(o, col) < |y|
  {
    hide Conv.Out, Conv.Valid, Done, Value;
    assert OutputAt(conv, was, y, o, col, Done(o, col, gx, gy, p));
  }

  // The dispatch

  /** Every output is stored exactly once and holds its value; no other cell has changed. */
  ghost predicate Stored(conv: Conv, was: seq<real>, y: seq<real>, stores: multiset<(nat, nat)>)
    requires conv.Valid()
  {
    && |was| == |y|
    && StoredOnce(conv.cout, conv.columns, stores)
    && (forall o: nat, col: nat | o < conv.cout && col < conv.columns :: OutputAt(conv, was, y, o, col, true))
    && Untouched(conv, was, y)
  }

  lemma NextGroup(conv: Conv, was: seq<real>, y: seq<real>, stores: multiset<(nat, nat)>, gx: nat, gy: nat)
    requires conv.Valid() && Progress(conv, was, y, stores, gx, gy, 1024)
    ensures Progress(conv, was, y, stores, gx, gy + 1, 0)
  {
    hide Conv.Valid, Progress;
    var gy' := gy + 1;
    forall o: nat, col: nat | o < conv.cout && col < conv.columns
      ensures Done(o, col, gx, gy, 1024) <==> Done(o, col, gx, gy', 0)
    {
    }
    ProgressSame(conv, was, y, stores, gx, gy, 1024, gx, gy', 0);
  }

  lemma NextLine(conv: Conv, was: seq<real>, y: seq<real>, stores: multiset<(nat, nat)>, gx: nat, gy: nat)
    requires conv.Valid() && 32 * gy >= conv.columns && Progress(conv, was, y, stores, gx, gy, 0)
    ensures Progress(conv, was, y, stores, gx + 1, 0, 0)
  {
    hide Conv.Valid, Progress;
    var gx' := gx + 1;
    forall o: nat, col: nat | o < conv.cout && col < conv.columns
      ensures Done(o, col, gx, gy, 0) <==> Done(o, col, gx', 0, 0)
    {
      Split32(col);
    }
    ProgressSame(conv, was, y, stores, gx, gy, 0, gx', 0, 0);
  }

  lemma AllGroups(conv: Conv, was: seq<real>, y: seq<real>, stores: multiset<(nat, nat)>, gx: nat)
    requires conv.Valid() && 32 * gx >= conv.cout && Progress(conv, was, y, stores, gx, 0, 0)
    ensures Stored(conv, was, y, stores)
  {
    hide Conv.Valid, OutputAt, Untouched, Done;
    forall o: nat, col: nat | o < conv.cout
      ensures Done(o, col, gx, 0, 0)
    {
      BelowLast(o, col, gx);
    }
    forall o: nat, col: nat | o < conv.cout && col < conv.columns
      ensures OutputAt(conv, was, y, o, col, true)
    {
      assert OutputAt(conv, was, y, o, col, Done(o, col, gx, 0, 0));
    }
  }

  lemma BelowLast(o: nat, col: nat, gx: nat)
    requires o < 32 * gx
    ensures Done(o, col, gx, 0, 0)
  {
    Split32(o);
  }

  lemma NoGroups(conv: Conv, y: seq<real>)
    requires conv.Valid() && |y| == conv.cout * conv.outRow
    ensures Progress(conv, y, y, multiset{}, 0, 0, 0)
  {
    hide Value, Conv.Out;
    forall o: nat, col: nat | o < conv.cout && col < conv.columns
      ensures OutputAt(conv, y, y, o, col, Done(o, col, 0, 0, 0))
    {
      OutFits(conv, o, col);
    }
  }

  /**
   ceil(cout / 32) by ceil(columns / 32) threadgroups: every output is the scaled sum of bias and
   weights against gathered inputs, onto what was there when asked to accumulate, and is stored
   exactly once; no other cell changes.
   */
  method Dispatch(conv: Conv, y: array<real>) returns (stores: multiset<(nat, nat)>)
    requires conv.Valid() && y.Length == conv.cout * conv.outRow
    modifies y
    ensures Stored(conv, old(y[..]), y[..], stores) && Convolved(conv, old(y[..]), y[..])
  {
    hide Conv.Valid, Progress, Stored, Shared, Accumulated, Convolved;
    ghost var was := y[..];
    stores := multiset{};
    NoGroups(conv, was);
    var gx := 0;
    while 32 * gx < conv.cout
      invariant Progress(conv, was, y[..], stores, gx, 0, 0)
    {
      var gy := 0;
      while 32 * gy < conv.columns
        invariant Progress(conv, was, y[..], stores, gx, gy, 0)
      {
        var acc := Compute(conv, 32 * gx, 32 * gy);
        var cs := new real[SHARED](_ => 0.0);
        Publish(conv, 32 * gx, 32 * gy, acc, cs);
        stores := StoreTile(conv, gx, gy, cs, y, stores, was);
        NextGroup(conv, was, y[..], stores, gx, gy);
        gy := gy + 1;
      }
      NextLine(conv, was, y[..], stores, gx, gy);
      gx := gx + 1;
    }
    AllGroups(conv, was, y[..], stores, gx);
    StoredIsConvolved(conv, was, y[..], stores);
  }

  // The convolution over the raw buffers

  lemma RawWeightFits(conv: Conv, o: nat, tap: nat, c: nat)
    requires conv.Valid() && o < conv.cout && tap < conv.taps && c < conv.cin
    ensures o * conv.taps * conv.cin + tap * conv.cin + c < |conv.w|
    ensures conv.w[o * conv.taps * conv.cin + tap * conv.cin + c] == conv.Weight(o, tap, c)
  {
    hide Join, Conv.Valid;
    WeightFits(conv, o, tap, c);
    PlaceIs(o, conv.taps, tap, conv.cin, c);
  }

  lemma PlaceIs(o: nat, taps: nat, tap: nat, cin: nat, c: nat)
    ensures Join(Join(o, taps, tap), cin, c) == o * taps * cin + tap * cin + c
  {
    RowColumn(o * taps, tap, cin);
  }

  lemma RowColumn(a: nat, b: nat, s: nat)
    ensures (a + b) * s == a * s + b * s
  {
  }

  lemma RawInputFits(conv: Conv, c: nat, index: nat)
    requires conv.Valid() && c < conv.cin && index < conv.inLen
    ensures c * conv.inRow + index < |conv.x|
  {
    Index2(c, conv.cin, index, conv.inRow);
  }

  /** The input of channel c under a tap of a column: zero outside the row. */
  ghost function RawInput(conv: Conv, c: nat, col: nat, tap: nat): real
    requires conv.Valid() && c < conv.cin
  {
    var index := col * conv.inStride + (tap * conv.inDil + conv.inOffset);
    if 0 <= index < conv.inLen then
      RawInputFits(conv, c, index);
      conv.x[c * conv.inRow + index]
    else 0.0
  }

  /** Weight times input in channel c. */
  ghost function RawTerm(conv: Conv, o: nat, col: nat, tap: nat): (f: int -> real)
    requires conv.Valid() && o < conv.cout && tap < conv.taps
  {
    c => if 0 <= c < conv.cin then
        RawWeightFits(conv, o, tap, c);
        conv.w[o * conv.taps * conv.cin + tap * conv.cin + c] * RawInput(conv, c, col, tap)
      else 0.0
  }

  ghost function RawTaps(conv: Conv, o: nat, col: nat): (f: int -> real)
    requires conv.Valid() && o < conv.cout
  {
    tap => if 0 <= tap < conv.taps then Sum(conv.cin, RawTerm(conv, o, col, tap)) else 0.0
  }

  /** Every output, at its place: scale times the sum over taps and channels plus bias, onto the old value if asked. */
  ghost predicate Convolved(conv: Conv, was: seq<real>, y: seq<real>)
    requires conv.Valid()
  {
    forall o: nat, col: nat | o < conv.cout && col < conv.columns :: ConvolvedAt(conv, was, y, o, col)
  }

  ghost predicate ConvolvedAt(conv: Conv, was: seq<real>, y: seq<real>, o: nat, col: nat)
    requires conv.Valid() && o < conv.cout
  {
    var at := o * conv.outRow + (col * conv.outStride + conv.outOffset);
    && at < |was| == |y|
    && y[at] == conv.scale * (Sum(conv.taps, RawTaps(conv, o, col)) + (if conv.addBias then conv.bias[o] else 0.0))
                + if conv.accumulate then was[at] else 0.0
  }

  lemma RawTermAt(conv: Conv, o: nat, col: nat, tap: nat, c: nat)
    requires conv.Valid() && o < conv.cout && col < conv.columns && tap < conv.taps && c < conv.cin
    ensures RawTerm(conv, o, col, tap)(c) == Term(conv, o, col, tap)(c)
  {
    hide Conv.Weight, Conv.Valid;
    RawWeightFits(conv, o, tap, c);
    assert RawInput(conv, c, col, tap) == conv.Input(c, col, tap);
  }

  lemma DotIsRaw(conv: Conv, o: nat, col: nat)
    requires conv.Valid() && o < conv.cout && col < conv.columns
    ensures Dot(conv, o, col) == Sum(conv.taps, RawTaps(conv, o, col))
  {
    hide Sum, Conv.Valid, RawTerm, Term;
    forall tap | 0 <= tap < conv.taps
      ensures TapSum(conv, o, col)(tap) == RawTaps(conv, o, col)(tap)
    {
      forall c | 0 <= c < conv.cin
        ensures Term(conv, o, col, tap)(c) == RawTerm(conv, o, col, tap)(c)
      {
        RawTermAt(conv, o, col, tap, c);
      }
      SumEq(conv.cin, Term(conv, o, col, tap), RawTerm(conv, o, col, tap));
    }
    SumEq(conv.taps, TapSum(conv, o, col), RawTaps(conv, o, col));
  }

  lemma StoredIsConvolved(conv: Conv, was: seq<real>, y: seq<real>, stores: multiset<(nat, nat)>)
    requires conv.Valid() && Stored(conv, was, y, stores)
    ensures Convolved(conv, was, y)
  {
    hide Sum, RawTaps, Dot, Untouched, StoredOnce, Conv.Valid;
    forall o: nat, col: nat | o < conv.cout && col < conv.columns
      ensures ConvolvedAt(conv, was, y, o, col)
    {
      assert OutputAt(conv, was, y, o, col, true);
      DotIsRaw(conv, o, col);
    }
  }
}
