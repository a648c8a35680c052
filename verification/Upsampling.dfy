/**
 The transposed convolution at run time (local-engine/src/speech/model.rs): one gathered convolution per
 output phase over the phase-split weights, the second stage with a reflected column in front.
 */
module Upsampling {
  import opened Common
  import opened Sums
  import opened TransposedConv
  import Gemm = GatheredConv

  // Phases and their columns

  /** The phase that computes output t. */
  function Phase(l: Layer, t: nat): nat
    requires l.stride > 0
  {
    (t + l.pad) % l.stride
  }

  /** The first input offset of a phase: ceil(max(pad - r, 0) / stride). */
  function FirstOffset(l: Layer, r: nat): nat
    requires l.stride > 0
  {
    ((if l.pad > r then l.pad - r else 0) + l.stride - 1) / l.stride
  }

  /** Phase r's outputs are first, first + stride, first + 2 stride, ... and no others. */
  lemma PhaseColumns(l: Layer, r: nat, t: nat, first: int)
    requires l.stride > 0 && r < l.stride && first == FirstOffset(l, r) * l.stride + r - l.pad
    ensures 0 <= first
    ensures Phase(l, t) == r ==> first <= t && (t + l.pad) / l.stride >= FirstOffset(l, r)
    ensures Phase(l, t) == r ==> t == first + ((t + l.pad) / l.stride - FirstOffset(l, r)) * l.stride
  {
    hide Phase, FirstOffset;
    var s, q0 := l.stride, FirstOffset(l, r);
    OffsetBounds(l, r);
    if Phase(l, t) == r {
      var q := (t + l.pad) / s;
      PhaseSplit(l, t);
      AtLeast(if l.pad > r then l.pad - r else 0, s, q0, q);
      Distribute(q, q0, s);
      MulMonotone(0, q - q0, s);
    }
  }

  lemma OffsetBounds(l: Layer, r: nat)
    requires l.stride > 0
    ensures var n := if l.pad > r then l.pad - r else 0; n <= FirstOffset(l, r) * l.stride < n + l.stride
  {
    Ceiling(if l.pad > r then l.pad - r else 0, l.stride);
  }

  lemma PhaseSplit(l: Layer, t: nat)
    requires l.stride > 0
    ensures t + l.pad == (t + l.pad) / l.stride * l.stride + Phase(l, t)
  {
    DivMod(t + l.pad, l.stride);
  }

  lemma DivMod(e: nat, s: nat)
    requires s > 0
    ensures e == e / s * s + e % s
  {
  }

  /** q0 is the least q with q * s >= n. */
  lemma AtLeast(n: nat, s: nat, q0: nat, q: nat)
    requires q0 * s < n + s && n <= q * s
    ensures q0 <= q
  {
    assert q + 1 <= q0 ==> (q + 1) * s <= q0 * s;
    assert (q + 1) * s == q * s + s;
  }

  lemma Ceiling(n: nat, s: nat)
    requires s > 0
    ensures n <= (n + s - 1) / s * s < n + s
  {
    var q := (n + s - 1) / s;
    assert n + s - 1 == q * s + (n + s - 1) % s;
  }

  /** Column m of phase r is output first + m * stride, gathered at offset q0 + m. */
  lemma ColumnPhase(l: Layer, r: nat, m: nat, first: int)
    requires l.stride > 0 && r < l.stride && first == FirstOffset(l, r) * l.stride + r - l.pad && 0 <= first
    ensures 0 <= first + m * l.stride && first + m * l.stride + l.pad == (FirstOffset(l, r) + m) * l.stride + r
    ensures Phase(l, first + m * l.stride) == r
  {
    var s, q := l.stride, FirstOffset(l, r) + m;
    assert q * s == FirstOffset(l, r) * s + m * s;
    assert m * s >= 0;
    Remainder(q, s, r);
  }

  // Where outputs go

  /**
   Where the outputs go: length outputs of every channel from column shift on, in rows of the given
   length.
   */
  datatype Placement = Placement(length: nat, row: nat, shift: nat) {
    ghost predicate Fits() {
      shift + length <= row
    }

    function Cell(o: nat, t: nat): nat { o * row + shift + t }
  }

  lemma CellFits(up: Placement, o: nat, cout: nat, t: nat)
    requires up.Fits() && o < cout && t < up.length
    ensures up.Cell(o, t) < cout * up.row
  {
    Index2(o, cout, up.shift + t, up.row);
  }

  lemma CellsDiffer(up: Placement, o: nat, t: nat, o': nat, t': nat)
    requires up.Fits() && t < up.length && t' < up.length && up.Cell(o, t) == up.Cell(o', t')
    ensures o == o' && t == t'
  {
    SlotsDiffer(up.row, o, up.shift + t, o', up.shift + t');
  }

  lemma ColumnCount(first: nat, s: nat, upLen: nat, columns: nat)
    requires s > 0 && first < upLen && columns == (upLen - 1 - first) / s + 1
    ensures forall m: nat :: m < columns <==> first + m * s < upLen
  {
    var n := upLen - 1 - first;
    var q := n / s;
    DivMod(n, s);
    forall m: nat
      ensures m < columns <==> first + m * s < upLen
    {
      if m <= q {
        MulMonotone(m, q, s);
      } else {
        MulMonotone(q + 1, m, s);
        Distribute(q + 1, 1, s);
      }
    }
  }

  lemma StrideKnown(l: Layer)
    requires l.Valid()
    ensures l.stride > 0
  {
  }

  // One phase as a gathered convolution

  /** The weights of one phase. */
  function PerPhase(l: Layer): nat
    requires l.stride > 0
  {
    l.cout * Taps(l.k, l.stride) * l.cin
  }

  lemma PhaseFits(l: Layer, r: nat)
    requires l.Valid() && r < l.stride
    ensures r * PerPhase(l) + PerPhase(l) <= |l.w|
  {
    hide Taps;
    Total(l.cin, l.cout, l.k, l.stride);
    Regroup(l.stride, l.cout, Taps(l.k, l.stride), l.cin);
    PartFits(r, l.stride, PerPhase(l));
  }

  lemma Regroup(a: nat, b: nat, c: nat, d: nat)
    ensures a * b * c * d == a * (b * c * d)
  {
    assert a * b * c == a * (b * c);
    assert a * (b * c) * d == a * (b * c * d);
  }

  lemma PartFits(r: nat, stride: nat, per: nat)
    requires r < stride
    ensures r * per + per <= stride * per
  {
    MulMonotone(r + 1, stride, per);
    Distribute(r + 1, r, per);
  }

  /** The parameters of phase r: taps run against the input, columns are a stride apart. */
  function PhaseConv(l: Layer, layout: seq<real>, up: Placement, r: nat, q0: nat, first: nat, columns: nat): Gemm.Conv
    requires l.Valid() && r < l.stride && |layout| == |l.w|
  {
    PhaseFits(l, r);
    Gemm.Conv(l.cout, l.cin, Taps(l.k, l.stride), columns, 1, -1, q0, l.len, l.row, l.stride, first + up.shift, up.row,
              true, false, 1.0, layout[r * PerPhase(l)..r * PerPhase(l) + PerPhase(l)], l.x, l.bias)
  }

  /** The dispatch of a phase that has outputs in range. */
  ghost predicate Dispatched(l: Layer, layout: seq<real>, up: Placement, r: nat, q0: nat, first: nat, columns: nat)
  {
    && l.Valid() && up.Fits() && r < l.stride && |layout| == |l.w|
    && PhasedTo(l.w, layout, l.cin, l.cout, l.k, l.stride, |l.w|)
    && q0 == FirstOffset(l, r) && first == q0 * l.stride + r - l.pad
    && columns > 0 && forall m: nat :: m < columns <==> first + m * l.stride < up.length
  }

  lemma PhaseConvValid(l: Layer, layout: seq<real>, up: Placement, r: nat, q0: nat, first: nat, columns: nat)
    requires Dispatched(l, layout, up, r, q0, first, columns)
    ensures PhaseConv(l, layout, up, r, q0, first, columns).Valid()
  {
    hide PhasedTo, FirstOffset, PerPhase;
    PhaseFits(l, r);
    PerPhaseIs(l);
    var m := columns - 1;
    assert first + m * l.stride < up.length;
  }

  lemma PerPhaseIs(l: Layer)
    requires l.stride > 0
    ensures PerPhase(l) == l.cout * Taps(l.k, l.stride) * l.cin
  {
  }

  /** The layout puts the weights of phase r one after the other. */
  lemma PhaseTarget(l: Layer, r: nat, o: nat, kk: nat, c: nat)
    requires l.stride > 0
    ensures var taps := Taps(l.k, l.stride);
            Target(l.cin, l.cout, taps, r, o, kk, c) == r * PerPhase(l) + Join(Join(o, taps, kk), l.cin, c)
  {
    var co, ci, taps := l.cout, l.cin, Taps(l.k, l.stride);
    TargetSplit(r, co, taps, ci, o, kk, c);
  }

  lemma TargetSplit(r: nat, co: nat, taps: nat, ci: nat, o: nat, kk: nat, c: nat)
    ensures ((r * co + o) * taps + kk) * ci + c == r * (co * taps * ci) + ((o * taps + kk) * ci + c)
  {
    assert (r * co + o) * taps == r * (co * taps) + o * taps;
    assert (r * (co * taps) + (o * taps + kk)) * ci == r * (co * taps) * ci + (o * taps + kk) * ci;
    assert r * (co * taps) * ci == r * (co * taps * ci);
  }

  /** The phase reads its weights from its own part of the layout. */
  lemma PhasePart(l: Layer, layout: seq<real>, up: Placement, r: nat, q0: nat, first: nat, columns: nat)
    requires l.Valid() && r < l.stride && |layout| == |l.w|
    ensures r * PerPhase(l) + PerPhase(l) <= |layout|
    ensures PhaseConv(l, layout, up, r, q0, first, columns).w == layout[r * PerPhase(l)..r * PerPhase(l) + PerPhase(l)]
  {
    hide PerPhase, Layer.Valid;
    PhaseFits(l, r);
  }

  lemma WeightIs(conv: Gemm.Conv, o: nat, kk: nat, c: nat)
    requires conv.Valid() && o < conv.cout && kk < conv.taps && c < conv.cin
    ensures Join(Join(o, conv.taps, kk), conv.cin, c) < |conv.w|
    ensures conv.Weight(o, kk, c) == conv.w[Join(Join(o, conv.taps, kk), conv.cin, c)]
  {
    hide Join, Gemm.Conv.Valid;
    Gemm.WeightFits(conv, o, kk, c);
  }

  lemma PartAt(layout: seq<real>, part: seq<real>, from: nat, per: nat, j: nat)
    requires from + per <= |layout| && part == layout[from..from + per] && j < |part|
    ensures from + j < |layout| && part[j] == layout[from + j]
  {
  }

  /** A weight of the phase is the weight of its tap. */
  lemma PhaseWeight(l: Layer, layout: seq<real>, up: Placement, r: nat, q0: nat, first: nat, columns: nat, o: nat,
                    kk: nat, c: nat)
    requires Dispatched(l, layout, up, r, q0, first, columns) && PhaseConv(l, layout, up, r, q0, first, columns).Valid()
    requires o < l.cout && kk < Taps(l.k, l.stride) && c < l.cin
    ensures r + kk * l.stride < l.k
    ensures PhaseConv(l, layout, up, r, q0, first, columns).Weight(o, kk, c) == l.Weight(c, o, r + kk * l.stride)
  {
    hide PhasedTo, FirstOffset, PerPhase, Layer.Weight, Target, Join, PhaseConv, Layer.Valid, Gemm.Conv.Valid;
    hide Gemm.Conv.Weight, Taps;
    var conv := PhaseConv(l, layout, up, r, q0, first, columns);
    ConvFields(l, layout, up, r, q0, first, columns);
    PhasePart(l, layout, up, r, q0, first, columns);
    LayoutWeight(l, layout, o, r, kk, c);
    PhaseTarget(l, r, o, kk, c);
    WeightIs(conv, o, kk, c);
    PartAt(layout, conv.w, r * PerPhase(l), PerPhase(l), Join(Join(o, conv.taps, kk), conv.cin, c));
  }

  /** A gathered input of the phase lies kk before its column. */
  lemma PhaseInput(l: Layer, layout: seq<real>, up: Placement, r: nat, q0: nat, first: nat, columns: nat, c: nat,
                   col: nat, kk: nat)
    requires Dispatched(l, layout, up, r, q0, first, columns) && PhaseConv(l, layout, up, r, q0, first, columns).Valid()
    requires c < l.cin && col < columns
    ensures PhaseConv(l, layout, up, r, q0, first, columns).Input(c, col, kk)
         == if 0 <= q0 + col - kk < l.len then l.Input(c, q0 + col - kk) else 0.0
  {
    hide PhasedTo, FirstOffset, PerPhase;
    var conv := PhaseConv(l, layout, up, r, q0, first, columns);
    assert conv.Index(col, kk) == q0 + col - kk;
    if 0 <= q0 + col - kk < l.len {
      Index2(c, l.cin, q0 + col - kk, l.row);
    }
  }

  /** What the phase stores is the gathered output, and so the direct transposed convolution. */
  lemma PhaseValue(l: Layer, layout: seq<real>, up: Placement, r: nat, q0: nat, first: nat, columns: nat, o: nat,
                   col: nat, was: real)
    requires Dispatched(l, layout, up, r, q0, first, columns) && PhaseConv(l, layout, up, r, q0, first, columns).Valid()
    requires o < l.cout && col < columns
    ensures Gemm.Value(PhaseConv(l, layout, up, r, q0, first, columns), o, col, was)
            == Scatter(l, o, first + col * l.stride)
  {
    hide PhasedTo, FirstOffset, Sum, PhaseConv, Scatter, Gathered, Times;
    var conv := PhaseConv(l, layout, up, r, q0, first, columns);
    ConvFields(l, layout, up, r, q0, first, columns);
    var f, g := Gemm.TapSum(conv, o, col), GatherTaps(l, o, r, q0 + col);
    forall kk | 0 <= kk < Taps(l.k, l.stride)
      ensures f(kk) == g(kk)
    {
      TapAgrees(l, layout, up, r, q0, first, columns, o, col, kk);
    }
    SumEq(Taps(l.k, l.stride), f, g);
    ColumnPhase(l, r, col, first);
    GatherIsScatter(l, o, first + col * l.stride, r, q0 + col);
  }

  lemma ConvFields(l: Layer, layout: seq<real>, up: Placement, r: nat, q0: nat, first: nat, columns: nat)
    requires l.Valid() && r < l.stride && |layout| == |l.w|
    ensures var conv := PhaseConv(l, layout, up, r, q0, first, columns);
            && conv.cout == l.cout && conv.cin == l.cin && conv.taps == Taps(l.k, l.stride) && conv.columns == columns
            && conv.outStride == l.stride && conv.outOffset == first + up.shift && conv.outRow == up.row
            && conv.addBias && !conv.accumulate && conv.scale == 1.0 && conv.bias == l.bias
  {
  }

  lemma TapAgrees(l: Layer, layout: seq<real>, up: Placement, r: nat, q0: nat, first: nat, columns: nat, o: nat,
                  col: nat, kk: nat)
    requires Dispatched(l, layout, up, r, q0, first, columns) && PhaseConv(l, layout, up, r, q0, first, columns).Valid()
    requires o < l.cout && col < columns && kk < Taps(l.k, l.stride)
    ensures Gemm.TapSum(PhaseConv(l, layout, up, r, q0, first, columns), o, col)(kk)
            == GatherTaps(l, o, r, q0 + col)(kk)
  {
    hide PhasedTo, FirstOffset, Sum, PhaseConv, Layer.Weight, Layer.Input, Gemm.Conv.Weight, Gemm.Conv.Input;
    var conv := PhaseConv(l, layout, up, r, q0, first, columns);
    ConvFields(l, layout, up, r, q0, first, columns);
    var f, g := Gemm.Term(conv, o, col, kk), Gathered(l, o, r, q0 + col, kk);
    Tap(l.k, l.stride, r, kk);
    forall c | 0 <= c < l.cin
      ensures f(c) == g(c)
    {
      PhaseWeight(l, layout, up, r, q0, first, columns, o, kk, c);
      PhaseInput(l, layout, up, r, q0, first, columns, c, col, kk);
    }
    SumEq(l.cin, f, g);
  }

  // All phases

  ghost predicate IsScatter(l: Layer, up: Placement, y: seq<real>, o: nat, t: nat)
    requires l.Valid() && o < l.cout
  {
    up.Cell(o, t) < |y| && y[up.Cell(o, t)] == Scatter(l, o, t)
  }

  /** Cells that belong to no output are unchanged. */
  ghost predicate Untouched(up: Placement, cout: nat, was: seq<real>, y: seq<real>)
    requires |was| == |y|
  {
    forall k | 0 <= k < |y| && !Output(up, cout, k) :: y[k] == was[k]
  }

  ghost predicate Output(up: Placement, cout: nat, k: nat) {
    exists o: nat, t: nat :: o < cout && t < up.length && up.Cell(o, t) == k
  }

  /** The outputs of the phases below r are right, and every cell that is no output is as it was. */
  ghost predicate Progress(l: Layer, up: Placement, was: seq<real>, y: seq<real>, r: nat)
    requires l.Valid()
  {
    && |y| == |was| == l.cout * up.row
    && (forall o: nat, t: nat | o < l.cout && t < up.length && Phase(l, t) < r :: IsScatter(l, up, y, o, t))
    && Untouched(up, l.cout, was, y)
  }

  /** A column of the phase is an output of the placement. */
  lemma ColumnCell(l: Layer, layout: seq<real>, up: Placement, r: nat, q0: nat, first: nat, columns: nat, o: nat,
                   col: nat)
    requires l.Valid() && r < l.stride && |layout| == |l.w|
    ensures PhaseConv(l, layout, up, r, q0, first, columns).Out(o, col) == up.Cell(o, first + col * l.stride)
  {
  }

  /** An output of phase r is one of its columns. */
  lemma OutputColumn(l: Layer, layout: seq<real>, up: Placement, r: nat, q0: nat, first: nat, columns: nat, t: nat)
    returns (col: nat)
    requires Dispatched(l, layout, up, r, q0, first, columns) && t < up.length && Phase(l, t) == r
    ensures col < columns && t == first + col * l.stride
  {
    hide PhasedTo, FirstOffset, Phase, Layer.Valid;
    StrideKnown(l);
    PhaseColumns(l, r, t, first);
    col := (t + l.pad) / l.stride - q0;
  }

  lemma PhaseAdvances(l: Layer, layout: seq<real>, up: Placement, r: nat, q0: nat, first: nat, columns: nat,
                      was: seq<real>, y: seq<real>, y': seq<real>, stores: multiset<(nat, nat)>)
    requires Dispatched(l, layout, up, r, q0, first, columns) && PhaseConv(l, layout, up, r, q0, first, columns).Valid()
    requires Progress(l, up, was, y, r) && Gemm.Stored(PhaseConv(l, layout, up, r, q0, first, columns), y, y', stores)
    ensures Progress(l, up, was, y', r + 1)
  {
    hide PhaseConv, Phase, Dispatched, IsScatter, Layer.Valid, Placement.Cell, Gemm.Value;
    DispatchedParts(l, layout, up, r, q0, first, columns);
    ConvFields(l, layout, up, r, q0, first, columns);
    var r' := r + 1;
    forall o: nat, t: nat | o < l.cout && t < up.length && Phase(l, t) < r'
      ensures IsScatter(l, up, y', o, t)
    {
      if Phase(l, t) == r {
        OutputStored(l, layout, up, r, q0, first, columns, y, y', stores, o, t);
      } else {
        OutputKept(l, layout, up, r, q0, first, columns, y, y', stores, o, t);
      }
    }
    forall k | 0 <= k < |y'| && !Output(up, l.cout, k)
      ensures y'[k] == was[k]
    {
      NotOfPhase(l, layout, up, r, q0, first, columns, k);
      assert y'[k] == y[k];
    }
  }

  lemma DispatchedParts(l: Layer, layout: seq<real>, up: Placement, r: nat, q0: nat, first: nat, columns: nat)
    requires Dispatched(l, layout, up, r, q0, first, columns)
    ensures l.Valid() && up.Fits() && r < l.stride && |layout| == |l.w|
  {
  }

  lemma OutputStored(l: Layer, layout: seq<real>, up: Placement, r: nat, q0: nat, first: nat, columns: nat,
                     y: seq<real>, y': seq<real>, stores: multiset<(nat, nat)>, o: nat, t: nat)
    requires Dispatched(l, layout, up, r, q0, first, columns) && PhaseConv(l, layout, up, r, q0, first, columns).Valid()
    requires Gemm.Stored(PhaseConv(l, layout, up, r, q0, first, columns), y, y', stores)
    requires o < l.cout && t < up.length && Phase(l, t) == r
    ensures IsScatter(l, up, y', o, t)
  {
    hide PhaseConv, Phase, Layer.Valid, Gemm.Value, Scatter, Placement.Cell, Gemm.Conv.Out, PhasedTo, FirstOffset;
    var conv := PhaseConv(l, layout, up, r, q0, first, columns);
    ConvFields(l, layout, up, r, q0, first, columns);
    var col := OutputColumn(l, layout, up, r, q0, first, columns, t);
    ColumnCell(l, layout, up, r, q0, first, columns, o, col);
    assert Gemm.OutputAt(conv, y, y', o, col, true);
    PhaseValue(l, layout, up, r, q0, first, columns, o, col, y[conv.Out(o, col)]);
  }

  /** An output of another phase is no cell of this one. */
  lemma OutputKept(l: Layer, layout: seq<real>, up: Placement, r: nat, q0: nat, first: nat, columns: nat,
                   y: seq<real>, y': seq<real>, stores: multiset<(nat, nat)>, o: nat, t: nat)
    requires Dispatched(l, layout, up, r, q0, first, columns) && PhaseConv(l, layout, up, r, q0, first, columns).Valid()
    requires Gemm.Stored(PhaseConv(l, layout, up, r, q0, first, columns), y, y', stores)
    requires o < l.cout && t < up.length && Phase(l, t) != r && IsScatter(l, up, y, o, t)
    ensures IsScatter(l, up, y', o, t)
  {
    hide PhaseConv, Phase, Layer.Valid, Gemm.Value, Scatter, Placement.Cell, Placement.Fits, Gemm.Conv.Out, PhasedTo,
      FirstOffset;
    var conv := PhaseConv(l, layout, up, r, q0, first, columns);
    ConvFields(l, layout, up, r, q0, first, columns);
    StrideKnown(l);
    forall o': nat, col: nat | o' < conv.cout && col < conv.columns
      ensures conv.Out(o', col) != up.Cell(o, t)
    {
      ColumnCell(l, layout, up, r, q0, first, columns, o', col);
      ColumnPhase(l, r, col, first);
      if conv.Out(o', col) == up.Cell(o, t) {
        CellsDiffer(up, o', first + col * l.stride, o, t);
      }
    }
    assert !Gemm.IsOutput(conv, up.Cell(o, t));
  }

  lemma NotOfPhase(l: Layer, layout: seq<real>, up: Placement, r: nat, q0: nat, first: nat, columns: nat, k: nat)
    requires Dispatched(l, layout, up, r, q0, first, columns) && !Output(up, l.cout, k)
    ensures !Gemm.IsOutput(PhaseConv(l, layout, up, r, q0, first, columns), k)
  {
    hide PhaseConv, Layer.Valid, Placement.Cell, Placement.Fits, Gemm.Conv.Out, PhasedTo, FirstOffset;
    var conv := PhaseConv(l, layout, up, r, q0, first, columns);
    ConvFields(l, layout, up, r, q0, first, columns);
    forall o: nat, col: nat | o < conv.cout && col < conv.columns
      ensures conv.Out(o, col) != k
    {
      ColumnCell(l, layout, up, r, q0, first, columns, o, col);
      ColumnPhase(l, r, col, first);
    }
  }

  /** A phase without outputs in range has nothing to do. */
  lemma PhaseSkipped(l: Layer, up: Placement, was: seq<real>, y: seq<real>, r: nat, first: int)
    requires l.Valid() && r < l.stride && first == FirstOffset(l, r) * l.stride + r - l.pad && up.length <= first
    requires Progress(l, up, was, y, r)
    ensures Progress(l, up, was, y, r + 1)
  {
    hide Phase, FirstOffset, IsScatter, Untouched;
    forall t: nat | Phase(l, t) == r
      ensures first <= t
    {
      PhaseColumns(l, r, t, first);
    }
  }

  /** The stores of one phase: each of its columns of each channel once. */
  ghost predicate PhaseStores(l: Layer, up: Placement, r: nat, stores: multiset<(nat, nat)>)
    requires l.stride > 0
  {
    forall o: nat, col: nat ::
      stores[(o, col)] == if o < l.cout && FirstOffset(l, r) * l.stride + r - l.pad + col * l.stride < up.length
        then 1 else 0
  }

  lemma SkippedStores(l: Layer, up: Placement, r: nat, first: int)
    requires l.stride > 0 && r < l.stride && first == FirstOffset(l, r) * l.stride + r - l.pad && up.length <= first
    ensures PhaseStores(l, up, r, multiset{})
  {
    hide FirstOffset;
    forall col: nat
      ensures up.length <= first + col * l.stride
    {
      MulMonotone(0, col, l.stride);
    }
  }

  lemma DispatchedStores(l: Layer, layout: seq<real>, up: Placement, r: nat, q0: nat, first: nat, columns: nat,
                         y: seq<real>, y': seq<real>, stores: multiset<(nat, nat)>)
    requires Dispatched(l, layout, up, r, q0, first, columns) && PhaseConv(l, layout, up, r, q0, first, columns).Valid()
    requires Gemm.Stored(PhaseConv(l, layout, up, r, q0, first, columns), y, y', stores)
    ensures PhaseStores(l, up, r, stores)
  {
    hide PhaseConv, Layer.Valid, FirstOffset, PhasedTo, Gemm.Conv.Valid, Gemm.OutputAt, Gemm.Untouched;
    ConvFields(l, layout, up, r, q0, first, columns);
  }

  /** One phase: nothing if its first output lies past the end, otherwise one gathered convolution. */
  method RunPhase(l: Layer, layout: seq<real>, up: Placement, y: array<real>, r: nat, ghost was: seq<real>)
    returns (stores: multiset<(nat, nat)>)
    requires l.Valid() && up.Fits() && r < l.stride && |layout| == |l.w| && y.Length == l.cout * up.row
    requires PhasedTo(l.w, layout, l.cin, l.cout, l.k, l.stride, |l.w|)
    requires Progress(l, up, was, y[..], r)
    modifies y
    ensures Progress(l, up, was, y[..], r + 1) && PhaseStores(l, up, r, stores)
  {
    hide Progress, PhasedTo, Layer.Valid, FirstOffset, PhaseConv, Gemm.Stored, PhaseStores, Gemm.Conv.Valid;
    StrideKnown(l);
    var q0 := FirstOffset(l, r);
    var first := q0 * l.stride + r - l.pad;
    PhaseColumns(l, r, 0, first);
    if first < 0 || first >= up.length {
      PhaseSkipped(l, up, was, y[..], r, first);
      SkippedStores(l, up, r, first);
      return multiset{};
    }
    var columns := (up.length - 1 - first) / l.stride + 1;
    ColumnCount(first, l.stride, up.length, columns);
    var conv := PhaseConv(l, layout, up, r, q0, first, columns);
    PhaseConvValid(l, layout, up, r, q0, first, columns);
    ConvFields(l, layout, up, r, q0, first, columns);
    ghost var now := y[..];
    stores := Gemm.Dispatch(conv, y);
    PhaseAdvances(l, layout, up, r, q0, first, columns, was, now, y[..], stores);
    DispatchedStores(l, layout, up, r, q0, first, columns, now, y[..], stores);
  }

  /**
   Every output is the direct transposed convolution, where the placement puts it, and no other cell has
   changed; every phase stores each of its columns once.
   */
  ghost predicate Upsampled(l: Layer, up: Placement, was: seq<real>, y: seq<real>, stores: seq<multiset<(nat, nat)>>)
    requires l.Valid()
  {
    && |was| == |y| && AllScatter(l, up, y) && Spread(l, up, y) && Untouched(up, l.cout, was, y)
    && |stores| == l.stride && forall r | 0 <= r < l.stride :: PhaseStores(l, up, r, stores[r])
  }

  /** An output is one column of one phase. */
  lemma OnePhase(l: Layer, t: nat, r: nat, col: nat)
    requires l.stride > 0 && r < l.stride
    ensures t == FirstOffset(l, r) * l.stride + r - l.pad + col * l.stride
       <==> r == Phase(l, t) && col == (t + l.pad) / l.stride - FirstOffset(l, r)
  {
    hide FirstOffset, Phase;
    var first := FirstOffset(l, r) * l.stride + r - l.pad;
    PhaseColumns(l, r, t, first);
    ColumnPhase(l, r, col, first);
    if t == first + col * l.stride {
      Remainder(FirstOffset(l, r) + col, l.stride, r);
    }
  }

  ghost predicate AllScatter(l: Layer, up: Placement, y: seq<real>)
    requires l.Valid()
  {
    forall o: nat, t: nat | o < l.cout && t < up.length :: IsScatter(l, up, y, o, t)
  }

  /** The transposed convolution from the phase layout, one gathered convolution per phase. */
  method Upsample(l: Layer, layout: seq<real>, up: Placement, y: array<real>)
    returns (stores: seq<multiset<(nat, nat)>>)
    requires l.Valid() && up.Fits() && |layout| == |l.w| && y.Length == l.cout * up.row
    requires PhasedTo(l.w, layout, l.cin, l.cout, l.k, l.stride, |l.w|)
    modifies y
    ensures Upsampled(l, up, old(y[..]), y[..], stores)
  {
    hide Progress, PhasedTo, Layer.Valid, Upsampled, Placement.Fits, PhaseStores;
    stores := [];
    ghost var was := y[..];
    StrideKnown(l);
    ProgressNone(l, up, y[..]);
    for r := 0 to l.stride
      invariant Progress(l, up, was, y[..], r)
      invariant |stores| == r && forall k | 0 <= k < r :: PhaseStores(l, up, k, stores[k])
    {
      var phase := RunPhase(l, layout, up, y, r, was);
      stores := stores + [phase];
    }
    ProgressAll(l, up, was, y[..], stores);
  }

  lemma ProgressNone(l: Layer, up: Placement, y: seq<real>)
    requires l.Valid() && |y| == l.cout * up.row
    ensures Progress(l, up, y, y, 0)
  {
  }

  lemma ProgressAll(l: Layer, up: Placement, was: seq<real>, y: seq<real>, stores: seq<multiset<(nat, nat)>>)
    requires l.Valid() && Progress(l, up, was, y, l.stride)
    requires |stores| == l.stride && forall r | 0 <= r < l.stride :: PhaseStores(l, up, r, stores[r])
    ensures Upsampled(l, up, was, y, stores)
  {
    hide IsScatter, Untouched, PhaseStores, Spread;
    assert AllScatter(l, up, y);
    ScatterIsSpread(l, up, y);
  }

  // The transposed convolution over the raw buffers

  lemma RawFits(l: Layer, o: nat, c: nat, tap: nat, j: nat)
    requires l.Valid() && o < l.cout && c < l.cin
    ensures tap < l.k ==> (c * l.cout + o) * l.k + tap < |l.w|
    ensures j < l.len ==> c * l.row + j < |l.x|
  {
    if tap < l.k {
      Index2(c, l.cin, o, l.cout);
      Index2(c * l.cout + o, l.cin * l.cout, tap, l.k);
    }
    if j < l.len {
      Index2(c, l.cin, j, l.row);
    }
  }

  /**
   What input j of channel c adds to output t of channel o: the weight of tap t + pad - j * stride, if
   there is one.
   */
  ghost function RawScattered(l: Layer, o: nat, t: nat, c: nat): (f: int -> real)
    requires l.Valid() && o < l.cout && c < l.cin
  {
    hide Layer.Valid, RawProduct;
    j => if 0 <= j < l.len && 0 <= t + l.pad - j * l.stride < l.k then RawProduct(l, o, c, t + l.pad - j * l.stride, j)
         else 0.0
  }

  ghost function RawProduct(l: Layer, o: nat, c: nat, tap: nat, j: nat): real
    requires l.Valid() && o < l.cout && c < l.cin && tap < l.k && j < l.len
  {
    hide Layer.Valid;
    RawFits(l, o, c, tap, j);
    l.w[(c * l.cout + o) * l.k + tap] * l.x[c * l.row + j]
  }

  ghost function RawChannels(l: Layer, o: nat, t: nat): (f: int -> real)
    requires l.Valid() && o < l.cout
  {
    c => if 0 <= c < l.cin then Sum(l.len, RawScattered(l, o, t, c)) else 0.0
  }

  /** Every output, at its place in the buffer, is its bias and what all inputs scatter to it. */
  ghost predicate Spread(l: Layer, up: Placement, y: seq<real>)
    requires l.Valid()
  {
    forall o: nat, t: nat | o < l.cout && t < up.length :: SpreadAt(l, up, y, o, t)
  }

  ghost predicate SpreadAt(l: Layer, up: Placement, y: seq<real>, o: nat, t: nat)
    requires l.Valid() && o < l.cout
  {
    var at := o * up.row + up.shift + t;
    at < |y| && y[at] == l.bias[o] + Sum(l.cin, RawChannels(l, o, t))
  }

  lemma ScatterIsRaw(l: Layer, o: nat, t: nat)
    requires l.Valid() && o < l.cout
    ensures Scatter(l, o, t) == l.bias[o] + Sum(l.cin, RawChannels(l, o, t))
  {
    hide Sum, Layer.Valid, Scattered, RawScattered;
    BiasFits(l, o);
    forall c | 0 <= c < l.cin
      ensures ScatterChannels(l, o, t)(c) == RawChannels(l, o, t)(c)
    {
      forall j | 0 <= j < l.len
        ensures Scattered(l, o, t, c)(j) == RawScattered(l, o, t, c)(j)
      {
        ScatteredIsRaw(l, o, t, c, j);
      }
      SumEq(l.len, Scattered(l, o, t, c), RawScattered(l, o, t, c));
    }
    SumEq(l.cin, ScatterChannels(l, o, t), RawChannels(l, o, t));
  }

  lemma BiasFits(l: Layer, o: nat)
    requires l.Valid() && o < l.cout
    ensures o < |l.bias|
  {
  }

  lemma ScatteredIsRaw(l: Layer, o: nat, t: nat, c: nat, j: nat)
    requires l.Valid() && o < l.cout && c < l.cin && j < l.len
    ensures Scattered(l, o, t, c)(j) == RawScattered(l, o, t, c)(j)
  {
    var tap := t + l.pad - j * l.stride;
    if 0 <= tap < l.k {
      RawFits(l, o, c, tap, j);
    }
  }

  lemma ScatterIsSpread(l: Layer, up: Placement, y: seq<real>)
    requires l.Valid() && AllScatter(l, up, y)
    ensures Spread(l, up, y)
  {
    hide Scatter, Sum, RawChannels, Layer.Valid;
    forall o: nat, t: nat | o < l.cout && t < up.length
      ensures SpreadAt(l, up, y, o, t)
    {
      assert IsScatter(l, up, y, o, t);
      ScatterIsRaw(l, o, t);
      assert up.Cell(o, t) == o * up.row + up.shift + t;
    }
  }

  // The reflected column

  /** The column in front of the shifted outputs is a copy of output 1. */
  ghost predicate Reflected(l: Layer, up: Placement, y: seq<real>)
    requires l.Valid()
  {
    forall o: nat | o < l.cout :: ReflectedAt(l, up, y, o)
  }

  ghost predicate ReflectedAt(l: Layer, up: Placement, y: seq<real>, o: nat)
    requires l.Valid() && o < l.cout
  {
    o * up.row < |y| && y[o * up.row] == Scatter(l, o, 1)
  }

  /** Column 0 of a row of a placement shifted by one is no output, and column 2 is output 1. */
  lemma ReflectedColumn(up: Placement, o: nat, cout: nat)
    requires up.Fits() && up.shift == 1 && up.length >= 2 && o < cout
    ensures o * up.row + 2 < cout * up.row && o * up.row + 2 == up.Cell(o, 1)
    ensures forall o': nat, t: nat | o' < cout && t < up.length :: up.Cell(o', t) != o * up.row
  {
    Index2(o, cout, 2, up.row);
    forall o': nat, t: nat | o' < cout && t < up.length
      ensures up.Cell(o', t) != o * up.row
    {
      if up.Cell(o', t) == o * up.row {
        SlotsDiffer(up.row, o', 1 + t, o, 0);
      }
    }
  }

  /** Cells that are neither an output nor the first of a row are unchanged. */
  ghost predicate UntouchedBeyond(up: Placement, cout: nat, was: seq<real>, y: seq<real>)
    requires |was| == |y|
  {
    forall k | 0 <= k < |y| && !Output(up, cout, k) && !Front(up, cout, k) :: y[k] == was[k]
  }

  ghost predicate Front(up: Placement, cout: nat, k: nat) {
    exists o: nat :: o < cout && RowStart(up, o) == k
  }

  function RowStart(up: Placement, o: nat): nat { o * up.row }

  lemma RestUntouched(up: Placement, cout: nat, was: seq<real>, y: seq<real>)
    requires |was| == |y| && Untouched(up, cout, was, y)
    ensures UntouchedBeyond(up, cout, was, y)
  {
  }

  lemma StepUntouched(up: Placement, cout: nat, was: seq<real>, y: seq<real>, o: nat, v: real)
    requires |was| == |y| && UntouchedBeyond(up, cout, was, y) && o < cout && o * up.row < |y|
    ensures UntouchedBeyond(up, cout, was, y[o * up.row := v])
  {
    hide Output;
    var next := y[o * up.row := v];
    assert RowStart(up, o) == o * up.row;
    forall k | 0 <= k < |y| && !Output(up, cout, k) && !Front(up, cout, k)
      ensures next[k] == was[k]
    {
    }
  }

  lemma ReflectStep(l: Layer, up: Placement, y: seq<real>, o: nat)
    requires l.Valid() && up.Fits() && up.shift == 1 && up.length >= 2 && o < l.cout && |y| == l.cout * up.row
    requires AllScatter(l, up, y) && forall o': nat | o' < o :: ReflectedAt(l, up, y, o')
    ensures o * up.row + 2 < |y|
    ensures var next := y[o * up.row := y[o * up.row + 2]];
            AllScatter(l, up, next) && forall o': nat | o' < o + 1 :: ReflectedAt(l, up, next, o')
  {
    hide Scatter, Layer.Valid;
    ReflectedColumn(up, o, l.cout);
    var next := y[o * up.row := y[o * up.row + 2]];
    assert IsScatter(l, up, y, o, 1);
    hide Placement.Cell;
    forall o': nat, t: nat | o' < l.cout && t < up.length
      ensures IsScatter(l, up, next, o', t)
    {
      assert IsScatter(l, up, y, o', t);
    }
    forall o': nat | o' < o + 1
      ensures ReflectedAt(l, up, next, o')
    {
      if o' < o {
        assert ReflectedAt(l, up, y, o');
        RowsApart(o', o, up.row);
      }
    }
  }

  lemma RowsApart(a: nat, b: nat, row: nat)
    requires a < b && row > 0
    ensures a * row < b * row
  {
    MulMonotone(a + 1, b, row);
    Distribute(a + 1, a, row);
  }

  /**
   The second stage: outputs shifted by one column, and the column in front of them reflected. The
   whole row is then the transposed convolution, reflection-padded by one column at its front.
   */
  method UpsampleReflected(l: Layer, layout: seq<real>, up: Placement, y: array<real>)
    returns (stores: seq<multiset<(nat, nat)>>)
    requires l.Valid() && up.Fits() && up.shift == 1 && up.length >= 2
    requires |layout| == |l.w| && y.Length == l.cout * up.row
    requires PhasedTo(l.w, layout, l.cin, l.cout, l.k, l.stride, |l.w|)
    modifies y
    ensures |stores| == l.stride && forall r | 0 <= r < l.stride :: PhaseStores(l, up, r, stores[r])
    ensures AllScatter(l, up, y[..]) && Spread(l, up, y[..]) && Reflected(l, up, y[..])
            && UntouchedBeyond(up, l.cout, old(y[..]), y[..])
  {
    hide PhasedTo, Layer.Valid, ReflectedAt, AllScatter, Spread, Placement.Fits, PhaseStores, Untouched,
      UntouchedBeyond;
    ghost var was := y[..];
    stores := Upsample(l, layout, up, y);
    RestUntouched(up, l.cout, was, y[..]);
    for o := 0 to l.cout
      invariant AllScatter(l, up, y[..]) && forall o': nat | o' < o :: ReflectedAt(l, up, y[..], o')
      invariant UntouchedBeyond(up, l.cout, was, y[..])
    {
      ghost var now := y[..];
      ReflectStep(l, up, now, o);
      StepUntouched(up, l.cout, was, now, o, now[o * up.row + 2]);
      y[o * up.row] := y[o * up.row + 2];
      assert y[..] == now[o * up.row := now[o * up.row + 2]];
    }
    ScatterIsSpread(l, up, y[..]);
  }
}
