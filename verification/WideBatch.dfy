/**
 bonsai_ptq1_small_batch_wide_impl: a threadgroup of eight SIMD groups covers tiles eight-row
 tiles for up to eight tokens. The SIMD groups split the packed blocks; each multiplies 8x8
 tiles of activations and trits, and the partial sums meet in threadgroup memory.
 */
module WideBatch {
  import opened Common
  import opened Sums
  import opened Ptq1
  import opened Projection
  import opened Tiles
  import opened TileStore

  // Decoding one lane's trits

  /** Positions filled once bytes below k, and n digits of byte k, are decoded. */
  ghost predicate Filled(j: nat, k: nat, n: nat) {
    if j < 10 then j % 2 < k || (j % 2 == k && j / 2 < n)
    else if j < 15 then 2 < k || (k == 2 && j - 10 < n)
    else false
  }

  /** The trits at element offset fm of all sixteen tiles: 8 j + fm for j = 0..15. */
  method ColumnTrits(codes: seq<Byte>, fm: nat) returns (trits: seq<real>)
    requires |codes| == 26 && fm < 8
    ensures |trits| == 16
    ensures forall j | 0 <= j < 16 :: trits[j] == Trit(codes, 8 * j + fm) as real
  {
    hide Trit, Digit;
    trits := seq(16, _ => 0.0);
    for k := 0 to 3
      invariant |trits| == 16
      invariant forall j | 0 <= j < 16 && Filled(j, k, 0) :: trits[j] == Trit(codes, 8 * j + fm) as real
    {
      var byte := if k == 0 then fm else if k == 1 then fm + 8 else 16 + fm;
      var f := Trits(codes[byte]);
      for n := 0 to 5
        invariant |trits| == 16
        invariant forall j | 0 <= j < 16 && Filled(j, k, n) :: trits[j] == Trit(codes, 8 * j + fm) as real
      {
        var j := if k < 2 then 2 * n + k else 10 + n;
        PermutedElement(codes, fm, k, n);
        trits := trits[j := f[n]];
      }
    }
    // The qh trit in integers: ((q * 3^p) & 255) * 3 >> 8, minus one.
    var high := codes[24 + fm % 2] * Pow3(fm / 2) % 256;
    HighElement(codes, fm);
    trits := trits[15 := (high * 3 / 256) as real - 1.0];
  }

  /** Tile position 2n + k of byte fm + 8k, or 10 + n of byte 16 + fm, is digit n of that byte. */
  lemma PermutedElement(codes: seq<Byte>, fm: nat, k: nat, n: nat)
    requires |codes| == 26 && fm < 8 && k < 3 && n < 5
    ensures var byte := if k == 0 then fm else if k == 1 then fm + 8 else 16 + fm;
      Trit(codes, 8 * (if k < 2 then 2 * n + k else 10 + n) + fm) == Digit(codes[byte], n)
  {
    hide Digit;
    var byte := if k == 0 then fm else if k == 1 then fm + 8 else 16 + fm;
    assert 8 * (if k < 2 then 2 * n + k else 10 + n) + fm == ElementAt(byte, n);
  }

  lemma HighElement(codes: seq<Byte>, fm: nat)
    requires |codes| == 26 && fm < 8
    ensures Trit(codes, 8 * 15 + fm) == codes[24 + fm % 2] * Pow3(fm / 2) % 256 * 3 / 256 - 1
  {
    assert 8 * 15 + fm == ElementAt(24 + fm % 2, fm / 2);
  }

  // One SIMD group

  /** Row n of tile t, clamped to a real row. */
  function RowOf(batch: Batch<real>, firstRow: nat, t: nat, n: nat): (r: nat)
    requires batch.Valid()
    ensures r < batch.rows
  {
    Min(firstRow + 8 * t + n, batch.rows - 1)
  }

  /** The reference terms of cell (m, n) of tile t at one block. */
  ghost function CellTerm(batch: Batch<real>, firstRow: nat, t: nat, block: nat, m: nat, n: nat): int -> real
    requires batch.Valid() && block < batch.blocks
  {
    Term(batch.RowAt(RowOf(batch, firstRow, t, n))[block].codes, BlockInput(TokenAt(batch, m), block))
  }

  /** Register pair idx = 2 lane + r of one tile: sixteen trits and the scale of one owned row. */
  ghost predicate LaneDecoded(batch: Batch<real>, firstRow: nat, t: nat, block: nat, idx: nat, column: seq<real>,
                              scale: real)
    requires batch.Valid() && block < batch.blocks && idx < 64
  {
    var b := batch.RowAt(RowOf(batch, firstRow, t, FragCol(idx / 2) + idx % 2))[block];
    && |column| == 16 && scale == b.scale
    && forall j | 0 <= j < 16 :: column[j] == Trit(b.codes, 8 * j + FragRow(idx / 2)) as real
  }

  /** The registers of all 32 lanes for one tile. */
  ghost predicate TileDecoded(batch: Batch<real>, firstRow: nat, t: nat, block: nat, trits: seq<seq<real>>,
                              scales: Fragment)
    requires batch.Valid() && block < batch.blocks
  {
    |trits| == 64 && forall idx | 0 <= idx < 64 :: LaneDecoded(batch, firstRow, t, block, idx, trits[idx], scales[idx])
  }

  method DecodeLane(batch: Batch<real>, firstRow: nat, t: nat, block: nat, idx: nat)
    returns (column: seq<real>, scale: real)
    requires batch.Valid() && block < batch.blocks && idx < 64
    ensures LaneDecoded(batch, firstRow, t, block, idx, column, scale)
  {
    hide Trit, FragRow, FragCol, RowOf;
    var b := batch.RowAt(RowOf(batch, firstRow, t, FragCol(idx / 2) + idx % 2))[block];
    column := ColumnTrits(b.codes, FragRow(idx / 2));
    scale := b.scale;
  }

  method DecodeTile(batch: Batch<real>, firstRow: nat, t: nat, block: nat)
    returns (trits: seq<seq<real>>, scales: Fragment)
    requires batch.Valid() && block < batch.blocks
    ensures Shape(trits) && TileDecoded(batch, firstRow, t, block, trits, scales)
  {
    hide LaneDecoded;
    trits := [];
    var s: seq<real> := [];
    for idx := 0 to 64
      invariant |trits| == |s| == idx
      invariant forall i | 0 <= i < idx :: LaneDecoded(batch, firstRow, t, block, i, trits[i], s[i])
    {
      var column, scale := DecodeLane(batch, firstRow, t, block, idx);
      trits, s := trits + [column], s + [scale];
    }
    scales := s;
    DecodedShape(batch, firstRow, t, block, trits, scales);
  }

  lemma DecodedShape(batch: Batch<real>, firstRow: nat, t: nat, block: nat, trits: seq<seq<real>>, scales: Fragment)
    requires batch.Valid() && block < batch.blocks
    requires TileDecoded(batch, firstRow, t, block, trits, scales)
    ensures Shape(trits)
  {
    hide Trit, FragRow, FragCol, RowOf;
    forall idx | 0 <= idx < 64
      ensures |trits[idx]| == 16
    {
      assert LaneDecoded(batch, firstRow, t, block, idx, trits[idx], scales[idx]);
    }
  }

  ghost predicate Shape(trits: seq<seq<real>>) {
    |trits| == 64 && forall idx | 0 <= idx < 64 :: |trits[idx]| == 16
  }

  /** The W tile: cell (k, n) is row n's trit at element 8 tile + k. */
  function WTile(trits: seq<seq<real>>, tile: nat): (w: Fragment)
    requires Shape(trits) && tile < 16
  {
    seq(64, idx requires 0 <= idx < 64 => trits[idx][tile])
  }

  /** The X tile: cell (m, k) is token m's activation 8 tile + k of the block. */
  function XTile(batch: Batch<real>, block: nat, tile: nat): Fragment
    requires batch.Valid() && block < batch.blocks && tile < 16
  {
    Gather((m: nat, k: nat) =>
      if k < 8 then TokenAt(batch, m)[128 * block + 8 * tile + k] else 0.0)
  }

  lemma WCell(batch: Batch<real>, firstRow: nat, t: nat, block: nat, trits: seq<seq<real>>, scales: Fragment,
              tile: nat, k: nat, n: nat)
    requires batch.Valid() && block < batch.blocks && tile < 16 && k < 8 && n < 8
    requires Shape(trits) && TileDecoded(batch, firstRow, t, block, trits, scales)
    ensures Cell(WTile(trits, tile), k, n)
            == Trit(batch.RowAt(RowOf(batch, firstRow, t, n))[block].codes, 8 * tile + k) as real
    ensures Cell(scales, k, n) == batch.RowAt(RowOf(batch, firstRow, t, n))[block].scale
  {
    hide Trit, FragRow, FragCol, RowOf, OwnerLane;
    OwnerBack(k, n);
    var idx := 2 * OwnerLane(k, n) + n % 2;
    assert idx / 2 == OwnerLane(k, n) && idx % 2 == n % 2;
    assert LaneDecoded(batch, firstRow, t, block, idx, trits[idx], scales[idx]);
  }

  lemma XCell(batch: Batch<real>, block: nat, tile: nat, m: nat, k: nat)
    requires batch.Valid() && block < batch.blocks && tile < 16 && m < 8 && k < 8
    ensures Cell(XTile(batch, block, tile), m, k) == BlockInput(TokenAt(batch, m), block)[8 * tile + k]
  {
    hide Cell, Gather;
    GatherCell((m: nat, k: nat) => if k < 8 then TokenAt(batch, m)[128 * block + 8 * tile + k] else 0.0, m, k);
  }

  /** One 8x8 multiply extends a cell's sum by eight reference terms. */
  lemma TileStep(x: Fragment, w: Fragment, p: Fragment, f: int -> real, tile: nat, m: nat, n: nat)
    requires m < 8 && n < 8
    requires Cell(p, m, n) == Sum(8 * tile, f)
    requires forall k | 0 <= k < 8 :: Cell(x, m, k) * Cell(w, k, n) == f(8 * tile + k)
    ensures Cell(MultiplyAccumulate(x, w, p), m, n) == Sum(8 * tile + 8, f)
  {
    hide Cell, MultiplyAccumulate, Sum;
    MultiplyAccumulateCell(x, w, p, m, n);
    SumSplit(8 * tile, 8, f);
    SumEq(8, Products(x, w, m, n), i => f(8 * tile + i));
  }

  ghost predicate Partial(batch: Batch<real>, firstRow: nat, t: nat, block: nat, p: Fragment, tile: nat)
    requires batch.Valid() && block < batch.blocks
  {
    forall m, n | 0 <= m < 8 && 0 <= n < 8 :: Cell(p, m, n) == Sum(8 * tile, CellTerm(batch, firstRow, t, block, m, n))
  }

  lemma CellProduct(batch: Batch<real>, firstRow: nat, t: nat, block: nat, trits: seq<seq<real>>, scales: Fragment,
                    tile: nat,
                    m: nat, n: nat, k: nat)
    requires batch.Valid() && block < batch.blocks && tile < 16 && m < 8 && n < 8 && k < 8
    requires Shape(trits) && TileDecoded(batch, firstRow, t, block, trits, scales)
    ensures Cell(XTile(batch, block, tile), m, k) * Cell(WTile(trits, tile), k, n)
         == CellTerm(batch, firstRow, t, block, m, n)(8 * tile + k)
  {
    hide Cell, XTile, WTile, TileDecoded, Trit, RowOf, TokenAt, BlockInput;
    XCell(batch, block, tile, m, k);
    WCell(batch, firstRow, t, block, trits, scales, tile, k, n);
  }

  lemma PartialStep(batch: Batch<real>, firstRow: nat, t: nat, block: nat, trits: seq<seq<real>>, scales: Fragment,
                    tile: nat, p: Fragment)
    requires batch.Valid() && block < batch.blocks && tile < 16
    requires Shape(trits) && TileDecoded(batch, firstRow, t, block, trits, scales)
    requires Partial(batch, firstRow, t, block, p, tile)
    ensures Partial(batch, firstRow, t, block, MultiplyAccumulate(XTile(batch, block, tile), WTile(trits, tile), p),
                    tile + 1)
  {
    hide Cell, MultiplyAccumulate, Sum, XTile, WTile, TileDecoded, CellTerm, Shape;
    var x, w := XTile(batch, block, tile), WTile(trits, tile);
    forall m, n | 0 <= m < 8 && 0 <= n < 8
      ensures Cell(MultiplyAccumulate(x, w, p), m, n) == Sum(8 * (tile + 1), CellTerm(batch, firstRow, t, block, m, n))
    {
      forall k | 0 <= k < 8
        ensures Cell(x, m, k) * Cell(w, k, n) == CellTerm(batch, firstRow, t, block, m, n)(8 * tile + k)
      {
        CellProduct(batch, firstRow, t, block, trits, scales, tile, m, n, k);
      }
      TileStep(x, w, p, CellTerm(batch, firstRow, t, block, m, n), tile, m, n);
    }
  }

  /** One block of one SIMD group: sixteen tiles into every row tile's partial sums. */
  method Multiply(batch: Batch<real>, firstRow: nat, tiles: nat, block: nat, trits: seq<seq<seq<real>>>,
                  ghost scales: seq<Fragment>)
    returns (partial: seq<Fragment>)
    requires batch.Valid() && block < batch.blocks
    requires |trits| == |scales| == tiles
    requires forall t | 0 <= t < tiles :: Shape(trits[t]) && TileDecoded(batch, firstRow, t, block, trits[t], scales[t])
    ensures |partial| == tiles
    ensures forall t | 0 <= t < tiles :: Partial(batch, firstRow, t, block, partial[t], 16)
  {
    hide MultiplyAccumulate, XTile, WTile, TileDecoded, Shape, Partial;
    partial := seq(tiles, _ => ZERO_FRAGMENT);
    forall t | 0 <= t < tiles {
      PartialZero(batch, firstRow, t, block);
    }
    for tile := 0 to 16
      invariant |partial| == tiles
      invariant forall t | 0 <= t < tiles :: Partial(batch, firstRow, t, block, partial[t], tile)
    {
      var x := XTile(batch, block, tile);
      for t := 0 to tiles
        invariant |partial| == tiles
        invariant forall u | 0 <= u < t :: Partial(batch, firstRow, u, block, partial[u], tile + 1)
        invariant forall u | t <= u < tiles :: Partial(batch, firstRow, u, block, partial[u], tile)
      {
        PartialStep(batch, firstRow, t, block, trits[t], scales[t], tile, partial[t]);
        partial := partial[t := MultiplyAccumulate(x, WTile(trits[t], tile), partial[t])];
      }
    }
  }

  lemma PartialZero(batch: Batch<real>, firstRow: nat, t: nat, block: nat)
    requires batch.Valid() && block < batch.blocks
    ensures Partial(batch, firstRow, t, block, ZERO_FRAGMENT, 0)
  {
    hide OwnerLane;
  }

  /** Cell (m, n) of the running sums of a SIMD group, blocks below next done. */
  ghost predicate RunningAt(batch: Batch<real>, firstRow: nat, t: nat, simd: nat, s: Fragment, next: nat, m: nat,
                            n: nat)
    requires batch.Valid() && next <= batch.blocks && m < 8 && n < 8
  {
    Cell(s, m, n) == Sum(next, Residue(8, simd, RowTerm(batch.RowAt(RowOf(batch, firstRow, t, n)), TokenAt(batch, m))))
  }

  ghost predicate Running(batch: Batch<real>, firstRow: nat, t: nat, simd: nat, s: Fragment, next: nat)
    requires batch.Valid() && next <= batch.blocks
  {
    forall m, n | 0 <= m < 8 && 0 <= n < 8 :: RunningAt(batch, firstRow, t, simd, s, next, m, n)
  }

  /** fma(partial, scale, sum) in every lane. */
  function Scaled(partial: Fragment, scales: Fragment, sums: Fragment): Fragment {
    seq(64, idx requires 0 <= idx < 64 => partial[idx] * scales[idx] + sums[idx])
  }

  lemma ScaledCell(partial: Fragment, scales: Fragment, sums: Fragment, m: nat, n: nat)
    requires m < 8 && n < 8
    ensures Cell(Scaled(partial, scales, sums), m, n) == Cell(partial, m, n) * Cell(scales, m, n) + Cell(sums, m, n)
  {
    hide OwnerLane;
  }

  /** Scaling one block's partial cell adds the block's reference term. */
  lemma RowStep(row: seq<RawBlock<real>>, x: seq<real>, simd: nat, block: nat, partial: real, scale: real, before: real)
    requires ValidRow(row) && |x| == 128 * |row| && block < |row| && block % 8 == simd
    requires partial == Sum(128, Term(row[block].codes, BlockInput(x, block))) && scale == row[block].scale
    requires before == Sum(block, Residue(8, simd, RowTerm(row, x)))
    ensures partial * scale + before == Sum(Min(block + 8, |row|), Residue(8, simd, RowTerm(row, x)))
  {
    hide Sum, Term;
    ResidueGap(8, simd, RowTerm(row, x), block, Min(block + 8, |row|));
  }

  lemma RunningCell(batch: Batch<real>, firstRow: nat, t: nat, simd: nat, block: nat, trits: seq<seq<real>>,
                    partial: Fragment, scales: Fragment, s: Fragment, m: nat, n: nat)
    requires batch.Valid() && block < batch.blocks && block % 8 == simd && m < 8 && n < 8
    requires Shape(trits) && TileDecoded(batch, firstRow, t, block, trits, scales)
    requires Cell(partial, m, n) == Sum(8 * 16, CellTerm(batch, firstRow, t, block, m, n))
    requires RunningAt(batch, firstRow, t, simd, s, block, m, n)
    ensures RunningAt(batch, firstRow, t, simd, Scaled(partial, scales, s), Min(block + 8, batch.blocks), m, n)
  {
    hide Sum, Cell, Scaled, TileDecoded, Shape, Term, RowOf, TokenAt, BlockInput, RowTerm, Row, Batch.RowAt,
      Batch.Token;
    WCell(batch, firstRow, t, block, trits, scales, 0, m, n);
    ScaledCell(partial, scales, s, m, n);
    var row, x := batch.RowAt(RowOf(batch, firstRow, t, n)), TokenAt(batch, m);
    assert Cell(partial, m, n) == Sum(128, Term(row[block].codes, BlockInput(x, block)));
    RowStep(row, x, simd, block, Cell(partial, m, n), Cell(scales, m, n), Cell(s, m, n));
  }

  lemma RunningStep(batch: Batch<real>, firstRow: nat, t: nat, simd: nat, block: nat, trits: seq<seq<real>>,
                    partial: Fragment, scales: Fragment, s: Fragment)
    requires batch.Valid() && block < batch.blocks && block % 8 == simd
    requires Shape(trits) && TileDecoded(batch, firstRow, t, block, trits, scales)
    requires Partial(batch, firstRow, t, block, partial, 16)
    requires Running(batch, firstRow, t, simd, s, block)
    ensures Running(batch, firstRow, t, simd, Scaled(partial, scales, s), Min(block + 8, batch.blocks))
  {
    hide Sum, Cell, Scaled, TileDecoded, Shape, CellTerm, RunningAt;
    var after, next := Scaled(partial, scales, s), Min(block + 8, batch.blocks);
    forall m, n | 0 <= m < 8 && 0 <= n < 8
      ensures RunningAt(batch, firstRow, t, simd, after, next, m, n)
    {
      RunningCell(batch, firstRow, t, simd, block, trits, partial, scales, s, m, n);
    }
  }

  // The threadgroup

  /** All tiles of one block. */
  method DecodeTiles(batch: Batch<real>, firstRow: nat, tiles: nat, block: nat)
    returns (trits: seq<seq<seq<real>>>, scales: seq<Fragment>)
    requires batch.Valid() && block < batch.blocks
    ensures |trits| == |scales| == tiles
    ensures forall u | 0 <= u < tiles ::
              Shape(trits[u]) && TileDecoded(batch, firstRow, u, block, trits[u], scales[u])
  {
    hide TileDecoded, Shape;
    trits, scales := [], [];
    for t := 0 to tiles
      invariant |trits| == |scales| == t
      invariant forall u | 0 <= u < t :: Shape(trits[u]) && TileDecoded(batch, firstRow, u, block, trits[u], scales[u])
    {
      var d, s := DecodeTile(batch, firstRow, t, block);
      trits, scales := trits + [d], scales + [s];
    }
  }

  /** The whole block loop of SIMD group simd. */
  method Simd(batch: Batch<real>, firstRow: nat, tiles: nat, simd: nat) returns (sums: seq<Fragment>)
    requires batch.Valid() && simd < 8
    ensures |sums| == tiles
    ensures forall t | 0 <= t < tiles :: Running(batch, firstRow, t, simd, sums[t], batch.blocks)
  {
    hide Running, TileDecoded, Shape, Partial, Scaled;
    sums := seq(tiles, _ => ZERO_FRAGMENT);
    var block := simd;
    forall t | 0 <= t < tiles {
      RunningStart(batch, firstRow, t, simd, Min(block, batch.blocks));
    }
    while block < batch.blocks
      invariant block % 8 == simd && |sums| == tiles
      invariant forall t | 0 <= t < tiles :: Running(batch, firstRow, t, simd, sums[t], Min(block, batch.blocks))
    {
      var trits, scales := DecodeTiles(batch, firstRow, tiles, block);
      var partial := Multiply(batch, firstRow, tiles, block, trits, scales);
      for t := 0 to tiles
        invariant |sums| == tiles
        invariant forall u | 0 <= u < t :: Running(batch, firstRow, u, simd, sums[u], Min(block + 8, batch.blocks))
        invariant forall u | t <= u < tiles :: Running(batch, firstRow, u, simd, sums[u], block)
      {
        RunningStep(batch, firstRow, t, simd, block, trits[t], partial[t], scales[t], sums[t]);
        sums := sums[t := Scaled(partial[t], scales[t], sums[t])];
      }
      block := block + 8;
    }
  }

  lemma RunningStart(batch: Batch<real>, firstRow: nat, t: nat, simd: nat, next: nat)
    requires batch.Valid() && simd < 8 && next <= batch.blocks && next <= simd
    ensures Running(batch, firstRow, t, simd, ZERO_FRAGMENT, next)
  {
    hide Sum, OwnerLane, RowTerm, RowOf, TokenAt;
    forall m, n | 0 <= m < 8 && 0 <= n < 8
      ensures RunningAt(batch, firstRow, t, simd, ZERO_FRAGMENT, next, m, n)
    {
      ResidueStart(8, simd, RowTerm(batch.RowAt(RowOf(batch, firstRow, t, n)), TokenAt(batch, m)), next);
    }
  }

  /** Where SIMD group s keeps register idx of tile t; the SIMD groups' parts are disjoint. */
  function Address(t: nat, s: nat, idx: nat): (k: nat)
    requires s < 8 && idx < 64
    ensures k / 64 % 8 == s && k < 512 * (t + 1)
  {
    AddressDigits(t, s, idx);
    (t * 8 + s) * 64 + idx
  }

  lemma AddressDigits(t: nat, s: nat, idx: nat)
    requires s < 8 && idx < 64
    ensures ((t * 8 + s) * 64 + idx) / 64 % 8 == s
  {
    assert ((t * 8 + s) * 64 + idx) / 64 == t * 8 + s;
  }

  /** Copy a SIMD group's sums into its part of threadgroup memory. */
  method Publish(shared: array<real>, sums: seq<Fragment>, simd: nat)
    requires shared.Length == 512 * |sums| && simd < 8
    modifies shared
    ensures forall t, idx | 0 <= t < |sums| && 0 <= idx < 64 :: shared[Address(t, simd, idx)] == sums[t][idx]
    ensures forall k | 0 <= k < shared.Length && k / 64 % 8 != simd :: shared[k] == old(shared[k])
  {
    for t := 0 to |sums|
      invariant forall u, idx | 0 <= u < t && 0 <= idx < 64 :: shared[Address(u, simd, idx)] == sums[u][idx]
      invariant forall k | 0 <= k < shared.Length && k / 64 % 8 != simd :: shared[k] == old(shared[k])
    {
      for idx := 0 to 64
        invariant forall u, i | 0 <= u < t && 0 <= i < 64 :: shared[Address(u, simd, i)] == sums[u][i]
        invariant forall i | 0 <= i < idx :: shared[Address(t, simd, i)] == sums[t][i]
        invariant forall k | 0 <= k < shared.Length && k / 64 % 8 != simd :: shared[k] == old(shared[k])
      {
        shared[Address(t, simd, idx)] := sums[t][idx];
      }
    }
  }

  /** Eight SIMD groups between them cover every block once. */
  lemma SimdGroupsCover(batch: Batch<real>, firstRow: nat, t: nat, parts: seq<Fragment>, m: nat, n: nat, g: int -> real)
    requires batch.Valid() && |parts| == 8 && m < 8 && n < 8
    requires forall s | 0 <= s < 8 :: Running(batch, firstRow, t, s, parts[s], batch.blocks)
    requires forall s | 0 <= s < 8 :: g(s) == Cell(parts[s], m, n)
    ensures Sum(8, g) == RowDot(batch.RowAt(RowOf(batch, firstRow, t, n)), TokenAt(batch, m))
  {
    hide Sum, Cell, RowOf, TokenAt, RowTerm;
    var row, x := batch.RowAt(RowOf(batch, firstRow, t, n)), TokenAt(batch, m);
    forall s | 0 <= s < 8
      ensures g(s) == Sum(batch.blocks, Residue(8, s, RowTerm(row, x)))
    {
      assert RunningAt(batch, firstRow, t, s, parts[s], batch.blocks, m, n);
    }
    SumResidues(batch.blocks, 8, RowTerm(row, x), g);
  }

  /** After the barrier SIMD group 0 adds the other groups' registers to its own. */
  method Combine(shared: array<real>, own: Fragment, t: nat, tiles: nat, ghost parts: seq<Fragment>)
    returns (total: Fragment)
    requires shared.Length == 512 * tiles && t < tiles
    requires |parts| == 8 && parts[0] == own
    requires forall s, idx | 0 <= s < 8 && 0 <= idx < 64 :: shared[Address(t, s, idx)] == parts[s][idx]
    ensures forall idx | 0 <= idx < 64 :: total[idx] == Sum(8, Lanewise(parts, idx))
  {
    hide Address;
    var sums: seq<real> := own;
    for s := 1 to 8
      invariant |sums| == 64
      invariant forall idx | 0 <= idx < 64 :: sums[idx] == Sum(s, Lanewise(parts, idx))
    {
      sums := seq(64, idx requires 0 <= idx < 64
                  && |sums| == 64 reads shared => sums[idx] + shared[Address(t, s, idx)]);
    }
    total := sums;
  }

  ghost function Lanewise(parts: seq<Fragment>, idx: nat): (g: int -> real)
    requires idx < 64
    ensures forall s {:trigger g(s)} | 0 <= s < |parts| :: g(s) == parts[s][idx]
  {
    s => if 0 <= s < |parts| then parts[s][idx] else 0.0
  }

  /** Every cell of the combined tile is the reference dot product. */
  ghost predicate TileDone(batch: Batch<real>, firstRow: nat, t: nat, total: Fragment)
    requires batch.Valid()
  {
    forall m, n | 0 <= m < 8 && 0 <= n < 8 ::
      Cell(total, m, n) == RowDot(batch.RowAt(RowOf(batch, firstRow, t, n)), TokenAt(batch, m))
  }

  lemma CombinedTile(batch: Batch<real>, firstRow: nat, t: nat, parts: seq<Fragment>, total: Fragment)
    requires batch.Valid() && |parts| == 8
    requires forall s | 0 <= s < 8 :: Running(batch, firstRow, t, s, parts[s], batch.blocks)
    requires forall idx | 0 <= idx < 64 :: total[idx] == Sum(8, Lanewise(parts, idx))
    ensures TileDone(batch, firstRow, t, total)
  {
    hide Sum, RowOf, TokenAt, RowDot, Running, OwnerLane;
    forall m, n | 0 <= m < 8 && 0 <= n < 8
      ensures Cell(total, m, n) == RowDot(batch.RowAt(RowOf(batch, firstRow, t, n)), TokenAt(batch, m))
    {
      SimdGroupsCover(batch, firstRow, t, parts, m, n, Lanewise(parts, 2 * OwnerLane(m, n) + n % 2));
    }
  }

  /** All eight SIMD groups run and publish; parts[t][s] are their registers. */
  method RunGroups(batch: Batch<real>, firstRow: nat, tiles: nat, shared: array<real>)
    returns (own: seq<Fragment>, ghost parts: seq<seq<Fragment>>)
    requires batch.Valid() && shared.Length == 512 * tiles
    modifies shared
    ensures |own| == |parts| == tiles
    ensures forall t | 0 <= t < tiles :: |parts[t]| == 8 && parts[t][0] == own[t]
    ensures forall t, s | 0 <= t < tiles && 0 <= s < 8 :: Running(batch, firstRow, t, s, parts[t][s], batch.blocks)
    ensures forall t, s, idx | 0 <= t < tiles && 0 <= s < 8 && 0 <= idx < 64 ::
              shared[Address(t, s, idx)] == parts[t][s][idx]
  {
    hide Running, Address;
    parts := seq(tiles, _ => []);
    own := [];
    for simd := 0 to 8
      invariant |parts| == tiles && (simd > 0 ==> |own| == tiles)
      invariant forall t | 0 <= t < tiles :: |parts[t]| == simd && (simd > 0 ==> parts[t][0] == own[t])
      invariant forall t, s | 0 <= t < tiles && 0 <= s < simd ::
                  Running(batch, firstRow, t, s, parts[t][s], batch.blocks)
      invariant forall t, s, idx | 0 <= t < tiles && 0 <= s < simd && 0 <= idx < 64 ::
          shared[Address(t, s, idx)] == parts[t][s][idx]
    {
      var sums := Simd(batch, firstRow, tiles, simd);
      Publish(shared, sums, simd);
      if simd == 0 {
        own := sums;
      }
      parts := seq(tiles, t requires 0 <= t < tiles && |parts| == |sums| == tiles => parts[t] + [sums[t]]);
    }
  }

  /** Rows below firstRow are stored. */
  ghost predicate RowsStored(batch: Batch<real>, stores: multiset<(nat, nat)>, firstRow: nat) {
    forall t: nat, r: nat :: stores[(t, r)] == if t < batch.tokens && r < batch.rows && r < firstRow then 1 else 0
  }

  lemma RowsStep(batch: Batch<real>, before: multiset<(nat, nat)>, after: multiset<(nat, nat)>, firstRow: nat)
    requires batch.tokens <= 8 && RowsStored(batch, before, firstRow)
    requires AddsRectangle(batch, before, after, 0, 8, firstRow, 8)
    ensures RowsStored(batch, after, firstRow + 8)
  {
  }

  lemma TileValues(batch: Batch<real>, firstRow: nat, t: nat, total: Fragment)
    requires batch.Valid() && TileDone(batch, firstRow, t, total)
    ensures TileHolds(batch, Reference(batch), total, 0, firstRow + 8 * t)
  {
    hide Cell, RowDot;
    forall m, n | 0 <= m < 8 && 0 <= n < 8 && 0 + m < batch.tokens && firstRow + 8 * t + n < batch.rows
      ensures Cell(total, m, n) == Reference(batch)(0 + m, firstRow + 8 * t + n)
    {
      assert RowOf(batch, firstRow, t, n) == firstRow + 8 * t + n;
      assert TokenAt(batch, m) == batch.Token(m);
    }
  }

  method FinishedTile(batch: Batch<real>, firstRow: nat, tiles: nat, t: nat, shared: array<real>, own: Fragment,
                      ghost parts: seq<Fragment>)
    returns (total: Fragment)
    requires batch.Valid() && t < tiles
    requires shared.Length == 512 * tiles && |parts| == 8 && parts[0] == own
    requires forall s | 0 <= s < 8 :: Running(batch, firstRow, t, s, parts[s], batch.blocks)
    requires forall s, idx | 0 <= s < 8 && 0 <= idx < 64 :: shared[Address(t, s, idx)] == parts[s][idx]
    ensures TileDone(batch, firstRow, t, total)
  {
    hide Running, Address, TileDone;
    total := Combine(shared, own, t, tiles, parts);
    CombinedTile(batch, firstRow, t, parts, total);
  }

  /** Store one finished tile. */
  method StoreFinished(batch: Batch<real>, firstRow: nat, t: nat, total: Fragment, output: array<real>,
                       before: multiset<(nat, nat)>)
    returns (stores: multiset<(nat, nat)>)
    requires batch.Valid() && batch.tokens <= 8 && HasRoom(batch, output) && TileDone(batch, firstRow, t, total)
    requires Written(batch, Reference(batch), output, before) && RowsStored(batch, before, firstRow + 8 * t)
    modifies output
    ensures Written(batch, Reference(batch), output, stores) && RowsStored(batch, stores, firstRow + 8 * t + 8)
    ensures Untouched(batch, old(output[..]), output[..])
  {
    hide Written, TileDone, RowsStored, AddsRectangle, Reference, Cell, Untouched, TileHolds, HasRoom, Batch.Valid;
    TileValues(batch, firstRow, t, total);
    stores := StoreTile(batch, Reference(batch), output, total, 0, firstRow + 8 * t, before);
    RowsStep(batch, before, stores, firstRow + 8 * t);
  }

  /** One threadgroup: compute, publish, barrier, combine and store. */
  method Threadgroup(batch: Batch<real>, firstRow: nat, tiles: nat, output: array<real>, before: multiset<(nat, nat)>)
    returns (stores: multiset<(nat, nat)>)
    requires batch.Valid() && batch.tokens <= 8 && HasRoom(batch, output)
    requires Written(batch, Reference(batch), output, before) && RowsStored(batch, before, firstRow)
    modifies output
    ensures Written(batch, Reference(batch), output, stores) && RowsStored(batch, stores, firstRow + 8 * tiles)
    ensures Untouched(batch, old(output[..]), output[..])
  {
    hide Running, Address, Written, RowsStored, Reference, TileDone;
    var shared := new real[512 * tiles];
    var own, parts := RunGroups(batch, firstRow, tiles, shared);
    ghost var memory := shared[..];
    stores := before;
    for t := 0 to tiles
      invariant Written(batch, Reference(batch), output, stores) && RowsStored(batch, stores, firstRow + 8 * t)
      invariant Untouched(batch, old(output[..]), output[..])
      invariant shared[..] == memory
    {
      forall s, idx | 0 <= s < 8 && 0 <= idx < 64
        ensures shared[Address(t, s, idx)] == parts[t][s][idx]
      {
        assert memory[Address(t, s, idx)] == parts[t][s][idx];
      }
      var total := FinishedTile(batch, firstRow, tiles, t, shared, own[t], parts[t]);
      stores := StoreFinished(batch, firstRow, t, total, output, stores);
    }
  }

  /**
   ceil(rows / (8 * tiles)) threadgroups for up to eight tokens: every (token, row) is stored
   exactly once and holds the reference dot product.
   */
  method Dispatch(batch: Batch<real>, tiles: nat, output: array<real>) returns (stores: multiset<(nat, nat)>)
    requires batch.Valid() && batch.tokens <= 8 && tiles > 0 && HasRoom(batch, output)
    modifies output
    ensures StoredOnce(batch.tokens, batch.rows, stores)
    ensures forall t: nat, r: nat | t < batch.tokens && r < batch.rows ::
        batch.Slot(t, r) < output.Length && output[batch.Slot(t, r)] == RowDot(batch.RowAt(r), batch.Token(t))
    ensures Projected(batch, output[..])
    ensures Untouched(batch, old(output[..]), output[..])
  {
    hide Projected, RowDot, Written;
    stores := multiset{};
    NothingWritten(batch, Reference(batch), output);
    var firstRow := 0;
    while firstRow < batch.rows
      invariant Written(batch, Reference(batch), output, stores) && RowsStored(batch, stores, firstRow)
      invariant Untouched(batch, old(output[..]), output[..])
    {
      stores := Threadgroup(batch, firstRow, tiles, output, stores);
      firstRow := firstRow + 8 * tiles;
    }
    AllWritten(batch, Reference(batch), output, stores);
    AllProjected(batch, output[..]);
  }
}
