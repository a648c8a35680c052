/**
 Storing an 8x8 tile from the lanes that own it: token rows past the batch and matrix rows
 past the end are skipped.
 */
module TileStore {
  import opened Common
  import opened Projection
  import opened Tiles

  /** One more store for every (token, row) of the rectangle that the batch has. */
  ghost predicate AddsRectangle<F>(batch: Batch<F>, before: multiset<(nat, nat)>, after: multiset<(nat, nat)>,
                                   token: nat, tokens: nat, row: nat, rows: nat)
  {
    forall t: nat, r: nat ::
      after[(t, r)] == before[(t, r)] + if InRectangle(batch, token, tokens, row, rows, t, r) then 1 else 0
  }

  ghost predicate InRectangle<F>(batch: Batch<F>, token: nat, tokens: nat, row: nat, rows: nat, t: nat, r: nat) {
    t < batch.tokens && r < batch.rows && token <= t < token + tokens && row <= r < row + rows
  }

  /** The register that owns a cell of the tile at (token, row). */
  function RegisterOf(token: nat, row: nat, t: nat, r: nat): nat
    requires token <= t < token + 8 && row <= r < row + 8
  {
    2 * OwnerLane(t - token, r - row) + (r - row) % 2
  }

  /** Cells of the tile whose owning register is below idx. */
  ghost predicate Passed<F>(batch: Batch<F>, token: nat, row: nat, idx: nat, t: nat, r: nat) {
    InRectangle(batch, token, 8, row, 8, t, r) && RegisterOf(token, row, t, r) < idx
  }

  lemma PassedStep<F>(batch: Batch<F>, token: nat, row: nat, idx: nat, t: nat, r: nat)
    requires idx < 64
    ensures Passed(batch, token, row, idx + 1, t, r)
       <==> Passed(batch, token, row, idx, t, r)
            || (t < batch.tokens && r < batch.rows && t == token + FragRow(idx / 2)
                && r == row + FragCol(idx / 2) + idx % 2)
  {
    hide FragRow, FragCol, OwnerLane;
    OwnerForth(idx / 2, idx % 2);
    if InRectangle(batch, token, 8, row, 8, t, r) {
      OwnerBack(t - token, r - row);
    }
  }

  lemma NotYet<F>(batch: Batch<F>, token: nat, row: nat, idx: nat)
    requires idx < 64
    ensures !Passed(batch, token, row, idx, token + FragRow(idx / 2), row + FragCol(idx / 2) + idx % 2)
  {
    hide FragRow, FragCol, OwnerLane;
    OwnerForth(idx / 2, idx % 2);
  }

  method StoreTile(batch: Batch<real>, ghost value: (nat, nat) -> real, output: array<real>, tile: Fragment,
                   token: nat, row: nat, before: multiset<(nat, nat)>)
    returns (stores: multiset<(nat, nat)>)
    requires HasRoom(batch, output) && Written(batch, value, output, before)
    requires TileHolds(batch, value, tile, token, row)
    modifies output
    ensures Written(batch, value, output, stores) && Untouched(batch, old(output[..]), output[..])
    ensures AddsRectangle(batch, before, stores, token, 8, row, 8)
  {
    hide FragRow, FragCol, Passed, Written;
    stores := before;
    forall t: nat, r: nat
      ensures !Passed(batch, token, row, 0, t, r)
    {
      PassedNone(batch, token, row, t, r);
    }
    for idx := 0 to 64
      invariant Written(batch, value, output, stores) && Untouched(batch, old(output[..]), output[..])
      invariant forall t: nat, r: nat :: stores[(t, r)] == before[(t, r)] + if Passed(batch, token, row, idx, t, r)
                  then 1 else 0
    {
      var m, n := FragRow(idx / 2), FragCol(idx / 2) + idx % 2;
      NotYet(batch, token, row, idx);
      forall t: nat, r: nat {
        PassedStep(batch, token, row, idx, t, r);
      }
      if token + m < batch.tokens {
        OwnedCell(tile, idx);
        stores := StoreCell(batch, value, output, token + m, row + n, tile[idx], stores);
      }
    }
    forall t: nat, r: nat
      ensures Passed(batch, token, row, 64, t, r) == InRectangle(batch, token, 8, row, 8, t, r)
    {
      PassedAll(batch, token, row, t, r);
    }
  }

  /** The cells of the tile that lie in the output are the values of their tokens and rows. */
  ghost predicate TileHolds(batch: Batch<real>, value: (nat, nat) -> real, tile: Fragment, token: nat, row: nat) {
    forall m, n | 0 <= m < 8 && 0 <= n < 8 && token + m < batch.tokens && row + n < batch.rows ::
      Cell(tile, m, n) == value(token + m, row + n)
  }

  lemma OwnedCell(tile: Fragment, idx: nat)
    requires idx < 64
    ensures Cell(tile, FragRow(idx / 2), FragCol(idx / 2) + idx % 2) == tile[idx]
  {
    hide FragRow, FragCol, OwnerLane;
    OwnerForth(idx / 2, idx % 2);
  }

  lemma PassedNone<F>(batch: Batch<F>, token: nat, row: nat, t: nat, r: nat)
    ensures !Passed(batch, token, row, 0, t, r)
  {
  }

  lemma PassedAll<F>(batch: Batch<F>, token: nat, row: nat, t: nat, r: nat)
    ensures Passed(batch, token, row, 64, t, r) == InRectangle(batch, token, 8, row, 8, t, r)
  {
    hide OwnerLane;
  }

  // Rectangles compose

  lemma RectangleRight<F>(batch: Batch<F>, a: multiset<(nat, nat)>, b: multiset<(nat, nat)>, c: multiset<(nat, nat)>,
                          token: nat, tokens: nat, row: nat, rows: nat, more: nat)
    requires AddsRectangle(batch, a, b, token, tokens, row, rows)
    requires AddsRectangle(batch, b, c, token, tokens, row + rows, more)
    ensures AddsRectangle(batch, a, c, token, tokens, row, rows + more)
  {
  }

  lemma RectangleDown<F>(batch: Batch<F>, a: multiset<(nat, nat)>, b: multiset<(nat, nat)>, c: multiset<(nat, nat)>,
                         token: nat, tokens: nat, more: nat, row: nat, rows: nat)
    requires AddsRectangle(batch, a, b, token, tokens, row, rows)
    requires AddsRectangle(batch, b, c, token + tokens, more, row, rows)
    ensures AddsRectangle(batch, a, c, token, tokens + more, row, rows)
  {
  }

  lemma RectangleNone<F>(batch: Batch<F>, a: multiset<(nat, nat)>, token: nat, tokens: nat, row: nat, rows: nat)
    requires tokens == 0 || rows == 0
    ensures AddsRectangle(batch, a, a, token, tokens, row, rows)
  {
  }

  lemma RectangleAll<F>(batch: Batch<F>, stores: multiset<(nat, nat)>, tokens: nat, rows: nat)
    requires AddsRectangle(batch, multiset{}, stores, 0, tokens, 0, rows)
    requires batch.tokens <= tokens && batch.rows <= rows
    ensures StoredOnce(batch.tokens, batch.rows, stores)
  {
  }
}
