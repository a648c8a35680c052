/** What several modules share. */
module Common {

  datatype Option<T> = None | Some(value: T)

  type Byte = n: nat | n < 256

  function Min(a: nat, b: nat): nat { if a < b then a else b }

  // Index arithmetic

  /** One more digit of a mixed-radix index. */
  function Join(a: nat, n: nat, b: nat): nat { a * n + b }

  /** Cell (r, b) of a matrix lies inside it. */
  lemma Index2(r: nat, rows: nat, b: nat, blocks: nat)
    requires r < rows && b < blocks
    ensures 0 <= r * blocks + b < rows * blocks
  {
    assert r * blocks + b < (r + 1) * blocks;
    assert (r + 1) * blocks <= rows * blocks;
  }

  /** Different cells have different places. */
  lemma SlotsDiffer(rows: nat, a: nat, r: nat, b: nat, q: nat)
    requires r < rows && q < rows
    requires a * rows + r == b * rows + q
    ensures a == b && r == q
  {
    assert a < b ==> (a + 1) * rows <= b * rows;
    assert b < a ==> (b + 1) * rows <= a * rows;
  }

  lemma MulMonotone(a: int, b: int, s: nat)
    requires a <= b
    ensures a * s <= b * s
  {
  }

  lemma Distribute(q: int, j: int, s: int)
    ensures (q - j) * s == q * s - j * s
  {
  }

  /** Quotient and remainder of an index are its digits. */
  lemma Remainder(q: nat, s: nat, r: nat)
    requires r < s
    ensures (q * s + r) % s == r && (q * s + r) / s == q
  {
    var e := q * s + r;
    var p := e / s;
    assert e == p * s + e % s;
    if p < q {
      MulMonotone(p + 1, q, s);
      Distribute(p + 1, 1, s);
    } else if q < p {
      MulMonotone(q + 1, p, s);
      Distribute(q + 1, 1, s);
    }
  }

  // Counting stores

  /** Each cell of a rectangle stored exactly once, and nothing else. */
  ghost predicate StoredOnce(rows: nat, columns: nat, stores: multiset<(nat, nat)>) {
    forall i: nat, j: nat :: stores[(i, j)] == if i < rows && j < columns then 1 else 0
  }
}
