/**
 Arithmetic as a parameter. A kernel stated over an arbitrary Arith fixes the exact
 expression it evaluates, with no algebraic law available; instantiated with the exact
 reals the same kernel fixes a mathematical value.
 */
module Floats {

  datatype Arith<!F> = Arith(
    zero: F,
    widen: real -> F,
    add: (F, F) -> F,
    mul: (F, F) -> F,
    fma: (F, F, F) -> F)

  /** Exact arithmetic. */
  function Exact(): Arith<real> {
    Arith(0.0, (x: real) => x, (x: real, y: real) => x + y, (x: real, y: real) => x * y,
          (x: real, y: real, z: real) => x * y + z)
  }

  /** i ^ d for a power of two d. */
  function Xor(i: nat, d: nat): (j: nat)
    requires d > 0
  {
    if i / d % 2 == 0 then i + d else i - d
  }
}
