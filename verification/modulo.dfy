/**
 * Arithmetic modulo 128, the arithmetic of one lane. Dafny's `%` is
 * Euclidean, so `x % 128` is in 0..127 also for a negative `x`, as the
 * wrapping lane arithmetic needs.
 */
module Modulo {

  /** Reducing the left summand first does not change the sum modulo 128. */
  lemma ReduceLeft(x: int, y: int)
    ensures (x % 128 + y) % 128 == (x + y) % 128
  {
    var q := x / 128;
    assert x == 128 * q + x % 128;
    assert x % 128 + y == (x + y) - 128 * q;
  }

  /** Reducing the right summand first does not change the sum modulo 128. */
  lemma ReduceRight(x: int, y: int)
    ensures (x + y % 128) % 128 == (x + y) % 128
  {
    ReduceLeft(y, x);
  }

  /** A number in 0..127 is its own residue. */
  lemma SmallResidue(x: int)
    requires 0 <= x < 128
    ensures x % 128 == x
  {
  }

  /** Lane addition is associative: with `xy`, `yz` the inner sums,
      `l` and `r` the two ways of bracketing are equal. */
  lemma AddAssociatesModulo(x: int, y: int, z: int, xy: int, yz: int, l: int, r: int)
    requires xy == (x + y) % 128 && yz == (y + z) % 128
    requires l == (xy + z) % 128 && r == (x + yz) % 128
    ensures l == r
  {
    ReduceLeft(x + y, z);
    ReduceRight(x, y + z);
  }

  /** Subtracting `y` undoes adding it, for a lane value `x`. */
  lemma SubAfterAddModulo(x: int, y: int)
    requires 0 <= x < 128
    ensures ((x + y) % 128 - y) % 128 == x
  {
    ReduceLeft(x + y, -y);
  }

  /** Adding `y` undoes subtracting it, for a lane value `x`. */
  lemma AddAfterSubModulo(x: int, y: int)
    requires 0 <= x < 128
    ensures ((x - y) % 128 + y) % 128 == x
  {
    ReduceLeft(x - y, y);
  }

  /** Subtracting `y` is adding its negation `(128 - y) % 128`. */
  lemma SubIsAddNegModulo(x: int, y: int)
    ensures (x - y) % 128 == (x + (128 - y) % 128) % 128
  {
    ReduceRight(x, 128 - y);
    ReduceLeft(128, x - y);
  }

  /** Negating a lane value twice gives it back. */
  lemma NegNegModulo(x: int)
    requires 0 <= x < 128
    ensures (128 - (128 - x) % 128) % 128 == x
  {
  }

  /** A lane value plus its negation is zero modulo 128. */
  lemma AddNegModulo(x: int, n: int, s: int)
    requires n == (128 - x) % 128 && s == (x + n) % 128
    ensures s == 0
  {
    ReduceRight(x, 128 - x);
  }

  /** Taking 127 minus the low seven bits twice gives a lane value back. */
  lemma ComplementTwiceModulo(x: int, c: int, cc: int)
    requires 0 <= x < 128 && c == 127 - x % 128 && cc == 127 - c % 128
    ensures cc == x
  {
    SmallResidue(x);
    SmallResidue(c);
  }

  /** Sums modulo 128 with equal operands are equal. */
  lemma SumDeterminedModulo(x: int, y: int, z: int, r: int, s: int)
    ensures y == z && r == (x + y) % 128 && s == (x + z) % 128 ==> r == s
  {
  }
}
