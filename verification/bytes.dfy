/**
 * Reading single bytes as numbers. Every fact here is about one `bv8` (or
 * one `bv9`), so that the bit-level lane facts of the other modules can be
 * turned into the arithmetic the lanes stand for.
 */
module Bytes {
  import opened Layout

  /** Keeping the low seven bits of a byte is reduction modulo 128. */
  lemma LowSevenBits(b: Byte)
    ensures (b & 0x7F) as int == b as int % 128
  {
  }

  /** Two bytes added one bit wider give their numeric sum. */
  lemma WideSum(x: Byte, y: Byte)
    ensures ((x as bv9) + (y as bv9)) as int == x as int + y as int
  {
  }

  /** A nine-bit value below 256 keeps its value when cut to a byte. */
  lemma NarrowFits(z: bv9)
    requires z <= 255
    ensures (z as Byte) as int == z as int
  {
  }

  /** A byte addition that does not carry out of the byte does not wrap. */
  lemma SumNoWrap(x: Byte, y: Byte)
    requires (x as bv9) + (y as bv9) <= 255
    ensures (x + y) as int == x as int + y as int
  {
    var z := (x as bv9) + (y as bv9);
    assert x + y == z as Byte;
    WideSum(x, y);
    NarrowFits(z);
  }

  /** Complementing a byte and keeping seven bits gives 127 minus its low
      seven bits. */
  lemma ComplementLowSeven(b: Byte)
    ensures (!b & 0x7F) as int == 127 - b as int % 128
  {
    assert !b & 0x7F == 0x7F - (b & 0x7F);
    LowSevenBits(b);
  }

  /** The byte-level step of `add`: two 7-bit lanes added without wrapping
      and cut to seven bits give their sum modulo 128. */
  lemma SevenBitSum(x: Byte, y: Byte)
    requires x & 0x80 == 0 && y & 0x80 == 0
    ensures ((x + y) & 0x7F) as int == (x as int + y as int) % 128
  {
    SumNoWrap(x, y);
    LowSevenBits(x + y);
  }

  /** Two bytes below 128 plus one add without wrapping. */
  lemma ThreeTermSum(x: Byte, n: Byte)
    requires x & 0x80 == 0 && n & 0x80 == 0
    ensures (x + n + 1) as int == x as int + n as int + 1
  {
    var z := (x as bv9) + (n as bv9);
    assert z <= 254 && x + n + 1 == (z + 1) as Byte;
    WideSum(x, n);
    IncrementNoWrap(z);
    NarrowFits(z + 1);
  }

  /** A nine-bit value below 511 plus one does not wrap. */
  lemma IncrementNoWrap(z: bv9)
    requires z < 511
    ensures (z + 1) as int == z as int + 1
  {
  }

  /** The byte-level step of `sub`: a 7-bit lane plus the 7-bit complement
      of any byte plus one, cut to seven bits, is their difference modulo
      128; neither addition wraps, as 127 + 127 + 1 = 255. */
  lemma SevenBitDifference(x: Byte, y: Byte)
    requires x & 0x80 == 0
    ensures ((x + (!y & 0x7F) + 1) & 0x7F) as int == (x as int - y as int) % 128
  {
    DifferenceSteps(x, y, !y & 0x7F, x + (!y & 0x7F) + 1);
  }

  /** `SevenBitDifference` with the complement `n` and the raw sum `u` named. */
  lemma DifferenceSteps(x: Byte, y: Byte, n: Byte, u: Byte)
    requires x & 0x80 == 0 && n == !y & 0x7F && u == x + n + 1
    ensures (u & 0x7F) as int == (x as int - y as int) % 128
  {
    ComplementLowSeven(y);
    ThreeTermSum(x, n);
    LowSevenBits(u);
    ModuloShift(x as int, y as int, n as int, u as int, (u & 0x7F) as int);
  }

  /** Adding 127 minus `y mod 128`, plus one, is subtracting `y` modulo 128. */
  lemma ModuloShift(x: int, y: int, n: int, u: int, r: int)
    requires n == 127 - y % 128 && u == x + n + 1 && r == u % 128
    ensures r == (x - y) % 128
  {
    var q := y / 128;
    assert y == 128 * q + y % 128;
    assert u == (x - y) + 128 * (q + 1);
  }
}
