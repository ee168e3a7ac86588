/**
 * The word-level facts the SWAR operators rest on. Each one relates a
 * 64-bit operation to what it does to one byte: the bitwise operators and
 * the mask act on each byte separately, and a raw 64-bit addition acts on
 * each byte separately as long as no carry crosses a byte boundary.
 */
module Swar {
  import opened Layout

  /** Bit 0 of every byte; also the word of `splat(1)`. */
  const ONES: Word := 0x0101_0101_0101_0101

  /** The unbounded sum of two words fits in 64 bits: Rust's `u64`
      addition does not overflow, so it does not panic in a debug build. */
  predicate AddFits(a: Word, b: Word)
  {
    ((a as bv72) + (b as bv72)) >> 64 == 0
  }

  /** Two words without padding bits add with no overflow: every byte sum
      is at most 127 + 127 = 254, so no carry leaves the top byte. */
  lemma WellFormedSumFits(a: Word, b: Word)
    requires a & PADDING == 0 && b & PADDING == 0
    ensures AddFits(a, b)
  {
  }

  /** The subtraction's three-term sum `a + n + ONES` does not overflow
      when neither `a` nor `n` has padding bits: every byte sum is at most
      127 + 127 + 1 = 255. */
  lemma WellFormedIncrementFits(a: Word, n: Word)
    requires a & PADDING == 0 && n & PADDING == 0
    ensures AddFits(a, n) && AddFits(a + n, ONES)
  {
  }

  /** Byte `i` of `r` is the low seven bits of the byte sum of the bytes
      `i` of `a` and `b`. */
  predicate SumAt(r: U7x8, a: U7x8, b: U7x8, i: LaneIndex)
  {
    LaneByte(r, i) == (LaneByte(a, i) + LaneByte(b, i)) & 0x7F
  }

  // One lemma per byte: with a constant byte the solver sees a fixed slice
  // of the 64-bit adder. No carry crosses a byte boundary because bit 7 of
  // every byte of both operands is clear: 127 + 127 = 254.
  lemma MaskedSum0(a: U7x8, b: U7x8)
    requires WellFormed(a) && WellFormed(b)
    ensures SumAt(U7x8((a.bits + b.bits) & MASK), a, b, 0)
  {
  }

  lemma MaskedSum1(a: U7x8, b: U7x8)
    requires WellFormed(a) && WellFormed(b)
    ensures SumAt(U7x8((a.bits + b.bits) & MASK), a, b, 1)
  {
  }

  lemma MaskedSum2(a: U7x8, b: U7x8)
    requires WellFormed(a) && WellFormed(b)
    ensures SumAt(U7x8((a.bits + b.bits) & MASK), a, b, 2)
  {
  }

  lemma MaskedSum3(a: U7x8, b: U7x8)
    requires WellFormed(a) && WellFormed(b)
    ensures SumAt(U7x8((a.bits + b.bits) & MASK), a, b, 3)
  {
  }

  lemma MaskedSum4(a: U7x8, b: U7x8)
    requires WellFormed(a) && WellFormed(b)
    ensures SumAt(U7x8((a.bits + b.bits) & MASK), a, b, 4)
  {
  }

  lemma MaskedSum5(a: U7x8, b: U7x8)
    requires WellFormed(a) && WellFormed(b)
    ensures SumAt(U7x8((a.bits + b.bits) & MASK), a, b, 5)
  {
  }

  lemma MaskedSum6(a: U7x8, b: U7x8)
    requires WellFormed(a) && WellFormed(b)
    ensures SumAt(U7x8((a.bits + b.bits) & MASK), a, b, 6)
  {
  }

  lemma MaskedSum7(a: U7x8, b: U7x8)
    requires WellFormed(a) && WellFormed(b)
    ensures SumAt(U7x8((a.bits + b.bits) & MASK), a, b, 7)
  {
  }

  /** A fact about all eight bytes holds for any one of them. */
  lemma SumAtEveryLane(r: U7x8, a: U7x8, b: U7x8, i: LaneIndex)
    requires SumAt(r, a, b, 0) && SumAt(r, a, b, 1) && SumAt(r, a, b, 2) && SumAt(r, a, b, 3)
    requires SumAt(r, a, b, 4) && SumAt(r, a, b, 5) && SumAt(r, a, b, 6) && SumAt(r, a, b, 7)
    ensures SumAt(r, a, b, i)
  {
  }

  /** The masked word sum of two well-formed values is, byte by byte, the
      masked byte sum: no carry leaks from one lane into the next. */
  lemma MaskedSumLane(a: U7x8, b: U7x8, i: LaneIndex)
    requires WellFormed(a) && WellFormed(b)
    ensures SumAt(U7x8((a.bits + b.bits) & MASK), a, b, i)
  {
    MaskedSum0(a, b);
    MaskedSum1(a, b);
    MaskedSum2(a, b);
    MaskedSum3(a, b);
    MaskedSum4(a, b);
    MaskedSum5(a, b);
    MaskedSum6(a, b);
    MaskedSum7(a, b);
    SumAtEveryLane(U7x8((a.bits + b.bits) & MASK), a, b, i);
  }

  /** The three-term sum of the subtraction, masked: `(a + n + o) & MASK`. */
  function MaskedTripleSum(a: Word, n: Word, o: Word): Word
  {
    (a + n + o) & MASK
  }

  /** Byte `i` of `r` is what the subtraction computes from the bytes `i`
      of `a` and `b`: the byte of `a`, plus the low seven bits of the
      complemented byte of `b`, plus one, keeping the low seven bits. */
  predicate DifferenceAt(r: U7x8, a: U7x8, b: U7x8, i: LaneIndex)
  {
    LaneByte(r, i) == (LaneByte(a, i) + (!LaneByte(b, i) & 0x7F) + 1) & 0x7F
  }

  // As for the sum, one lemma per byte. With `a` well-formed every byte sum
  // is at most 127 + 127 + 1 = 255, so again no carry crosses a byte
  // boundary, whatever `b` is.
  lemma MaskedDifference0(a: U7x8, b: U7x8)
    requires WellFormed(a)
    ensures DifferenceAt(U7x8(MaskedTripleSum(a.bits, !b.bits & MASK, ONES)), a, b, 0)
  {
  }

  lemma MaskedDifference1(a: U7x8, b: U7x8)
    requires WellFormed(a)
    ensures DifferenceAt(U7x8(MaskedTripleSum(a.bits, !b.bits & MASK, ONES)), a, b, 1)
  {
  }

  lemma MaskedDifference2(a: U7x8, b: U7x8)
    requires WellFormed(a)
    ensures DifferenceAt(U7x8(MaskedTripleSum(a.bits, !b.bits & MASK, ONES)), a, b, 2)
  {
  }

  lemma MaskedDifference3(a: U7x8, b: U7x8)
    requires WellFormed(a)
    ensures DifferenceAt(U7x8(MaskedTripleSum(a.bits, !b.bits & MASK, ONES)), a, b, 3)
  {
  }

  lemma MaskedDifference4(a: U7x8, b: U7x8)
    requires WellFormed(a)
    ensures DifferenceAt(U7x8(MaskedTripleSum(a.bits, !b.bits & MASK, ONES)), a, b, 4)
  {
  }

  lemma MaskedDifference5(a: U7x8, b: U7x8)
    requires WellFormed(a)
    ensures DifferenceAt(U7x8(MaskedTripleSum(a.bits, !b.bits & MASK, ONES)), a, b, 5)
  {
  }

  lemma MaskedDifference6(a: U7x8, b: U7x8)
    requires WellFormed(a)
    ensures DifferenceAt(U7x8(MaskedTripleSum(a.bits, !b.bits & MASK, ONES)), a, b, 6)
  {
  }

  lemma MaskedDifference7(a: U7x8, b: U7x8)
    requires WellFormed(a)
    ensures DifferenceAt(U7x8(MaskedTripleSum(a.bits, !b.bits & MASK, ONES)), a, b, 7)
  {
  }

  lemma DifferenceAtEveryLane(r: U7x8, a: U7x8, b: U7x8, i: LaneIndex)
    requires DifferenceAt(r, a, b, 0) && DifferenceAt(r, a, b, 1) && DifferenceAt(r, a, b, 2) && DifferenceAt(r, a, b, 3)
    requires DifferenceAt(r, a, b, 4) && DifferenceAt(r, a, b, 5) && DifferenceAt(r, a, b, 6) && DifferenceAt(r, a, b, 7)
    ensures DifferenceAt(r, a, b, i)
  {
  }

  /** The masked three-term sum `a + (!b & MASK) + ONES` of the subtraction,
      byte by byte, for a well-formed `a`. */
  lemma MaskedDifferenceLane(a: U7x8, b: U7x8, i: LaneIndex)
    requires WellFormed(a)
    ensures DifferenceAt(U7x8(MaskedTripleSum(a.bits, !b.bits & MASK, ONES)), a, b, i)
  {
    MaskedDifference0(a, b);
    MaskedDifference1(a, b);
    MaskedDifference2(a, b);
    MaskedDifference3(a, b);
    MaskedDifference4(a, b);
    MaskedDifference5(a, b);
    MaskedDifference6(a, b);
    MaskedDifference7(a, b);
    DifferenceAtEveryLane(U7x8(MaskedTripleSum(a.bits, !b.bits & MASK, ONES)), a, b, i);
  }

  /** Masking keeps the low seven bits of every byte. */
  lemma MaskLane(w: Word, i: LaneIndex)
    ensures ByteOf(w & MASK, i) == ByteOf(w, i) & 0x7F
  {
  }

  /** The masked three-term sum has no padding bit. */
  lemma MaskedTripleSumIsWellFormed(a: Word, n: Word, o: Word)
    ensures WellFormed(U7x8(MaskedTripleSum(a, n, o)))
  {
  }

  /** A masked word has no padding bit. */
  lemma MaskedIsWellFormed(w: Word)
    ensures WellFormed(U7x8(w & MASK))
  {
  }

  /** Complementing the word complements every byte. */
  lemma ComplementLane(w: Word, i: LaneIndex)
    ensures ByteOf(!w, i) == !ByteOf(w, i)
  {
  }

  /** The bitwise operators act on each byte separately. */
  lemma AndLane(a: Word, b: Word, i: LaneIndex)
    ensures ByteOf(a & b, i) == ByteOf(a, i) & ByteOf(b, i)
  {
  }

  lemma OrLane(a: Word, b: Word, i: LaneIndex)
    ensures ByteOf(a | b, i) == ByteOf(a, i) | ByteOf(b, i)
  {
  }

  lemma XorLane(a: Word, b: Word, i: LaneIndex)
    ensures ByteOf(a ^ b, i) == ByteOf(a, i) ^ ByteOf(b, i)
  {
  }

  /** Every byte of `ONES` is 1. */
  lemma OnesLane(i: LaneIndex)
    ensures ByteOf(ONES, i) == 1
  {
  }
}
