/**
 * The bit layout of `u7x8`: eight 7-bit unsigned lanes packed into one
 * 64-bit word. Lane `i` lives in byte `i` (bits 8i .. 8i+6); bit 8i+7 is
 * a padding bit that a well-formed value keeps clear.
 *
 * The word is a `bv64` and a lane index is a `bv3`, so that every fact
 * about "lane i" is a fact about bit-vectors only.
 */
module Layout {

  /** The `u64` field of the struct. */
  type Word = bv64

  /** One raw byte of the word, padding bit included. */
  type Byte = bv8

  /** Index of one of the eight lanes; lane 0 is the least-significant byte. */
  type LaneIndex = bv3

  /** The packed value: a wrapper around its word. Equality of values is
      equality of words, as the derived `PartialEq` makes it. */
  datatype U7x8 = U7x8(bits: Word)

  /** Bits 0..6 of every byte: the lane bits. */
  const MASK: Word := 0x7F7F_7F7F_7F7F_7F7F

  /** Bit 7 of every byte: the padding bits, the complement of `MASK`. */
  const PADDING: Word := 0x8080_8080_8080_8080

  /** No padding bit is set, so every lane holds a value in 0..127. */
  predicate WellFormed(x: U7x8)
  {
    x.bits & PADDING == 0
  }

  /** Byte `i` of a word: `(w >> (i * 8)) & 0xFF`. */
  function ByteOf(w: Word, i: LaneIndex): Byte
  {
    ((w >> ((i as bv7) * 8)) & 0xFF) as Byte
  }

  /** Byte `i` of a value, padding bit included: the number the Debug
      implementation shows for field `i`. */
  function LaneByte(x: U7x8, i: LaneIndex): Byte
  {
    ByteOf(x.bits, i)
  }

  /** The numeric value of byte `i`, in 0..255. */
  function Lane(x: U7x8, i: LaneIndex): (v: nat)
    ensures v < 256
  {
    LaneByte(x, i) as int
  }

  /** Two values with the same eight bytes are the same value. */
  lemma LaneBytesDetermineValue(x: U7x8, y: U7x8)
    requires forall i: LaneIndex :: LaneByte(x, i) == LaneByte(y, i)
    ensures x == y
  {
    assert LaneByte(x, 0) == LaneByte(y, 0);
    assert LaneByte(x, 1) == LaneByte(y, 1);
    assert LaneByte(x, 2) == LaneByte(y, 2);
    assert LaneByte(x, 3) == LaneByte(y, 3);
    assert LaneByte(x, 4) == LaneByte(y, 4);
    assert LaneByte(x, 5) == LaneByte(y, 5);
    assert LaneByte(x, 6) == LaneByte(y, 6);
    assert LaneByte(x, 7) == LaneByte(y, 7);
  }

  /** A byte is determined by its numeric value. */
  lemma ByteValueInjective(a: Byte, b: Byte)
    requires a as int == b as int
    ensures a == b
  {
  }

  /** Equality of values is equality of their eight lanes. */
  lemma LanesDetermineValue(x: U7x8, y: U7x8)
    ensures x == y <==> forall i: LaneIndex :: Lane(x, i) == Lane(y, i)
  {
    if forall i: LaneIndex :: Lane(x, i) == Lane(y, i) {
      forall i: LaneIndex
        ensures LaneByte(x, i) == LaneByte(y, i)
      {
        assert Lane(x, i) == Lane(y, i);
        ByteValueInjective(LaneByte(x, i), LaneByte(y, i));
      }
      LaneBytesDetermineValue(x, y);
    }
  }

  /** The padding bit of byte `i` is bit 7 of that byte, so a well-formed
      value has it clear. */
  lemma PaddingBitOfLane(x: U7x8, i: LaneIndex)
    ensures WellFormed(x) ==> LaneByte(x, i) & 0x80 == 0
  {
  }

  /** Eight clear bit-7s make a word with no padding bit set. */
  lemma PaddingFromLaneBytes(x: U7x8)
    requires forall j: LaneIndex :: LaneByte(x, j) & 0x80 == 0
    ensures WellFormed(x)
  {
    assert LaneByte(x, 0) & 0x80 == 0;
    assert LaneByte(x, 1) & 0x80 == 0;
    assert LaneByte(x, 2) & 0x80 == 0;
    assert LaneByte(x, 3) & 0x80 == 0;
    assert LaneByte(x, 4) & 0x80 == 0;
    assert LaneByte(x, 5) & 0x80 == 0;
    assert LaneByte(x, 6) & 0x80 == 0;
    assert LaneByte(x, 7) & 0x80 == 0;
  }

  /** A lane of a well-formed value is below 128. */
  lemma WellFormedLaneBelow128(x: U7x8, i: LaneIndex)
    ensures WellFormed(x) ==> Lane(x, i) < 128
  {
  }

  /** A byte with bit 7 clear is exactly a byte below 128. */
  lemma SmallByteIsBelow128(b: Byte)
    ensures b & 0x80 == 0 <==> b as int < 128
  {
  }

  /** A value is well-formed exactly when every lane is at most 127. */
  lemma WellFormedIffLanesBelow128(x: U7x8)
    ensures WellFormed(x) <==> forall i: LaneIndex :: Lane(x, i) < 128
  {
    forall i: LaneIndex
      ensures LaneByte(x, i) & 0x80 == 0 <==> Lane(x, i) < 128
    {
      SmallByteIsBelow128(LaneByte(x, i));
    }
    if WellFormed(x) {
      forall i: LaneIndex
        ensures LaneByte(x, i) & 0x80 == 0
      {
        PaddingBitOfLane(x, i);
      }
    }
    if forall i: LaneIndex :: Lane(x, i) < 128 {
      PaddingFromLaneBytes(x);
    }
  }
}
