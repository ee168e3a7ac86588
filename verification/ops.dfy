/**
 * The operations of `u7x8`: `splat`, the bitwise operators `&`, `|`, `^`
 * and `!`, and the wrapping arithmetic `+`, unary `-` and binary `-`, each
 * computed on the whole 64-bit word exactly as the implementation does,
 * with a contract that says what it does to every lane.
 *
 * `Lane(x, i)` is the number in byte `i`. For a well-formed value it is
 * the 7-bit lane; the arithmetic contracts are arithmetic modulo 128.
 */
module Ops {
  import opened Layout
  import opened Bytes
  import opened Swar
  import opened Lanewise

  // ---------------------------------------------------------------- splat

  /** `ret` after the first `n` rounds of the loop in `splat`, each round
      `i` or-ing `value << (i * 8)` into `ret`. */
  function SplatPrefix(value: Byte, n: bv4): Word
    requires n <= 8
    decreases n as int
  {
    if n == 0 then 0
    else SplatPrefix(value, n - 1) | ((value as Word) << (((n - 1) as bv7) * 8))
  }

  /** One round of the loop. */
  lemma SplatRound(value: Byte, n: bv4)
    requires 1 <= n <= 8
    ensures SplatPrefix(value, n) == SplatPrefix(value, n - 1) | ((value as Word) << (((n - 1) as bv7) * 8))
  {
  }

  /** Round `i` of the loop takes `ret` from `i` rounds done to `i + 1`. */
  lemma SplatStep(value: Byte, i: bv4, ret: Word)
    requires i < 8 && ret == SplatPrefix(value, i)
    ensures ret | ((value as Word) << ((i as bv7) * 8)) == SplatPrefix(value, i + 1)
  {
    SplatRound(value, i + 1);
    assert (i + 1 - 1) as bv7 == i as bv7;
  }

  /** `value` copied into all eight bytes. */
  function Replicated(value: Byte): Word
  {
    var v := value as Word;
    v | (v << 8) | (v << 16) | (v << 24) | (v << 32) | (v << 40) | (v << 48) | (v << 56)
  }

  /** The eight rounds of the loop leave `value` in every byte. */
  lemma SplatLoopReplicates(value: Byte)
    ensures SplatPrefix(value, 8) == Replicated(value)
  {
    SplatRound(value, 1);
    SplatRound(value, 2);
    SplatRound(value, 3);
    SplatRound(value, 4);
    SplatRound(value, 5);
    SplatRound(value, 6);
    SplatRound(value, 7);
    SplatRound(value, 8);
  }

  lemma ReplicatedLanes(value: Byte)
    ensures forall i: LaneIndex :: ByteOf(Replicated(value), i) == value
  {
  }

  /** `u7x8::splat`: every lane holds `value`. The requires is the
      assertion `value <= 0x7F`, which panics otherwise. */
  function Splat(value: Byte): (r: U7x8)
    requires value <= 0x7F
    ensures WellFormed(r)
    ensures Uniform(r, value as int)
  {
    SplatLoopReplicates(value);
    ReplicatedLanes(value);
    PaddingFromLaneBytes(U7x8(SplatPrefix(value, 8)));
    U7x8(SplatPrefix(value, 8))
  }

  /** `splat` as written: eight rounds of `ret |= value << (i * 8)`, with
      the loop counter `i` running from 0 to 7. */
  method SplatLoop(value: Byte) returns (r: U7x8)
    requires value <= 0x7F
    ensures r == Splat(value)
    ensures WellFormed(r) && Uniform(r, value as int)
  {
    var ret: Word := 0;
    var i: bv4 := 0;
    while i < 8
      invariant i <= 8
      invariant ret == SplatPrefix(value, i)
      decreases 8 - i as int
    {
      SplatStep(value, i, ret);
      ret := ret | ((value as Word) << ((i as bv7) * 8));
      i := i + 1;
    }
    r := U7x8(ret);
    assert r.bits == SplatPrefix(value, 8);
  }

  /** The derived `Default`: the all-zero word, every lane 0. */
  function Default(): (r: U7x8)
    ensures WellFormed(r)
    ensures Uniform(r, 0)
  {
    U7x8(0)
  }

  /** Entry `k` of a list of the eight lanes is lane `k`. */
  lemma LaneListEntry(x: U7x8, fields: seq<nat>, k: int)
    requires |fields| == 8 && forall i: LaneIndex :: fields[i as int] == Lane(x, i)
    requires 0 <= k < 8
    ensures fields[k] == Lane(x, k as LaneIndex)
  {
    assert k == (k as LaneIndex) as int;
  }

  lemma LaneListBelow128(x: U7x8, fields: seq<nat>)
    requires |fields| == 8 && forall i: LaneIndex :: fields[i as int] == Lane(x, i)
    ensures (forall k :: 0 <= k < 8 ==> fields[k] < 128) <==> (forall i: LaneIndex :: Lane(x, i) < 128)
  {
    forall k | 0 <= k < 8
      ensures fields[k] == Lane(x, k as LaneIndex)
    {
      LaneListEntry(x, fields, k);
    }
  }

  /** The eight numbers the Debug implementation prints, byte 0 first: all
      of them are below 128 exactly when the value is well-formed. */
  function DebugFields(x: U7x8): (fields: seq<nat>)
    ensures |fields| == 8
    ensures forall i: LaneIndex :: fields[i as int] == Lane(x, i)
    ensures WellFormed(x) <==> forall k :: 0 <= k < 8 ==> fields[k] < 128
  {
    var fields := [Lane(x, 0), Lane(x, 1), Lane(x, 2), Lane(x, 3), Lane(x, 4), Lane(x, 5), Lane(x, 6), Lane(x, 7)];
    LaneListBelow128(x, fields);
    WellFormedIffLanesBelow128(x);
    fields
  }

  // ------------------------------------------------------------- bitwise

  lemma AndLaneOf(a: U7x8, b: U7x8, i: LaneIndex)
    ensures LaneByte(U7x8(a.bits & b.bits), i) == LaneByte(a, i) & LaneByte(b, i)
  {
    AndLane(a.bits, b.bits, i);
  }

  lemma AndLanes(a: U7x8, b: U7x8)
    ensures forall i: LaneIndex :: LaneByte(U7x8(a.bits & b.bits), i) == LaneByte(a, i) & LaneByte(b, i)
  {
    forall i: LaneIndex
      ensures LaneByte(U7x8(a.bits & b.bits), i) == LaneByte(a, i) & LaneByte(b, i)
    {
      AndLaneOf(a, b, i);
    }
  }

  /** `&`: lane-wise and. One well-formed operand suffices for a
      well-formed result. */
  function BitAnd(a: U7x8, b: U7x8): (r: U7x8)
    ensures forall i: LaneIndex :: LaneByte(r, i) == LaneByte(a, i) & LaneByte(b, i)
    ensures WellFormed(a) || WellFormed(b) ==> WellFormed(r)
  {
    AndLanes(a, b);
    U7x8(a.bits & b.bits)
  }

  lemma OrLaneOf(a: U7x8, b: U7x8, i: LaneIndex)
    ensures LaneByte(U7x8(a.bits | b.bits), i) == LaneByte(a, i) | LaneByte(b, i)
  {
    OrLane(a.bits, b.bits, i);
  }

  lemma OrLanes(a: U7x8, b: U7x8)
    ensures forall i: LaneIndex :: LaneByte(U7x8(a.bits | b.bits), i) == LaneByte(a, i) | LaneByte(b, i)
  {
    forall i: LaneIndex
      ensures LaneByte(U7x8(a.bits | b.bits), i) == LaneByte(a, i) | LaneByte(b, i)
    {
      OrLaneOf(a, b, i);
    }
  }

  /** `|`: lane-wise or; well-formed operands give a well-formed result. */
  function BitOr(a: U7x8, b: U7x8): (r: U7x8)
    ensures forall i: LaneIndex :: LaneByte(r, i) == LaneByte(a, i) | LaneByte(b, i)
    ensures WellFormed(a) && WellFormed(b) ==> WellFormed(r)
  {
    OrLanes(a, b);
    U7x8(a.bits | b.bits)
  }

  lemma XorLaneOf(a: U7x8, b: U7x8, i: LaneIndex)
    ensures LaneByte(U7x8(a.bits ^ b.bits), i) == LaneByte(a, i) ^ LaneByte(b, i)
  {
    XorLane(a.bits, b.bits, i);
  }

  lemma XorLanes(a: U7x8, b: U7x8)
    ensures forall i: LaneIndex :: LaneByte(U7x8(a.bits ^ b.bits), i) == LaneByte(a, i) ^ LaneByte(b, i)
  {
    forall i: LaneIndex
      ensures LaneByte(U7x8(a.bits ^ b.bits), i) == LaneByte(a, i) ^ LaneByte(b, i)
    {
      XorLaneOf(a, b, i);
    }
  }

  /** `^`: lane-wise exclusive or; well-formed operands give a well-formed
      result. */
  function BitXor(a: U7x8, b: U7x8): (r: U7x8)
    ensures forall i: LaneIndex :: LaneByte(r, i) == LaneByte(a, i) ^ LaneByte(b, i)
    ensures WellFormed(a) && WellFormed(b) ==> WellFormed(r)
  {
    XorLanes(a, b);
    U7x8(a.bits ^ b.bits)
  }

  /** The masked complement of a byte is 127 minus its low seven bits. */
  lemma NotStep(x: Byte, c: Byte, m: Byte)
    requires c == !x && m == c & 0x7F
    ensures m as int == 127 - x as int % 128
  {
    ComplementLowSeven(x);
  }

  lemma NotLaneOf(a: U7x8, i: LaneIndex)
    ensures Lane(U7x8(!a.bits & MASK), i) == 127 - Lane(a, i) % 128
  {
    MaskLane(!a.bits, i);
    ComplementLane(a.bits, i);
    NotStep(ByteOf(a.bits, i), ByteOf(!a.bits, i), ByteOf(!a.bits & MASK, i));
  }

  lemma NotLanes(a: U7x8)
    ensures forall i: LaneIndex :: Lane(U7x8(!a.bits & MASK), i) == 127 - Lane(a, i) % 128
  {
    forall i: LaneIndex
      ensures Lane(U7x8(!a.bits & MASK), i) == 127 - Lane(a, i) % 128
    {
      NotLaneOf(a, i);
    }
  }

  /** `!`: every lane becomes 127 minus itself (the padding bit of the
      operand is ignored); the result is always well-formed. */
  function Not(a: U7x8): (r: U7x8)
    ensures WellFormed(r)
    ensures LanewiseComplement(r, a)
  {
    MaskedIsWellFormed(!a.bits);
    NotLanes(a);
    U7x8(!a.bits & MASK)
  }

  // ---------------------------------------------------------- arithmetic

  /** The byte sum of two 7-bit bytes, masked, is their sum modulo 128. */
  lemma AddStep(x: Byte, y: Byte, m: Byte)
    ensures x & 0x80 == 0 && y & 0x80 == 0 && m == (x + y) & 0x7F ==>
      m as int == (x as int + y as int) % 128
  {
    if x & 0x80 == 0 && y & 0x80 == 0 {
      SevenBitSum(x, y);
    }
  }

  /** A byte that is the masked sum of two 7-bit lanes holds their sum
      modulo 128. */
  lemma AddLaneValue(a: U7x8, b: U7x8, r: U7x8, i: LaneIndex)
    requires WellFormed(a) && WellFormed(b) && SumAt(r, a, b, i)
    ensures Lane(r, i) == (Lane(a, i) + Lane(b, i)) % 128
  {
    PaddingBitOfLane(a, i);
    PaddingBitOfLane(b, i);
    AddStep(LaneByte(a, i), LaneByte(b, i), LaneByte(r, i));
  }

  lemma AddLane(a: U7x8, b: U7x8, i: LaneIndex)
    requires WellFormed(a) && WellFormed(b)
    ensures Lane(U7x8((a.bits + b.bits) & MASK), i) == (Lane(a, i) + Lane(b, i)) % 128
  {
    MaskedSumLane(a, b, i);
    AddLaneValue(a, b, U7x8((a.bits + b.bits) & MASK), i);
  }

  lemma AddLanes(a: U7x8, b: U7x8)
    ensures WellFormed(a) && WellFormed(b) ==>
      forall i: LaneIndex :: Lane(U7x8((a.bits + b.bits) & MASK), i) == (Lane(a, i) + Lane(b, i)) % 128
  {
    if WellFormed(a) && WellFormed(b) {
      forall i: LaneIndex
        ensures Lane(U7x8((a.bits + b.bits) & MASK), i) == (Lane(a, i) + Lane(b, i)) % 128
      {
        AddLane(a, b, i);
      }
    }
  }

  /** `+`: lane-wise addition modulo 128 of well-formed operands. The
      requires is the overflow panic of the raw `u64` addition, which two
      well-formed operands never trigger (`AddOfWellFormedFits`). */
  function Add(a: U7x8, b: U7x8): (r: U7x8)
    requires AddFits(a.bits, b.bits)
    ensures WellFormed(r)
    ensures WellFormed(a) && WellFormed(b) ==> LanewiseSum(r, a, b)
  {
    MaskedIsWellFormed(a.bits + b.bits);
    AddLanes(a, b);
    U7x8((a.bits + b.bits) & MASK)
  }

  /** Two well-formed operands never make `+` overflow: every byte sum is
      at most 127 + 127. */
  lemma AddOfWellFormedFits(a: U7x8, b: U7x8)
    requires WellFormed(a) && WellFormed(b)
    ensures AddFits(a.bits, b.bits)
  {
    WellFormedSumFits(a.bits, b.bits);
  }

  /** The `- a` of two's complement on seven bits, modulo 128. */
  lemma NegateModulo(y: int)
    ensures (127 - y % 128 + 1) % 128 == (128 - y) % 128
  {
    ModuloShift(128, y, 127 - y % 128, 128 + 127 - y % 128 + 1, (128 + 127 - y % 128 + 1) % 128);
  }

  /** Unary `-`: `!a + splat(1)`, every lane negated modulo 128. The inner
      addition cannot overflow, for any operand, because `!` clears the
      padding bits. */
  function Neg(a: U7x8): (r: U7x8)
    ensures WellFormed(r)
    ensures LanewiseNegation(r, a)
  {
    AddOfWellFormedFits(Not(a), Splat(1));
    NegLanes(a);
    Add(Not(a), Splat(1))
  }

  lemma NegLane(a: U7x8, i: LaneIndex)
    requires AddFits(Not(a).bits, Splat(1).bits)
    ensures Lane(Add(Not(a), Splat(1)), i) == (128 - Lane(a, i)) % 128
  {
    NegateModulo(Lane(a, i));
  }

  lemma NegLanes(a: U7x8)
    ensures AddFits(Not(a).bits, Splat(1).bits)
    ensures forall i: LaneIndex :: Lane(Add(Not(a), Splat(1)), i) == (128 - Lane(a, i)) % 128
  {
    AddOfWellFormedFits(Not(a), Splat(1));
    forall i: LaneIndex
      ensures Lane(Add(Not(a), Splat(1)), i) == (128 - Lane(a, i)) % 128
    {
      NegLane(a, i);
    }
  }

  /** `splat(1)` has the word `ONES`. */
  lemma SplatOneIsOnes()
    ensures Splat(1).bits == ONES
  {
    SplatLoopReplicates(1);
  }

  /** The two raw additions of `-` do not overflow. */
  predicate SubFits(a: U7x8, b: U7x8)
  {
    AddFits(a.bits, Not(b).bits) && AddFits(a.bits + Not(b).bits, Splat(1).bits)
  }

  /** A well-formed left operand never makes `-` overflow, whatever the
      right one: every byte sum is at most 127 + 127 + 1 = 255. */
  lemma SubOfWellFormedFits(a: U7x8, b: U7x8)
    requires WellFormed(a)
    ensures SubFits(a, b)
  {
    WellFormedIncrementFits(a.bits, Not(b).bits);
    SplatOneIsOnes();
  }

  /** A byte that is the subtraction's masked three-term sum holds the
      difference of the lanes modulo 128. */
  lemma SubLaneValue(a: U7x8, b: U7x8, r: U7x8, i: LaneIndex)
    requires WellFormed(a) && DifferenceAt(r, a, b, i)
    ensures Lane(r, i) == (Lane(a, i) - Lane(b, i)) % 128
  {
    PaddingBitOfLane(a, i);
    SevenBitDifference(LaneByte(a, i), LaneByte(b, i));
  }

  lemma SubLane(a: U7x8, b: U7x8, i: LaneIndex)
    requires WellFormed(a)
    ensures Lane(U7x8(MaskedTripleSum(a.bits, !b.bits & MASK, ONES)), i) == (Lane(a, i) - Lane(b, i)) % 128
  {
    MaskedDifferenceLane(a, b, i);
    SubLaneValue(a, b, U7x8(MaskedTripleSum(a.bits, !b.bits & MASK, ONES)), i);
  }

  lemma SubLanes(a: U7x8, b: U7x8)
    ensures WellFormed(a) ==>
      forall i: LaneIndex :: Lane(U7x8(MaskedTripleSum(a.bits, !b.bits & MASK, ONES)), i) == (Lane(a, i) - Lane(b, i)) % 128
  {
    if WellFormed(a) {
      forall i: LaneIndex
        ensures Lane(U7x8(MaskedTripleSum(a.bits, !b.bits & MASK, ONES)), i) == (Lane(a, i) - Lane(b, i)) % 128
      {
        SubLane(a, b, i);
      }
    }
  }

  /** Binary `-`: `a.0 + (!b).0 + splat(1).0` on the raw words, masked;
      for a well-formed `a`, lane-wise subtraction modulo 128. The requires is
      the overflow panic of the two raw `u64` additions
      (`SubOfWellFormedFits`). */
  function Sub(a: U7x8, b: U7x8): (r: U7x8)
    requires SubFits(a, b)
    ensures WellFormed(r)
    ensures WellFormed(a) ==> LanewiseDifference(r, a, b)
  {
    SplatOneIsOnes();
    MaskedTripleSumIsWellFormed(a.bits, Not(b).bits, Splat(1).bits);
    SubLanes(a, b);
    U7x8(MaskedTripleSum(a.bits, Not(b).bits, Splat(1).bits))
  }
}
