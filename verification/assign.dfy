/**
 * The compound assignments `&=`, `|=`, `^=`, `+=` and `-=`. Each one
 * overwrites the receiver with the corresponding binary operator's result
 * (`*self = *self op rhs`); here the receiver is passed in and its new
 * value returned.
 */
module Assign {
  import opened Layout
  import opened Swar
  import opened Ops

  /** `&=`: the receiver becomes `self & rhs`, lane by lane. */
  method BitAndAssign(lhs: U7x8, rhs: U7x8) returns (updated: U7x8)
    ensures updated == BitAnd(lhs, rhs)
    ensures forall i: LaneIndex :: LaneByte(updated, i) == LaneByte(lhs, i) & LaneByte(rhs, i)
  {
    updated := BitAnd(lhs, rhs);
  }

  /** `|=`: the receiver becomes `self | rhs`, lane by lane. */
  method BitOrAssign(lhs: U7x8, rhs: U7x8) returns (updated: U7x8)
    ensures updated == BitOr(lhs, rhs)
    ensures forall i: LaneIndex :: LaneByte(updated, i) == LaneByte(lhs, i) | LaneByte(rhs, i)
  {
    updated := BitOr(lhs, rhs);
  }

  /** `^=`: the receiver becomes `self ^ rhs`, lane by lane. */
  method BitXorAssign(lhs: U7x8, rhs: U7x8) returns (updated: U7x8)
    ensures updated == BitXor(lhs, rhs)
    ensures forall i: LaneIndex :: LaneByte(updated, i) == LaneByte(lhs, i) ^ LaneByte(rhs, i)
  {
    updated := BitXor(lhs, rhs);
  }

  /** `+=`: the receiver becomes `self + rhs`; the requires is the overflow
      panic of that addition. */
  method AddAssign(lhs: U7x8, rhs: U7x8) returns (updated: U7x8)
    requires AddFits(lhs.bits, rhs.bits)
    ensures updated == Add(lhs, rhs)
    ensures WellFormed(updated)
    ensures WellFormed(lhs) && WellFormed(rhs) ==>
      forall i: LaneIndex :: Lane(updated, i) == (Lane(lhs, i) + Lane(rhs, i)) % 128
  {
    updated := Add(lhs, rhs);
  }

  /** `-=`: the receiver becomes `self - rhs`; the requires is the overflow
      panic of that subtraction. */
  method SubAssign(lhs: U7x8, rhs: U7x8) returns (updated: U7x8)
    requires SubFits(lhs, rhs)
    ensures updated == Sub(lhs, rhs)
    ensures WellFormed(updated)
    ensures WellFormed(lhs) ==>
      forall i: LaneIndex :: Lane(updated, i) == (Lane(lhs, i) - Lane(rhs, i)) % 128
  {
    updated := Sub(lhs, rhs);
  }
}
