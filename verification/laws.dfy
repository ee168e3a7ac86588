/**
 * What the operators promise together: the cases the crate's own tests
 * check, the algebra of arithmetic modulo 128 on every lane (`-` undoes
 * `+`, `a + (-a)` is zero, `a - b` is `a + (-b)`), and the laws of the
 * bitwise operators. Each arithmetic law is the matching lemma of
 * `Lanewise` applied to the operators' contracts.
 */
module Laws {
  import opened Layout
  import opened Swar
  import opened Lanewise
  import opened Ops

  // ------------------------------------------------------ the crate's tests

  /** `splat(1)` is `u7x8(0x101_0101_0101_0101)`. */
  lemma SplatOneWord()
    ensures Splat(1) == U7x8(0x0101_0101_0101_0101)
  {
    SplatLoopReplicates(1);
  }

  /** `splat(0x7F) + splat(1) == splat(0)`: 127 + 1 wraps to 0 inside every
      lane and nothing carries into the next one. */
  lemma AddWrapsAround()
    ensures AddFits(Splat(0x7F).bits, Splat(1).bits) && Add(Splat(0x7F), Splat(1)) == Splat(0)
  {
    AddOfWellFormedFits(Splat(0x7F), Splat(1));
    UniformSum(Splat(0x7F), Splat(1), Add(Splat(0x7F), Splat(1)), 127, 1);
    UniformEqual(Add(Splat(0x7F), Splat(1)), Splat(0), 0);
  }

  /** `a - a == splat(0)`, for every well-formed `a`. */
  lemma SubSelf(a: U7x8)
    requires WellFormed(a)
    ensures SubFits(a, a) && Sub(a, a) == Splat(0)
  {
    SubOfWellFormedFits(a, a);
    DifferenceSelf(a, Sub(a, a));
    UniformEqual(Sub(a, a), Splat(0), 0);
  }

  /** `a - splat(0) == a`, for every well-formed `a`. */
  lemma SubZero(a: U7x8)
    requires WellFormed(a)
    ensures SubFits(a, Splat(0)) && Sub(a, Splat(0)) == a
  {
    SubOfWellFormedFits(a, Splat(0));
    DifferenceUnit(a, Splat(0), Sub(a, Splat(0)));
  }

  // ----------------------------------------------------------- addition

  /** `splat(0)` is the identity of `+` on well-formed values. */
  lemma AddZero(a: U7x8)
    requires WellFormed(a)
    ensures AddFits(a.bits, Splat(0).bits) && Add(a, Splat(0)) == a
  {
    AddOfWellFormedFits(a, Splat(0));
    SumUnit(a, Splat(0), Add(a, Splat(0)));
  }

  /** `+` is commutative: the raw word sum is. */
  lemma AddCommutes(a: U7x8, b: U7x8)
    requires AddFits(a.bits, b.bits)
    ensures AddFits(b.bits, a.bits) && Add(a, b) == Add(b, a)
  {
  }

  /** `+` is associative on well-formed values. */
  lemma AddAssociates(a: U7x8, b: U7x8, c: U7x8)
    requires WellFormed(a) && WellFormed(b) && WellFormed(c)
    ensures AddFits(a.bits, b.bits) && AddFits(b.bits, c.bits)
    ensures AddFits(Add(a, b).bits, c.bits) && AddFits(a.bits, Add(b, c).bits)
    ensures Add(Add(a, b), c) == Add(a, Add(b, c))
  {
    AddOfWellFormedFits(a, b);
    AddOfWellFormedFits(b, c);
    AddOfWellFormedFits(Add(a, b), c);
    AddOfWellFormedFits(a, Add(b, c));
    SumAssociates(a, b, c, Add(a, b), Add(b, c), Add(Add(a, b), c), Add(a, Add(b, c)));
  }

  /** No carry crosses a lane boundary: lane `i` of a sum depends on lane
      `i` of the operands only. */
  lemma AddLaneIsolation(a: U7x8, b: U7x8, c: U7x8, i: LaneIndex)
    requires WellFormed(a) && WellFormed(b) && WellFormed(c)
    requires Lane(b, i) == Lane(c, i)
    ensures AddFits(a.bits, b.bits) && AddFits(a.bits, c.bits)
    ensures Lane(Add(a, b), i) == Lane(Add(a, c), i)
  {
    AddOfWellFormedFits(a, b);
    AddOfWellFormedFits(a, c);
    SumLaneDetermined(a, b, c, Add(a, b), Add(a, c), i);
  }

  // ----------------------------------------------------------- negation

  /** `a + (-a) == splat(0)`: `-` is the additive inverse. */
  lemma AddNegIsZero(a: U7x8)
    requires WellFormed(a)
    ensures AddFits(a.bits, Neg(a).bits) && Add(a, Neg(a)) == Splat(0)
  {
    AddOfWellFormedFits(a, Neg(a));
    NegationCancels(a, Neg(a), Add(a, Neg(a)));
    UniformEqual(Add(a, Neg(a)), Splat(0), 0);
  }

  /** `-(-a) == a` on well-formed values. */
  lemma NegInvolutive(a: U7x8)
    requires WellFormed(a)
    ensures Neg(Neg(a)) == a
  {
    NegationInvolutive(a, Neg(a), Neg(Neg(a)));
  }

  // -------------------------------------------------------- subtraction

  /** `a - b == a + (-b)`, for a well-formed `a` and any `b`. */
  lemma SubIsAddNeg(a: U7x8, b: U7x8)
    requires WellFormed(a)
    ensures SubFits(a, b) && AddFits(a.bits, Neg(b).bits) && Sub(a, b) == Add(a, Neg(b))
  {
    SubOfWellFormedFits(a, b);
    AddOfWellFormedFits(a, Neg(b));
    DifferenceIsSumOfNegation(a, b, Neg(b), Sub(a, b), Add(a, Neg(b)));
  }

  /** `(a + b) - b == a`: `-` undoes `+`. */
  lemma SubAfterAdd(a: U7x8, b: U7x8)
    requires WellFormed(a) && WellFormed(b)
    ensures AddFits(a.bits, b.bits) && SubFits(Add(a, b), b) && Sub(Add(a, b), b) == a
  {
    AddOfWellFormedFits(a, b);
    SubOfWellFormedFits(Add(a, b), b);
    DifferenceUndoesSum(a, b, Add(a, b), Sub(Add(a, b), b));
  }

  /** `(a - b) + b == a`: `+` undoes `-`. */
  lemma AddAfterSub(a: U7x8, b: U7x8)
    requires WellFormed(a) && WellFormed(b)
    ensures SubFits(a, b) && AddFits(Sub(a, b).bits, b.bits) && Add(Sub(a, b), b) == a
  {
    SubOfWellFormedFits(a, b);
    AddOfWellFormedFits(Sub(a, b), b);
    SumUndoesDifference(a, b, Sub(a, b), Add(Sub(a, b), b));
  }

  // ------------------------------------------------------------ bitwise

  /** `!!a == a` on well-formed values. */
  lemma NotInvolutive(a: U7x8)
    requires WellFormed(a)
    ensures Not(Not(a)) == a
  {
    ComplementInvolutive(a, Not(a), Not(Not(a)));
  }

  /** `&`, `|` and `^` are commutative. */
  lemma BitwiseCommute(a: U7x8, b: U7x8)
    ensures BitAnd(a, b) == BitAnd(b, a)
    ensures BitOr(a, b) == BitOr(b, a)
    ensures BitXor(a, b) == BitXor(b, a)
  {
  }

  /** `&` is associative. */
  lemma BitAndAssociates(a: U7x8, b: U7x8, c: U7x8)
    ensures BitAnd(BitAnd(a, b), c) == BitAnd(a, BitAnd(b, c))
  {
  }

  /** `|` is associative. */
  lemma BitOrAssociates(a: U7x8, b: U7x8, c: U7x8)
    ensures BitOr(BitOr(a, b), c) == BitOr(a, BitOr(b, c))
  {
  }

  /** `^` is associative. */
  lemma BitXorAssociates(a: U7x8, b: U7x8, c: U7x8)
    ensures BitXor(BitXor(a, b), c) == BitXor(a, BitXor(b, c))
  {
  }

  /** `&` and `|` are idempotent and `a ^ a` is zero. */
  lemma BitwiseSelf(a: U7x8)
    ensures BitAnd(a, a) == a
    ensures BitOr(a, a) == a
    ensures BitXor(a, a) == Default()
  {
  }

  /** De Morgan's laws: `!` turns `&` into `|` and back, for any operands,
      because it masks the padding bits away on both sides. */
  lemma DeMorgan(a: U7x8, b: U7x8)
    ensures Not(BitAnd(a, b)) == BitOr(Not(a), Not(b))
    ensures Not(BitOr(a, b)) == BitAnd(Not(a), Not(b))
  {
  }

  // ----------------------------------------------------- splat, Default

  /** The derived `Default` is `splat(0)`. */
  lemma DefaultIsSplatZero()
    ensures Default() == Splat(0)
  {
    UniformEqual(Default(), Splat(0), 0);
  }

  /** Different lane values give different splats. */
  lemma SplatInjective(v: Byte, w: Byte)
    requires v <= 0x7F && w <= 0x7F
    ensures Splat(v) == Splat(w) <==> v == w
  {
    if Splat(v) == Splat(w) {
      assert Lane(Splat(v), 0) == Lane(Splat(w), 0);
      ByteValueInjective(v, w);
    }
  }

  // ------------------------------------------------------------- Debug

  lemma DebugFieldLane(x: U7x8, y: U7x8, i: LaneIndex)
    requires DebugFields(x) == DebugFields(y)
    ensures Lane(x, i) == Lane(y, i)
  {
    assert DebugFields(x)[i as int] == DebugFields(y)[i as int];
  }

  lemma DebugFieldLanes(x: U7x8, y: U7x8)
    requires DebugFields(x) == DebugFields(y)
    ensures forall i: LaneIndex :: Lane(x, i) == Lane(y, i)
  {
    forall i: LaneIndex
      ensures Lane(x, i) == Lane(y, i)
    {
      DebugFieldLane(x, y, i);
    }
  }

  /** The eight numbers Debug prints identify the value. */
  lemma DebugFieldsDetermineValue(x: U7x8, y: U7x8)
    ensures DebugFields(x) == DebugFields(y) <==> x == y
  {
    if DebugFields(x) == DebugFields(y) {
      DebugFieldLanes(x, y);
      LanesDetermineValue(x, y);
    }
  }
}
