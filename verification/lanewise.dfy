/**
 * The meaning of a `u7x8` value as eight numbers, and the lane-wise
 * arithmetic modulo 128 that the operators implement. The predicates say
 * what the lanes of a result are in terms of the lanes of its operands;
 * the lemmas are the algebra of that arithmetic, stated for any values
 * whose lanes are related that way, independently of how the words are
 * computed. The operators' contracts are written with these predicates,
 * and the laws about the operators are these lemmas applied to them.
 */
module Lanewise {
  import opened Layout
  import opened Modulo

  /** Every lane of `r` is `v`. */
  ghost predicate Uniform(r: U7x8, v: int)
  {
    forall i: LaneIndex :: Lane(r, i) == v
  }

  /** Every lane of `r` is the sum modulo 128 of the lanes of `a` and `b`. */
  ghost predicate LanewiseSum(r: U7x8, a: U7x8, b: U7x8)
  {
    forall i: LaneIndex :: Lane(r, i) == (Lane(a, i) + Lane(b, i)) % 128
  }

  /** Every lane of `r` is the difference modulo 128 of the lanes of `a`
      and `b`. */
  ghost predicate LanewiseDifference(r: U7x8, a: U7x8, b: U7x8)
  {
    forall i: LaneIndex :: Lane(r, i) == (Lane(a, i) - Lane(b, i)) % 128
  }

  /** Every lane of `r` is `128 - x` modulo 128 for the lane `x` of `a`. */
  ghost predicate LanewiseNegation(r: U7x8, a: U7x8)
  {
    forall i: LaneIndex :: Lane(r, i) == (128 - Lane(a, i)) % 128
  }

  /** Every lane of `r` is 127 minus the low seven bits of the lane of `a`. */
  ghost predicate LanewiseComplement(r: U7x8, a: U7x8)
  {
    forall i: LaneIndex :: Lane(r, i) == 127 - Lane(a, i) % 128
  }

  /** Two values with every lane equal to the same number are equal. */
  lemma UniformEqual(x: U7x8, y: U7x8, v: int)
    requires Uniform(x, v) && Uniform(y, v)
    ensures x == y
  {
    LanesDetermineValue(x, y);
  }

  // ------------------------------------------------------------ addition

  lemma UniformSumLane(x: U7x8, y: U7x8, r: U7x8, v: int, w: int, i: LaneIndex)
    requires Lane(x, i) == v && Lane(y, i) == w && Lane(r, i) == (Lane(x, i) + Lane(y, i)) % 128
    ensures Lane(r, i) == (v + w) % 128
  {
  }

  /** The sum of two uniform values is uniform: the lanes add separately. */
  lemma UniformSum(x: U7x8, y: U7x8, r: U7x8, v: int, w: int)
    requires Uniform(x, v) && Uniform(y, w) && LanewiseSum(r, x, y)
    ensures Uniform(r, (v + w) % 128)
  {
    forall i: LaneIndex
      ensures Lane(r, i) == (v + w) % 128
    {
      UniformSumLane(x, y, r, v, w, i);
    }
  }

  lemma SumAssociatesLane(a: U7x8, b: U7x8, c: U7x8, ab: U7x8, bc: U7x8, l: U7x8, r: U7x8, i: LaneIndex)
    requires Lane(ab, i) == (Lane(a, i) + Lane(b, i)) % 128 && Lane(bc, i) == (Lane(b, i) + Lane(c, i)) % 128
    requires Lane(l, i) == (Lane(ab, i) + Lane(c, i)) % 128 && Lane(r, i) == (Lane(a, i) + Lane(bc, i)) % 128
    ensures Lane(l, i) == Lane(r, i)
  {
    AddAssociatesModulo(Lane(a, i), Lane(b, i), Lane(c, i), Lane(ab, i), Lane(bc, i), Lane(l, i), Lane(r, i));
  }

  /** `(a + b) + c` and `a + (b + c)` have the same lanes, so they are the
      same value. */
  lemma SumAssociates(a: U7x8, b: U7x8, c: U7x8, ab: U7x8, bc: U7x8, l: U7x8, r: U7x8)
    requires LanewiseSum(ab, a, b) && LanewiseSum(bc, b, c)
    requires LanewiseSum(l, ab, c) && LanewiseSum(r, a, bc)
    ensures l == r
  {
    forall i: LaneIndex
      ensures Lane(l, i) == Lane(r, i)
    {
      SumAssociatesLane(a, b, c, ab, bc, l, r, i);
    }
    LanesDetermineValue(l, r);
  }

  lemma SumUnitLane(a: U7x8, z: U7x8, r: U7x8, i: LaneIndex)
    requires Lane(a, i) < 128 && Lane(z, i) == 0
    requires Lane(r, i) == (Lane(a, i) + Lane(z, i)) % 128
    ensures Lane(r, i) == Lane(a, i)
  {
    SmallResidue(Lane(a, i));
  }

  /** Adding a value whose lanes are all zero changes nothing. */
  lemma SumUnit(a: U7x8, z: U7x8, r: U7x8)
    requires WellFormed(a) && Uniform(z, 0) && LanewiseSum(r, a, z)
    ensures r == a
  {
    forall i: LaneIndex
      ensures Lane(r, i) == Lane(a, i)
    {
      WellFormedLaneBelow128(a, i);
      SumUnitLane(a, z, r, i);
    }
    LanesDetermineValue(r, a);
  }

  /** A lane-wise sum, read at one lane. */
  lemma SumAtLane(r: U7x8, a: U7x8, b: U7x8, i: LaneIndex)
    ensures LanewiseSum(r, a, b) ==> Lane(r, i) == (Lane(a, i) + Lane(b, i)) % 128
  {
  }

  /** Lane `i` of a lane-wise sum depends only on lane `i` of the operands. */
  lemma SumLaneDetermined(a: U7x8, b: U7x8, c: U7x8, r: U7x8, s: U7x8, i: LaneIndex)
    ensures LanewiseSum(r, a, b) && LanewiseSum(s, a, c) && Lane(b, i) == Lane(c, i) ==>
      Lane(r, i) == Lane(s, i)
  {
    SumAtLane(r, a, b, i);
    SumAtLane(s, a, c, i);
    SumDeterminedModulo(Lane(a, i), Lane(b, i), Lane(c, i), Lane(r, i), Lane(s, i));
  }

  // --------------------------------------------------------- subtraction

  lemma DifferenceUndoesSumLane(a: U7x8, b: U7x8, s: U7x8, d: U7x8, i: LaneIndex)
    requires Lane(a, i) < 128
    requires Lane(s, i) == (Lane(a, i) + Lane(b, i)) % 128 && Lane(d, i) == (Lane(s, i) - Lane(b, i)) % 128
    ensures Lane(d, i) == Lane(a, i)
  {
    SubAfterAddModulo(Lane(a, i), Lane(b, i));
  }

  /** `(a + b) - b` is `a`, lane by lane and so as a value. */
  lemma DifferenceUndoesSum(a: U7x8, b: U7x8, s: U7x8, d: U7x8)
    requires WellFormed(a) && LanewiseSum(s, a, b) && LanewiseDifference(d, s, b)
    ensures d == a
  {
    forall i: LaneIndex
      ensures Lane(d, i) == Lane(a, i)
    {
      WellFormedLaneBelow128(a, i);
      DifferenceUndoesSumLane(a, b, s, d, i);
    }
    LanesDetermineValue(d, a);
  }

  lemma SumUndoesDifferenceLane(a: U7x8, b: U7x8, d: U7x8, s: U7x8, i: LaneIndex)
    requires Lane(a, i) < 128
    requires Lane(d, i) == (Lane(a, i) - Lane(b, i)) % 128 && Lane(s, i) == (Lane(d, i) + Lane(b, i)) % 128
    ensures Lane(s, i) == Lane(a, i)
  {
    AddAfterSubModulo(Lane(a, i), Lane(b, i));
  }

  /** `(a - b) + b` is `a`. */
  lemma SumUndoesDifference(a: U7x8, b: U7x8, d: U7x8, s: U7x8)
    requires WellFormed(a) && LanewiseDifference(d, a, b) && LanewiseSum(s, d, b)
    ensures s == a
  {
    forall i: LaneIndex
      ensures Lane(s, i) == Lane(a, i)
    {
      WellFormedLaneBelow128(a, i);
      SumUndoesDifferenceLane(a, b, d, s, i);
    }
    LanesDetermineValue(s, a);
  }

  /** `a - a` has every lane zero. */
  lemma DifferenceSelf(a: U7x8, d: U7x8)
    requires LanewiseDifference(d, a, a)
    ensures Uniform(d, 0)
  {
    forall i: LaneIndex
      ensures Lane(d, i) == 0
    {
      assert Lane(d, i) == (Lane(a, i) - Lane(a, i)) % 128;
    }
  }

  lemma DifferenceUnitLane(a: U7x8, z: U7x8, d: U7x8, i: LaneIndex)
    requires Lane(a, i) < 128 && Lane(z, i) == 0
    requires Lane(d, i) == (Lane(a, i) - Lane(z, i)) % 128
    ensures Lane(d, i) == Lane(a, i)
  {
    SmallResidue(Lane(a, i));
  }

  /** Subtracting a value whose lanes are all zero changes nothing. */
  lemma DifferenceUnit(a: U7x8, z: U7x8, d: U7x8)
    requires WellFormed(a) && Uniform(z, 0) && LanewiseDifference(d, a, z)
    ensures d == a
  {
    forall i: LaneIndex
      ensures Lane(d, i) == Lane(a, i)
    {
      WellFormedLaneBelow128(a, i);
      DifferenceUnitLane(a, z, d, i);
    }
    LanesDetermineValue(d, a);
  }

  lemma DifferenceIsSumOfNegationLane(a: U7x8, b: U7x8, n: U7x8, d: U7x8, s: U7x8, i: LaneIndex)
    requires Lane(d, i) == (Lane(a, i) - Lane(b, i)) % 128 && Lane(n, i) == (128 - Lane(b, i)) % 128
    requires Lane(s, i) == (Lane(a, i) + Lane(n, i)) % 128
    ensures Lane(d, i) == Lane(s, i)
  {
    SubIsAddNegModulo(Lane(a, i), Lane(b, i));
  }

  /** `a - b` is `a + (-b)`. */
  lemma DifferenceIsSumOfNegation(a: U7x8, b: U7x8, n: U7x8, d: U7x8, s: U7x8)
    requires LanewiseDifference(d, a, b) && LanewiseNegation(n, b) && LanewiseSum(s, a, n)
    ensures d == s
  {
    forall i: LaneIndex
      ensures Lane(d, i) == Lane(s, i)
    {
      DifferenceIsSumOfNegationLane(a, b, n, d, s, i);
    }
    LanesDetermineValue(d, s);
  }

  // ------------------------------------------------------------ negation

  lemma NegationInvolutiveLane(a: U7x8, n: U7x8, nn: U7x8, i: LaneIndex)
    requires Lane(a, i) < 128
    requires Lane(n, i) == (128 - Lane(a, i)) % 128 && Lane(nn, i) == (128 - Lane(n, i)) % 128
    ensures Lane(nn, i) == Lane(a, i)
  {
    NegNegModulo(Lane(a, i));
  }

  /** `-(-a)` is `a`. */
  lemma NegationInvolutive(a: U7x8, n: U7x8, nn: U7x8)
    requires WellFormed(a) && LanewiseNegation(n, a) && LanewiseNegation(nn, n)
    ensures nn == a
  {
    forall i: LaneIndex
      ensures Lane(nn, i) == Lane(a, i)
    {
      WellFormedLaneBelow128(a, i);
      NegationInvolutiveLane(a, n, nn, i);
    }
    LanesDetermineValue(nn, a);
  }

  lemma NegationCancelsLane(a: U7x8, n: U7x8, s: U7x8, i: LaneIndex)
    requires Lane(n, i) == (128 - Lane(a, i)) % 128 && Lane(s, i) == (Lane(a, i) + Lane(n, i)) % 128
    ensures Lane(s, i) == 0
  {
    AddNegModulo(Lane(a, i), Lane(n, i), Lane(s, i));
  }

  /** `a + (-a)` has every lane zero. */
  lemma NegationCancels(a: U7x8, n: U7x8, s: U7x8)
    requires LanewiseNegation(n, a) && LanewiseSum(s, a, n)
    ensures Uniform(s, 0)
  {
    forall i: LaneIndex
      ensures Lane(s, i) == 0
    {
      NegationCancelsLane(a, n, s, i);
    }
  }

  // ---------------------------------------------------------- complement

  lemma ComplementInvolutiveLane(a: U7x8, c: U7x8, cc: U7x8, i: LaneIndex)
    requires Lane(a, i) < 128
    requires Lane(c, i) == 127 - Lane(a, i) % 128 && Lane(cc, i) == 127 - Lane(c, i) % 128
    ensures Lane(cc, i) == Lane(a, i)
  {
    ComplementTwiceModulo(Lane(a, i), Lane(c, i), Lane(cc, i));
  }

  /** `!!a` is `a` when `a` has no padding bit to lose. */
  lemma ComplementInvolutive(a: U7x8, c: U7x8, cc: U7x8)
    requires WellFormed(a) && LanewiseComplement(c, a) && LanewiseComplement(cc, c)
    ensures cc == a
  {
    forall i: LaneIndex
      ensures Lane(cc, i) == Lane(a, i)
    {
      WellFormedLaneBelow128(a, i);
      ComplementInvolutiveLane(a, c, cc, i);
    }
    LanesDetermineValue(cc, a);
  }
}
