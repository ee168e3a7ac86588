# u7x8 in Dafny

A model of a Rust crate whose one type, `u7x8`, packs eight 7-bit
unsigned lanes into one `u64` and works on all eight at once
("SIMD within a register"). Lane `i` lives in byte `i` of the word, in bits
`8i .. 8i+6`. Bit `8i+7` is a padding bit. A value is *well-formed* when no
padding bit is set, i.e. `bits & 0x8080_8080_8080_8080 == 0`.

The model follows the crate's single source file, one module per concern:

- `Layout` (layout.dfy) holds the struct as `datatype U7x8 = U7x8(bits: bv64)` and the
  constant `MASK = 0x7F7F_7F7F_7F7F_7F7F`. It also holds the abstraction
  `Lane(x, i)`, the number `(x.0 >> (i * 8)) & 0xFF` that the Debug
  implementation prints for field `i`. Equality of values is equality of
  words, as the derived `PartialEq` makes it.
- `Lanewise` (lanewise.dfy) is the reference semantics: predicates that
  state the lanes of a result in terms of the lanes of its operands. They
  cover the sum, difference, negation and complement modulo 128, and a
  uniform value. The module also holds the algebra of that arithmetic.
- `Swar` (swar.dfy) and `Bytes` (bytes.dfy) hold the word-level and
  byte-level facts: which additions do not overflow, and that no carry
  crosses a byte boundary when operands are well-formed.
- `Ops` (ops.dfy) holds `splat`, `&`, `|`, `^`, `!`, `+`, unary `-`, binary
  `-`, the derived `Default` and the Debug fields. Each one computes exactly
  the source's word expression, with a contract in terms of the `Lanewise`
  predicates.
- `Assign` (assign.dfy) holds the compound assignments `&=`, `|=`, `^=`,
  `+=` and `-=`.
- `Laws` (laws.dfy) holds the crate's three unit tests, stated for the
  values they use and, where they generalise, for every well-formed value.
  It also holds the laws relating the operators: `-` undoes `+`,
  `a - b == a + (-b)`, `-` and `!` are involutions, associativity, De
  Morgan, and the Debug fields identifying a value.

Rust's `u64` addition panics on overflow in a debug build. `Add` therefore
requires `AddFits(a.bits, b.bits)` (the unbounded sum fits in 64 bits), and
`Sub` requires `SubFits(a, b)` (neither of its two raw additions
overflows). The lemmas `Ops.AddOfWellFormedFits` and
`Ops.SubOfWellFormedFits` discharge these for well-formed operands. The
panic of `splat` (`assert!(value <= 0x7F)`) is its precondition.

## Model

| member | source | states |
|---|---|---|
| Layout.LanesDetermineValue | src/lib.rs:7-8 | two values are equal exactly when all eight lanes agree, so word equality is lane equality |
| Layout.WellFormedIffLanesBelow128 | src/lib.rs:20 | a value has no padding bit outside `MASK` exactly when every lane is at most 127 |
| Ops.Splat | src/lib.rs:29-37 | `splat(v)` for `v <= 0x7F` is well-formed and every lane equals `v`; larger `v` is excluded as the panic |
| Ops.SplatLoopReplicates | src/lib.rs:33-35 | eight rounds of or-ing `value << (i * 8)` into `ret` put `value` into every byte of the word |
| Ops.SplatLoop | src/lib.rs:29-37 | running the loop of `splat` as written yields the same value as `Splat`, well-formed, with every lane `v` |
| Ops.Default | src/lib.rs:7 | the derived default is well-formed with every lane 0 |
| Ops.DebugFields | src/lib.rs:13-14 | Debug prints eight numbers, field `i` being lane `i`, and all eight are below 128 exactly when the value is well-formed |
| Ops.BitAnd | src/lib.rs:44-46 | every byte of `a & b` is the and of the bytes of `a` and `b`; one well-formed operand makes the result well-formed |
| Ops.BitOr | src/lib.rs:60-62 | every byte of the `BitOr` result is the or of the operands' bytes; well-formed operands give a well-formed result |
| Ops.BitXor | src/lib.rs:76-78 | every byte of `a ^ b` is the xor of the operands' bytes; well-formed operands give a well-formed result |
| Ops.Not | src/lib.rs:108-110 | `!a` is always well-formed, and each lane is 127 minus the low seven bits of the lane of `a` |
| Ops.Add | src/lib.rs:92-94 | `a + b` is well-formed; for well-formed operands each lane is the sum of the lanes modulo 128 |
| Ops.AddOfWellFormedFits | src/lib.rs:92-94 | the raw `u64` sum of two well-formed words never overflows |
| Ops.Neg | src/lib.rs:117-119 | `-a` is well-formed for any `a`, and each lane is `128 - x` modulo 128 for the lane `x` of `a` |
| Ops.Sub | src/lib.rs:126-129 | `a - b` is well-formed; for a well-formed `a` each lane is the lane difference modulo 128, whatever `b` holds |
| Ops.SubOfWellFormedFits | src/lib.rs:127-128 | with a well-formed `a`, neither raw addition of `a + !b + splat(1)` overflows `u64`, as 127 + 127 + 1 = 255 per byte |
| Swar.MaskedSumLane | src/lib.rs:93 | for well-formed operands, byte `i` of the masked word sum is the masked sum of the bytes `i`: no carry crosses into the next lane |
| Swar.MaskedDifferenceLane | src/lib.rs:128 | for a well-formed `a`, byte `i` of the masked three-term sum depends only on the bytes `i` of `a` and `b`: no carry crosses a lane |
| Swar.WellFormedIncrementFits | src/lib.rs:127-128 | two words without padding bits plus the word of `splat(1)` sum without overflowing 64 bits |
| Bytes.ThreeTermSum | src/lib.rs:127 | a 7-bit lane plus another 7-bit byte plus one does not wrap a `u8` |
| Bytes.SevenBitDifference | src/lib.rs:128 | per byte, a 7-bit lane plus the masked complement of any byte plus one, cut to seven bits, is the difference modulo 128 |
| Assign.BitAndAssign | src/lib.rs:51-53 | after `&=`, the receiver is `self & rhs`, byte by byte |
| Assign.BitOrAssign | src/lib.rs:67-69 | after the or-assignment, the receiver is the or of `self` and `rhs`, byte by byte |
| Assign.BitXorAssign | src/lib.rs:83-85 | after `^=`, the receiver is `self ^ rhs`, byte by byte |
| Assign.AddAssign | src/lib.rs:99-101 | after `+=`, the receiver is `self + rhs`, well-formed, lane sums modulo 128 for well-formed operands |
| Assign.SubAssign | src/lib.rs:134-136 | after `-=`, the receiver is `self - rhs`, well-formed, lane differences modulo 128 for a well-formed receiver |
| Laws.SplatOneWord | src/lib.rs:143-147 | `splat(1)` is the word `0x0101_0101_0101_0101` |
| Laws.AddWrapsAround | src/lib.rs:149-154 | `splat(0x7F) + splat(1)` does not overflow and equals `splat(0)`: 127 + 1 wraps inside each lane |
| Laws.SubSelf | src/lib.rs:156-160 | `a - a == splat(0)` for every well-formed `a` |
| Laws.SubZero | src/lib.rs:156-162 | `a - splat(0) == a` for every well-formed `a` |
| Laws.AddZero | src/lib.rs:92-94 | `splat(0)` is the identity of `+` on well-formed values |
| Laws.AddCommutes | src/lib.rs:92-94 | `a + b == b + a`, and one does not overflow when the other does not |
| Laws.AddAssociates | src/lib.rs:92-94 | `(a + b) + c == a + (b + c)` for well-formed values, with no overflow on either side |
| Laws.AddLaneIsolation | src/lib.rs:93 | lane `i` of a sum depends only on lane `i` of the operands |
| Laws.AddNegIsZero | src/lib.rs:117-119 | `a + (-a) == splat(0)` for every well-formed `a` |
| Laws.NegInvolutive | src/lib.rs:117-119 | `-(-a) == a` for every well-formed `a` |
| Laws.SubIsAddNeg | src/lib.rs:126-129 | `a - b == a + (-b)` for a well-formed `a` and any `b` |
| Laws.SubAfterAdd | src/lib.rs:126-129 | `(a + b) - b == a` for well-formed values |
| Laws.AddAfterSub | src/lib.rs:92-94 | `(a - b) + b == a` for well-formed values |
| Laws.NotInvolutive | src/lib.rs:108-110 | `!!a == a` for every well-formed `a` |
| Laws.DeMorgan | src/lib.rs:108-110 | `!` of an and is the or of the `!`s, and `!` of an or is the and of the `!`s, for all values |
| Laws.BitwiseCommute | src/lib.rs:44-46 | and, or and xor are commutative |
| Laws.BitAndAssociates | src/lib.rs:44-46 | `&` is associative |
| Laws.BitOrAssociates | src/lib.rs:60-62 | or is associative |
| Laws.BitXorAssociates | src/lib.rs:76-78 | `^` is associative |
| Laws.BitwiseSelf | src/lib.rs:44-46 | and and or of a value with itself give the value; xor gives the default value |
| Laws.DefaultIsSplatZero | src/lib.rs:7 | the derived default equals `splat(0)` |
| Laws.SplatInjective | src/lib.rs:29-37 | `splat(v) == splat(w)` exactly when `v == w` |
| Laws.DebugFieldsDetermineValue | src/lib.rs:13-14 | two values print the same Debug fields exactly when they are equal |
| Lanewise.SumAssociates | src/lib.rs:93 | lane-wise addition modulo 128 is associative |
| Lanewise.DifferenceUndoesSum | src/lib.rs:128 | lane-wise difference undoes lane-wise sum on 7-bit lanes |
| Lanewise.DifferenceIsSumOfNegation | src/lib.rs:118 | lane-wise difference is the sum with the lane-wise negation |
| Lanewise.NegationCancels | src/lib.rs:118 | a lane plus its negation is 0 modulo 128 |

## Left out

- The Debug formatting machinery (`debug_tuple`, `Formatter`, `finish`) is output plumbing. Only the byte extraction it prints is modelled, as `Lane` and `Ops.DebugFields`.
- The derived `Ord`, `PartialOrd`, `Hash`, `Clone` and `Copy` are compiler-generated comparisons of the word. `Eq` is the datatype's own equality, which is word equality.
- A release build wraps the raw `u64` additions instead of panicking. The model takes the debug-build behaviour: an overflowing addition is excluded by the `AddFits`/`SubFits` preconditions.
- The compound assignments mutate `*self`. They are modelled as methods that take the receiver and return its new value.
- `#![no_std]` and `#[inline]` carry no semantics.
- Ops.Add: the lane contract is stated only for well-formed operands. For operands with padding bits that do not overflow, it states only that the result is well-formed, because the crate makes no promise there.
- Ops.Sub: the lane contract is stated only for a well-formed left operand, for the same reason.
