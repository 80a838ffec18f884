/** Shared datatypes and fixed-width integer ranges. */
module Wrappers {
  datatype Option<+T> = None | Some(value: T)

  /** uint8_t, uint32_t, and a 4-bit symbol. */
  type Byte = x: int | 0 <= x < 256
  type U32 = x: int | 0 <= x < 0x1_0000_0000
  type Nibble = x: int | 0 <= x < 16

  /** One activation row, or one expert's packed weights: a vector of exact reals. */
  type Row = seq<real>

  // Products of integers, one fact at a time.

  lemma MulMonotone(f: nat, p: int, q: int)
    ensures p <= q ==> f * p <= f * q
  {
  }

  lemma Scale(f: nat, d: int)
    ensures d >= 1 ==> d * f >= f
    ensures d <= -1 ==> d * f + f <= 0
  {
  }
}
