/** Single bits of 16-bit words, as Rust's `u16` shifts and masks expose them. */
module Bits {
  /** Bit `i` of `x` is set. */
  predicate Bit(x: bv16, i: bv16)
    requires i < 16
  {
    (x >> i) & 1 == 1
  }

  /** Or-ing in a 0 or 1 shifted to bit `k` sets bit `k` exactly when it is 1, and leaves the other bits. */
  lemma SetBit(x: bv16, value: bv16, k: bv16, i: bv16)
    requires value <= 1 && k < 10 && i < 10
    ensures Bit(x | (value << k), i) <==> Bit(x, i) || (i == k && value == 1)
  {
  }

  /** Or-ing a bit below 10 into a 10-bit number keeps it a 10-bit number. */
  lemma SetBitBound(x: bv16, value: bv16, k: bv16)
    requires value <= 1 && k < 10
    ensures x < 1024 ==> x | (value << k) < 1024
  {
  }
}
