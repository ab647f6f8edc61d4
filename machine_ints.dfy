/** Fixed-width integers and Rust's `as` casts between them (two's complement, wrapping). */
module MachineInts {

  const TWO_31: int := 0x8000_0000
  const TWO_32: int := 0x1_0000_0000
  const TWO_63: int := 0x8000_0000_0000_0000
  const TWO_64: int := 0x1_0000_0000_0000_0000

  type U32 = x: int | 0 <= x < 0x1_0000_0000
  type I32 = x: int | -0x8000_0000 <= x < 0x8000_0000
  type Usize = x: int | 0 <= x < 0x1_0000_0000_0000_0000
  type I64 = x: int | -0x8000_0000_0000_0000 <= x < 0x8000_0000_0000_0000

  /** `v as i32` for a `u32`: values from 2^31 up wrap to negatives. */
  function U32AsI32(v: U32): (r: I32)
    ensures r % TWO_32 == v % TWO_32
    ensures v < TWO_31 <==> r == v
  {
    if v < TWO_31 then v else v - TWO_32
  }

  /** `v as usize` for an `i32` on a 64-bit target: negatives sign-extend to huge values. */
  function I32AsUsize(v: I32): (r: Usize)
    ensures r % TWO_64 == v % TWO_64
    ensures v >= 0 <==> r == v
  {
    if v >= 0 then v else v + TWO_64
  }

  /** `v as i64` for a `usize`: values from 2^63 up wrap to negatives. */
  function UsizeAsI64(v: Usize): (r: I64)
    ensures r % TWO_64 == v % TWO_64
    ensures v < TWO_63 <==> r == v
  {
    if v < TWO_63 then v else v - TWO_64
  }

  /** `n as i32` for a length: wraps past 2^31 - 1. */
  function UsizeAsI32(v: Usize): (r: I32)
    ensures r % TWO_32 == v % TWO_32
    ensures v < TWO_31 ==> r == v
  {
    var low := v % TWO_32;
    if low < TWO_31 then low else low - TWO_32
  }

  /** A negative `i32` taken through `usize` and back to `i64` is negative again. */
  lemma NegativeSurvivesRoundTrip(v: I32)
    requires v < 0
    ensures UsizeAsI64(I32AsUsize(v)) == v
  {
  }
}
