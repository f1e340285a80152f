// Machine integers of the firmware, as ranges of int.  Every place where the
// source wraps, truncates or overflows writes the modulus out.
module FixedWidth {
  const TWO_16: int := 0x1_0000
  const TWO_32: int := 0x1_0000_0000
  const TWO_64: int := 0x1_0000_0000_0000_0000

  const INT32_MAX: int := 0x7FFF_FFFF
  const INT32_MIN: int := -0x8000_0000
  const UINT32_MAX: int := 0xFFFF_FFFF
  const INT64_MAX: int := 0x7FFF_FFFF_FFFF_FFFF
  const INT64_MIN: int := -0x8000_0000_0000_0000
  const UINT64_MAX: int := 0xFFFF_FFFF_FFFF_FFFF

  type u8 = x: int | 0 <= x < 0x100
  type u16 = x: int | 0 <= x < 0x1_0000
  type u32 = x: int | 0 <= x < 0x1_0000_0000
  type u64 = x: int | 0 <= x < 0x1_0000_0000_0000_0000
  type i32 = x: int | -0x8000_0000 <= x < 0x8000_0000
  type i64 = x: int | -0x8000_0000_0000_0000 <= x < 0x8000_0000_0000_0000

  type Bytes = seq<u8>

  datatype Option<+T> = None | Some(value: T)

  predicate FitsI32(x: int) { INT32_MIN <= x <= INT32_MAX }

  predicate FitsI64(x: int) { INT64_MIN <= x <= INT64_MAX }

  function Abs(x: int): nat { if x < 0 then -x else x }

  // (uint32_t)(later - earlier): elapsed ticks of the wrapping millisecond clock.
  function Elapsed(later: u32, earlier: u32): (d: u32) { (later - earlier) % TWO_32 }

  // The counter never shows more than has passed, and shows all of it within
  // one turn.
  lemma ElapsedAtMost(now: nat, start: nat)
    requires start <= now
    ensures Elapsed(now % 0x1_0000_0000, start % 0x1_0000_0000) <= now - start
    ensures now - start < 0x1_0000_0000 ==> Elapsed(now % 0x1_0000_0000, start % 0x1_0000_0000) == now - start
  {}
}
