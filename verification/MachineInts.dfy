// The machine integers of the supervisor's clocks and counters.
module MachineInts {

  const TWO_63: int := 0x8000_0000_0000_0000
  const TWO_64: int := 0x1_0000_0000_0000_0000

  type u32 = x: int | 0 <= x < 0x1_0000_0000
  type u64 = x: int | 0 <= x < 0x1_0000_0000_0000_0000
  type i64 = x: int | -0x8000_0000_0000_0000 <= x < 0x8000_0000_0000_0000

  const I64_MIN: i64 := -0x8000_0000_0000_0000
  const I64_MAX: i64 := 0x7fff_ffff_ffff_ffff

  /** `saturating_sub` on i64. */
  function SaturatingSub(a: i64, b: i64): i64 {
    if a - b < I64_MIN then I64_MIN else if a - b > I64_MAX then I64_MAX else a - b
  }

  /** `as i64`, keeping the bits. */
  function AsI64(n: u64): i64 { if n < TWO_63 then n else n - TWO_64 }

  /** `as u64`, keeping the bits. */
  function AsU64(x: i64): u64 { if x >= 0 then x else x + TWO_64 }

  /** Multiplication that drops the bits above the 64th. */
  function WrappingMul(a: u64, b: u64): u64 { (a * b) % 0x1_0000_0000_0000_0000 }
}
