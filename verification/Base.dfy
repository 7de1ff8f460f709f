/** Datatypes shared by every module, and the machine widths the service computes in. */
module Base {

  datatype Option<+T> = None | Some(value: T)

  /** `u64::MAX` and the modulus an unchecked `u64` addition wraps at. */
  const U64_MODULUS: nat := 0x1_0000_0000_0000_0000
  const U64_MAX: nat := U64_MODULUS - 1

  /** An unchecked `u64` sum, as a release build computes it. */
  function WrapU64(n: nat): (w: nat)
    ensures w <= U64_MAX
    ensures n <= U64_MAX ==> w == n
  {
    n % U64_MODULUS
  }

  /** `u64::saturating_sub`. */
  function SaturatingSub(a: nat, b: nat): (d: nat)
    ensures b <= a ==> d + b == a
    ensures a < b ==> d == 0
  {
    if b <= a then a - b else 0
  }

  function Min(a: nat, b: nat): nat { if a <= b then a else b }
}
