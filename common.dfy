/** Shared vocabulary of the model: optional values, results, and the
    64-bit unsigned arithmetic that the agent and the registry rely on. */
module Common {

  datatype Option<T> = None | Some(value: T) {
    /** `unwrap_or`: the value, or the default when absent. */
    function GetOr(default: T): T {
      match this
      case Some(v) => v
      case None => default
    }
  }

  /** `Result<T, E>`: a success value or the error that ended the operation. */
  datatype Result<T, E> = Ok(value: T) | Err(error: E)

  /** Largest value of a Rust `u64`. */
  const U64_MAX: nat := 0xFFFF_FFFF_FFFF_FFFF

  /** Number of distinct `u64` values; arithmetic that wraps is taken modulo this. */
  const U64_MODULUS: nat := 0x1_0000_0000_0000_0000

  predicate IsU64(x: nat) {
    x <= U64_MAX
  }

  function Min(a: nat, b: nat): nat {
    if a <= b then a else b
  }

  /** `u64::saturating_sub`: the difference, or 0 when `b` exceeds `a`. */
  function SatSub(a: nat, b: nat): (r: nat)
    ensures r <= a
    ensures b <= a ==> r + b == a
    ensures a <= b ==> r == 0
  {
    if a >= b then a - b else 0
  }

  /** `u64::saturating_add`: the sum, or `U64_MAX` when it would not fit. */
  function SatAdd(a: nat, b: nat): (r: nat)
    requires IsU64(a) && IsU64(b)
    ensures IsU64(r)
    ensures r == Min(a + b, U64_MAX)
  {
    if a + b <= U64_MAX then a + b else U64_MAX
  }

  /** `u64` multiplication as a release build performs it: wrapping. */
  function WrappingMul(a: nat, b: nat): (r: nat)
    ensures IsU64(r)
    ensures a * b <= U64_MAX ==> r == a * b
  {
    (a * b) % U64_MODULUS
  }
}
