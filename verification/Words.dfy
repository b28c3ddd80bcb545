/** The machine-word widths and fixed-point scale shared by every component. */
module Words {
  const U64: nat := 0x1_0000_0000_0000_0000
  const U128: nat := 0x1_0000_0000_0000_0000_0000_0000_0000_0000
  const U256: nat := U128 * U128

  /** Parts per million: `PPM` is the neutral factor 1.0. */
  const PPM: nat := 1_000_000

  type u64 = x: nat | x < U64
  type u128 = x: nat | x < U128
  type u256 = x: nat | x < U256

  function Min(a: nat, b: nat): nat { if a <= b then a else b }

  function Max(a: nat, b: nat): nat { if a <= b then b else a }

  datatype Option<+T> = None | Some(value: T)

  datatype Fallible<+T, +E> = Done(value: T) | Failed(error: E)

  /** Truncation to 128 bits, as unchecked operations do in a release build. */
  function Wrap(n: nat): u128 { n % U128 }

  /** Clipping to 128 bits, as the saturating operations do. */
  function Saturate(n: nat): u128 { Min(n, U128 - 1) }

  function SaturatingAdd(a: nat, b: nat): u128 { Saturate(a + b) }
}
