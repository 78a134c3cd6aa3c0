/**
 * Byte-size unit conversions of the utility crate.
 *
 * Each conversion multiplies the previous one by 1024. The source computes in
 * `usize`, where an overflowing product panics when overflow checks are on and
 * wraps modulo 2^64 when they are off; each conversion here requires its
 * product to fit in a 64-bit `usize` (the platform layer targets 64-bit
 * Windows), so neither outcome is part of the model.
 */
module Units {

  /** Largest value of a 64-bit `usize`. */
  const USIZE_MAX: nat := 0xFFFF_FFFF_FFFF_FFFF

  /** Bytes in one kibibyte, mebibyte, gibibyte and tebibyte. */
  const KIB: nat := 0x400
  const MIB: nat := 0x10_0000
  const GIB: nat := 0x4000_0000
  const TIB: nat := 0x100_0000_0000

  /** `x` kilobytes in bytes: a whole number of KIB-sized units, x of them. */
  function Kilobytes(x: nat): (r: nat)
    requires x * KIB <= USIZE_MAX
    ensures r % KIB == 0 && r / KIB == x
    ensures r <= USIZE_MAX
  {
    x * 1024
  }

  /** `x` megabytes in bytes, built on Kilobytes as the source does. */
  function Megabytes(x: nat): (r: nat)
    requires x * MIB <= USIZE_MAX
    ensures r == x * MIB
    ensures r % MIB == 0 && r / MIB == x
    ensures r <= USIZE_MAX
  {
    Kilobytes(x) * 1024
  }

  /** `x` gigabytes in bytes, built on Megabytes as the source does. */
  function Gigabytes(x: nat): (r: nat)
    requires x * GIB <= USIZE_MAX
    ensures r == x * GIB
    ensures r % GIB == 0 && r / GIB == x
    ensures r <= USIZE_MAX
  {
    Megabytes(x) * 1024
  }

  /** `x` terabytes in bytes, built on Gigabytes as the source does. */
  function Terrabytes(x: nat): (r: nat)
    requires x * TIB <= USIZE_MAX
    ensures r == x * TIB
    ensures r % TIB == 0 && r / TIB == x
    ensures r <= USIZE_MAX
  {
    Gigabytes(x) * 1024
  }

  /**
   * Each unit is 1024 of the one below it, so the chain agrees at every step,
   * each conversion over its own domain.
   */
  lemma ConversionChain(x: nat)
    requires x * KIB <= USIZE_MAX
    ensures Kilobytes(x) == x * KIB
    ensures x * MIB <= USIZE_MAX ==> Megabytes(x) == Kilobytes(x) * KIB == x * MIB
    ensures x * GIB <= USIZE_MAX ==> Gigabytes(x) == Megabytes(x) * KIB == x * GIB
    ensures x * TIB <= USIZE_MAX ==> Terrabytes(x) == Gigabytes(x) * KIB == x * TIB
  {
  }

  /** Every conversion sends 0 to 0 and is monotone in its argument over its own domain. */
  lemma ConversionsMonotone(x: nat, y: nat)
    requires x <= y && y * KIB <= USIZE_MAX
    ensures Kilobytes(0) == Megabytes(0) == Gigabytes(0) == Terrabytes(0) == 0
    ensures x * KIB <= y * KIB && Kilobytes(x) <= Kilobytes(y)
    ensures y * MIB <= USIZE_MAX ==> x * MIB <= y * MIB && Megabytes(x) <= Megabytes(y)
    ensures y * GIB <= USIZE_MAX ==> x * GIB <= y * GIB && Gigabytes(x) <= Gigabytes(y)
    ensures y * TIB <= USIZE_MAX ==> x * TIB <= y * TIB && Terrabytes(x) <= Terrabytes(y)
  {
  }

  /**
   * The edge of Terrabytes' domain: it is defined at `2^24 - 1`, and the next
   * argument's product no longer fits in `usize`.
   */
  lemma LargestTerrabytes()
    ensures 0xFF_FFFF * TIB <= USIZE_MAX && Terrabytes(0xFF_FFFF) == 0xFF_FFFF * TIB
    ensures !(0x100_0000 * TIB <= USIZE_MAX)
  {
  }

  /** The edge of Kilobytes' domain: `2^54 - 1` fits, `2^54` does not. */
  lemma LargestKilobytes()
    ensures 0x3F_FFFF_FFFF_FFFF * KIB <= USIZE_MAX && Kilobytes(0x3F_FFFF_FFFF_FFFF) == 0x3F_FFFF_FFFF_FFFF * KIB
    ensures !(0x40_0000_0000_0000 * KIB <= USIZE_MAX)
  {
  }
}
