/** Unsigned 64-bit numbers, minimum and maximum. */
module Numbers {
  const TWO64: nat := 0x1_0000_0000_0000_0000
  const U64_MAX: nat := 0xffff_ffff_ffff_ffff

  type U64 = n: nat | n <= 0xffff_ffff_ffff_ffff

  function Min(x: nat, y: nat): nat { if x <= y then x else y }
  function Max(x: nat, y: nat): nat { if x <= y then y else x }
}
