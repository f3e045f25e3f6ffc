module Sizes {
  /** `size_t` and `unsigned long` are 64 bits wide. */
  const SIZE_LIMIT: nat := 0x1_0000_0000_0000_0000

  function Max(a: nat, b: nat): nat {
    if a < b then b else a
  }

  function Min(a: nat, b: nat): nat {
    if a < b then a else b
  }
}
