/** What several modules use. */
module Basics {
  datatype Option<+T> = None | Some(value: T)

  // The number of values of a 32-bit and of a 64-bit word.
  const WORD: nat := 0x1_0000_0000
  const DWORD: nat := 0x1_0000_0000_0000_0000

  function Min(a: nat, b: nat): nat { if a <= b then a else b }
}
