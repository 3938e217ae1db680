/**
 * Helpers whose bodies are not part of this model and are therefore assumed
 * here with their evident meaning: `kstd::Bit::set`, `kstd::Bit::clear`,
 * `kstd::Bit::setMask`, `memory::pageSize` and `memory::pageAlignDown`.
 * "Every other bit is kept" is stated with masks: `r & !M == x & !M`.
 */
module Bits {

  /** `memory::pageSize`: 4 KiB pages, as in 32-bit paging without PSE. */
  const PageSize: nat := 4096

  /** `kstd::Bit::set(x, n)` (assumed). */
  function SetBit32(x: bv32, n: bv32): bv32
    requires n < 32
  {
    x | (1 << n)
  }

  /** `kstd::Bit::clear(x, n)` (assumed). */
  function ClearBit32(x: bv32, n: bv32): bv32
    requires n < 32
  {
    x & !(1 << n)
  }

  /** `kstd::Bit::setMask(x, v, m)` (assumed). */
  function SetMask(x: bv32, v: bv32, m: bv32): bv32
  {
    (x & !m) | (v & m)
  }

  /** `memory::pageAlignDown(a)` (assumed). */
  function PageAlignDown(a: bv32): bv32
  {
    a & 0xFFFF_F000
  }

  /** `set` makes bit n 1 and keeps every other bit. */
  lemma SetOneBit(x: bv32, n: bv32)
    requires n < 32
    ensures SetBit32(x, n) & (1 << n) == (1 << n)
    ensures SetBit32(x, n) & !(1 << n) == x & !(1 << n)
  {
  }

  /** `clear` makes bit n 0 and keeps every other bit. */
  lemma ClearOneBit(x: bv32, n: bv32)
    requires n < 32
    ensures ClearBit32(x, n) & (1 << n) == 0
    ensures ClearBit32(x, n) & !(1 << n) == x & !(1 << n)
  {
  }

  /** `setMask`: the bits selected by `m` come from `v`, the others from `x`. */
  lemma SetMaskSelects(x: bv32, v: bv32, m: bv32)
    ensures SetMask(x, v, m) & m == v & m
    ensures SetMask(x, v, m) & !m == x & !m
  {
  }

  /** Aligning down clears the offset within the page and keeps the page number. */
  lemma PageAlignDownBits(a: bv32)
    ensures PageAlignDown(a) & 0xFFF == 0
    ensures PageAlignDown(a) & 0xFFFF_F000 == a & 0xFFFF_F000
  {
  }
}
