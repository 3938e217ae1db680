/**
 * `StartupInformation` (StartupInformation.hh, StartupInformation.cc): the
 * kernel's bounds and the Multiboot record, and the two sizes computed from
 * them in 32-bit unsigned arithmetic.
 */
module Startup {
  import opened Common
  import opened Multiboot

  datatype StartupInformation = StartupInformation(
    kernelStart: u32,
    kernelEnd: u32,
    multibootMagic: u32,
    multibootInformation: Information)

  /** `kernelSize()`: kernelEnd - kernelStart, wrapping modulo 2^32. */
  function KernelSize(si: StartupInformation): (r: u32)
    ensures si.kernelStart <= si.kernelEnd ==> r == si.kernelEnd - si.kernelStart
    ensures si.kernelEnd < si.kernelStart ==> r == si.kernelEnd - si.kernelStart + TWO32
  {
    Wrap32(si.kernelEnd - si.kernelStart)
  }

  /** `memorySize()`: 1 MiB plus the upper memory in bytes, wrapping modulo 2^32. */
  function MemorySize(si: StartupInformation): (r: u32)
  {
    Wrap32(1024 * 1024 + UpperMemoryKB(si.multibootInformation) * 1024)
  }

  /** With both bounds 4 KiB-aligned, as documented, the kernel size is a whole number of pages. */
  lemma KernelSizeIsPages(si: StartupInformation)
    requires si.kernelStart % 4096 == 0 && si.kernelEnd % 4096 == 0
    ensures KernelSize(si) % 4096 == 0
  {
    var a, b := si.kernelStart / 4096, si.kernelEnd / 4096;
    assert si.kernelStart == 4096 * a && si.kernelEnd == 4096 * b;
    if si.kernelStart <= si.kernelEnd {
      assert KernelSize(si) == 4096 * (b - a);
    } else {
      assert KernelSize(si) == 4096 * (b - a + 0x10_0000);
    }
  }

  /** Without the memory flag the upper memory reads as 0, so the size is exactly 1 MiB. */
  lemma MemorySizeWithoutFlag(si: StartupInformation)
    requires !Present(si.multibootInformation.flags, MemoryFlag)
    ensures MemorySize(si) == 0x10_0000
  {
  }

  /** Below 4193280 KB of upper memory nothing wraps: the size is 1 MiB plus the upper memory, so at least 1 MiB. */
  lemma MemorySizeNoWrap(si: StartupInformation)
    requires UpperMemoryKB(si.multibootInformation) < 4193280
    ensures MemorySize(si) == 0x10_0000 + UpperMemoryKB(si.multibootInformation) * 1024
    ensures MemorySize(si) >= 0x10_0000
  {
  }

  /** At 4193280 KB of upper memory (4 GiB in total) the u32 sum wraps to 0. */
  lemma MemorySizeWrapsAt4GiB(si: StartupInformation)
    requires UpperMemoryKB(si.multibootInformation) == 4193280
    ensures MemorySize(si) == 0
  {
  }
}
