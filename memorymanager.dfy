/**
 * `kernel::MemoryManager` (memory/Memory.cc): installs the flat segment
 * model, a null descriptor followed by a ring-0 code and a ring-0 data
 * segment that both span the whole 4 GiB address space.
 */
module MemoryManagement {
  import opened Descriptors

  /** The selectors `GDT::load` hard-codes for CS and for the data segment registers. */
  const CodeSelector: nat := 0x08
  const DataSelector: nat := 0x10

  /** A selector for GDT entry `index` at privilege 0: bits 15:3 index, TI = 0, RPL = 0. */
  function SelectorOf(index: nat): nat { index * 8 }

  /** The flat kernel code and data segments. */
  function FlatCode(): SegmentSpec { KernelSegment(0, 0xFFFF_FFFF, CodeEXR) }
  function FlatData(): SegmentSpec { KernelSegment(0, 0xFFFF_FFFF, DataRW) }

  /** The hard-coded selectors name entries 1 and 2, where the code and data segments go. */
  lemma SelectorsNameFlatEntries()
    ensures CodeSelector == SelectorOf(1) && DataSelector == SelectorOf(2)
    ensures CodeSelector % 8 == 0 && DataSelector % 8 == 0
  {
  }

  class MemoryManager {
    /** `mGDT`. */
    const gdt: Gdt

    constructor ()
      ensures fresh(gdt) && fresh(gdt.table) && gdt.table.Length == GdtSize
      ensures forall i :: 0 <= i < gdt.table.Length ==> gdt.table[i] == 0
      ensures gdt.active == []
    {
      gdt := new Gdt();
    }

    /**
     * `initializeGDT`: entry 0 null, entry 1 the flat code segment, entry 2
     * the flat data segment; entries 3 and 4 keep what they held. The table
     * is loaded only after all three writes.
     */
    method InitializeGdt()
      requires gdt.table.Length == GdtSize
      modifies gdt, gdt.table
      ensures gdt.table[..] == old(gdt.table[..])[0 := 0][1 := SegmentDescriptorAsWritten(FlatCode())][2 := SegmentDescriptorAsWritten(FlatData())]
      ensures gdt.active == gdt.table[..]
    {
      gdt.SetNullDescriptor(0);
      gdt.SetDescriptor(1, KernelSegment(0, 0xFFFF_FFFF, CodeEXR));
      gdt.SetDescriptor(2, KernelSegment(0, 0xFFFF_FFFF, DataRW));
      gdt.Load();
    }

    /** `initialize`: set up the GDT, then log; neither allocator is touched. */
    method Initialize()
      requires gdt.table.Length == GdtSize
      modifies gdt, gdt.table
      ensures gdt.table[..] == old(gdt.table[..])[0 := 0][1 := SegmentDescriptorAsWritten(FlatCode())][2 := SegmentDescriptorAsWritten(FlatData())]
      ensures gdt.active == gdt.table[..]
    {
      InitializeGdt();
    }
  }

  /**
   * The table the processor uses after `initialize` on a fresh manager, word
   * by word. The as-written encoder gives the intended words here, because
   * kernel segments have neither AVL nor 64-bit code set.
   */
  lemma {:induction false} FlatTable(before: seq<bv64>)
    requires |before| == GdtSize && forall i :: 0 <= i < |before| ==> before[i] == 0
    ensures before[0 := 0][1 := SegmentDescriptorAsWritten(FlatCode())][2 := SegmentDescriptorAsWritten(FlatData())]
      == [0, 0x00CF_9A00_0000_FFFF, 0x00CF_9200_0000_FFFF, 0, 0]
  {
    SegmentEncodersAgree(FlatCode());
    SegmentEncodersAgree(FlatData());
    KernelCodeSegmentWord();
    KernelDataSegmentWord();
  }

  /** A fresh manager, initialized: the processor runs with exactly the flat table. */
  method BootSegments() returns (table: seq<bv64>)
    ensures table == [0, 0x00CF_9A00_0000_FFFF, 0x00CF_9200_0000_FFFF, 0, 0]
  {
    var manager := new MemoryManager();
    ghost var before := manager.gdt.table[..];
    manager.Initialize();
    FlatTable(before);
    table := manager.gdt.active;
  }
}
