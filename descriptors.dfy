/**
 * x86 descriptor tables (Descriptors.hh/.cc): the 8-byte segment
 * descriptors of the GDT, after section 3.4.5 of the Intel SDM Vol. 3A,
 * the 8-byte gate descriptors of the IDT, after section 6.11 of the same
 * volume, and the two fixed-size tables that hold them.
 */
module Descriptors {

  /** `x86::DPL`, an `enum class : uint8_t` of the four rings. */
  type Dpl = x: bv8 | x < 4
  const Ring0: Dpl := 0
  const Ring1: Dpl := 1
  const Ring2: Dpl := 2
  const Ring3: Dpl := 3

  /** `GDT::Type`: the four-bit segment type field. */
  type SegmentType = x: bv8 | x < 16
  const DataRO: SegmentType := 0x0
  const DataROA: SegmentType := 0x1
  const DataRW: SegmentType := 0x2
  const DataRWA: SegmentType := 0x3
  const DataROEX: SegmentType := 0x4
  const DataROEXA: SegmentType := 0x5
  const DataRWEX: SegmentType := 0x6
  const DataRWEXA: SegmentType := 0x7
  const CodeEX: SegmentType := 0x8
  const CodeEXA: SegmentType := 0x9
  const CodeEXR: SegmentType := 0xA
  const CodeEXRA: SegmentType := 0xB
  const CodeEXC: SegmentType := 0xC
  const CodeEXCA: SegmentType := 0xD
  const CodeEXRC: SegmentType := 0xE
  const CodeEXRCA: SegmentType := 0xF

  /** A code segment has bit 3 of its type set; a data segment has it clear. */
  predicate IsCodeType(t: SegmentType) { t & 8 == 8 }

  /** `IDT::Type`: task, interrupt and trap gates. */
  type GateType = x: bv8 | x == 5 || x == 6 || x == 7 witness 5
  const Task: GateType := 5
  const Interrupt: GateType := 6
  const Trap: GateType := 7

  /** `GDT::Size` and `IDT::Size`. */
  const GdtSize: nat := 5
  const IdtSize: nat := 256

  /** `GDT::DescriptorSpec`. */
  datatype SegmentSpec = SegmentSpec(
    base: bv32,
    limit: bv32,
    hasCoarseGranularity: bool,
    has32BitOperations: bool,
    hasNative64BitCode: bool,
    available: bool,
    isPresent: bool,
    privilegeLevel: Dpl,
    isCodeDataSegment: bool,
    segmentType: SegmentType)

  /** `IDT::DescriptorSpec`. */
  datatype GateSpec = GateSpec(
    segment: bv16,
    offset: bv32,
    isPresent: bool,
    privilegeLevel: Dpl,
    is32BitGate: bool,
    gateType: GateType)

  /** `DescriptorSpec::kernelSegment`: a present ring-0 code/data segment, 4 KiB granular, 32-bit. */
  function KernelSegment(base: bv32, limit: bv32, segmentType: SegmentType): (s: SegmentSpec)
    ensures s.base == base && s.limit == limit && s.segmentType == segmentType
    ensures s.hasCoarseGranularity && s.has32BitOperations && s.isPresent && s.isCodeDataSegment
    ensures !s.hasNative64BitCode && !s.available && s.privilegeLevel == Ring0
  {
    SegmentSpec(base, limit, true, true, false, false, true, Ring0, true, segmentType)
  }

  /** `uint8_t(flag)` widened to the descriptor word. */
  function Bit(b: bool): bv64 { if b then 1 else 0 }

  /** The `width`-bit field of `d` starting at bit `low`. */
  function Field(d: bv64, low: bv64, mask: bv64): bv64
    requires low < 64
  {
    (d >> low) & mask
  }

  /**
   * The steps of `GDT::DescriptorSpec::descriptor`, with the bit that goes
   * into the AVL field as a parameter: build the upper double-word, shift it
   * up by 32, then add the lower double-word. `base << 16` is computed in
   * 32 bits, as the source's `uint32_t` operand makes it.
   */
  function SegmentWord(s: SegmentSpec, avl: bool): bv64
  {
    var upper: bv64 :=
      (s.base & 0xFF00_0000) as bv64
      | (Bit(s.hasCoarseGranularity) << 23)
      | (Bit(s.has32BitOperations) << 22)
      | (Bit(s.hasNative64BitCode) << 21)
      | (Bit(avl) << 20)
      | (s.limit & 0x000F_0000) as bv64
      | (Bit(s.isPresent) << 15)
      | ((s.privilegeLevel as bv64) << 13)
      | (Bit(s.isCodeDataSegment) << 12)
      | ((s.segmentType as bv64) << 8)
      | ((s.base >> 16) & 0xFF) as bv64;
    (upper << 32) | (s.base << 16) as bv64 | (s.limit & 0xFFFF) as bv64
  }

  /** `descriptor()` as written: the AVL bit is taken from `hasNative64BitCode`. */
  function SegmentDescriptorAsWritten(s: SegmentSpec): bv64
  {
    SegmentWord(s, s.hasNative64BitCode)
  }

  /** `descriptor()` as evidently intended: the AVL bit is `available`. */
  function SegmentDescriptor(s: SegmentSpec): bv64
  {
    SegmentWord(s, s.available)
  }

  /** The base address lands in bits 15:0 of the lower and bits 7:0 and 31:24 of the upper double-word. */
  lemma SegmentBaseFields(s: SegmentSpec, avl: bool)
    ensures Field(SegmentWord(s, avl), 16, 0xFFFF) == (s.base & 0xFFFF) as bv64
    ensures Field(SegmentWord(s, avl), 32, 0xFF) == ((s.base >> 16) & 0xFF) as bv64
    ensures Field(SegmentWord(s, avl), 56, 0xFF) == (s.base >> 24) as bv64
  {
  }

  /** Limit bits 15:0 land in bits 15:0 and limit bits 19:16 in bits 51:48. */
  lemma SegmentLimitFields(s: SegmentSpec, avl: bool)
    ensures Field(SegmentWord(s, avl), 0, 0xFFFF) == (s.limit & 0xFFFF) as bv64
    ensures Field(SegmentWord(s, avl), 48, 0xF) == ((s.limit >> 16) & 0xF) as bv64
  {
  }

  /** The flag nibble: G in bit 55, D/B in 54, L in 53 and AVL in 52. */
  lemma SegmentFlagFields(s: SegmentSpec, avl: bool)
    ensures Field(SegmentWord(s, avl), 55, 1) == Bit(s.hasCoarseGranularity)
    ensures Field(SegmentWord(s, avl), 54, 1) == Bit(s.has32BitOperations)
    ensures Field(SegmentWord(s, avl), 53, 1) == Bit(s.hasNative64BitCode)
    ensures Field(SegmentWord(s, avl), 52, 1) == Bit(avl)
  {
  }

  /** The access byte: P in bit 47, DPL in bits 46:45, S in bit 44 and the type in bits 43:40. */
  lemma SegmentAccessFields(s: SegmentSpec, avl: bool)
    ensures Field(SegmentWord(s, avl), 47, 1) == Bit(s.isPresent)
    ensures Field(SegmentWord(s, avl), 45, 3) == s.privilegeLevel as bv64
    ensures Field(SegmentWord(s, avl), 44, 1) == Bit(s.isCodeDataSegment)
    ensures Field(SegmentWord(s, avl), 40, 0xF) == s.segmentType as bv64
  {
  }

  /** Limit bits 31:20 are not encoded: limits that agree on bits 19:0 give the same descriptor. */
  lemma SegmentLimitHighBitsIgnored(s: SegmentSpec, limit: bv32, avl: bool)
    requires limit & 0xF_FFFF == s.limit & 0xF_FFFF
    ensures SegmentWord(s.(limit := limit), avl) == SegmentWord(s, avl)
  {
    LimitParts(limit, s.limit);
  }

  lemma LimitParts(a: bv32, b: bv32)
    requires a & 0xF_FFFF == b & 0xF_FFFF
    ensures a & 0xFFFF == b & 0xFFFF && a & 0x000F_0000 == b & 0x000F_0000
  {
    assert a & 0xFFFF == (a & 0xF_FFFF) & 0xFFFF;
    assert b & 0xFFFF == (b & 0xF_FFFF) & 0xFFFF;
    assert a & 0x000F_0000 == (a & 0xF_FFFF) & 0x000F_0000;
    assert b & 0x000F_0000 == (b & 0xF_FFFF) & 0x000F_0000;
  }

  /** The flat kernel code segment: base 0, limit 4 GiB in pages, execute/read. */
  lemma KernelCodeSegmentWord()
    ensures SegmentDescriptor(KernelSegment(0, 0xFFFF_FFFF, CodeEXR)) == 0x00CF_9A00_0000_FFFF
  {
  }

  /** The flat kernel data segment: base 0, limit 4 GiB in pages, read/write. */
  lemma KernelDataSegmentWord()
    ensures SegmentDescriptor(KernelSegment(0, 0xFFFF_FFFF, DataRW)) == 0x00CF_9200_0000_FFFF
  {
  }

  /**
   * The as-written encoder puts `hasNative64BitCode` into AVL: a segment
   * with `available` set and no 64-bit code gets AVL = 0.
   */
  lemma SegmentAvlAsWritten()
    ensures var s := SegmentSpec(0, 0, false, false, false, true, false, Ring0, false, DataRO);
      SegmentDescriptorAsWritten(s) == 0 && SegmentDescriptor(s) == 0x0010_0000_0000_0000
  {
  }

  /** Bit 52 (AVL) is `available` in the corrected encoder and `hasNative64BitCode` in the one as written. */
  lemma SegmentAvlBit(s: SegmentSpec)
    ensures Field(SegmentDescriptor(s), 52, 1) == Bit(s.available)
    ensures Field(SegmentDescriptorAsWritten(s), 52, 1) == Bit(s.hasNative64BitCode)
  {
    SegmentFlagFields(s, s.available);
    SegmentFlagFields(s, s.hasNative64BitCode);
  }

  /** The two encoders agree whenever the two flags agree, so on every kernel segment. */
  lemma SegmentEncodersAgree(s: SegmentSpec)
    requires s.available == s.hasNative64BitCode
    ensures SegmentDescriptorAsWritten(s) == SegmentDescriptor(s)
  {
  }

  /**
   * `IDT::DescriptorSpec::descriptor`. The source shifts `segment` in a
   * signed `int`, which is undefined for segment >= 0x8000, so the model
   * requires the segment to be below that.
   */
  function GateDescriptor(s: GateSpec): bv64
    requires s.segment < 0x8000
  {
    var task := s.gateType == Task;
    var d: bv64 := if task then 0 else Bit(s.is32BitGate);
    var upper: bv64 :=
      (if task then 0 else (s.offset & 0xFFFF_0000) as bv64)
      | (Bit(s.isPresent) << 15)
      | ((s.privilegeLevel as bv64) << 13)
      | (d << 11)
      | ((s.gateType as bv64) << 8);
    (upper << 32) | ((s.segment as bv64) << 16) | (if task then 0 else (s.offset & 0xFFFF) as bv64)
  }

  /** Interrupt and trap gates carry the handler offset in bits 63:48 and 15:0. */
  lemma GateOffsetFields(s: GateSpec)
    requires s.segment < 0x8000 && s.gateType != Task
    ensures Field(GateDescriptor(s), 48, 0xFFFF) == (s.offset >> 16) as bv64
    ensures Field(GateDescriptor(s), 0, 0xFFFF) == (s.offset & 0xFFFF) as bv64
    ensures Field(GateDescriptor(s), 43, 1) == Bit(s.is32BitGate)
  {
  }

  /** Task gates carry no offset and force D = 0. */
  lemma TaskGateFields(s: GateSpec)
    requires s.segment < 0x8000 && s.gateType == Task
    ensures Field(GateDescriptor(s), 48, 0xFFFF) == 0
    ensures Field(GateDescriptor(s), 0, 0xFFFF) == 0
    ensures Field(GateDescriptor(s), 43, 1) == 0
  {
  }

  /** Every gate: selector in bits 31:16, P in 47, DPL in 46:45, type in 42:40, bits 39:32 zero. */
  lemma GateCommonFields(s: GateSpec)
    requires s.segment < 0x8000
    ensures Field(GateDescriptor(s), 16, 0xFFFF) == s.segment as bv64
    ensures Field(GateDescriptor(s), 47, 1) == Bit(s.isPresent)
    ensures Field(GateDescriptor(s), 45, 3) == s.privilegeLevel as bv64
    ensures Field(GateDescriptor(s), 40, 7) == s.gateType as bv64
    ensures Field(GateDescriptor(s), 32, 0xFF) == 0
  {
  }

  /** A present ring-0 32-bit interrupt gate for the kernel code selector at 0x12345678. */
  lemma InterruptGateExample()
    ensures GateDescriptor(GateSpec(0x08, 0x1234_5678, true, Ring0, true, Interrupt)) == 0x1234_8E00_0008_5678
  {
  }

  /** The limit of the six-byte pseudo-descriptor `load` hands to the CPU: the table's last byte. */
  function PseudoDescriptorLimit(entries: nat): (limit: int)
    requires 1 <= entries <= 0x2000
    ensures 0 <= limit < 0x1_0000 && limit + 1 == 8 * entries
  {
    entries * 8 - 1
  }

  /** Both limits fit the 16-bit field. */
  lemma PseudoDescriptorLimits()
    ensures PseudoDescriptorLimit(GdtSize) == 39
    ensures PseudoDescriptorLimit(IdtSize) == 0x7FF < 0x1_0000
  {
  }

  /** `x86::GDT`: `Size` descriptors, set one at a time. */
  class Gdt {
    const table: array<bv64>
    /** The descriptors the processor uses: the table as it was at the last `load`. */
    var active: seq<bv64>

    /** `GDT()`: every entry is the null descriptor. */
    constructor ()
      ensures table.Length == GdtSize && fresh(table)
      ensures forall i :: 0 <= i < table.Length ==> table[i] == 0
      ensures active == []
    {
      table := new bv64[GdtSize](_ => 0);
      active := [];
    }

    /**
     * `load`: hand the processor the pseudo-descriptor {Size * 8 - 1, table}
     * and reload the segment registers. Only its effect on which
     * descriptors are in force is modelled.
     */
    method Load()
      modifies this
      ensures active == table[..]
    {
      active := table[..];
    }

    /**
     * `setDescriptor` as written: stores `spec.descriptor()`, whose AVL bit
     * comes from `hasNative64BitCode`; ignored when `index` is out of range.
     */
    method SetDescriptor(index: nat, spec: SegmentSpec)
      requires table.Length == GdtSize
      modifies table
      ensures index < GdtSize ==> table[..] == old(table[..])[index := SegmentDescriptorAsWritten(spec)]
      ensures index >= GdtSize ==> table[..] == old(table[..])
    {
      if index >= GdtSize {
        return;
      }
      table[index] := SegmentDescriptorAsWritten(spec);
    }

    /** `setDescriptor` with the corrected encoder, whose AVL bit is `available`. */
    method SetDescriptorCorrected(index: nat, spec: SegmentSpec)
      requires table.Length == GdtSize
      modifies table
      ensures index < GdtSize ==> table[..] == old(table[..])[index := SegmentDescriptor(spec)]
      ensures index >= GdtSize ==> table[..] == old(table[..])
    {
      if index >= GdtSize {
        return;
      }
      table[index] := SegmentDescriptor(spec);
    }

    /** `setNullDescriptor`: ignored when `index` is out of range. */
    method SetNullDescriptor(index: nat)
      requires table.Length == GdtSize
      modifies table
      ensures index < GdtSize ==> table[..] == old(table[..])[index := 0]
      ensures index >= GdtSize ==> table[..] == old(table[..])
    {
      if index >= GdtSize {
        return;
      }
      table[index] := 0;
    }
  }

  /** `x86::IDT`: `Size` gate descriptors, set one at a time. */
  class Idt {
    const table: array<bv64>
    /** The gates the processor uses: the table as it was at the last `load`. */
    var active: seq<bv64>

    /** `IDT()`: every entry is the null descriptor. */
    constructor ()
      ensures table.Length == IdtSize && fresh(table)
      ensures forall i :: 0 <= i < table.Length ==> table[i] == 0
      ensures active == []
    {
      table := new bv64[IdtSize](_ => 0);
      active := [];
    }

    /** `load`: hand the processor the pseudo-descriptor {Size * 8 - 1, table}. */
    method Load()
      modifies this
      ensures active == table[..]
    {
      active := table[..];
    }

    /** `setDescriptor`: ignored when `index` is out of range. */
    method SetDescriptor(index: nat, spec: GateSpec)
      requires table.Length == IdtSize && spec.segment < 0x8000
      modifies table
      ensures index < IdtSize ==> table[..] == old(table[..])[index := GateDescriptor(spec)]
      ensures index >= IdtSize ==> table[..] == old(table[..])
    {
      if index >= IdtSize {
        return;
      }
      table[index] := GateDescriptor(spec);
    }

    /** `setNullDescriptor`: ignored when `index` is out of range. */
    method SetNullDescriptor(index: nat)
      requires table.Length == IdtSize
      modifies table
      ensures index < IdtSize ==> table[..] == old(table[..])[index := 0]
      ensures index >= IdtSize ==> table[..] == old(table[..])
    {
      if index >= IdtSize {
        return;
      }
      table[index] := 0;
    }
  }

  /** Data types have bit 3 clear and code types have it set. */
  lemma SegmentTypeClasses(t: SegmentType)
    ensures IsCodeType(t) <==> t >= CodeEX
  {
  }
}
