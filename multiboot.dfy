/**
 * The Multiboot boot-information reader (Multiboot.hh, Multiboot.cc), after
 * section 3.3 of the Multiboot Specification 0.6.96. The information record's
 * fields are values; the memory map is read from physical memory through an
 * iterator object whose `++` moves it in place.
 */
module Multiboot {
  import opened Common
  import opened Bytes

  /** One memory-map entry: packed {u64 base, u64 length, u32 type}. */
  datatype MemoryChunk = MemoryChunk(base: u64, length: u64, kind: u32)

  /** sizeof(MemoryChunk): the record is packed, so 8 + 8 + 4 bytes. */
  const ChunkSize: nat := 20

  /** Type 1 is available RAM; every other type is reserved. */
  predicate IsAvailable(c: MemoryChunk) { c.kind == 1 }

  /** The 20 bytes of a chunk as it lies in memory. */
  function EncodeChunk(c: MemoryChunk): (bs: seq<bv8>)
    ensures |bs| == ChunkSize
  {
    LeBytes(c.base, 8) + LeBytes(c.length, 8) + LeBytes(c.kind, 4)
  }

  /** `*mCurrent`: reading a chunk from 20 bytes of memory. */
  function ParseChunk(bs: seq<bv8>): MemoryChunk
    requires |bs| == ChunkSize
  {
    LeValueBound(bs[0..8]);
    LeValueBound(bs[8..16]);
    LeValueBound(bs[16..20]);
    RadixValues();
    MemoryChunk(LeValue(bs[0..8]), LeValue(bs[8..16]), LeValue(bs[16..20]))
  }

  /** Reading back a written chunk gives the chunk: the packed layout loses nothing. */
  lemma ChunkRoundTrip(c: MemoryChunk)
    ensures ParseChunk(EncodeChunk(c)) == c
  {
    var bs := EncodeChunk(c);
    RadixValues();
    assert bs[0..8] == LeBytes(c.base, 8);
    assert bs[8..16] == LeBytes(c.length, 8);
    assert bs[16..20] == LeBytes(c.kind, 4);
    LeRoundTrip(c.base, 8);
    LeRoundTrip(c.length, 8);
    LeRoundTrip(c.kind, 4);
  }

  /** Any 20 bytes are the encoding of the chunk read from them. */
  lemma ChunkBytesRoundTrip(bs: seq<bv8>)
    requires |bs| == ChunkSize
    ensures EncodeChunk(ParseChunk(bs)) == bs
  {
    LeBytesOfValue(bs[0..8]);
    LeBytesOfValue(bs[8..16]);
    LeBytesOfValue(bs[16..20]);
    assert bs == bs[0..8] + bs[8..16] + bs[16..20];
  }

  /** `mBootDevice`: four packed bytes. */
  datatype BootDevice = BootDevice(partitionLevel3: u8, partitionLevel2: u8, partitionLevel1: u8, driveNumber: u8)

  /** A boot module: packed {start, end, string, reserved}, all u32. */
  datatype Module = Module(start: u32, end: u32, name: u32, reserved: u32)

  const ModuleSize: nat := 16

  function EncodeModule(m: Module): (bs: seq<bv8>)
    ensures |bs| == ModuleSize
  {
    LeBytes(m.start, 4) + LeBytes(m.end, 4) + LeBytes(m.name, 4) + LeBytes(m.reserved, 4)
  }

  function ParseModule(bs: seq<bv8>): Module
    requires |bs| == ModuleSize
  {
    LeValueBound(bs[0..4]);
    LeValueBound(bs[4..8]);
    LeValueBound(bs[8..12]);
    LeValueBound(bs[12..16]);
    RadixValues();
    Module(LeValue(bs[0..4]), LeValue(bs[4..8]), LeValue(bs[8..12]), LeValue(bs[12..16]))
  }

  lemma ModuleRoundTrip(m: Module)
    ensures ParseModule(EncodeModule(m)) == m
  {
    var bs := EncodeModule(m);
    RadixValues();
    assert bs[0..4] == LeBytes(m.start, 4);
    assert bs[4..8] == LeBytes(m.end, 4);
    assert bs[8..12] == LeBytes(m.name, 4);
    assert bs[12..16] == LeBytes(m.reserved, 4);
    LeRoundTrip(m.start, 4);
    LeRoundTrip(m.end, 4);
    LeRoundTrip(m.name, 4);
    LeRoundTrip(m.reserved, 4);
  }

  /** The symbol-table union: four u32 words read as a.out or ELF information. */
  datatype Symbols = Symbols(word0: u32, word1: u32, word2: u32, word3: u32)

  /** The VBE block: six u32 words. */
  datatype Vbe = Vbe(controlInformation: u32, modeInformation: u32, mode: u32,
                     interfaceSegment: u32, interfaceOff: u32, interfaceLength: u32)

  /**
   * The information record. Fields after `flags` are defined only when their
   * flag bit is set; memory sizes are in KB, the memory-map length in bytes.
   */
  datatype Information = Information(
    flags: u32,
    memLower: u32,
    memUpper: u32,
    bootDevice: BootDevice,
    commandLine: u32,
    modulesCount: u32,
    modulesAddress: u32,
    symbols: Symbols,
    memoryMapLength: u32,
    memoryMapAddress: u32,
    drivesLength: u32,
    drivesAddress: u32,
    apmTable: u32,
    vbe: Vbe)

  /** Flag bit numbers of the `Present` enumeration. */
  const MemoryFlag: nat := 0
  const BootDeviceFlag: nat := 1
  const CommandLineFlag: nat := 2
  const ModulesFlag: nat := 3
  const MemoryMapFlag: nat := 6

  /** `(mFlags & (1 << bit)) != 0`. */
  predicate Present(flags: u32, bit: nat)
  {
    (flags / Pow2(bit)) % 2 == 1
  }

  /** `lowerMemoryKB`: KB of memory below 1 MB, or 0 when the memory flag is clear. */
  function LowerMemoryKB(info: Information): (r: u32)
    ensures !Present(info.flags, MemoryFlag) ==> r == 0
    ensures Present(info.flags, MemoryFlag) ==> r == info.memLower
  {
    if !Present(info.flags, MemoryFlag) then 0 else info.memLower
  }

  /** `upperMemoryKB`: KB of memory above 1 MB, or 0 when the memory flag is clear. */
  function UpperMemoryKB(info: Information): (r: u32)
    ensures !Present(info.flags, MemoryFlag) ==> r == 0
    ensures Present(info.flags, MemoryFlag) ==> r == info.memUpper
  {
    if !Present(info.flags, MemoryFlag) then 0 else info.memUpper
  }

  /** `commandLine`: the string's address, or the null pointer 0 when flag bit 2 is clear. */
  function CommandLine(info: Information): (r: u32)
    ensures !Present(info.flags, CommandLineFlag) ==> r == 0
    ensures Present(info.flags, CommandLineFlag) ==> r == info.commandLine
  {
    if !Present(info.flags, CommandLineFlag) then 0 else info.commandLine
  }

  /**
   * `memoryMapChunks`: the number of memory-map entries, or 0 when flag bit 6
   * is clear. The source reads an undeclared `memoryMapCount`; it is the
   * parameter `count` here.
   */
  function MemoryMapChunks(info: Information, count: u32): (r: u32)
    ensures !Present(info.flags, MemoryMapFlag) ==> r == 0
    ensures Present(info.flags, MemoryMapFlag) ==> r == count
  {
    if !Present(info.flags, MemoryMapFlag) then 0 else count
  }

  /** Only bit 0 decides the memory accessors: the other flag bits do not matter. */
  lemma MemoryAccessorsReadOnlyBit0(info: Information, flags: u32)
    requires Present(flags, MemoryFlag) == Present(info.flags, MemoryFlag)
    ensures LowerMemoryKB(info.(flags := flags)) == LowerMemoryKB(info)
    ensures UpperMemoryKB(info.(flags := flags)) == UpperMemoryKB(info)
  {
  }

  /** The state of a memory-map iterator: the entry it is at and the entries left. */
  datatype Cursor = Cursor(current: u32, count: u32)

  /** `memoryMapEnd`: {0, 0}. */
  function End(): Cursor { Cursor(0, 0) }

  /**
   * `memoryMapBegin`: the end iterator when flag bit 6 is clear, otherwise an
   * iterator at `mMemoryMapAddress` over `count` entries.
   */
  function Begin(info: Information, count: u32): (c: Cursor)
    ensures !Present(info.flags, MemoryMapFlag) ==> c == End()
    ensures Present(info.flags, MemoryMapFlag) ==> c == Cursor(info.memoryMapAddress, count)
  {
    if !Present(info.flags, MemoryMapFlag) then End() else Cursor(info.memoryMapAddress, count)
  }

  /** `operator==`: exhausted iterators are equal wherever they point; otherwise both fields must agree. */
  predicate Equal(a: Cursor, b: Cursor)
  {
    (a.count == 0 && b.count == 0) || (a.current == b.current && a.count == b.count)
  }

  /** `operator!=`. */
  predicate NotEqual(a: Cursor, b: Cursor) { !Equal(a, b) }

  /** `==` is an equivalence, an iterator equals the end exactly when it is exhausted, and `!=` negates `==`. */
  lemma EqualityLaws(a: Cursor, b: Cursor, c: Cursor)
    ensures Equal(a, a)
    ensures Equal(a, b) ==> Equal(b, a)
    ensures Equal(a, b) && Equal(b, c) ==> Equal(a, c)
    ensures Equal(a, End()) <==> a.count == 0
    ensures NotEqual(a, b) <==> !Equal(a, b)
  {
  }

  /** Without a memory map the range [begin, end) is empty. */
  lemma NoMapMeansEmptyRange(info: Information, count: u32)
    requires !Present(info.flags, MemoryMapFlag) || count == 0
    ensures Equal(Begin(info, count), End())
  {
  }

  /**
   * `operator++` as written: nothing happens on an exhausted iterator;
   * otherwise the count drops by one and `mCurrent`, a `MemoryChunk *`, is
   * advanced by the u32 `size` stored 4 bytes before the entry. Pointer
   * arithmetic scales that by sizeof(MemoryChunk), so the address moves by
   * `size * 20` bytes, wrapping at 2^32.
   */
  function Step(c: Cursor, size: u32): (n: Cursor)
    ensures c.count == 0 ==> n == c
    ensures c.count > 0 ==> n.count == c.count - 1
  {
    if c.count == 0 then c else Cursor(Wrap32(c.current + size * ChunkSize), c.count - 1)
  }

  /** The cursor after one `++` for each size in `sizes`, in order. */
  function Walk(c: Cursor, sizes: seq<u32>): Cursor
    decreases |sizes|
  {
    if sizes == [] then c else Walk(Step(c, sizes[0]), sizes[1..])
  }

  /** k increments take k off the count, stopping at 0. */
  lemma {:induction false} WalkCount(c: Cursor, sizes: seq<u32>)
    ensures Walk(c, sizes).count == if |sizes| <= c.count then c.count - |sizes| else 0
    decreases |sizes|
  {
    if sizes != [] {
      WalkCount(Step(c, sizes[0]), sizes[1..]);
    }
  }

  /** From a begin iterator with count n, exactly n increments reach `memoryMapEnd`, and not fewer. */
  lemma ReachesEndAfterCount(c: Cursor, sizes: seq<u32>)
    ensures |sizes| >= c.count ==> Equal(Walk(c, sizes), End())
    ensures |sizes| < c.count ==> NotEqual(Walk(c, sizes), End())
  {
    WalkCount(c, sizes);
  }

  /** The u32 `size` field stored in the 4 bytes before address `at`. */
  function SizeBefore(mem: seq<bv8>, at: nat): (s: u32)
    requires 4 <= at <= |mem|
  {
    LeValueBound(mem[at - 4..at]);
    RadixValues();
    LeValue(mem[at - 4..at])
  }

  /** The cursor after `++`, reading the size field from memory. */
  function Next(mem: seq<bv8>, c: Cursor): Cursor
    requires c.count > 0 ==> 4 <= c.current <= |mem|
  {
    if c.count == 0 then c else Step(c, SizeBefore(mem, c.current))
  }

  /** `operator*`: {0, 0, 0} for an exhausted iterator, otherwise the chunk at the cursor. */
  function Deref(mem: seq<bv8>, c: Cursor): (r: MemoryChunk)
    requires c.count > 0 ==> c.current + ChunkSize <= |mem|
    ensures c.count == 0 ==> r == MemoryChunk(0, 0, 0)
    ensures c.count > 0 ==> EncodeChunk(r) == mem[c.current..c.current + ChunkSize]
  {
    if c.count == 0 then MemoryChunk(0, 0, 0)
    else
      ChunkBytesRoundTrip(mem[c.current..c.current + ChunkSize]);
      ParseChunk(mem[c.current..c.current + ChunkSize])
  }

  /** `Information::MemoryMapIterator`: `mCurrent` and the remaining count, advanced in place. */
  class MemoryMapIterator {
    var current: u32
    var count: u32

    function State(): Cursor
      reads this
    {
      Cursor(current, count)
    }

    constructor (address: u32, count: u32)
      ensures State() == Cursor(address, count)
    {
      current := address;
      this.count := count;
    }

    /** The copy constructor. */
    constructor CopyOf(other: MemoryMapIterator)
      ensures State() == old(other.State())
    {
      current := other.current;
      count := other.count;
    }

    /** Pre-increment `++it`. */
    method Increment(mem: array<bv8>)
      requires count > 0 ==> 4 <= current <= mem.Length
      modifies this
      ensures State() == Next(mem[..], old(State()))
    {
      if count > 0 {
        var size := SizeBefore(mem[..], current);
        current := Wrap32(current + size * ChunkSize);
        count := count - 1;
      }
    }

    /** Post-increment `it++`: steps this iterator and returns a copy of its state from before. */
    method PostIncrement(mem: array<bv8>) returns (before: MemoryMapIterator)
      requires count > 0 ==> 4 <= current <= mem.Length
      modifies this
      ensures fresh(before)
      ensures before.State() == old(State())
      ensures State() == Next(mem[..], old(State()))
    {
      before := new MemoryMapIterator(current, count);
      Increment(mem);
    }

    function Get(mem: array<bv8>): MemoryChunk
      requires count > 0 ==> current + ChunkSize <= mem.Length
      reads this, mem
    {
      Deref(mem[..], State())
    }

    predicate Equals(other: MemoryMapIterator)
      reads this, other
    {
      Equal(State(), other.State())
    }
  }

  /**
   * The evident intent of `++`: the next entry starts `size + 4` bytes after
   * the current one (the entry plus its own size field), as section 3.3 of the
   * Multiboot Specification lays the map out.
   */
  function StepStandard(c: Cursor, size: u32): (n: Cursor)
    ensures c.count == 0 ==> n == c
    ensures c.count > 0 ==> n.count == c.count - 1 && n.current == Wrap32(c.current + size + 4)
  {
    if c.count == 0 then c else Cursor(Wrap32(c.current + size + 4), c.count - 1)
  }

  /** The evident intent of `memoryMapBegin`: the first entry's fields start after its 4-byte size field. */
  function BeginStandard(info: Information, count: u32): (c: Cursor)
    ensures !Present(info.flags, MemoryMapFlag) ==> c == End()
    ensures Present(info.flags, MemoryMapFlag) ==> c == Cursor(Wrap32(info.memoryMapAddress + 4), count)
  {
    if !Present(info.flags, MemoryMapFlag) then End() else Cursor(Wrap32(info.memoryMapAddress + 4), count)
  }

  /** The standard-layout cursor after `sizes.Length` entries. */
  function WalkStandard(c: Cursor, sizes: seq<u32>): Cursor
    decreases |sizes|
  {
    if sizes == [] then c else WalkStandard(StepStandard(c, sizes[0]), sizes[1..])
  }

  /** A memory map laid out as the standard says: each entry is its size field, then `size` bytes. */
  function LayOut(entries: seq<MemoryChunk>): (bs: seq<bv8>)
    ensures |bs| == 24 * |entries|
  {
    if entries == [] then [] else LeBytes(20, 4) + EncodeChunk(entries[0]) + LayOut(entries[1..])
  }

  /** With entries of size 20, the i-th standard step is 24 i bytes past the start. */
  lemma {:induction false} StandardWalkPosition(a: nat, n: nat, i: nat)
    requires i <= n && a + 24 * n < TWO32
    ensures WalkStandard(Cursor(a, n), seq(i, _ => 20)) == Cursor(a + 24 * i, n - i)
    decreases i
  {
    if i > 0 {
      var s := seq(i, _ => 20);
      assert s[1..] == seq(i - 1, _ => 20);
      assert StepStandard(Cursor(a, n), 20) == Cursor(a + 24, n - 1);
      StandardWalkPosition(a + 24, n - 1, i - 1);
    }
  }

  /** In a standard layout, entry i occupies bytes [24 i + 4, 24 i + 24). */
  lemma {:induction false} LayOutEntry(entries: seq<MemoryChunk>, i: nat)
    requires i < |entries|
    ensures LayOut(entries)[24 * i + 4..24 * i + 24] == EncodeChunk(entries[i])
    decreases i
  {
    if i > 0 {
      LayOutEntry(entries[1..], i - 1);
    }
    EntryPiece(LeBytes(20, 4), EncodeChunk(entries[0]), LayOut(entries[1..]), i);
  }

  /** Where a piece of a layout lies once the first 24-byte entry is split off. */
  lemma EntryPiece(size: seq<bv8>, chunk: seq<bv8>, rest: seq<bv8>, i: nat)
    requires |size| == 4 && |chunk| == 20 && (i > 0 ==> 24 * i <= |rest|)
    ensures i == 0 ==> (size + chunk + rest)[4..24] == chunk
    ensures i > 0 ==> (size + chunk + rest)[24 * i + 4..24 * i + 24] == rest[24 * (i - 1) + 4..24 * (i - 1) + 24]
  {
  }

  /**
   * The corrected iterator visits the entries of a standard memory map in
   * order: after i increments it dereferences to entry i.
   */
  lemma StandardWalkFindsEntries(entries: seq<MemoryChunk>, i: nat)
    requires i < |entries| && 4 + 24 * |entries| < TWO32
    ensures WalkStandard(Cursor(4, |entries|), seq(i, _ => 20)) == Cursor(4 + 24 * i, |entries| - i)
    ensures Deref(LayOut(entries), Cursor(4 + 24 * i, |entries| - i)) == entries[i]
  {
    StandardWalkPosition(4, |entries|, i);
    LayOutEntry(entries, i);
    DerefEncoded(LayOut(entries), Cursor(4 + 24 * i, |entries| - i), entries[i]);
  }

  /** A cursor on the encoding of a chunk dereferences to that chunk. */
  lemma DerefEncoded(mem: seq<bv8>, c: Cursor, chunk: MemoryChunk)
    requires c.count > 0 && c.current + ChunkSize <= |mem|
    requires mem[c.current..c.current + ChunkSize] == EncodeChunk(chunk)
    ensures Deref(mem, c) == chunk
  {
    ChunkRoundTrip(chunk);
  }

  /**
   * The code's stepping goes wrong after the first entry: on a standard map
   * whose entries carry size 20, `++` moves 400 bytes instead of 24.
   */
  lemma StepAsWrittenOvershoots()
    ensures Step(Cursor(0x1000, 2), 20).current == 0x1000 + 400
    ensures StepStandard(Cursor(0x1000, 2), 20).current == 0x1000 + 24
  {
  }

  /**
   * The code's begin reads the size field as the low bytes of `base`: for a
   * map whose first entry has base 0, the dereferenced base is 20.
   */
  lemma BeginAsWrittenMisreadsBase(rest: seq<bv8>)
    requires |rest| >= 16
    ensures Deref(LeBytes(20, 4) + LeBytes(0, 8) + rest, Cursor(0, 1)).base == 20
  {
    var mem := LeBytes(20, 4) + LeBytes(0, 8) + rest;
    var bs := mem[0..8];
    LeBytesZero(3);
    LeBytesZero(8);
    assert LeBytes(20, 4) == [20] + LeBytes(0, 3);
    assert bs == [20] + LeBytes(0, 7) by {
      LeBytesZero(7);
    }
    LeValueZero(7);
    assert mem[0..20][0..8] == bs;
    assert bs[1..] == LeBytes(0, 7);
    assert LeValue(bs) == 20 + 256 * LeValue(LeBytes(0, 7));
  }
}
