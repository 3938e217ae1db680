/**
 * 32-bit paging structures (memory/PageAllocator.cc): the page-directory
 * entry word, after section 4.3 of the Intel SDM Vol. 3A (Tables 4-5 and
 * 4-6): bit 0 present, bit 1 read/write, bit 2 user/supervisor, bits 31:12
 * the physical address of the page table. `PageAllocator::initialize` builds
 * the kernel's page directory in physical memory.
 */
module Paging {
  import opened Common
  import opened Bits
  import opened Memory
  import opened Frames

  /** Bit numbers of `PageEntry::Flag`. */
  const PresentBit: bv32 := 0
  const ReadWriteBit: bv32 := 1
  const UserAccessBit: bv32 := 2

  /** `PageEntry::AddressMask`: bits 31:12. */
  const AddressMask: bv32 := 0xFFFF_F000

  /** Entries per directory: `PageAllocator::NumberOfEntries`. */
  const NumberOfEntries: nat := 1024

  /** `set(Present/ReadWrite/UserAccess)`: `Bit::set` for Yes, `Bit::clear` for No. */
  function WithFlag(e: bv32, bit: bv32, yes: bool): bv32
    requires bit < 32
  {
    if yes then SetBit32(e, bit) else ClearBit32(e, bit)
  }

  /** `setAddress`: the page-aligned address goes into bits 31:12. */
  function WithAddress(e: bv32, address: bv32): bv32
  {
    SetMask(e, PageAlignDown(address), AddressMask)
  }

  /** `setFlagsForSystemDirectory`: present, writable, supervisor only. */
  function SystemDirectoryFlags(e: bv32): bv32
  {
    WithFlag(WithFlag(WithFlag(e, PresentBit, true), ReadWriteBit, true), UserAccessBit, false)
  }

  /** `setAddress` writes the address's page number into bits 31:12 and keeps bits 11:0. */
  lemma WithAddressEffect(e: bv32, address: bv32)
    ensures WithAddress(e, address) & AddressMask == address & AddressMask
    ensures WithAddress(e, address) & 0xFFF == e & 0xFFF
  {
    SetMaskSelects(e, PageAlignDown(address), AddressMask);
    PageAlignDownBits(address);
  }

  /** The system-directory flags are present = 1, read/write = 1, user = 0; bits 31:3 are kept. */
  lemma SystemDirectoryFlagsEffect(e: bv32)
    ensures SystemDirectoryFlags(e) & 7 == 3
    ensures SystemDirectoryFlags(e) & !7 == e & !7
  {
    var e1 := WithFlag(e, PresentBit, true);
    var e2 := WithFlag(e1, ReadWriteBit, true);
    SetOneBit(e, PresentBit);
    SetOneBit(e1, ReadWriteBit);
    ClearOneBit(e2, UserAccessBit);
  }

  /** The entry `initialize` writes into a zeroed slot for a page table at `table`. */
  lemma SystemEntryOfTable(table: bv32)
    ensures SystemDirectoryFlags(WithAddress(0, table)) == (table & AddressMask) | 3
  {
    var w := WithAddress(0, table);
    WithAddressEffect(0, table);
    SystemDirectoryFlagsEffect(w);
    var r := SystemDirectoryFlags(w);
    assert r == (r & !7) | (r & 7);
  }

  /** A regression value: a table at 0x1000 gives the entry 0x1003. */
  lemma SystemEntryExample()
    ensures SystemDirectoryFlags(WithAddress(0, 0x1000)) == 0x1003
  {
    SystemEntryOfTable(0x1000);
  }

  /** `PageEntry`: one 32-bit word, changed bit by bit. */
  class PageEntry {
    var entry: bv32

    /** `PageEntry()`: the all-zero word. */
    constructor ()
      ensures entry == 0
    {
      entry := 0;
    }

    method SetPresent(yes: bool)
      modifies this
      ensures entry == WithFlag(old(entry), PresentBit, yes)
    {
      if yes {
        entry := SetBit32(entry, PresentBit);
      } else {
        entry := ClearBit32(entry, PresentBit);
      }
    }

    method SetReadWrite(yes: bool)
      modifies this
      ensures entry == WithFlag(old(entry), ReadWriteBit, yes)
    {
      if yes {
        entry := SetBit32(entry, ReadWriteBit);
      } else {
        entry := ClearBit32(entry, ReadWriteBit);
      }
    }

    method SetUserAccess(yes: bool)
      modifies this
      ensures entry == WithFlag(old(entry), UserAccessBit, yes)
    {
      if yes {
        entry := SetBit32(entry, UserAccessBit);
      } else {
        entry := ClearBit32(entry, UserAccessBit);
      }
    }

    method SetAddress(address: bv32)
      modifies this
      ensures entry == WithAddress(old(entry), address)
    {
      entry := SetMask(entry, PageAlignDown(address), AddressMask);
    }

    /** `PageDirectoryEntry::setFlagsForSystemDirectory`. */
    method SetFlagsForSystemDirectory()
      modifies this
      ensures entry == SystemDirectoryFlags(old(entry))
    {
      SetPresent(true);
      SetReadWrite(true);
      SetUserAccess(false);
    }
  }

  /** The word of a directory entry `word` after `setAddress(table)` and `setFlagsForSystemDirectory()`. */
  function EntryFor(word: bv32, table: u32): bv32
  {
    SystemDirectoryFlags(WithAddress(word, table as bv32))
  }

  /** The address `allocate` returns for frame flags `f`. */
  function AllocatedAddress(f: seq<bool>): u32
  {
    match FirstFree(f)
    case Some(p) => AddressOfPage(p)
    case None => 0
  }

  /** The frame flags after one `allocate`. */
  ghost function AfterAllocate(f: seq<bool>): seq<bool>
  {
    match FirstFree(f)
    case Some(p) => f[p := true]
    case None => f
  }

  /** The 32-bit word stored little-endian at `a` (x86 byte order). */
  function WordAt(mem: seq<bv8>, a: nat): bv32
    requires a + 4 <= |mem|
  {
    mem[a] as bv32 | (mem[a + 1] as bv32 << 8) | (mem[a + 2] as bv32 << 16) | (mem[a + 3] as bv32 << 24)
  }

  /** Store a 32-bit word little-endian at `a`. */
  method StoreWord(mem: array<bv8>, a: nat, w: bv32)
    requires a + 4 <= mem.Length
    modifies mem
    ensures WordAt(mem[..], a) == w
    ensures forall i :: 0 <= i < mem.Length && !(a <= i < a + 4) ==> mem[i] == old(mem[i])
  {
    mem[a] := (w & 0xFF) as bv8;
    mem[a + 1] := ((w >> 8) & 0xFF) as bv8;
    mem[a + 2] := ((w >> 16) & 0xFF) as bv8;
    mem[a + 3] := ((w >> 24) & 0xFF) as bv8;
  }

  /** The zeroing length `initialize` passes: pageSize * (pageSize / sizeof(PageDirectoryEntry)). */
  const DirectoryZeroLength: nat := PageSize * (PageSize / 4)

  /** That length is 1024 pages, not the one page a directory of 1024 four-byte entries occupies. */
  lemma DirectoryZeroLengthIsFourMiB()
    ensures DirectoryZeroLength == 0x40_0000 == 1024 * PageSize
    ensures NumberOfEntries * 4 == PageSize
  {
  }

  /** Does the region [a, a + n) stay clear of the frame bitmap? */
  predicate ClearOfBitmap(fa: FrameAllocator, a: nat, n: nat)
    reads fa
  {
    a + n <= fa.bitmap || fa.bitmap + fa.bitmapSize <= a
  }

  /**
   * The frame flags after zeroing [ptr, ptr + length) when the bitmap cells
   * start at `bitmap`: a frame whose cell lies in the region reads free,
   * every other frame keeps its flag.
   */
  ghost function Wiped(f: seq<bool>, bitmap: nat, ptr: nat, length: nat): (w: seq<bool>)
    ensures |w| == |f|
  {
    seq(|f|, k requires 0 <= k < |f| => if ptr <= bitmap + k / 8 < ptr + length then false else f[k])
  }

  /**
   * The flags `allocate` sees when `initialize` asks for the first page
   * table: the directory's frame marked in use, then the cells the zeroing
   * reached wiped.
   */
  ghost function FlagsBeforeTable(f0: seq<bool>, bitmap: nat, directory: nat, zeroLength: nat): seq<bool>
  {
    Wiped(AfterAllocate(f0), bitmap, directory, zeroLength)
  }

  /** Zeroing a region that misses the bitmap changes no frame flag. */
  lemma WipedClear(f: seq<bool>, bitmap: nat, cells: nat, ptr: nat, length: nat)
    requires |f| == 8 * cells
    requires ptr + length <= bitmap || bitmap + cells <= ptr
    ensures Wiped(f, bitmap, ptr, length) == f
  {
  }

  /** Zeroing a region that covers the whole bitmap frees every frame. */
  lemma WipedCovered(f: seq<bool>, bitmap: nat, cells: nat, ptr: nat, length: nat)
    requires |f| == 8 * cells
    requires ptr <= bitmap && bitmap + cells <= ptr + length
    ensures Wiped(f, bitmap, ptr, length) == seq(|f|, _ => false)
  {
  }

  /**
   * When the zeroing after the directory covers the whole bitmap, the
   * directory's own mark is wiped with everything else: the first page table
   * is handed frame 0 whatever it held, and afterwards only frame 0 reads in
   * use, so the directory's frame can be handed out again.
   */
  lemma CoveredBitmapForgetsDirectory(f0: seq<bool>, cells: nat, bitmap: nat, zeroLength: nat)
    requires |f0| == 8 * cells && 0 < cells
    requires AllocatedAddress(f0) <= bitmap && bitmap + cells <= AllocatedAddress(f0) + zeroLength
    ensures AllocatedAddress(FlagsBeforeTable(f0, bitmap, AllocatedAddress(f0), zeroLength)) == 0
    ensures AfterAllocate(FlagsBeforeTable(f0, bitmap, AllocatedAddress(f0), zeroLength)) == seq(|f0|, k => k == 0)
  {
    var before := FlagsBeforeTable(f0, bitmap, AllocatedAddress(f0), zeroLength);
    WipedCovered(AfterAllocate(f0), bitmap, cells, AllocatedAddress(f0), zeroLength);
    assert FirstFree(before) == Some(0);
  }

  /**
   * `initialize` as written on a fresh allocator (every frame free) whose
   * bitmap lies in the first 4 MiB: the directory is frame 0, the 4 MiB
   * zeroing wipes the bitmap, and the first page table is frame 0 again, so
   * directory slot 0 points at the directory itself.
   */
  lemma FreshBootTableIsDirectory(cells: nat, bitmap: nat)
    requires 0 < cells && bitmap + cells <= DirectoryZeroLength
    ensures AllocatedAddress(seq(8 * cells, _ => false)) == 0
    ensures AllocatedAddress(FlagsBeforeTable(seq(8 * cells, _ => false), bitmap, 0, DirectoryZeroLength)) == 0
  {
    var f0: seq<bool> := seq(8 * cells, _ => false);
    assert FirstFree(f0) == Some(0);
    CoveredBitmapForgetsDirectory(f0, cells, bitmap, DirectoryZeroLength);
  }

  /**
   * `setAddress(table)` then `setFlagsForSystemDirectory` leave the table's
   * page number in bits 31:12 and 011 (present, writable, supervisor only)
   * in bits 2:0, whatever the word held.
   */
  lemma EntryForFields(word: bv32, table: u32)
    ensures EntryFor(word, table) & AddressMask == table as bv32 & AddressMask
    ensures EntryFor(word, table) & 7 == 3
  {
  }

  /** Zeroing [ptr, ptr + length) turns the cells it reaches into free frames and keeps the others. */
  lemma WipedCells(mem: seq<bv8>, bitmap: nat, cells: nat, ptr: nat, length: nat)
    requires bitmap + cells <= |mem| && ptr + length <= |mem|
    ensures CellFrames(Filled(mem, ptr, length, 0)[bitmap..bitmap + cells])
         == Wiped(CellFrames(mem[bitmap..bitmap + cells]), bitmap, ptr, length)
  {
    var c0, c1 := mem[bitmap..bitmap + cells], Filled(mem, ptr, length, 0)[bitmap..bitmap + cells];
    forall k | 0 <= k < 8 * cells
      ensures CellFrames(c1)[k] == Wiped(CellFrames(c0), bitmap, ptr, length)[k]
    {
      assert c1[k / 8] == Filled(mem, ptr, length, 0)[bitmap + k / 8];
      assert c0[k / 8] == mem[bitmap + k / 8];
    }
  }

  /** Bytes that agree on [a, a + 4) hold the same word there. */
  lemma WordAtSame(m0: seq<bv8>, m1: seq<bv8>, a: nat)
    requires a + 4 <= |m0| && a + 4 <= |m1|
    requires forall i :: a <= i < a + 4 ==> m0[i] == m1[i]
    ensures WordAt(m0, a) == WordAt(m1, a)
  {
    assert m0[a] == m1[a] && m0[a + 1] == m1[a + 1] && m0[a + 2] == m1[a + 2] && m0[a + 3] == m1[a + 3];
  }

  class PageAllocator {
    /** `mPageDirectory`: the physical address of the kernel's page directory. */
    var pageDirectory: u32

    /**
     * The steps of `initialize` with the zeroing length as a parameter:
     * allocate the directory, zero `zeroLength` bytes from it, allocate the
     * first page table and store the system-directory entry for it in
     * directory slot 0. The slot is written through a reference into memory
     * in the source; here its word is read, updated by the `PageEntry`
     * functions and stored back. The table's frame is chosen from the flags
     * as the zeroing left them (`FlagsBeforeTable`); slot 0's exact word and
     * the final flags are stated when slot 0 itself is not a bitmap cell.
     */
    method Build(fa: FrameAllocator, mem: array<bv8>, zeroLength: nat)
      requires fa.Valid(mem) && zeroLength >= 4
      requires 8 * fa.bitmapSize * PageSize + zeroLength <= mem.Length
      modifies this, mem
      ensures fa.Valid(mem)
      ensures pageDirectory == AllocatedAddress(old(fa.Frames(mem)))
      ensures pageDirectory + zeroLength <= mem.Length
      ensures var table := AllocatedAddress(FlagsBeforeTable(old(fa.Frames(mem)), fa.bitmap, pageDirectory, zeroLength));
        && (exists held :: WordAt(mem[..], pageDirectory) == EntryFor(held, table))
        && (ClearOfBitmap(fa, pageDirectory, 4) ==>
              && WordAt(mem[..], pageDirectory) == EntryFor(0, table)
              && fa.Frames(mem) == AfterAllocate(FlagsBeforeTable(old(fa.Frames(mem)), fa.bitmap, pageDirectory, zeroLength)))
      ensures forall a :: (pageDirectory + 4 <= a < pageDirectory + zeroLength
        && !(fa.bitmap <= a < fa.bitmap + fa.bitmapSize)) ==> mem[a] == 0
      ensures forall a :: (0 <= a < mem.Length && !(pageDirectory <= a < pageDirectory + zeroLength)
        && !(fa.bitmap <= a < fa.bitmap + fa.bitmapSize)) ==> mem[a] == old(mem[a])
      ensures ClearOfBitmap(fa, pageDirectory, zeroLength) ==>
        && fa.Frames(mem) == AfterAllocate(AfterAllocate(old(fa.Frames(mem))))
        && WordAt(mem[..], pageDirectory) == EntryFor(0, AllocatedAddress(AfterAllocate(old(fa.Frames(mem)))))
    {
      ghost var f0 := fa.Frames(mem);
      var directory := PrepareDirectory(fa, mem, zeroLength);
      pageDirectory := directory;
      ghost var m1 := mem[..];
      var _ := InstallFirstTable(fa, mem, directory);
      if ClearOfBitmap(fa, directory, 4) {
        WordAtZero(m1, directory);
      }
      if ClearOfBitmap(fa, directory, zeroLength) {
        WipedClear(AfterAllocate(f0), fa.bitmap, fa.bitmapSize, directory, zeroLength);
      }
    }

    /**
     * `initialize` as written: the zeroing length is 4 MiB, so the 1023
     * pages after the directory are wiped as well, and with them any bitmap
     * cell they hold (`CoveredBitmapForgetsDirectory`).
     */
    method Initialize(fa: FrameAllocator, mem: array<bv8>)
      requires fa.Valid(mem)
      requires 8 * fa.bitmapSize * PageSize + DirectoryZeroLength <= mem.Length
      modifies this, mem
      ensures fa.Valid(mem)
      ensures pageDirectory == AllocatedAddress(old(fa.Frames(mem)))
      ensures var table := AllocatedAddress(FlagsBeforeTable(old(fa.Frames(mem)), fa.bitmap, pageDirectory, DirectoryZeroLength));
        && (exists held :: WordAt(mem[..], pageDirectory) == EntryFor(held, table))
        && (ClearOfBitmap(fa, pageDirectory, 4) ==>
              && WordAt(mem[..], pageDirectory) == EntryFor(0, table)
              && fa.Frames(mem) == AfterAllocate(FlagsBeforeTable(old(fa.Frames(mem)), fa.bitmap, pageDirectory, DirectoryZeroLength)))
      ensures forall a :: (pageDirectory + 4 <= a < pageDirectory + DirectoryZeroLength
        && !(fa.bitmap <= a < fa.bitmap + fa.bitmapSize)) ==> mem[a] == 0
      ensures forall a :: (0 <= a < mem.Length && !(pageDirectory <= a < pageDirectory + DirectoryZeroLength)
        && !(fa.bitmap <= a < fa.bitmap + fa.bitmapSize)) ==> mem[a] == old(mem[a])
    {
      Build(fa, mem, DirectoryZeroLength);
    }

    /**
     * The evident intent: zero the one page the directory occupies, so
     * entries 1..1023 are zero and no byte outside that page and the bitmap
     * changes.
     */
    method InitializeOnePage(fa: FrameAllocator, mem: array<bv8>)
      requires fa.Valid(mem)
      requires 8 * fa.bitmapSize * PageSize + PageSize <= mem.Length
      modifies this, mem
      ensures fa.Valid(mem)
      ensures pageDirectory == AllocatedAddress(old(fa.Frames(mem)))
      ensures var table := AllocatedAddress(FlagsBeforeTable(old(fa.Frames(mem)), fa.bitmap, pageDirectory, PageSize));
        && (exists held :: WordAt(mem[..], pageDirectory) == EntryFor(held, table))
      ensures forall a :: (pageDirectory + 4 <= a < pageDirectory + NumberOfEntries * 4
        && !(fa.bitmap <= a < fa.bitmap + fa.bitmapSize)) ==> mem[a] == 0
      ensures forall a :: (0 <= a < mem.Length && !(pageDirectory <= a < pageDirectory + PageSize)
        && !(fa.bitmap <= a < fa.bitmap + fa.bitmapSize)) ==> mem[a] == old(mem[a])
      ensures ClearOfBitmap(fa, pageDirectory, PageSize) ==>
        && fa.Frames(mem) == AfterAllocate(AfterAllocate(old(fa.Frames(mem))))
        && WordAt(mem[..], pageDirectory) == EntryFor(0, AllocatedAddress(AfterAllocate(old(fa.Frames(mem)))))
    {
      Build(fa, mem, PageSize);
    }
  }

  /** `memory::zero` on a region: the cells it reaches read as free frames. */
  method ZeroBeside(fa: FrameAllocator, mem: array<bv8>, ptr: nat, length: nat)
    requires fa.Valid(mem) && ptr + length <= mem.Length
    modifies mem
    ensures fa.Valid(mem)
    ensures forall a :: ptr <= a < ptr + length ==> mem[a] == 0
    ensures forall a :: 0 <= a < mem.Length && !(ptr <= a < ptr + length) ==> mem[a] == old(mem[a])
    ensures fa.Frames(mem) == Wiped(old(fa.Frames(mem)), fa.bitmap, ptr, length)
  {
    ghost var m0 := mem[..];
    var _ := Zero(mem, ptr, length);
    FilledEffect(m0, ptr, length, 0);
    assert mem[fa.bitmap..fa.bitmap + fa.bitmapSize] == mem[..][fa.bitmap..fa.bitmap + fa.bitmapSize];
    WipedCells(m0, fa.bitmap, fa.bitmapSize, ptr, length);
  }

  /**
   * `auto& firstPageTable = mPageDirectory[0]; firstPageTable.setAddress(table);
   * firstPageTable.setFlagsForSystemDirectory();` on the word at `directory`.
   */
  method WriteSystemEntry(fa: FrameAllocator, mem: array<bv8>, directory: nat, table: u32)
    requires fa.Valid(mem) && directory + 4 <= mem.Length
    modifies mem
    ensures fa.Valid(mem)
    ensures WordAt(mem[..], directory) == EntryFor(WordAt(old(mem[..]), directory), table)
    ensures forall i :: 0 <= i < mem.Length && !(directory <= i < directory + 4) ==> mem[i] == old(mem[i])
    ensures ClearOfBitmap(fa, directory, 4) ==> fa.Frames(mem) == old(fa.Frames(mem))
  {
    ghost var m0 := mem[..];
    var word := WordAt(mem[..], directory);
    StoreWord(mem, directory, EntryFor(word, table));
    if ClearOfBitmap(fa, directory, 4) {
      assert mem[fa.bitmap..fa.bitmap + fa.bitmapSize] == m0[fa.bitmap..fa.bitmap + fa.bitmapSize];
    }
  }

  /** The first half of `initialize`: allocate the directory and zero `zeroLength` bytes from it. */
  method PrepareDirectory(fa: FrameAllocator, mem: array<bv8>, zeroLength: nat) returns (directory: u32)
    requires fa.Valid(mem)
    requires 8 * fa.bitmapSize * PageSize + zeroLength <= mem.Length
    modifies mem
    ensures fa.Valid(mem) && directory + zeroLength <= mem.Length
    ensures directory == AllocatedAddress(old(fa.Frames(mem)))
    ensures fa.Frames(mem) == FlagsBeforeTable(old(fa.Frames(mem)), fa.bitmap, directory, zeroLength)
    ensures forall a :: directory <= a < directory + zeroLength ==> mem[a] == 0
    ensures forall a :: (0 <= a < mem.Length && !(directory <= a < directory + zeroLength)
      && !(fa.bitmap <= a < fa.bitmap + fa.bitmapSize)) ==> mem[a] == old(mem[a])
  {
    ghost var f0 := fa.Frames(mem);
    directory := fa.Allocate(mem);
    AllocatedBelow(f0, fa.bitmapSize);
    ZeroBeside(fa, mem, directory, zeroLength);
  }

  /**
   * The second half of `initialize`: allocate the first page table and
   * make directory slot 0 a system entry for it. Slot 0 ends up pointing at
   * the table, present, writable and supervisor-only whatever it held; its
   * remaining bits and the final flags are exact when slot 0 is not a
   * bitmap cell, since `allocate` may otherwise have written into it.
   */
  method InstallFirstTable(fa: FrameAllocator, mem: array<bv8>, directory: nat) returns (table: u32)
    requires fa.Valid(mem) && directory + 4 <= mem.Length
    modifies mem
    ensures fa.Valid(mem)
    ensures table == AllocatedAddress(old(fa.Frames(mem)))
    ensures exists held :: WordAt(mem[..], directory) == EntryFor(held, table)
    ensures forall a :: (0 <= a < mem.Length && !(directory <= a < directory + 4)
      && !(fa.bitmap <= a < fa.bitmap + fa.bitmapSize)) ==> mem[a] == old(mem[a])
    ensures ClearOfBitmap(fa, directory, 4) ==>
      && fa.Frames(mem) == AfterAllocate(old(fa.Frames(mem)))
      && WordAt(mem[..], directory) == EntryFor(WordAt(old(mem[..]), directory), table)
  {
    ghost var m0 := mem[..];
    table := fa.Allocate(mem);
    ghost var m1 := mem[..];
    if ClearOfBitmap(fa, directory, 4) {
      WordAtSame(m0, m1, directory);
    }
    WriteSystemEntry(fa, mem, directory, table);
  }

  /** Four zero bytes hold the word 0. */
  lemma WordAtZero(mem: seq<bv8>, a: nat)
    requires a + 4 <= |mem|
    requires forall i :: a <= i < a + 4 ==> mem[i] == 0
    ensures WordAt(mem, a) == 0
  {
    assert mem[a] == 0 && mem[a + 1] == 0 && mem[a + 2] == 0 && mem[a + 3] == 0;
  }

  /** Every address `allocate` can return lies below the frames the bitmap tracks. */
  lemma AllocatedBelow(f: seq<bool>, cells: nat)
    requires |f| == 8 * cells && cells < 0x2_0000
    ensures AllocatedAddress(f) < 8 * cells * PageSize || AllocatedAddress(f) == 0
  {
  }
}
