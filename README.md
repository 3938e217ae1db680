# polka kernel core in Dafny

A model of the core of polka, a small i386 protected-mode kernel written in
C++. The model covers these parts:

- **Freestanding library (`kstd`)**: the ASCII classifiers and case mappings,
  the eight-bit `Bitmap`, the C-string helpers `length`/`uppercase`, the
  memory primitives `copy`, `move`, `zero` and `set`, and the
  `printFormat` state machine.
- **Console `printFormat` and its `itoa`.** The two `printFormat` versions
  are one state machine with a `Dialect` parameter. The dialect selects the
  specifier set and the digit routine.
- **Boot-time structures**:
  - the Multiboot information accessors and the memory-map iterator
    (section 3.3 of the Multiboot Specification 0.6.96);
  - the startup-information sizes;
  - the bitmap frame allocator;
  - the page-directory set-up, with page-table entry flags as in section 4.3
    of the Intel SDM Vol. 3A;
  - GDT and IDT descriptor encoding (sections 3.4.5 and 6.11 of the Intel
    SDM Vol. 3A);
  - the flat-segment GDT the memory manager installs;
  - the 8259A PIC initialisation, masking and end-of-interrupt sequences.

Conventions:

- **Physical memory** is one `array<bv8>` indexed by address. The frame
  allocator keeps its bitmap cells in that same array, as the kernel does.
  Pages that are zeroed can therefore be checked against the bitmap.
- **I/O ports** are a map from port number to the last byte written, plus a
  log of every write in order. Each 8259A's interrupt mask register is replayed
  from that log.
- **The console screen** is the sequence of characters written to it.
- **Integer widths:** the kernel's 32-bit integers are `bv32`/`u32`. Where
  the source wraps around, it is written out with `Common.Wrap32` and
  `Common.WrapSigned`. C's truncating `/` and `%` are `Numerals.CQuot` and
  `Numerals.CRem`.
- **Behaviour C leaves undefined** is either a precondition or an `Option`
  result of `None`: an out-of-range shift, a `printFormat` argument of the
  wrong kind or a missing one, and negating the most negative `int`.

In nine places the code does not do what its comments, its evident
intent or the standard say. Each such place has two models: one of the
code as written, and a corrected one with the intended property proved.
The details are under "## Findings".

## Model

| member | source | states |
|---|---|---|
| Ascii.ToLower | src/kstd/ASCII.hh:57-64 | an upper-case letter maps to the lower-case letter at the same alphabet position; every other character is returned unchanged |
| Ascii.ToUpper | src/kstd/ASCII.hh:66-73 | a lower-case letter maps to the upper-case letter at the same alphabet position; every other character is returned unchanged |
| Ascii.HexDigitIffInAlphabet | src/kstd/ASCII.hh:23-27 | isHexDigit holds exactly for the 22 characters 0-9, a-f and A-F, listed as an independent alphabet; the console's `is_hex` (src/ConsolePrintFormat.cc:216-220) is the same predicate |
| Ascii.ClassesDisjoint | src/kstd/ASCII.hh:17-51 | no character is both a digit and a letter, or both lower and upper case; alphanumeric means digit, lower or upper |
| Ascii.LowerRoundTrip | src/kstd/ASCII.hh:57-73 | toLower undoes toUpper on lower-case letters; both mappings are idempotent |
| Ascii.UpperRoundTrip | src/kstd/ascii.hh:57-73 | toUpper undoes toLower on upper-case letters (kernel::Char repeats kstd::Char line for line) |
| Ascii.CaseMappingKeepsClass | src/kstd/ascii.hh:17-73 | case mapping never changes whether a character is a letter, a digit or a hex digit |
| Bitmaps.Mask | src/kstd/Bitmap.hh:50 | `1 << bit` has exactly bit `bit` set |
| Bitmaps.IsSetIn | src/kstd/Bitmap.hh:35-43 | isSet is true iff the index is below the length and that bit of the cell is 1 |
| Bitmaps.SetBit | src/kstd/Bitmap.hh:46-52 | a valid bit becomes 1 and the other seven are kept; an invalid index changes nothing |
| Bitmaps.ClearBit | src/kstd/Bitmap.hh:55-61 | a valid bit becomes 0 and the other seven are kept; an invalid index changes nothing |
| Bitmaps.ToggleBit | src/kstd/Bitmap.hh:64-72 | a valid bit is inverted and the other seven are kept; an invalid index changes nothing |
| Bitmaps.BitsDetermineCell | src/kstd/Bitmap.hh:35-43 | two cells that agree on isSet for all eight bits are equal, so the bit view loses nothing |
| Bitmaps.SetIdempotent | src/kstd/Bitmap.hh:46-52 | setting a bit twice is the same as setting it once |
| Bitmaps.ClearIdempotent | src/kstd/Bitmap.hh:55-61 | clearing a bit twice is the same as clearing it once |
| Bitmaps.ToggleTwice | src/kstd/Bitmap.hh:64-72 | toggling a bit twice restores the cell |
| Bitmaps.ZeroAndFill | src/kstd/Bitmap.hh:75-86 | after zero no bit is set; after fill exactly the eight valid bits are set |
| Bitmaps.Bitmap.constructor | src/kstd/Bitmap.hh:25-27 | a default bitmap is all clear |
| Bitmaps.Bitmap.FromValue | src/kstd/Bitmap.hh:29-32 | a bitmap built from a value holds exactly that value |
| Bitmaps.Bitmap.IsSet | src/kstd/Bitmap.hh:35-43 | reads bit `bit` of the cell; false for an invalid index |
| Bitmaps.Bitmap.Set | src/kstd/Bitmap.hh:46-52 | the cell becomes SetBit of the old cell |
| Bitmaps.Bitmap.Clear | src/kstd/Bitmap.hh:55-61 | the cell becomes ClearBit of the old cell |
| Bitmaps.Bitmap.Toggle | src/kstd/Bitmap.hh:64-72 | the cell becomes ToggleBit of the old cell; returns whether the bit is now set |
| Bitmaps.Bitmap.Zero | src/kstd/Bitmap.hh:75-79 | the cell is 0 and no bit reads as set |
| Bitmaps.Bitmap.Fill | src/kstd/Bitmap.hh:82-86 | the cell is 0xFF and exactly the valid bits read as set |
| Bits.SetOneBit | src/memory/PageAllocator.cc:60 | Bit::set turns bit n on and keeps every other bit |
| Bits.ClearOneBit | src/memory/PageAllocator.cc:62 | Bit::clear turns bit n off and keeps every other bit |
| Bits.SetMaskSelects | src/memory/PageAllocator.cc:89 | Bit::setMask takes the bits under the mask from the value and the rest from the word |
| Bits.PageAlignDownBits | src/memory/PageAllocator.cc:89 | aligning down clears the twelve offset bits and keeps the frame number |
| Startup.KernelSize | src/StartupInformation.cc:17-22 | the kernel size is end minus start, wrapping modulo 2^32 when end is below start |
| Startup.KernelSizeIsPages | src/StartupInformation.hh:21-24 | when start and end are 4 KiB aligned, as documented, the size is a whole number of pages |
| Startup.MemorySizeWithoutFlag | src/StartupInformation.cc:24-30 | without the Multiboot memory flag the size is the first 1 MiB only |
| Startup.MemorySizeNoWrap | src/StartupInformation.cc:29 | with upper memory under 4 GiB - 1 MiB the size is 1 MiB plus upper memory in bytes |
| Startup.MemorySizeWrapsAt4GiB | src/StartupInformation.cc:29 | 4193280 KiB of upper memory makes the 32-bit size wrap to 0 |
| Common.Wrap32 | src/memory/FrameAllocator.cc:29 | a value in range is kept; otherwise the result is congruent modulo 2^32 |
| Common.WrapSigned | src/kstd/PrintFormat.cc:281-284 | two's-complement conversion: the result is in range and equals the input when that is in range |
| Common.Reverse | src/kstd/CString.hh:29-30 | position i of the result is position n-1-i of the input |
| Common.ReverseReverse | src/kstd/CString.hh:29-30 | reversing twice gives the original |
| Common.ReverseAppend | src/ConsolePrintFormat.cc:187-193 | the reversal of a concatenation is the concatenation of the reversals, swapped |
| Bytes.LeBytes | src/Multiboot.hh:18-26 | encoding a value in n little-endian bytes gives n bytes |
| Bytes.LeValueBound | src/Multiboot.hh:18-26 | n bytes encode a value below 256^n |
| Bytes.LeRoundTrip | src/Multiboot.hh:18-26 | decoding the little-endian bytes of a value below 256^n gives it back |
| Bytes.LeBytesOfValue | src/Multiboot.hh:18-26 | encoding the value of a byte string gives the byte string back |
| CString.Length | src/kstd/CString.hh:17-24 | the length is the number of characters before the first NUL, stopping at `max`, and every counted character is non-NUL |
| CString.LengthOf | src/kstd/CString.hh:17-24 | the character-scanning loop returns exactly Length of the string |
| CString.TextEnds | src/kstd/CString.hh:17-24 | a terminated string's text ends at its first NUL and holds no NUL |
| CString.LengthIs | src/kstd/CString.hh:17-24 | the length is characterised: n non-NUL characters followed by NUL or by `max` means Length is n |
| CString.LengthAsWritten | src/kstd/CString.cc:15-21 | the loop as written compares the address, not the character, and returns 1 - str modulo 2^32 whatever the text |
| CString.LengthAsWrittenIgnoresText | src/kstd/CString.cc:15-21 | "a" at address 0x1000 has length 1 but the loop returns 0xFFFFF001 |
| CString.Upcase | src/kstd/CString.cc:27-29 | lower-case letters become upper case and all other characters are kept |
| CString.UppercasedFrom | src/kstd/CString.cc:24-32 | uppercasing keeps the buffer size and the terminator |
| CString.UppercasedFromEffect | src/kstd/CString.cc:24-32 | each character before the terminator is upcased, and everything else in the buffer is untouched |
| CString.UppercasedKeepsLength | src/kstd/CString.cc:24-32 | uppercasing does not change the string's length |
| CString.UppercaseIdempotent | src/kstd/CString.hh:32-33 | uppercasing an uppercased string changes nothing |
| CString.Uppercase | src/kstd/CString.cc:24-32 | the in-place loop leaves the buffer equal to UppercasedFrom of the old buffer; the console's uncalled `to_upper` (src/ConsolePrintFormat.cc:197-206) is the same loop |
| CString.Copy | src/kstd/CString.hh:26-27 | copying keeps the destination size |
| CString.CopyCopiesText | src/kstd/CString.hh:26-27 | after a copy the destination's text is the source's text |
| CString.ReverseString | src/kstd/CString.hh:29-30 | reversing keeps the buffer size |
| CString.ReverseStringTwice | src/kstd/CString.hh:29-30 | reversing twice restores the buffer and keeps it terminated |
| CString.FromUnsignedInteger | src/kstd/CString.hh:35-52 | the numeral is never empty |
| CString.FromInteger | src/kstd/CString.hh:35-52 | the numeral is never empty |
| CString.FromPointer | src/kstd/CString.hh:35-52 | the numeral of the address is never empty, reads back as the address, and has at most 8 digits in base 16 |
| CString.FromIntegerRoundTrip | src/kstd/CString.hh:35-52 | a non-negative value reads back from its numeral; a negative one is '-' followed by the numeral of its magnitude |
| CString.FromUnsignedIntegerRoundTrip | src/kstd/CString.hh:35-52 | the numeral reads back as the value in its base |
| CString.FromUnsignedIntegerFits | src/kstd/CString.hh:35-52 | a 64-bit value has at most 20 decimal or 16 hex digits |
| Numerals.Numeral | src/kstd/CString.hh:35-52 | the numeral of a value is at least one digit |
| Numerals.DigitCharValue | src/kstd/CString.hh:35-52 | reading back the digit character for d gives d, in either case |
| Numerals.NumeralDigits | src/kstd/CString.hh:35-52 | every character is a digit of the base, and a non-zero value has no leading zero |
| Numerals.NumeralRoundTrip | src/kstd/CString.hh:35-52 | reading the numeral of v in its base gives v |
| Numerals.NumeralLength | src/kstd/CString.hh:35-52 | a value below base^k has at most k digits |
| Numerals.CDivMod | src/ConsolePrintFormat.cc:174-178 | C division truncates toward zero: it agrees with Euclidean division for a >= 0, is mirrored for a < 0, and a == q*b + r with abs(r) < b |
| Numerals.PlacesWritten | src/ConsolePrintFormat.cc:174-178 | the digit loop writes at least one place and never a NUL |
| Numerals.PlacesWrittenFirst | src/ConsolePrintFormat.cc:174-178 | the first place written is the value's C remainder and the rest are the places of its C quotient |
| Numerals.ItoaText | src/ConsolePrintFormat.cc:161-194 | itoa's text is non-empty and has no NUL before its terminator |
| Numerals.PlacesWrittenNatural | src/ConsolePrintFormat.cc:174-178 | for v >= 0 the places, reversed, are v's numeral |
| Numerals.ItoaNonNegative | src/ConsolePrintFormat.cc:161-194 | itoa of a non-negative value is its numeral in the base |
| Numerals.ItoaNegativeDecimal | src/ConsolePrintFormat.cc:161-194 | itoa of a negative value in base 10 is '-' then the numeral of its magnitude |
| Numerals.PlacesWrittenNegative | src/ConsolePrintFormat.cc:174-178 | for v < 0 each place is '0' minus the digit the magnitude has there |
| Numerals.ItoaNegativeNonDecimal | src/ConsolePrintFormat.cc:166-182 | a negative value in another base gets no '-'; each character is '0' minus the magnitude's digit at that place |
| Memory.FilledEffect | src/kstd/Memory.hh:23-27 | filling writes the value to exactly [ptr, ptr+length) and keeps every other byte |
| Memory.StoreZero | src/kstd/Memory.cc:69-87 | one zeroing store of `width` bytes leaves memory equal to Filled with 0 |
| Memory.Zero | src/kstd/Memory.cc:63-90 | zero returns ptr, and memory afterwards is the old memory with [ptr, ptr+length) zeroed, whatever the alignment |
| Memory.Set | src/kstd/Memory.cc:93-103 | set returns ptr, and memory afterwards is the old memory with [ptr, ptr+length) set to the value |
| Memory.CopiedEffect | src/kstd/Memory.hh:17-21 | after a copy the destination holds the old source bytes and nothing else changes |
| Memory.CopyAsWritten | src/kstd/Memory.cc:14-36 | copy as written returns `to` and modifies no memory (no `modifies` clause) |
| Memory.MoveAsWritten | src/kstd/Memory.cc:39-60 | move as written returns `to` and modifies no memory |
| Memory.CopyAsWrittenMissesCopy | src/kstd/Memory.cc:33 | copying two bytes from 2 to 0 of [1,2,3,4] should give [3,4,3,4], which the as-written copy never produces |
| Memory.CopyForward | src/kstd/Memory.cc:33 | an ascending loop copies correctly when the destination is below the source or the regions are disjoint |
| Memory.CopyBackward | src/kstd/Memory.cc:54 | a descending loop copies correctly when the destination is above the source |
| Memory.Copy | src/kstd/Memory.cc:14-36 | copy returns `to`; equal pointers or overlapping regions leave memory unchanged; otherwise the bytes are copied |
| Memory.Move | src/kstd/Memory.cc:39-60 | move returns `to` and copies the bytes correctly even when the regions overlap |
| Frames.CellFramesSet | src/memory/FrameAllocator.hh:33 | setting bit j of cell i marks frame 8i+j in use and no other frame |
| Frames.ZeroCellsAreFree | src/memory/FrameAllocator.cc:35 | zeroed bitmap cells mean every frame is free |
| Frames.FirstFree | src/memory/FrameAllocator.hh:24-30 | the frame found is free and every lower frame is in use; none is found iff every frame is in use |
| Frames.AddressOfPage | src/memory/FrameAllocator.hh:45-46 | a frame's address is page-aligned and is page * 4096 for every frame below 2^20 |
| Frames.FrameZeroLooksLikeFailure | src/memory/FrameAllocator.hh:28 | frame 0's address is 0, the value allocate returns on failure |
| Frames.PageCount | src/memory/FrameAllocator.cc:29 | the page count of a 32-bit KiB size is below 2^20 |
| Frames.CellCount | src/memory/FrameAllocator.cc:30 | the bitmap has floor(pages / 8) cells, so a trailing partial cell's pages are dropped |
| Frames.ReservedIsNeverAllocated | src/memory/FrameAllocator.hh:42-43 | after reserving a range, allocation never returns a frame in it, and reserving twice is reserving once |
| Frames.AllocationsIncrease | src/memory/FrameAllocator.hh:24-30 | the next allocation returns a strictly higher frame, so frames are never handed out twice |
| Frames.RangeCoversBytes | src/memory/FrameAllocator.hh:42-43 | every byte of the reserved range lies in one of the frames reserved |
| Frames.FrameHoldsByte | src/memory/FrameAllocator.hh:42-43 | conversely, every frame reserved holds a byte of the range, so an empty range reserves no frame |
| Frames.FrameAllocator.constructor | src/memory/FrameAllocator.cc:16-19 | the bitmap pointer and size start at 0 |
| Frames.FrameAllocator.Frames | src/memory/FrameAllocator.hh:33-38 | each bitmap cell tracks eight frames |
| Frames.FrameAllocator.Initialize | src/memory/FrameAllocator.cc:22-36 | the bitmap is placed at the kernel's end with CellCount cells, those bytes are zeroed, and every frame reads as free |
| Frames.FrameAllocator.Allocate | src/memory/FrameAllocator.hh:24-30 | returns the address of the first free frame and marks it used, or returns 0 and changes nothing; only bitmap bytes change |
| Frames.FrameAllocator.ReserveRange | src/memory/FrameAllocator.hh:42-43 | the frames [FirstFrameOf, EndFrameOf) are marked used and no other (with RangeCoversBytes and FrameHoldsByte: exactly the frames touching [start, start+length)); only bitmap bytes change |
| Paging.WithAddressEffect | src/memory/PageAllocator.cc:86-90 | setAddress puts the address's frame bits in the entry and keeps the twelve flag bits |
| Paging.SystemDirectoryFlagsEffect | src/memory/PageAllocator.cc:99-105 | the system-directory flags are present, writable and supervisor-only; the other bits are kept |
| Paging.SystemEntryOfTable | src/memory/PageAllocator.cc:124-126 | directory entry 0 is the table's frame address with flags 3 |
| Paging.SystemEntryExample | src/memory/PageAllocator.cc:124-126 | a table at 0x1000 gives entry 0x1003 |
| Paging.PageEntry.constructor | src/memory/PageAllocator.cc:50-54 | a new entry is 0 |
| Paging.PageEntry.SetPresent | src/memory/PageAllocator.cc:56-64 | sets or clears bit 0 only |
| Paging.PageEntry.SetReadWrite | src/memory/PageAllocator.cc:66-74 | sets or clears bit 1 only |
| Paging.PageEntry.SetUserAccess | src/memory/PageAllocator.cc:76-84 | sets or clears bit 2 only |
| Paging.PageEntry.SetAddress | src/memory/PageAllocator.cc:86-90 | replaces the address bits and keeps the flags |
| Paging.PageEntry.SetFlagsForSystemDirectory | src/memory/PageAllocator.cc:99-105 | present, writable, supervisor |
| Paging.StoreWord | src/memory/PageAllocator.cc:124-126 | storing through the entry reference writes four little-endian bytes at the slot and nothing else |
| Paging.DirectoryZeroLengthIsFourMiB | src/memory/PageAllocator.cc:122 | the zeroing length as written is 4 MiB, which is 1024 pages, while the directory itself is one page (1024 four-byte entries) |
| Paging.PageAllocator.Build | src/memory/PageAllocator.cc:116-127 | for every layout: the directory is the first free frame; the table is the first free frame of the flags as the zeroing left them (FlagsBeforeTable); slot 0 holds the system entry for that table; the rest of the zeroed span, bitmap cells aside, is 0; outside the span and the bitmap, memory is unchanged. When slot 0 is not a bitmap cell, slot 0 is exactly the entry for a zeroed slot and the flags are the table's allocation on top; when the whole span misses the bitmap, that is two allocations in a row |
| Paging.PageAllocator.Initialize | src/memory/PageAllocator.cc:116-127 | initialize as written zeroes 4 MiB from the directory, bitmap cells in that span included, and points slot 0 at the first frame free after that zeroing; no guard on the layout |
| Paging.PageAllocator.InitializeOnePage | src/memory/PageAllocator.cc:122 | the corrected initialize zeroes only the directory's page, so entries 1-1023 are 0 (bitmap cells aside) and no other page outside the bitmap is touched; when the page misses the bitmap, the flags are two allocations in a row and slot 0 points at the second |
| Paging.ZeroBeside | src/memory/PageAllocator.cc:122 | the span reads 0, nothing else changes, and the frames whose bitmap cells lie in the span read free (Wiped) |
| Paging.WipedCells | src/memory/PageAllocator.cc:122 | zeroing memory turns the bitmap cells it reaches into free frames and keeps the other frames' flags |
| Paging.WipedClear | src/memory/PageAllocator.cc:122 | a span that misses the bitmap changes no frame flag |
| Paging.WipedCovered | src/memory/PageAllocator.cc:122 | a span that covers the bitmap frees every frame |
| Paging.CoveredBitmapForgetsDirectory | src/memory/PageAllocator.cc:120-125 | when the zeroing covers the bitmap, the table is frame 0 whatever it held, and afterwards only frame 0 reads in use, so the directory's frame is free again |
| Paging.FreshBootTableIsDirectory | src/memory/PageAllocator.cc:120-125 | on a fresh allocator whose bitmap lies in the first 4 MiB, initialize as written puts the directory and the first table both at address 0 |
| Paging.EntryForFields | src/memory/PageAllocator.cc:86-105 | whatever the slot held, the system entry has the table's page number in bits 31:12 and 011 in bits 2:0 |
| Paging.WriteSystemEntry | src/memory/PageAllocator.cc:124-126 | slot 0 becomes the system entry for the table built from the word it held, and no other byte changes |
| Paging.PrepareDirectory | src/memory/PageAllocator.cc:120-122 | the directory is the first free frame; its span is zeroed; bytes outside the span and the bitmap are kept; the flags are the allocation with the cells in the span wiped |
| Paging.InstallFirstTable | src/memory/PageAllocator.cc:124-126 | the table is the first free frame; slot 0 holds the system entry for it; bytes outside slot 0 and the bitmap are kept; when slot 0 is not a bitmap cell, slot 0 is built from the word it held and the flags are that one allocation |
| Descriptors.KernelSegment | src/Descriptors.cc:42-48 | a kernel segment is present, ring 0, 32-bit, page-granular code/data, with the given base, limit and type |
| Descriptors.SegmentBaseFields | src/Descriptors.cc:66-82 | base bits 0-15, 16-23 and 24-31 sit at descriptor bits 16-31, 32-39 and 56-63 |
| Descriptors.SegmentLimitFields | src/Descriptors.cc:71-82 | limit bits 0-15 and 16-19 sit at descriptor bits 0-15 and 48-51 |
| Descriptors.SegmentFlagFields | src/Descriptors.cc:57-70 | granularity, D/B, L and AVL sit at bits 55, 54, 53 and 52 |
| Descriptors.SegmentAccessFields | src/Descriptors.cc:61-75 | P, DPL, S and type sit at bits 47, 45-46, 44 and 40-43 |
| Descriptors.SegmentLimitHighBitsIgnored | src/Descriptors.cc:71-82 | limit bits above 19 do not affect the descriptor |
| Descriptors.KernelCodeSegmentWord | src/Descriptors.cc:42-85 | the flat kernel code segment encodes as 0x00CF9A000000FFFF |
| Descriptors.KernelDataSegmentWord | src/Descriptors.cc:42-85 | the flat kernel data segment encodes as 0x00CF92000000FFFF |
| Descriptors.SegmentAvlAsWritten | src/Descriptors.cc:60 | with `available` set and 64-bit code clear, the encoder as written leaves the AVL bit 0 |
| Descriptors.SegmentAvlBit | src/Descriptors.cc:57-60 | descriptor bit 52 (AVL) is `available` in the corrected encoder and `hasNative64BitCode` in the one as written |
| Descriptors.SegmentEncodersAgree | src/Descriptors.cc:57-60 | both encoders agree whenever `available` equals the 64-bit flag, which includes every kernel segment |
| Descriptors.GateOffsetFields | src/Descriptors.cc:155-185 | interrupt and trap gates put offset bits 0-15 and 16-31 at descriptor bits 0-15 and 48-63, with the 32-bit flag at bit 43 |
| Descriptors.TaskGateFields | src/Descriptors.cc:161-182 | a task gate leaves the offset and size fields 0 |
| Descriptors.GateCommonFields | src/Descriptors.cc:165-178 | selector at bits 16-31, P at 47, DPL at 45-46, type at 40-42, and bits 32-39 zero |
| Descriptors.InterruptGateExample | src/Descriptors.cc:155-185 | a ring-0 32-bit interrupt gate to 0x08:0x12345678 encodes as 0x12348E0000085678 |
| Descriptors.PseudoDescriptorLimit | src/Descriptors.cc:118 | for a table of 1 to 0x2000 descriptors, the limit loaded is one less than the table's size in bytes and fits the 16-bit `limit` field of src/Descriptors.cc:19 |
| Descriptors.PseudoDescriptorLimits | src/Descriptors.cc:218 | the GDT's limit is 39 and the IDT's is 0x7FF, which fits the 16-bit field |
| Descriptors.SegmentTypeClasses | src/Descriptors.hh:44-64 | a type is a code type (bit 3 set) iff it is one of the eight code types |
| Descriptors.Gdt.constructor | src/Descriptors.cc:88-90 | a new GDT has five zero entries and nothing loaded |
| Descriptors.Gdt.Load | src/Descriptors.cc:114-138 | the processor's active table becomes the table's current contents |
| Descriptors.Gdt.SetDescriptor | src/Descriptors.cc:93-101 | as written: a valid index gets `descriptor()` of the segment, whose AVL bit comes from `hasNative64BitCode`, and no other entry changes; an out-of-range index changes nothing |
| Descriptors.Gdt.SetDescriptorCorrected | src/Descriptors.cc:93-101 | the same update with the corrected encoder, whose AVL bit is `available` |
| Descriptors.Gdt.SetNullDescriptor | src/Descriptors.cc:104-111 | a valid index becomes 0 and no other entry changes; an out-of-range index changes nothing |
| Descriptors.Idt.constructor | src/Descriptors.cc:188-190 | a new IDT has 256 zero entries and nothing loaded |
| Descriptors.Idt.Load | src/Descriptors.cc:214-222 | the active table becomes the table's current contents |
| Descriptors.Idt.SetDescriptor | src/Descriptors.cc:193-201 | a valid index gets the encoded gate and no other entry changes; an out-of-range index changes nothing |
| Descriptors.Idt.SetNullDescriptor | src/Descriptors.cc:204-211 | a valid index becomes 0 and no other entry changes; an out-of-range index changes nothing |
| MemoryManagement.SelectorsNameFlatEntries | src/Descriptors.cc:128-130 | selectors 0x08 and 0x10 name GDT entries 1 and 2 |
| MemoryManagement.MemoryManager.InitializeGdt | src/memory/Memory.cc:29-36 | entry 0 is null, entries 1 and 2 are the flat code and data segments encoded as written; the others are kept, and that table is loaded |
| MemoryManagement.MemoryManager.Initialize | src/memory/Memory.cc:18-23 | initialisation installs and loads the flat GDT |
| MemoryManagement.FlatTable | src/memory/Memory.cc:32-34 | from a fresh table the result is [0, code, data, 0, 0]; the encoder as written gives the intended words for these two segments |
| MemoryManagement.BootSegments | src/memory/Memory.cc:29-36 | the GDT loaded at boot is exactly [0, 0x00CF9A000000FFFF, 0x00CF92000000FFFF, 0, 0] |
| Multiboot.EncodeChunk | src/Multiboot.hh:18-26 | a memory-map entry is 20 bytes |
| Multiboot.ChunkRoundTrip | src/Multiboot.hh:18-26 | parsing an encoded entry gives it back |
| Multiboot.ChunkBytesRoundTrip | src/Multiboot.hh:18-26 | re-encoding any parsed 20 bytes gives the bytes back |
| Multiboot.EncodeModule | src/Multiboot.hh:150-160 | a module record is 16 bytes |
| Multiboot.ModuleRoundTrip | src/Multiboot.hh:150-160 | parsing an encoded module record gives it back |
| Multiboot.LowerMemoryKB | src/Multiboot.cc:120-128 | mem_lower when flag bit 0 is set, else 0 |
| Multiboot.UpperMemoryKB | src/Multiboot.cc:131-139 | mem_upper when flag bit 0 is set, else 0 |
| Multiboot.CommandLine | src/Multiboot.cc:142-150 | the command-line address when flag bit 2 is set, else 0 |
| Multiboot.MemoryMapChunks | src/Multiboot.cc:153-161 | the entry count when flag bit 6 is set, else 0 |
| Multiboot.MemoryAccessorsReadOnlyBit0 | src/Multiboot.cc:120-139 | the memory accessors depend on flag bit 0 alone |
| Multiboot.Begin | src/Multiboot.cc:164-172 | begin is the end iterator without the map flag, else an iterator at mmap_addr with the entry count |
| Multiboot.EqualityLaws | src/Multiboot.cc:100-117 | iterator equality is an equivalence; an iterator equals end iff no entries remain; != is the negation of == |
| Multiboot.NoMapMeansEmptyRange | src/Multiboot.cc:164-180 | without a map, or with zero entries, begin equals end |
| Multiboot.Step | src/Multiboot.cc:68-78 | advancing consumes one entry; at the end nothing moves |
| Multiboot.WalkCount | src/Multiboot.cc:68-78 | after k advances, max(count - k, 0) entries remain |
| Multiboot.ReachesEndAfterCount | src/Multiboot.cc:68-117 | the iterator equals end after `count` advances and not before |
| Multiboot.Deref | src/Multiboot.cc:90-97 | dereferencing reads the 20 bytes at the cursor; at the end it yields an all-zero entry |
| Multiboot.MemoryMapIterator.constructor | src/Multiboot.cc:55-59 | the iterator starts at the address with the count |
| Multiboot.MemoryMapIterator.CopyOf | src/Multiboot.cc:62-65 | a copy has the same position and count |
| Multiboot.MemoryMapIterator.Increment | src/Multiboot.cc:68-78 | ++ moves to Step's position |
| Multiboot.MemoryMapIterator.PostIncrement | src/Multiboot.cc:81-87 | post-increment returns a fresh copy of the old position and advances this one |
| Multiboot.StepStandard | src/Multiboot.cc:74 | the standard stride: the next entry starts size + 4 bytes on |
| Multiboot.BeginStandard | src/Multiboot.cc:171 | the first entry's fields start 4 bytes after mmap_addr, past the size field |
| Multiboot.LayOut | src/Multiboot.cc:73 | a standard map of n entries of size 20 takes 24n bytes |
| Multiboot.StandardWalkPosition | src/Multiboot.cc:68-78 | after i standard steps the cursor is 24i bytes on with i fewer entries |
| Multiboot.LayOutEntry | src/Multiboot.cc:73 | entry i's 20 bytes sit 4 bytes into its 24-byte record |
| Multiboot.StandardWalkFindsEntries | src/Multiboot.cc:68-97 | walking a standard map with the corrected begin and stride dereferences to each entry in order |
| Multiboot.StepAsWrittenOvershoots | src/Multiboot.cc:74 | as written, a 20-byte entry at 0x1000 is followed at 0x1000 + 400 rather than 0x1000 + 24 |
| Multiboot.BeginAsWrittenMisreadsBase | src/Multiboot.cc:171 | as written, the first entry read takes its base from the size field, giving base 20 |
| Pic.Ports.constructor | src/IO.hh:21-56 | the ports start with the given values and an empty log |
| Pic.Ports.In | src/IO.hh:21-27 | reads the port's current value |
| Pic.Ports.Out | src/IO.hh:51-56 | sets the port's value and appends the write to the log |
| Pic.BuildCascadeMask | src/PIC.cc:202-210 | the mask loop produces the as-written cascade mask |
| Pic.CascadeMaskOffByOne | src/PIC.cc:202-210 | for IRQ 1-8 the loop's mask is the intended mask of IRQ - 1 |
| Pic.CascadeMaskOnIrq2 | src/PIC.cc:202-210 | for the standard cascade on IRQ 2 the loop sends 0x02 rather than 0x04 |
| Pic.CascadeMaskSingleBit | src/PIC.cc:202-210 | the intended mask has exactly bit pic2Irq set |
| Pic.VectorBaseRoundsDown | src/PIC.cc:198-199 | the vector base is the offset rounded down to a multiple of 8 |
| Pic.InitWritesOrder | src/PIC.cc:222-230 | ICW1 goes to both command ports, then ICW2, ICW3 and ICW4 to each data port, in that order |
| Pic.PortForIrq | src/PIC.cc:122-126 | IRQs below 8 use PIC1's data port, and the others PIC2's |
| Pic.LineOf | src/PIC.cc:129-150 | an IRQ below 16 has line IRQ mod 8 on its controller |
| Pic.EoiWrites | src/PIC.cc:91-104 | EOI goes to PIC1 always, and first to PIC2 for IRQs 8 and up |
| Pic.Controllers.constructor | src/PIC.cc:39-42 | the controllers use the given ports |
| Pic.Controllers.SendInitialization | src/PIC.cc:222-230 | logs exactly InitWrites, and each port holds its last byte |
| Pic.Controllers.SendWords | src/PIC.cc:222-230 | one controller gets ICW1 on its command port, then ICW2, ICW3 and ICW4 on its data port |
| Pic.Controllers.InitializePics | src/PIC.cc:153-234 | initialisation as written sends InitWrites with the loop's cascade mask |
| Pic.Controllers.InitializePicsCorrected | src/PIC.cc:202-210 | the corrected initialisation sends the single-bit mask for the cascade line |
| Pic.Controllers.Initialize | src/PIC.cc:62-72 | sends the initialisation sequence and then masks every IRQ on both controllers |
| Pic.Controllers.Remap | src/PIC.cc:75-89 | as written, the masks are read, the sequence is sent, and then both saved masks are written to PIC2's data port: PIC1's first, then PIC2's; PIC1's data port gets nothing after ICW4 |
| Pic.Controllers.RemapCorrected | src/PIC.cc:75-89 | the saved masks are restored to the data ports, so both masks end as they began |
| Pic.RemapLosesPic1Mask | src/PIC.cc:87-88 | with PIC1 masked to 0xFB, replaying remap's writes on the 8259A leaves PIC1's IMR at 0 as written and at 0xFB corrected |
| Pic.ReplayAppend | src/PIC.cc:75-89 | the controller's register after two runs of writes is the register after their concatenation |
| Pic.ReplayElsewhere | src/PIC.cc:75-89 | writes to the other controller's ports leave a controller's IMR and pending words unchanged |
| Pic.InitClearsMask | src/PIC.cc:222-230 | ICW1 to ICW4 on one controller leave its IMR 0 with no initialization word pending, whatever it held before |
| Pic.InitWritesClearMasks | src/PIC.cc:153-234 | after the eight initialization writes both controllers' IMRs are 0 and ready for OCW1 |
| Pic.RemapAsWrittenMasks | src/PIC.cc:75-89 | after remap as written, PIC1's IMR is 0 whatever its saved mask, and PIC2's IMR is PIC2's saved mask |
| Pic.RemapCorrectedMasks | src/PIC.cc:75-89 | after the corrected remap each controller's IMR is its own saved mask |
| Pic.Controllers.EndOfInterrupt | src/PIC.cc:91-104 | logs exactly EoiWrites of the IRQ |
| Pic.Controllers.EnableIrq | src/PIC.cc:129-138 | clears the IRQ's line in its controller's mask and writes it back |
| Pic.Controllers.DisableIrq | src/PIC.cc:141-150 | sets the IRQ's line in its controller's mask and writes it back |
| Pic.Controllers.EnableInterrupt | src/PIC.cc:107-116 | enables or disables the IRQ's line as asked: the line's bit is cleared or set in its controller's mask, and that one byte is written to its data port |
| Pic.EnableOpensOnlyItsLine | src/PIC.cc:129-138 | enabling clears the IRQ's own bit and keeps every other mask bit |
| Pic.DisableThenEnable | src/PIC.cc:129-150 | disabling and then enabling an open line restores the mask |
| Format.Cleared | src/kstd/PrintFormat.cc:68-77 | a cleared spec has no flags, width 0 and the normal size |
| Format.NextSize | src/kstd/PrintFormat.cc:259-265 | 'h' gives short and 'hh' char size; 'l' gives long and 'll' long long |
| Format.SignedOf | src/kstd/PrintFormat.cc:105-143 | the argument is read at its size; everything but long long fits 32 bits |
| Format.UnsignedOf | src/kstd/PrintFormat.cc:105-143 | the unsigned reading is below 2^64, and below 2^32 except for long long |
| Format.Padding | src/kstd/PrintFormat.cc:159-166 | n pad characters, and none for n <= 0 |
| Format.Justify | src/kstd/PrintFormat.cc:159-166 | the field is right-justified to the width: the text at the end, pad characters before it |
| Format.PadFor | src/kstd/PrintFormat.cc:101-104 | the pad is '0' iff zero padding is asked for (or the kernel prints %p) and the conversion is not %s |
| Format.CharConversion | src/kstd/PrintFormat.cc:90-99 | %c counts every character it prints |
| Format.StringConversion | src/kstd/PrintFormat.cc:148-153 | %s counts nothing as written, and its whole field when corrected |
| Format.NumberConversion | src/kstd/PrintFormat.cc:105-147 | numbers count nothing as written, and their whole field when corrected |
| Format.Conversion | src/kstd/PrintFormat.cc:80-169 | the count is at most the field printed: all of it for %c or when corrected, 0 otherwise |
| Format.Convert | src/kstd/PrintFormat.cc:267-328 | a conversion returns to the default state, consumes one argument, only appends output, and adds no more to the count than it prints (exactly that when corrected) |
| Format.Parse | src/kstd/PrintFormat.cc:206-265 | outside conversions a character only changes the state or appends itself and counts one |
| Format.RunFirst | src/kstd/PrintFormat.cc:206 | a run is its first step followed by the run over the rest |
| Format.StepCount | src/kstd/PrintFormat.cc:190-332 | one step never adds more to the count than it prints |
| Format.RunCount | src/kstd/PrintFormat.cc:190-332 | over a whole run, the count grows by at most the output's growth, and by exactly that when corrected |
| Format.CorrectedCountIsLength | src/kstd/PrintFormat.hh:17-23 | the corrected printFormat returns the number of characters it printed, as its header promises |
| Format.CountAsWrittenBounded | src/kstd/PrintFormat.cc:168 | the count as written is at most the number of characters printed |
| Format.ConversionSameText | src/kstd/PrintFormat.cc:80-169 | the count fix changes no printed text |
| Format.StepSameOutput | src/kstd/PrintFormat.cc:190-332 | one step prints the same with either count |
| Format.RunSameOutput | src/kstd/PrintFormat.cc:190-332 | a run prints the same with either count |
| Format.SameOutput | src/kstd/PrintFormat.cc:190-332 | printFormat as written and corrected print the same text |
| Format.CountAsWrittenMissesNumbers | src/kstd/PrintFormat.cc:327 | "%d" of 42 prints "42" but counts 0 as written, and 2 when corrected |
| Format.StepPlain | src/kstd/PrintFormat.cc:208-216 | in the default state an ordinary character is printed and counted |
| Format.StepPercent | src/kstd/PrintFormat.cc:208-216 | '%' starts a conversion with a cleared spec |
| Format.StepIgnored | src/kstd/PrintFormat.cc:217-234 | after '%' an unknown character is skipped and the conversion stays open |
| Format.StepSpecifier | src/kstd/PrintFormat.cc:267-328 | a specifier in any non-default state performs the conversion |
| Format.RunPlain | src/kstd/PrintFormat.cc:208-216 | text without '%' is copied and counted character by character |
| Format.PlainText | src/kstd/PrintFormat.hh:17-23 | a format without '%' prints itself and returns its length |
| Format.PercentPercent | src/kstd/PrintFormat.cc:217-234 | "%%" prints one '%' |
| Format.ZeroFlagOnce | src/kstd/PrintFormat.cc:217-244 | after '%' the first '0' is the zero flag and the next '0' starts the width |
| Format.WidthAfter | src/kstd/PrintFormat.cc:235-244 | appending decimal digits never decreases the width |
| Format.WidthDigits | src/kstd/PrintFormat.cc:235-244 | a run of digits in the width state accumulates their decimal value |
| Format.WidthTwelve | src/kstd/PrintFormat.cc:235-244 | "%12" sets width 12 |
| Format.RunAppend | src/kstd/PrintFormat.cc:206 | running a + b is running a and then b from the state reached |
| Format.DoubledSizes | src/kstd/PrintFormat.cc:259-265 | "hh" gives char size and "ll" long long |
| Format.ConsoleIgnoresI | src/ConsolePrintFormat.cc:341-396 | the console dialect skips 'i' inside a conversion, so "%id" of 7 prints "7" |
| Format.KernelPrintsI | src/kstd/PrintFormat.cc:179-183 | the kernel dialect converts 'i', so "%id" of 7 prints "7d" |
| Format.CharField | src/kstd/PrintFormat.cc:90-99 | %c prints the character justified to the width |
| Format.StringField | src/kstd/PrintFormat.cc:148-153 | %s prints the string's text justified to the width |
| Format.PointerField | src/kstd/PrintFormat.cc:105-143 | the kernel's %p prints at most eight upper-case hex digits of the address, zero-padded, with no prefix |
| Format.DialectsAgreeOnDecimal | src/ConsolePrintFormat.cc:95-131 | for non-negative ints both dialects print %d the same |
| Format.KernelHexField | src/kstd/PrintFormat.cc:303-305 | the kernel's %X is capitalised and %x is not |
| Format.ConsoleHexOfLargeValue | src/ConsolePrintFormat.cc:95-131 | the console's %x of a value above INT_MAX goes through signed itoa |
| Printing.Screen.constructor | src/Console.hh:51 | the screen starts empty |
| Printing.Screen.PrintChar | src/Console.hh:59 | a character is appended to the screen |
| Printing.ItoaFits | src/ConsolePrintFormat.cc:161-194 | every 32-bit value in base 10 or 16 fits itoa's output, terminator included, in 12 characters |
| Printing.Itoa | src/ConsolePrintFormat.cc:161-194 | the buffer holds ItoaText and a NUL after it, and the bytes beyond are kept |
| Printing.WritePlaces | src/ConsolePrintFormat.cc:174-178 | the digit loop writes PlacesWritten at the buffer's start |
| Printing.ReverseBuffer | src/ConsolePrintFormat.cc:187-193 | the swap loop reverses the first n characters in place and keeps the rest |
| Printing.EmitField | src/kstd/PrintFormat.cc:159-166 | the padding loop and the text loop print exactly the justified field |
| Printing.PrintCharacter | src/kstd/PrintFormat.cc:90-99 | prints and counts exactly CharConversion |
| Printing.NumberDigits | src/kstd/PrintFormat.cc:105-143 | the digit routines leave the number's text at the buffer's start |
| Printing.PrintNumber | src/kstd/PrintFormat.cc:105-147 | prints and counts exactly NumberConversion |
| Printing.PrintString | src/kstd/PrintFormat.cc:148-153 | prints and counts exactly StringConversion |
| Printing.Print | src/kstd/PrintFormat.cc:80-169 | prints and counts exactly Conversion |
| Printing.PrintFormat | src/kstd/PrintFormat.cc:190-332 | the loop prints exactly the run's output and returns its count |
| Printing.Advance | src/kstd/PrintFormat.cc:206 | one loop iteration preserves the invariant that the rest of the run reaches the same final state |
| Printing.Dispatch | src/kstd/PrintFormat.cc:206-328 | one character's handling matches Step and prints its new output |
| Printing.Specifier | src/kstd/PrintFormat.cc:267-328 | the specifier branch matches Convert and prints its field |

## Left out

- The initialisation paths' log messages are not printed: `kstd::printFormat` at src/memory/Memory.cc:22 ("GDT loaded"), src/memory/FrameAllocator.cc:32 (the bitmap's size and address) and src/memory/PageAllocator.cc:121 (the page directory's address). `MemoryManagement.MemoryManager.Initialize`, `Frames.FrameAllocator.Initialize` and `Paging.PageAllocator.Initialize`/`Build` write nothing to `Printing.Screen`, and no other state depends on those messages.
- Port I/O (`inb`/`outb` assembly in src/IO.hh) is modelled as the `Pic.Ports` map and log. Device timing and the `io_wait` delays are not modelled.
- `lgdt`, `lidt` and the far jump that reloads the segment registers are not modelled. `Load` records only the table that becomes active. The pseudo-descriptor is reduced to its limit, which is stated separately.
- The IDT entries the kernel installs for its exception handlers (src/Interrupts.cc) are not modelled, because they are assembly stubs. The IDT's encoding and table operations are modelled.
- Singleton accessors and the objects' storage classes are not modelled, because they hold no logic. Neither are src/Kernel.cc, src/Main.cc, main.cc, src/cxa.cc and the console driver src/Console.cc. Console output is `Printing.Screen`'s character sequence, and `putchar` writes to the same screen.
- `printFormat`'s C varargs are a sequence of tagged `Arg` values. An argument of the wrong kind, or a missing one, is undefined behaviour in C and gives `None` in the model.
- Format.Convert: the model does not wrap the `int` character count when it overflows past INT_MAX, because no format in the kernel prints 2^31 characters.
- The console's spec `clear` does not reset the value field. This is not modelled, because the field is always rewritten before it is read.
- CString.Length: `length` is modelled by the contract in its header. The implementation in CString.cc is modelled separately, as written (see Findings).
- The bodies of Bit::set, Bit::clear, Bit::setMask, the startup information's pageSize and pageAlignDown, CString::copy, CString::reverse and the CString::from* family are not part of this model, because their implementation files are missing. They are written from their names, their header comments and their call sites. The Bits and CString functions state what is assumed of them.
- CString.FromInteger: the buffer-length parameter is not modelled, because every caller passes a 32-character buffer and the longest numeral is 20 characters (CString.FromUnsignedIntegerFits).
- Frames.FrameAllocator.Allocate: `allocate`, `reserveRange` and `addressOfPage` have no implementation in the sources. They follow the header comments, and allocation is first-fit. `reserveRange` marks exactly the frames that hold a byte of the range, so a zero-length range marks none.
- `memoryKB()` and `startupInformation.pageSize` are used but never declared. `Initialize` takes the memory size as a parameter, and the page size is the constant 4096.
- `memoryMapCount`, which is never declared, is the `count` parameter of `Multiboot.Begin` and `Multiboot.MemoryMapChunks`. The header's `mCount`/`mLength` naming mismatch is resolved as that one count.
- Frames.FrameAllocator.constructor: `mNumberOfPages` is never assigned, so it is a constructor parameter standing for the indeterminate value, and `Initialize` keeps it.
- The console's file-local helpers (src/ConsolePrintFormat.cc:197-255) repeat ones modelled elsewhere. `is_digit`, `is_hex`, `is_lower`, `is_upper` and `is_letter` are `Ascii.IsDigit`, `Ascii.IsHexDigit`, `Ascii.IsLower`, `Ascii.IsUpper` and `Ascii.IsLetter`. `is_size` is `Format.IsSizeChar`, and `is_specifier` is `Format.IsSpecifier` for the `Console` dialect. `to_upper`, which nothing calls, is the loop of `CString.Uppercase`.
- Pic.Ports.In: a port reads back the last byte written to it, not the device register behind it. The 8259A's interrupt mask register, which ICW1 clears, is modelled by `Pic.Replay` over the write log, and the remap finding is stated on that register.
- Pic.Controllers.EnableIrq: IRQ 39 and above need a shift of `1` by 31 or more, which is undefined, so the methods require `irq < 39`.
- Descriptors.Idt.SetDescriptor: the selector must be below 0x8000. A larger value would sign-extend through the source's `int` shift.
- Printing.Itoa: negating the most negative `int` is undefined, so base-10 INT_MIN is excluded.
- The Multiboot drive, APM, VBE and symbol-table records (src/Multiboot.hh:99-147) are not modelled, because no kernel code reads them. Module and memory-map records are modelled as values with their byte layouts.
- Pointer aliasing between the kernel's objects is not modelled, apart from the frame bitmap and the page directory, which share the single memory array.

## Findings

| source | as written | input that shows it | evidently intended | confidence | as-written member | corrected member |
|---|---|---|---|---|---|---|
| src/kstd/CString.cc:18-20 | the loop compares the address `end` with '\0', so it stops at address 0 and returns 1 - str modulo 2^32 | "a" at address 0x1000: returns 0xFFFFF001 | compare `*end` and return the number of characters before the NUL | not executed | CString.LengthAsWrittenIgnoresText | CString.LengthOf |
| src/kstd/Memory.cc:33 | `copy` and `move` never write a byte (a TODO and empty branches) | copy(0, 2, 2) on [1,2,3,4] leaves [1,2,3,4] | copy the bytes, forward or backward as the overlap needs | not executed | Memory.CopyAsWrittenMissesCopy | Memory.Move |
| src/Multiboot.cc:74 | src/Multiboot.hh:47 declares `mCurrent` a `uint32_t`, but Multiboot.cc initialises it from a `MemoryChunk*` (line 57) and dereferences it as one (line 96); under the .cc reading, modelled here, adding the size moves size * 20 bytes (under the header's reading it would move size bytes, still 4 short) | entry of size 20 at 0x1000: the next is read at 0x1190 | advance size + 4 bytes, as in section 3.3 of the Multiboot Specification 0.6.96 | not executed | Multiboot.StepAsWrittenOvershoots | Multiboot.StandardWalkFindsEntries |
| src/Multiboot.cc:171 | the first entry is read at mmap_addr, which holds its size field | a map whose first entry has size 20: base reads as 20 | start 4 bytes after mmap_addr | not executed | Multiboot.BeginAsWrittenMisreadsBase | Multiboot.StandardWalkFindsEntries |
| src/Descriptors.cc:60 | the AVL bit is taken from `hasNative64BitCode` | a segment with available = true and L = false: AVL is 0 | take AVL from `available` | not executed | Descriptors.SegmentAvlAsWritten, Descriptors.Gdt.SetDescriptor | Descriptors.SegmentAvlBit, Descriptors.Gdt.SetDescriptorCorrected |
| src/PIC.cc:87-88 | both saved masks are written to PIC2's data port | PIC1 masked 0xFB before remap: ICW1 clears its IMR and no OCW1 follows, so it ends 0x00 with IRQs 0-7 open | restore each mask on its own controller's data port | not executed | Pic.RemapLosesPic1Mask, Pic.RemapAsWrittenMasks | Pic.RemapCorrectedMasks, Pic.Controllers.RemapCorrected |
| src/PIC.cc:205 | the loop leaves bit pic2Irq - 1 set, not bit pic2Irq | cascade on IRQ 2: ICW3 is 0x02 | 1 << pic2Irq (0x04 for IRQ 2) | not executed | Pic.CascadeMaskOnIrq2 | Pic.CascadeMaskSingleBit |
| src/memory/PageAllocator.cc:122 | zeroes 1024 * pageSize bytes, 4 MiB, from the directory, including any bitmap cells there | a fresh allocator with its bitmap below 4 MiB: the directory is at 0, the zeroing wipes the bitmap, and the first page table is allocated at 0 too | zero the directory's one page of 1024 four-byte entries | not executed | Paging.DirectoryZeroLengthIsFourMiB, Paging.FreshBootTableIsDirectory | Paging.PageAllocator.InitializeOnePage |
| src/kstd/PrintFormat.cc:327 | only %c and plain characters add to the returned count | "%d" of 42 prints "42" and returns 0 | return the number of characters printed | not executed | Format.CountAsWrittenMissesNumbers | Format.CorrectedCountIsLength |

`Descriptors.Gdt.SetDescriptor`, and through it `MemoryManagement`, stores the descriptor as written. Descriptors.SegmentEncodersAgree proves that both encoders give the same words for every kernel segment, so the boot GDT holds the intended words. The printFormat count row holds for both dialects; the console's `print` also returns only the %c count (src/ConsolePrintFormat.cc:157).
