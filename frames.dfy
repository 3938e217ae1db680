/**
 * The physical frame allocator (memory/FrameAllocator.hh,
 * memory/FrameAllocator.cc). Its bitmap is an array of `Bitmap<u8>` cells
 * placed in physical memory right after the kernel; cell i bit j tracks
 * frame 8 i + j, and a set bit means the frame is in use. The constructor and
 * `initialize` follow the implementation; `allocate`, `reserveRange` and
 * `addressOfPage` are declared with doc comments only and are written here
 * against those comments (first fit over the counted cells).
 */
module Frames {
  import opened Common
  import opened Bitmaps
  import opened Memory
  import Bits

  /** The frame-in-use flags a run of cells records: frame k is bit k % 8 of cell k / 8. */
  ghost function CellFrames(cells: seq<bv8>): (f: seq<bool>)
    ensures |f| == 8 * |cells|
  {
    seq(8 * |cells|, k requires 0 <= k < 8 * |cells| => BitOf(cells[k / 8], k % 8))
  }

  /** Setting bit j of cell i marks frame 8 i + j in use and changes no other frame. */
  lemma CellFramesSet(cells: seq<bv8>, i: nat, j: nat)
    requires i < |cells| && j < 8
    ensures CellFrames(cells[i := SetBit(cells[i], j)]) == CellFrames(cells)[8 * i + j := true]
  {
    var after := cells[i := SetBit(cells[i], j)];
    var l, r := CellFrames(after), CellFrames(cells)[8 * i + j := true];
    forall k | 0 <= k < |l|
      ensures l[k] == r[k]
    {
      if k / 8 == i {
        if k % 8 == j {
          assert k == 8 * i + j;
        } else {
          assert k != 8 * i + j;
        }
      } else {
        assert k != 8 * i + j;
      }
    }
  }

  /** A run of zero cells records every frame as free. */
  lemma ZeroCellsAreFree(cells: seq<bv8>)
    requires forall i :: 0 <= i < |cells| ==> cells[i] == 0
    ensures forall k :: 0 <= k < |CellFrames(cells)| ==> !CellFrames(cells)[k]
  {
    forall k | 0 <= k < |CellFrames(cells)|
      ensures !CellFrames(cells)[k]
    {
      assert cells[k / 8] == 0;
    }
  }

  /** The lowest free frame, if any. */
  function FirstFree(f: seq<bool>): (r: Option<nat>)
    ensures r.Some? ==> r.value < |f| && !f[r.value] && forall q :: 0 <= q < r.value ==> f[q]
    ensures r.None? ==> forall q :: 0 <= q < |f| ==> f[q]
  {
    if f == [] then None
    else if !f[0] then Some(0)
    else match FirstFree(f[1..])
      case None => None
      case Some(i) => Some(i + 1)
  }

  /** `addressOfPage(page)`: the physical address of frame `page`, a u32 pointer. */
  function AddressOfPage(page: nat): (r: u32)
    ensures r % Bits.PageSize == 0
    ensures page < 0x10_0000 ==> r == page * Bits.PageSize && r / Bits.PageSize == page
  {
    Wrap32(page * Bits.PageSize)
  }

  /** Frame 0 has address 0, the value `allocate` returns on failure: the two cannot be told apart. */
  lemma FrameZeroLooksLikeFailure()
    ensures AddressOfPage(0) == 0
  {
  }

  /** `memoryKB() * 1024 / pageSize` in u32 arithmetic. */
  function PageCount(memoryKB: u32): (n: nat)
    ensures n < 0x10_0000
  {
    Wrap32(memoryKB * 1024) / Bits.PageSize
  }

  /** `numberOfPages / (sizeof(Bitmap) * 8)`: whole cells only. */
  function CellCount(memoryKB: u32): (n: nat)
    ensures n < 0x2_0000
    ensures 8 * n <= PageCount(memoryKB) < 8 * n + 8
  {
    PageCount(memoryKB) / 8
  }

  /** Frames [first, last) are marked in use, the others keep their state. */
  ghost function Reserved(f: seq<bool>, first: nat, last: nat): (r: seq<bool>)
    ensures |r| == |f|
  {
    seq(|f|, k requires 0 <= k < |f| => f[k] || (first <= k < last))
  }

  /** After reserving, the lowest free frame lies outside the reserved range, and reserving twice is reserving once. */
  lemma ReservedIsNeverAllocated(f: seq<bool>, first: nat, last: nat)
    ensures FirstFree(Reserved(f, first, last)).Some? ==>
      var p := FirstFree(Reserved(f, first, last)).value; !(first <= p < last) && !f[p]
    ensures Reserved(Reserved(f, first, last), first, last) == Reserved(f, first, last)
  {
  }

  lemma ReservedUpTo(f: seq<bool>, first: nat, k: nat)
    requires k <= first
    ensures Reserved(f, first, k) == f
  {
  }

  lemma ReservedStep(f: seq<bool>, first: nat, k: nat)
    requires first <= k < |f|
    ensures Reserved(f, first, k)[k := true] == Reserved(f, first, k + 1)
  {
  }

  /** Frames past the end of the bitmap do not exist, so clamping the range end changes nothing. */
  lemma ReservedClamp(f: seq<bool>, first: nat, k: nat, last: nat)
    requires k <= last && (k == |f| || k == last)
    ensures Reserved(f, first, k) == Reserved(f, first, last)
  {
  }

  /** Successive allocations hand out strictly increasing, hence distinct, frames. */
  lemma AllocationsIncrease(f: seq<bool>)
    requires FirstFree(f).Some?
    ensures var p := FirstFree(f).value;
      FirstFree(f[p := true]).Some? ==> FirstFree(f[p := true]).value > p
  {
  }

  /** The first frame of the 4 KiB page holding byte `start`. */
  function FirstFrameOf(start: nat): nat { start / Bits.PageSize }

  /** One past the last frame touched by the bytes [start, start + length); an empty range touches none. */
  function EndFrameOf(start: nat, length: nat): nat
  {
    if length == 0 then FirstFrameOf(start) else (start + length + Bits.PageSize - 1) / Bits.PageSize
  }

  /** Every byte of the range lies in a frame of the range. */
  lemma RangeCoversBytes(start: nat, length: nat, a: nat)
    requires start <= a < start + length
    ensures FirstFrameOf(start) <= a / Bits.PageSize < EndFrameOf(start, length)
  {
  }

  /** Conversely, every frame of the range holds a byte of the range: `a` is one. */
  lemma FrameHoldsByte(start: nat, length: nat, k: nat) returns (a: nat)
    requires FirstFrameOf(start) <= k < EndFrameOf(start, length)
    ensures start <= a < start + length && a / Bits.PageSize == k
  {
    if k == FirstFrameOf(start) {
      a := start;
    } else {
      a := k * Bits.PageSize;
    }
  }

  class FrameAllocator {
    /** `mBitmap`: the address of the first cell; 0 is the null pointer. */
    var bitmap: u32
    /** `mBitmapSize`: the number of cells. */
    var bitmapSize: u32
    /** `mNumberOfPages`: never assigned by the code, so it holds whatever it was created with. */
    var numberOfPages: u32

    /** The cells lie inside memory and track frames whose addresses fit in 32 bits. */
    predicate Valid(mem: array<bv8>)
      reads this
    {
      bitmap + bitmapSize <= mem.Length && bitmapSize < 0x2_0000
    }

    /** The in-use flag of every tracked frame. */
    ghost function Frames(mem: array<bv8>): (f: seq<bool>)
      requires Valid(mem)
      reads this, mem
      ensures |f| == 8 * bitmapSize
    {
      CellFrames(mem[bitmap..bitmap + bitmapSize])
    }

    /**
     * `FrameAllocator()`: the bitmap pointer is null and no cell is counted.
     * `mNumberOfPages` is left uninitialised; `indeterminate` stands for it.
     */
    constructor (indeterminate: u32)
      ensures bitmap == 0 && bitmapSize == 0 && numberOfPages == indeterminate
    {
      bitmap := 0;
      bitmapSize := 0;
      numberOfPages := indeterminate;
    }

    /**
     * `initialize`: place the bitmap at `kernelEnd`, count whole cells for
     * `memoryKB` of memory in 4 KiB pages, and zero exactly those cells.
     * `memoryKB` stands for the undeclared `memoryKB()` of the source.
     */
    method Initialize(kernelEnd: u32, memoryKB: u32, mem: array<bv8>)
      requires kernelEnd + CellCount(memoryKB) <= mem.Length
      modifies this, mem
      ensures bitmap == kernelEnd
      ensures bitmapSize == CellCount(memoryKB)
      ensures numberOfPages == old(numberOfPages)
      ensures Valid(mem)
      ensures mem[..] == Filled(old(mem[..]), kernelEnd, bitmapSize, 0)
      ensures forall k :: 0 <= k < |Frames(mem)| ==> !Frames(mem)[k]
    {
      bitmap := kernelEnd;
      var pageSize: u32 := Bits.PageSize;
      var pages: u32 := Wrap32(memoryKB * 1024) / pageSize;
      bitmapSize := pages / 8;
      var _ := Zero(mem, bitmap, bitmapSize);
      FilledEffect(old(mem[..]), kernelEnd, bitmapSize, 0);
      assert mem[bitmap..bitmap + bitmapSize] == mem[..][bitmap..bitmap + bitmapSize];
      ZeroCellsAreFree(mem[bitmap..bitmap + bitmapSize]);
    }

    /**
     * `allocate`: find a free frame, mark it in use and return its address;
     * return 0 when every frame is in use. Only the bitmap changes.
     */
    method Allocate(mem: array<bv8>) returns (address: u32)
      requires Valid(mem)
      modifies mem
      ensures Valid(mem)
      ensures match FirstFree(old(Frames(mem)))
        case Some(p) => address == AddressOfPage(p) && Frames(mem) == old(Frames(mem))[p := true]
        case None => address == 0 && Frames(mem) == old(Frames(mem))
      ensures forall a :: 0 <= a < mem.Length && !(bitmap <= a < bitmap + bitmapSize) ==> mem[a] == old(mem[a])
    {
      ghost var f := Frames(mem);
      var k := 0;
      while k < 8 * bitmapSize
        invariant k <= 8 * bitmapSize
        invariant forall q :: 0 <= q < k ==> f[q]
        invariant Frames(mem) == f
      {
        var cell := mem[bitmap + k / 8];
        assert f[k] == BitOf(cell, k % 8) by {
          assert mem[bitmap..bitmap + bitmapSize][k / 8] == cell;
        }
        if !IsSetIn(cell, k % 8) {
          MarkFrame(k, mem);
          assert FirstFree(f) == Some(k);
          return AddressOfPage(k);
        }
        k := k + 1;
      }
      return 0;
    }

    /** Mark frame k in use; only its cell changes. */
    method MarkFrame(k: nat, mem: array<bv8>)
      requires Valid(mem) && k < 8 * bitmapSize
      modifies mem
      ensures Valid(mem)
      ensures Frames(mem) == old(Frames(mem))[k := true]
      ensures forall a :: 0 <= a < mem.Length && !(bitmap <= a < bitmap + bitmapSize) ==> mem[a] == old(mem[a])
    {
      ghost var cells := mem[bitmap..bitmap + bitmapSize];
      var cell := mem[bitmap + k / 8];
      assert cells[k / 8] == cell;
      mem[bitmap + k / 8] := SetBit(cell, k % 8);
      assert mem[bitmap..bitmap + bitmapSize] == cells[k / 8 := SetBit(cells[k / 8], k % 8)];
      CellFramesSet(cells, k / 8, k % 8);
    }

    /**
     * `reserveRange(start, length)`: mark in use every tracked frame that
     * holds a byte of [start, start + length). Only the bitmap changes.
     */
    method ReserveRange(start: u32, length: u32, mem: array<bv8>)
      requires Valid(mem)
      modifies mem
      ensures Valid(mem)
      ensures Frames(mem) == Reserved(old(Frames(mem)), FirstFrameOf(start), EndFrameOf(start, length))
      ensures forall a :: 0 <= a < mem.Length && !(bitmap <= a < bitmap + bitmapSize) ==> mem[a] == old(mem[a])
    {
      ghost var f := Frames(mem);
      var first, last := FirstFrameOf(start), EndFrameOf(start, length);
      if last > 8 * bitmapSize {
        last := 8 * bitmapSize;
      }
      var k := if first <= last then first else last;
      ReservedUpTo(f, first, k);
      while k < last
        invariant k <= last
        invariant Frames(mem) == Reserved(f, first, k)
        invariant k < last ==> first <= k
        invariant forall a :: 0 <= a < mem.Length && !(bitmap <= a < bitmap + bitmapSize) ==> mem[a] == old(mem[a])
      {
        MarkFrame(k, mem);
        ReservedStep(f, first, k);
        k := k + 1;
      }
      ReservedClamp(f, first, k, EndFrameOf(start, length));
    }
  }
}
