/**
 * `Bitmap<T>` (kstd/Bitmap.hh): a bit cell of `sizeof(T) * 8` bits. The only
 * instantiation the kernel uses is `Bitmap<u8>` (the frame allocator's cell),
 * so the cell is a `bv8`. The value-level functions say what each operation
 * does to the cell; the class holds the cell and updates it in place.
 */
module Bitmaps {

  /** `Bitmap<u8>::length`: sizeof(u8) * 8. */
  const Length: nat := 8

  /** `isValid`: a bit index names a bit of the cell (`usize` is never negative). */
  predicate IsValid(bit: nat) { bit < Length }

  /** Bit `j` of `b`, read by shifting it down to position 0: the reference reading of a cell. */
  predicate BitOf(b: bv8, j: nat)
    requires j < 8
  {
    (b >> j) & 1 == 1
  }

  /** `1 << bit`, the single-bit mask. */
  function Mask(bit: nat): (m: bv8)
    requires bit < 8
    ensures forall j: nat :: j < 8 ==> (BitOf(m, j) <==> j == bit)
  {
    1 << bit
  }

  /** `isSet`: the bit is 1; false for an index outside the cell. */
  function IsSetIn(b: bv8, bit: nat): (r: bool)
    ensures r <==> IsValid(bit) && BitOf(b, bit)
  {
    if IsValid(bit) then b & Mask(bit) != 0 else false
  }

  /** `set`: bit `bit` becomes 1 and every other bit is kept; no change for an invalid index. */
  function SetBit(b: bv8, bit: nat): (r: bv8)
    ensures IsValid(bit) ==> BitOf(r, bit)
    ensures forall j: nat :: j < 8 && j != bit ==> (BitOf(r, j) <==> BitOf(b, j))
    ensures !IsValid(bit) ==> r == b
  {
    if IsValid(bit) then OrBits(b, Mask(bit)); b | Mask(bit) else b
  }

  /** `clear`: bit `bit` becomes 0 and every other bit is kept; no change for an invalid index. */
  function ClearBit(b: bv8, bit: nat): (r: bv8)
    ensures IsValid(bit) ==> !BitOf(r, bit)
    ensures forall j: nat :: j < 8 && j != bit ==> (BitOf(r, j) <==> BitOf(b, j))
    ensures !IsValid(bit) ==> r == b
  {
    if IsValid(bit) then NotBits(Mask(bit)); AndBits(b, !Mask(bit)); b & !Mask(bit) else b
  }

  /** `toggle`'s update: bit `bit` flips and every other bit is kept; no change for an invalid index. */
  function ToggleBit(b: bv8, bit: nat): (r: bv8)
    ensures IsValid(bit) ==> (BitOf(r, bit) <==> !BitOf(b, bit))
    ensures forall j: nat :: j < 8 && j != bit ==> (BitOf(r, j) <==> BitOf(b, j))
    ensures !IsValid(bit) ==> r == b
  {
    if IsValid(bit) then XorBits(b, Mask(bit)); b ^ Mask(bit) else b
  }

  /** Bitwise or, and, not and exclusive or, read bit by bit. */
  lemma OrBits(a: bv8, m: bv8)
    ensures forall j: nat :: j < 8 ==> (BitOf(a | m, j) <==> BitOf(a, j) || BitOf(m, j))
  {
  }

  lemma AndBits(a: bv8, m: bv8)
    ensures forall j: nat :: j < 8 ==> (BitOf(a & m, j) <==> BitOf(a, j) && BitOf(m, j))
  {
    forall j: nat | j < 8
      ensures BitOf(a & m, j) <==> BitOf(a, j) && BitOf(m, j)
    {
      if j < 4 {
        assert j == 0 || j == 1 || j == 2 || j == 3;
      } else {
        assert j == 4 || j == 5 || j == 6 || j == 7;
      }
    }
  }

  lemma NotBits(m: bv8)
    ensures forall j: nat :: j < 8 ==> (BitOf(!m, j) <==> !BitOf(m, j))
  {
  }

  lemma XorBits(a: bv8, m: bv8)
    ensures forall j: nat :: j < 8 ==> (BitOf(a ^ m, j) <==> BitOf(a, j) != BitOf(m, j))
  {
  }

  /** Two cells with the same eight bits are the same cell. */
  lemma BitsDetermineCell(a: bv8, b: bv8)
    requires forall j: nat :: j < 8 ==> (BitOf(a, j) <==> BitOf(b, j))
    ensures a == b
  {
    assert BitOf(a, 0) == BitOf(b, 0) && BitOf(a, 1) == BitOf(b, 1);
    assert BitOf(a, 2) == BitOf(b, 2) && BitOf(a, 3) == BitOf(b, 3);
    assert BitOf(a, 4) == BitOf(b, 4) && BitOf(a, 5) == BitOf(b, 5);
    assert BitOf(a, 6) == BitOf(b, 6) && BitOf(a, 7) == BitOf(b, 7);
  }

  /** `set` is idempotent. */
  lemma SetIdempotent(b: bv8, bit: nat)
    ensures SetBit(SetBit(b, bit), bit) == SetBit(b, bit)
  {
    if IsValid(bit) {
      BitsDetermineCell(SetBit(SetBit(b, bit), bit), SetBit(b, bit));
    }
  }

  /** `clear` is idempotent. */
  lemma ClearIdempotent(b: bv8, bit: nat)
    ensures ClearBit(ClearBit(b, bit), bit) == ClearBit(b, bit)
  {
    if IsValid(bit) {
      BitsDetermineCell(ClearBit(ClearBit(b, bit), bit), ClearBit(b, bit));
    }
  }

  /** Toggling a bit twice restores the cell. */
  lemma ToggleTwice(b: bv8, bit: nat)
    ensures ToggleBit(ToggleBit(b, bit), bit) == b
  {
    if IsValid(bit) {
      BitsDetermineCell(ToggleBit(ToggleBit(b, bit), bit), b);
    }
  }

  /** `zero()` leaves no bit set; `fill()` (~0 truncated to the cell) sets all `Length` bits. */
  lemma ZeroAndFill()
    ensures forall j: nat :: IsSetIn(0, j) == false
    ensures forall j: nat :: IsSetIn(0xFF, j) <==> j < Length
  {
  }

  /** A `Bitmap<u8>` object: its one field is the cell `mBitmap`. */
  class Bitmap {
    var bits: bv8

    /** `Bitmap()`: no bit set. */
    constructor ()
      ensures bits == 0
    {
      bits := 0;
    }

    /** `Bitmap(value)`: the cell holds `value` verbatim. */
    constructor FromValue(value: bv8)
      ensures bits == value
    {
      bits := value;
    }

    function IsSet(bit: nat): (r: bool)
      reads this
      ensures r <==> IsValid(bit) && BitOf(bits, bit)
    {
      IsSetIn(bits, bit)
    }

    method Set(bit: nat)
      modifies this
      ensures bits == SetBit(old(bits), bit)
    {
      if IsValid(bit) {
        bits := bits | Mask(bit);
      }
    }

    method Clear(bit: nat)
      modifies this
      ensures bits == ClearBit(old(bits), bit)
    {
      if IsValid(bit) {
        bits := bits & !Mask(bit);
      }
    }

    /** `toggle`: flip the bit and report its new state; false (and no change) for an invalid index. */
    method Toggle(bit: nat) returns (nowSet: bool)
      modifies this
      ensures bits == ToggleBit(old(bits), bit)
      ensures nowSet <==> IsValid(bit) && !BitOf(old(bits), bit)
    {
      if IsValid(bit) {
        bits := bits ^ Mask(bit);
        nowSet := IsSetIn(bits, bit);
        return;
      }
      nowSet := false;
    }

    method Zero()
      modifies this
      ensures bits == 0
      ensures forall j: nat :: !IsSet(j)
    {
      bits := 0;
    }

    /** `fill`: `~(0)` is the int -1, truncated to the cell's eight ones. */
    method Fill()
      modifies this
      ensures bits == 0xFF
      ensures forall j: nat :: IsSet(j) <==> j < Length
    {
      bits := !0;
    }
  }
}
