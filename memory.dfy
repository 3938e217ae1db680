/**
 * Byte-buffer utilities of `kstd::Memory` (kstd/Memory.cc). Physical memory is
 * an array of bytes indexed by address; a buffer is a start address and a
 * length and must lie inside the array (pointer overflow is undefined in C++).
 */
module Memory {

  /** `mem` after the bytes [ptr, ptr + length) have been set to `value`. */
  ghost function Filled(mem: seq<bv8>, ptr: nat, length: nat, value: bv8): (r: seq<bv8>)
    requires ptr + length <= |mem|
    ensures |r| == |mem|
  {
    seq(|mem|, i requires 0 <= i < |mem| => if ptr <= i < ptr + length then value else mem[i])
  }

  /** Setting a region touches only that region, and every byte in it reads back as the value. */
  lemma FilledEffect(mem: seq<bv8>, ptr: nat, length: nat, value: bv8)
    requires ptr + length <= |mem|
    ensures Filled(mem, ptr, length, value)[ptr..ptr + length] == seq(length, _ => value)
    ensures Filled(mem, ptr, length, value)[..ptr] == mem[..ptr]
    ensures Filled(mem, ptr, length, value)[ptr + length..] == mem[ptr + length..]
  {
  }

  /** One store of `width` zero bytes at `p`: the u64/u32/u16/u8 stores of `zero`. */
  method StoreZero(mem: array<bv8>, p: nat, width: nat)
    requires p + width <= mem.Length
    modifies mem
    ensures mem[..] == Filled(old(mem[..]), p, width, 0)
  {
    forall k | p <= k < p + width {
      mem[k] := 0;
    }
  }

  /**
   * `zero(ptr, length)`: 8-byte stores while more than 8 bytes remain, then
   * 4-byte stores while more than 4 remain, then 2-byte stores while more than
   * 2 remain, then single bytes. Returns `ptr`.
   */
  method Zero(mem: array<bv8>, ptr: nat, length: nat) returns (r: nat)
    requires ptr + length <= mem.Length
    modifies mem
    ensures r == ptr
    ensures mem[..] == Filled(old(mem[..]), ptr, length, 0)
  {
    ghost var m0 := mem[..];
    var p, left := ptr, length;
    while left > 8
      invariant ptr <= p && p + left == ptr + length && |m0| == mem.Length && left >= 0
      invariant mem[..] == Filled(m0, ptr, p - ptr, 0)
    {
      StoreZero(mem, p, 8);
      p, left := p + 8, left - 8;
    }
    while left > 4
      invariant ptr <= p && p + left == ptr + length && |m0| == mem.Length && left >= 0
      invariant mem[..] == Filled(m0, ptr, p - ptr, 0)
    {
      StoreZero(mem, p, 4);
      p, left := p + 4, left - 4;
    }
    while left > 2
      invariant ptr <= p && p + left == ptr + length && |m0| == mem.Length && left >= 0
      invariant mem[..] == Filled(m0, ptr, p - ptr, 0)
    {
      StoreZero(mem, p, 2);
      p, left := p + 2, left - 2;
    }
    while left > 0
      invariant ptr <= p && p + left == ptr + length && |m0| == mem.Length && left >= 0
      invariant mem[..] == Filled(m0, ptr, p - ptr, 0)
    {
      mem[p] := 0;
      p, left := p + 1, left - 1;
    }
    r := ptr;
  }

  /** `set(ptr, value, length)`: write `value` to each of the `length` bytes. Returns `ptr`. */
  method Set(mem: array<bv8>, ptr: nat, value: bv8, length: nat) returns (r: nat)
    requires ptr + length <= mem.Length
    modifies mem
    ensures r == ptr
    ensures mem[..] == Filled(old(mem[..]), ptr, length, value)
  {
    ghost var m0 := mem[..];
    for i := 0 to length
      invariant mem[..] == Filled(m0, ptr, i, value)
    {
      mem[ptr + i] := value;
    }
    r := ptr;
  }

  /** The overlap test of `copy` and `move`: one region starts inside the other. */
  predicate Overlap(to: nat, from: nat, length: nat)
  {
    (to <= from && to + length > from) || (from <= to && from + length > to)
  }

  /** `mem` after `length` bytes at `from` have been copied to `to`, reading the old contents. */
  ghost function Copied(mem: seq<bv8>, to: nat, from: nat, length: nat): (r: seq<bv8>)
    requires to + length <= |mem| && from + length <= |mem|
    ensures |r| == |mem|
  {
    seq(|mem|, i requires 0 <= i < |mem| => if to <= i < to + length then mem[from + (i - to)] else mem[i])
  }

  /** After a copy the destination holds what the source held, and nothing else changes. */
  lemma CopiedEffect(mem: seq<bv8>, to: nat, from: nat, length: nat)
    requires to + length <= |mem| && from + length <= |mem|
    ensures Copied(mem, to, from, length)[to..to + length] == mem[from..from + length]
    ensures Copied(mem, to, from, length)[..to] == mem[..to]
    ensures Copied(mem, to, from, length)[to + length..] == mem[to + length..]
  {
  }

  /**
   * `copy(to, from, length)` as written: when the pointers are equal or the
   * regions overlap it returns `to`; otherwise it reaches a TODO and also
   * returns `to`. No byte is ever written.
   */
  method CopyAsWritten(mem: array<bv8>, to: nat, from: nat, length: nat) returns (r: nat)
    requires to + length <= mem.Length && from + length <= mem.Length
    ensures r == to
  {
    if to == from {
      return to;
    }
    if Overlap(to, from, length) {
      return to;
    }
    return to;
  }

  /** `move(to, from, length)` as written: both branches are empty, so it only returns `to`. */
  method MoveAsWritten(mem: array<bv8>, to: nat, from: nat, length: nat) returns (r: nat)
    requires to + length <= mem.Length && from + length <= mem.Length
    ensures r == to
  {
    if to == from {
      return to;
    }
    if Overlap(to, from, length) {
      // the backwards copy is not written
    } else {
      // the forward copy is not written
    }
    return to;
  }

  /** Copying two bytes from address 2 to address 0 of [1, 2, 3, 4] changes memory, which `copy` as written never does. */
  lemma CopyAsWrittenMissesCopy()
    ensures !Overlap(0, 2, 2)
    ensures Copied([1, 2, 3, 4], 0, 2, 2) == [3, 4, 3, 4]
    ensures Copied([1, 2, 3, 4], 0, 2, 2) != [1, 2, 3, 4]
  {
    assert Copied([1, 2, 3, 4], 0, 2, 2)[0] == 3;
    assert Copied([1, 2, 3, 4], 0, 2, 2)[1] == 4;
    assert Copied([1, 2, 3, 4], 0, 2, 2)[2] == 3;
    assert Copied([1, 2, 3, 4], 0, 2, 2)[3] == 4;
  }

  /** Copy `length` bytes front to back; safe when the destination does not start after the source. */
  method CopyForward(mem: array<bv8>, to: nat, from: nat, length: nat)
    requires to + length <= mem.Length && from + length <= mem.Length
    requires to <= from || !Overlap(to, from, length)
    modifies mem
    ensures mem[..] == Copied(old(mem[..]), to, from, length)
  {
    ghost var m0 := mem[..];
    for i := 0 to length
      invariant |m0| == mem.Length
      invariant forall k {:trigger mem[k]} :: 0 <= k < mem.Length ==>
        mem[k] == (if to <= k < to + i then m0[from + (k - to)] else m0[k])
    {
      assert !(to <= from + i < to + i);
      mem[to + i] := mem[from + i];
    }
    CopiedAt(m0, mem[..], to, from, length);
  }

  /** A memory that agrees with the copy at every address is the copy. */
  lemma CopiedAt(m0: seq<bv8>, m: seq<bv8>, to: nat, from: nat, length: nat)
    requires to + length <= |m0| && from + length <= |m0| && |m| == |m0|
    requires forall k {:trigger m[k]} :: 0 <= k < |m| ==> m[k] == (if to <= k < to + length then m0[from + (k - to)] else m0[k])
    ensures m == Copied(m0, to, from, length)
  {
    var c := Copied(m0, to, from, length);
    assert forall k :: 0 <= k < |m| ==> m[k] == c[k];
  }

  /** Copy `length` bytes back to front; safe when the destination starts after the source. */
  method CopyBackward(mem: array<bv8>, to: nat, from: nat, length: nat)
    requires to + length <= mem.Length && from + length <= mem.Length
    requires from <= to
    modifies mem
    ensures mem[..] == Copied(old(mem[..]), to, from, length)
  {
    ghost var m0 := mem[..];
    var i := length;
    while i > 0
      invariant 0 <= i <= length && |m0| == mem.Length
      invariant forall k {:trigger mem[k]} :: 0 <= k < mem.Length ==>
        mem[k] == (if to + i <= k < to + length then m0[from + (k - to)] else m0[k])
    {
      i := i - 1;
      assert !(to + i + 1 <= from + i < to + length);
      mem[to + i] := mem[from + i];
    }
    CopiedAt(m0, mem[..], to, from, length);
  }

  /**
   * The documented `copy` ("copy `length` bytes from `from` to `to`"),
   * keeping the source's refusal of overlapping regions.
   */
  method Copy(mem: array<bv8>, to: nat, from: nat, length: nat) returns (r: nat)
    requires to + length <= mem.Length && from + length <= mem.Length
    modifies mem
    ensures r == to
    ensures mem[..] == if to == from || Overlap(to, from, length) then old(mem[..])
                       else Copied(old(mem[..]), to, from, length)
  {
    if to == from || Overlap(to, from, length) {
      return to;
    }
    CopyForward(mem, to, from, length);
    return to;
  }

  /**
   * The documented `move` ("move `length` bytes from `from` to `to`"):
   * overlapping regions are copied back to front when the destination is
   * above the source, as the source's comment on the overlapping branch says.
   */
  method Move(mem: array<bv8>, to: nat, from: nat, length: nat) returns (r: nat)
    requires to + length <= mem.Length && from + length <= mem.Length
    modifies mem
    ensures r == to
    ensures mem[..] == Copied(old(mem[..]), to, from, length)
  {
    if to == from {
      assert Copied(mem[..], to, from, length) == mem[..];
      return to;
    }
    if Overlap(to, from, length) && from < to {
      CopyBackward(mem, to, from, length);
    } else {
      CopyForward(mem, to, from, length);
    }
    return to;
  }
}
