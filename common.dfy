/**
 * Fixed-width machine integers and small wrappers shared by the kernel model.
 * The kernel targets i386: `usize`, `uptr`, `int` and `long` are 32 bits wide.
 */
module Common {

  datatype Option<T> = None | Some(value: T)

  const TWO8: int := 0x100
  const TWO16: int := 0x1_0000
  const TWO32: int := 0x1_0000_0000
  const TWO64: int := 0x1_0000_0000_0000_0000

  type u8 = x: int | 0 <= x < TWO8
  type u16 = x: int | 0 <= x < TWO16
  type u32 = x: int | 0 <= x < TWO32
  type u64 = x: int | 0 <= x < TWO64

  /** Unsigned 32-bit arithmetic: the result of a C++ `u32` expression. */
  function Wrap32(x: int): (r: u32)
    ensures 0 <= x < TWO32 ==> r == x
    ensures (r - x) % TWO32 == 0
  {
    x % TWO32
  }

  /**
   * Conversion of an integer to a signed type with `2 * half` values (two's
   * complement, as GCC does it): `half` is 0x80 for i8, 0x8000 for i16, ...
   */
  function WrapSigned(x: int, half: int): (r: int)
    requires half > 0
    ensures -half <= r < half
    ensures -half <= x < half ==> r == x
  {
    if -half <= x < half then x
    else
      var m := x % (2 * half);
      if m < half then m else m - 2 * half
  }

  function Pow2(n: nat): (r: nat)
    ensures r >= 1
  {
    if n == 0 then 1 else 2 * Pow2(n - 1)
  }

  /** The sequence read back to front. */
  function Reverse<T>(s: seq<T>): (r: seq<T>)
    ensures |r| == |s|
    ensures forall i :: 0 <= i < |s| ==> r[i] == s[|s| - 1 - i]
  {
    seq(|s|, i requires 0 <= i < |s| => s[|s| - 1 - i])
  }

  lemma ReverseReverse<T>(s: seq<T>)
    ensures Reverse(Reverse(s)) == s
  {
    var r := Reverse(Reverse(s));
    assert forall i :: 0 <= i < |s| ==> r[i] == s[i];
  }

  lemma ReverseAppend<T>(a: seq<T>, b: seq<T>)
    ensures Reverse(a + b) == Reverse(b) + Reverse(a)
  {
    var l, r := Reverse(a + b), Reverse(b) + Reverse(a);
    assert forall i :: 0 <= i < |l| ==> l[i] == r[i];
  }
}
