/**
 * Little-endian byte encoding, the byte order of the i386. Multi-byte fields
 * of packed records and words stored in memory are read and written with
 * these functions.
 */
module Bytes {

  /** The value of a little-endian byte string. */
  function LeValue(bs: seq<bv8>): (v: nat)
  {
    if bs == [] then 0 else bs[0] as nat + 256 * LeValue(bs[1..])
  }

  /** The `n` little-endian bytes of `v`, keeping only the low `8n` bits. */
  function LeBytes(v: nat, n: nat): (bs: seq<bv8>)
    ensures |bs| == n
  {
    if n == 0 then [] else [(v % 256) as bv8] + LeBytes(v / 256, n - 1)
  }

  /** 256^n, the number of distinct n-byte strings. */
  function Radix(n: nat): (r: nat)
    ensures r >= 1
  {
    if n == 0 then 1 else 256 * Radix(n - 1)
  }

  /** An n-byte string holds a value below 256^n. */
  lemma {:induction false} LeValueBound(bs: seq<bv8>)
    ensures LeValue(bs) < Radix(|bs|)
  {
    if bs != [] {
      LeValueBound(bs[1..]);
    }
  }

  /** Writing then reading gives the value back when it fits in n bytes. */
  lemma {:induction false} LeRoundTrip(v: nat, n: nat)
    requires v < Radix(n)
    ensures LeValue(LeBytes(v, n)) == v
  {
    if n > 0 {
      assert v / 256 < Radix(n - 1);
      LeRoundTrip(v / 256, n - 1);
      var bs := LeBytes(v, n);
      assert bs[1..] == LeBytes(v / 256, n - 1);
      ByteValue(v % 256);
      assert LeValue(bs) == v % 256 + 256 * (v / 256);
    }
  }

  lemma ByteValue(x: int)
    requires 0 <= x < 256
    ensures (x as bv8) as int == x
  {
    var b := ByteOf(x);
    assert (b as int) as bv8 == b;
  }

  /** The byte holding `x`, built by counting up from 0. */
  ghost function ByteOf(x: nat): (b: bv8)
    requires x < 256
    ensures b as int == x
  {
    if x == 0 then 0 else ByteOf(x - 1) + 1
  }

  /** Reading then writing gives the bytes back. */
  lemma {:induction false} LeBytesOfValue(bs: seq<bv8>)
    ensures LeBytes(LeValue(bs), |bs|) == bs
  {
    if bs != [] {
      LeBytesOfValue(bs[1..]);
      DigitSplit(bs[0] as nat, LeValue(bs[1..]));
    }
  }

  lemma DigitSplit(a: nat, w: nat)
    requires a < 256
    ensures (a + 256 * w) % 256 == a && (a + 256 * w) / 256 == w
  {
  }

  lemma RadixValues()
    ensures Radix(2) == 0x1_0000 && Radix(4) == 0x1_0000_0000 && Radix(8) == 0x1_0000_0000_0000_0000
  {
    assert Radix(4) == 0x1_0000_0000;
    assert Radix(8) == Radix(4) * Radix(4) by {
      RadixAdd(4, 4);
    }
  }

  lemma {:induction false} RadixAdd(m: nat, n: nat)
    ensures Radix(m + n) == Radix(m) * Radix(n)
  {
    if m > 0 {
      RadixAdd(m - 1, n);
      assert Radix(m + n) == 256 * Radix(m - 1 + n);
    }
  }

  /** The encoding of 0 is all zero bytes, and it reads back as 0. */
  lemma {:induction false} LeBytesZero(n: nat)
    ensures LeBytes(0, n) == seq(n, _ => 0)
  {
    if n > 0 {
      LeBytesZero(n - 1);
    }
  }

  lemma {:induction false} LeValueZero(n: nat)
    ensures LeValue(LeBytes(0, n)) == 0
  {
    if n > 0 {
      LeValueZero(n - 1);
    }
  }
}
