/**
 * C strings (kstd/CString.hh, kstd/CString.cc). A string is a run of
 * characters ended by the first NUL. `Length` is the header's contract for
 * `length(str, max)`; `LengthAsWritten` is the loop the implementation file
 * actually contains, which compares the address rather than the character
 * with '\0'. `Uppercase` is the in-place rewrite of `uppercase`.
 */
module CString {
  import opened Common
  import opened Ascii
  import opened Numerals

  const NUL: char := '\0'

  /** The default `max` of `length`: `usize` -1, i.e. the largest 32-bit value. */
  const DefaultMax: nat := TWO32 - 1

  /** `s` holds a terminator somewhere. */
  predicate Terminated(s: seq<char>)
  {
    NUL in s
  }

  /**
   * `length(str, max)`: the number of characters before the terminator,
   * searching at most `max` characters. The search must stay within `s`:
   * either a terminator is there or `max` stops the search first.
   */
  function Length(s: seq<char>, max: nat): (n: nat)
    requires Terminated(s) || max <= |s|
    ensures n <= max && n <= |s|
    ensures forall i :: 0 <= i < n ==> s[i] != NUL
    ensures n < max ==> n < |s| && s[n] == NUL
  {
    if max == 0 || s[0] == NUL then 0 else 1 + Length(s[1..], max - 1)
  }

  /** Length is the position of the first terminator when the search bound allows it. */
  lemma LengthOfTerminated(s: seq<char>, k: nat, max: nat)
    requires k < |s| && s[k] == NUL && k <= max
    requires forall i :: 0 <= i < k ==> s[i] != NUL
    ensures Length(s, max) == k
  {
  }

  /** A string whose first terminator is at `n` has the first `n` characters as its text. */
  lemma TextIs(s: seq<char>, n: nat)
    requires n < |s| && s[n] == NUL && forall i :: 0 <= i < n ==> s[i] != NUL
    ensures Terminated(s) && Text(s) == s[..n]
  {
    LengthOfTerminated(s, n, |s|);
  }

  /** The characters of the string that starts at `s[0]`. */
  function Text(s: seq<char>): (t: seq<char>)
    requires Terminated(s)
    ensures NUL !in t
  {
    s[..Length(s, |s|)]
  }

  /** The text of a terminated string ends right at its first terminator. */
  lemma TextEnds(s: seq<char>)
    requires Terminated(s)
    ensures |Text(s)| < |s| && s[|Text(s)|] == NUL
    ensures forall i :: 0 <= i < |Text(s)| ==> s[i] != NUL
  {
    var k :| 0 <= k < |s| && s[k] == NUL;
    assert Length(s, |s|) <= k;
  }

  /**
   * The corrected `length`: read characters until the terminator or until
   * `max` characters have been searched.
   */
  method LengthOf(str: array<char>, start: nat, max: nat) returns (n: nat)
    requires start <= str.Length
    requires Terminated(str[start..]) || start + max <= str.Length
    ensures n == Length(str[start..], max)
  {
    ghost var s := str[start..];
    n := 0;
    while n < max && str[start + n] != NUL
      invariant n <= max && n <= |s|
      invariant forall i :: 0 <= i < n ==> s[i] != NUL
      invariant Terminated(s) ==> NUL in s[n..]
      decreases max - n
    {
      assert s[n] == str[start + n];
      assert s[n..] == [s[n]] + s[n + 1..];
      n := n + 1;
    }
    if n < max {
      assert s[n] == NUL;
      LengthOfTerminated(s, n, max);
    } else {
      AllBeforeBound(s, max);
    }
  }

  lemma AllBeforeBound(s: seq<char>, max: nat)
    requires max <= |s| && forall i :: 0 <= i < max ==> s[i] != NUL
    ensures Length(s, max) == max
  {
  }

  /** `Length` is characterised by its contract: no terminator before `n`, and one at `n` unless the bound stopped the search. */
  lemma LengthIs(s: seq<char>, max: nat, n: nat)
    requires n <= max && n <= |s| && forall i :: 0 <= i < n ==> s[i] != NUL
    requires n < max ==> n < |s| && s[n] == NUL
    ensures Length(s, max) == n
  {
    if n < max {
      LengthOfTerminated(s, n, max);
    } else {
      AllBeforeBound(s, max);
    }
  }

  /**
   * `length(char *str)` as the implementation file writes it: the loop
   * `while (end++ != '\0')` compares the address `end` with the null address,
   * so it walks the address space up to address 0 (wrapping at 2^32) and never
   * reads a character. The result depends only on the address.
   */
  method LengthAsWritten(str: u32) returns (n: u32)
    ensures n == Wrap32(1 - str)
  {
    var end: u32 := str;
    var tested := end;
    end := Wrap32(end as int + 1);
    while tested != 0
      invariant end == Wrap32(tested as int + 1)
      decreases if tested == 0 then 0 else TWO32 - tested
    {
      tested := end;
      end := Wrap32(end as int + 1);
    }
    n := Wrap32(end as int - str as int);
  }

  /** The string "a" stored at address 0x1000 has length 1, but the loop reports 0xFFFFF001. */
  lemma LengthAsWrittenIgnoresText()
    ensures Length("a\0", DefaultMax) == 1
    ensures Wrap32(1 - 0x1000) == 0xFFFF_F001
  {
    LengthOfTerminated("a\0", 1, DefaultMax);
  }

  /** What `uppercase` does to one character. */
  function Upcase(c: char): (r: char)
    ensures IsLower(c) ==> r == ToUpper(c)
    ensures !IsLower(c) ==> r == c
  {
    if IsLower(c) then ToUpper(c) else c
  }

  /** `s` after `uppercase` has run on the string at `s[start]`. */
  function UppercasedFrom(s: seq<char>, start: nat): (r: seq<char>)
    requires start <= |s| && Terminated(s[start..])
    ensures |r| == |s|
    ensures start + Length(s[start..], |s| - start) < |s|
    ensures r[start + Length(s[start..], |s| - start)] == NUL
    ensures Terminated(r[start..])
  {
    var n := Length(s[start..], |s| - start);
    seq(|s|, i requires 0 <= i < |s| => if start <= i < start + n then Upcase(s[i]) else s[i])
  }

  /** Lower-case letters before the terminator become upper case, nothing else changes, and no lower-case letter remains in the string. */
  lemma UppercasedFromEffect(s: seq<char>, start: nat)
    requires start <= |s| && Terminated(s[start..])
    ensures var n := Length(s[start..], |s| - start);
      && (forall i :: start <= i < start + n && IsLower(s[i]) ==> UppercasedFrom(s, start)[i] == ToUpper(s[i]))
      && (forall i :: 0 <= i < |s| && !(start <= i < start + n && IsLower(s[i])) ==> UppercasedFrom(s, start)[i] == s[i])
      && (forall i :: start <= i < start + n ==> !IsLower(UppercasedFrom(s, start)[i]))
  {
  }

  /** The terminator stays where it was, so the string keeps its length. */
  lemma {:induction false} UppercasedKeepsLength(s: seq<char>, start: nat)
    requires start <= |s| && Terminated(s[start..])
    ensures Terminated(UppercasedFrom(s, start)[start..])
    ensures Length(UppercasedFrom(s, start)[start..], |s| - start) == Length(s[start..], |s| - start)
  {
    var r := UppercasedFrom(s, start);
    var n := Length(s[start..], |s| - start);
    assert r[start + n] == NUL;
    assert r[start..][n] == NUL;
    forall i | 0 <= i < n ensures r[start..][i] != NUL {
      assert r[start + i] == Upcase(s[start + i]);
    }
    LengthOfTerminated(r[start..], n, |s| - start);
  }

  /** `uppercase` is idempotent. */
  lemma UppercaseIdempotent(s: seq<char>, start: nat)
    requires start <= |s| && Terminated(s[start..])
    ensures UppercasedFrom(UppercasedFrom(s, start), start) == UppercasedFrom(s, start)
  {
    UppercasedKeepsLength(s, start);
  }

  /** `uppercase(str)`: rewrite each lower-case letter before the terminator in place. */
  method Uppercase(str: array<char>, start: nat)
    requires start <= str.Length && Terminated(str[start..])
    modifies str
    ensures str[..] == UppercasedFrom(old(str[..]), start)
  {
    ghost var s := str[..];
    ghost var n := Length(s[start..], |s| - start);
    var p := start;
    while str[p] != NUL
      invariant start <= p <= start + n
      invariant forall i :: 0 <= i < str.Length ==> str[i] == (if start <= i < p then Upcase(s[i]) else s[i])
      decreases start + n - p
    {
      assert s[start..][p - start] == s[p];
      if IsLower(str[p]) {
        str[p] := ToUpper(str[p]);
      }
      p := p + 1;
    }
    assert s[start..][p - start] == s[p];
    assert str[..] == UppercasedFrom(s, start);
  }

  /**
   * `copy(dst, src, max)`, declared only: its assumed meaning is that the
   * first min(max, length + 1) characters of `src`, terminator included when
   * it is within reach, replace the start of `dst`.
   */
  function Copy(dst: seq<char>, src: seq<char>, max: nat): (r: seq<char>)
    requires Terminated(src)
    requires Length(src, |src|) < |dst|
    ensures |r| == |dst|
  {
    var k := if Length(src, |src|) + 1 <= max then Length(src, |src|) + 1 else max;
    src[..k] + dst[k..]
  }

  /** When the terminator is within `max`, the copy holds the same string as the source. */
  lemma CopyCopiesText(dst: seq<char>, src: seq<char>, max: nat)
    requires Terminated(src) && Length(src, |src|) < |dst| && Length(src, |src|) < max
    ensures Terminated(Copy(dst, src, max)) && Text(Copy(dst, src, max)) == Text(src)
  {
    var n := Length(src, |src|);
    assert Copy(dst, src, max) == src[..n + 1] + dst[n + 1..];
    TextWithTail(src, dst[n + 1..]);
  }

  /** A string followed by anything, after its terminator, keeps its text. */
  lemma TextWithTail(s: seq<char>, tail: seq<char>)
    requires Terminated(s)
    ensures var n := Length(s, |s|); Terminated(s[..n + 1] + tail) && Text(s[..n + 1] + tail) == Text(s)
  {
    TextEnds(s);
    var n := Length(s, |s|);
    var r := s[..n + 1] + tail;
    assert forall i :: 0 <= i <= n ==> r[i] == s[i];
    TextIs(r, n);
    assert r[..n] == s[..n];
  }

  /**
   * `reverse(str, max)`, declared only: its assumed meaning is that the first
   * `length(str, max)` characters are reversed in place and the rest kept.
   */
  function ReverseString(s: seq<char>, max: nat): (r: seq<char>)
    requires Terminated(s) || max <= |s|
    ensures |r| == |s|
  {
    var n := Length(s, max);
    Reverse(s[..n]) + s[n..]
  }

  /** Reversing twice restores the string. */
  lemma ReverseStringTwice(s: seq<char>, max: nat)
    requires Terminated(s) || max <= |s|
    ensures Terminated(ReverseString(s, max)) || max <= |s|
    ensures ReverseString(ReverseString(s, max), max) == s
  {
    var n := Length(s, max);
    var r := ReverseString(s, max);
    assert r[..n] == Reverse(s[..n]) && r[n..] == s[n..];
    forall i | 0 <= i < n
      ensures r[i] != NUL
    {
      assert r[i] == r[..n][i] == s[..n][n - 1 - i];
    }
    assert n < max ==> r[n] == r[n..][0] == s[n];
    LengthIs(r, max, n);
    ReverseReverse(s[..n]);
    assert s[..n] + s[n..] == s;
  }

  /**
   * `fromUnsignedInteger(value, buffer, length, base, capitalized)`, declared
   * only: its assumed meaning is the numeral of `value` in `base`, with
   * letter digits in the requested case; the count returned is its length.
   */
  function FromUnsignedInteger(value: u64, base: nat, capitalized: bool): (r: string)
    requires 2 <= base <= 36
    ensures 1 <= |r|
  {
    Numeral(value, base, capitalized)
  }

  /** `fromInteger`: a '-' for negative values, then the numeral of the magnitude (assumed). */
  function FromInteger(value: int, base: nat, capitalized: bool): (r: string)
    requires -TWO64 / 2 <= value < TWO64 / 2 && 2 <= base <= 36
    ensures 1 <= |r|
  {
    if value < 0 then "-" + Numeral(-value, base, capitalized) else Numeral(value, base, capitalized)
  }

  /**
   * `fromPointer`: the address as an unsigned numeral (assumed). It reads back
   * as the address, and a 32-bit address takes at most eight hexadecimal digits.
   */
  function FromPointer(address: u32, base: nat, capitalized: bool): (r: string)
    requires 2 <= base <= 36
    ensures 1 <= |r| && ValueOf(r, base) == address
    ensures base == 16 ==> |r| <= 8
  {
    FromUnsignedIntegerRoundTrip(address, base, capitalized);
    AddressFits(address, capitalized);
    FromUnsignedInteger(address, base, capitalized)
  }

  lemma AddressFits(address: u32, capitalized: bool)
    ensures |FromUnsignedInteger(address, 16, capitalized)| <= 8
  {
    assert Power(16, 4) == 0x1_0000;
    PowerAdd(16, 4, 4);
    NumeralLength(address, 16, capitalized, 8);
  }

  /** The converters' text reads back as the value converted. */
  lemma FromIntegerRoundTrip(value: int, base: nat, capitalized: bool)
    requires -TWO64 / 2 <= value < TWO64 / 2 && 2 <= base <= 36
    ensures value >= 0 ==> ValueOf(FromInteger(value, base, capitalized), base) == value
    ensures value < 0 ==> (FromInteger(value, base, capitalized)[0] == '-'
      && ValueOf(FromInteger(value, base, capitalized)[1..], base) == -value)
  {
    if value >= 0 {
      NumeralRoundTrip(value, base, capitalized);
    } else {
      NumeralRoundTrip(-value, base, capitalized);
      assert FromInteger(value, base, capitalized)[1..] == Numeral(-value, base, capitalized);
    }
  }

  lemma FromUnsignedIntegerRoundTrip(value: u64, base: nat, capitalized: bool)
    requires 2 <= base <= 36
    ensures ValueOf(FromUnsignedInteger(value, base, capitalized), base) == value
  {
    NumeralRoundTrip(value, base, capitalized);
  }

  /** Any 64-bit value converts to at most 20 decimal or 16 hexadecimal digits. */
  lemma FromUnsignedIntegerFits(value: u64, capitalized: bool)
    ensures |FromUnsignedInteger(value, 10, capitalized)| <= 20
    ensures |FromUnsignedInteger(value, 16, capitalized)| <= 16
  {
    assert Power(10, 5) == 100_000;
    PowerAdd(10, 5, 5);
    PowerAdd(10, 10, 10);
    assert Power(16, 4) == 0x1_0000;
    PowerAdd(16, 4, 4);
    PowerAdd(16, 8, 8);
    NumeralLength(value, 10, capitalized, 20);
    NumeralLength(value, 16, capitalized, 16);
  }
}
