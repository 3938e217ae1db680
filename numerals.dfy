/**
 * Numerals: the digit strings that the kernel's integer-to-text converters
 * produce. `Numeral` is the reference definition (most significant digit
 * first, no leading zeros); `ValueOf` reads a numeral back. `ItoaText` is what
 * the console's `itoa` leaves in its buffer, computed the way its C++ loop
 * does it, with C's truncating `/` and `%`.
 */
module Numerals {
  import opened Common

  function DigitChar(d: nat, capitalized: bool): char
    requires d < 36
  {
    if d < 10 then ('0' as int + d) as char
    else ((if capitalized then 'A' else 'a') as int + (d - 10)) as char
  }

  /** The value of one digit character, in any base up to 36 and either case. */
  function DigitValue(c: char): int
  {
    if '0' <= c <= '9' then c as int - '0' as int
    else if 'a' <= c <= 'z' then c as int - 'a' as int + 10
    else if 'A' <= c <= 'Z' then c as int - 'A' as int + 10
    else -1
  }

  /** Euclidean division facts used for every digit step. */
  lemma DivMod(v: nat, base: nat)
    requires 2 <= base
    ensures 0 <= v % base < base
    ensures v == (v / base) * base + v % base
    ensures v >= base ==> 1 <= v / base < v
    ensures v < base ==> v / base == 0 && v % base == v
  {
  }

  /** Base-`base` numeral of `v`, most significant digit first. */
  function Numeral(v: nat, base: nat, capitalized: bool): (s: string)
    requires 2 <= base <= 36
    ensures 1 <= |s|
    decreases v
  {
    DivMod(v, base);
    if v < base then [DigitChar(v, capitalized)]
    else Numeral(v / base, base, capitalized) + [DigitChar(v % base, capitalized)]
  }

  lemma DigitCharValue(d: nat, capitalized: bool)
    requires d < 36
    ensures DigitValue(DigitChar(d, capitalized)) == d
  {
  }

  /** Every character of a numeral is a digit of its base, and there is no leading zero. */
  lemma {:induction false} NumeralDigits(v: nat, base: nat, capitalized: bool)
    requires 2 <= base <= 36
    ensures forall i :: 0 <= i < |Numeral(v, base, capitalized)| ==>
      0 <= DigitValue(Numeral(v, base, capitalized)[i]) < base
    ensures v > 0 ==> Numeral(v, base, capitalized)[0] != '0'
    decreases v
  {
    DivMod(v, base);
    if v < base {
      DigitCharValue(v, capitalized);
    } else {
      NumeralDigits(v / base, base, capitalized);
      DigitCharValue(v % base, capitalized);
    }
  }

  /** Reads a numeral back: the inverse of `Numeral`. */
  function ValueOf(s: string, base: nat): int
  {
    if s == [] then 0 else ValueOf(s[..|s| - 1], base) * base + DigitValue(s[|s| - 1])
  }

  lemma {:induction false} NumeralRoundTrip(v: nat, base: nat, capitalized: bool)
    requires 2 <= base <= 36
    ensures ValueOf(Numeral(v, base, capitalized), base) == v
    decreases v
  {
    var s := Numeral(v, base, capitalized);
    DivMod(v, base);
    if v < base {
      DigitCharValue(v, capitalized);
      assert ValueOf(s, base) == ValueOf([], base) * base + v;
    } else {
      var q, d := v / base, v % base;
      NumeralRoundTrip(q, base, capitalized);
      DigitCharValue(d, capitalized);
      assert s == Numeral(q, base, capitalized) + [DigitChar(d, capitalized)];
      assert s[..|s| - 1] == Numeral(q, base, capitalized);
      assert ValueOf(s, base) == q * base + d;
    }
  }

  /** A numeral has at most k digits when the value is below base^k. */
  lemma {:induction false} NumeralLength(v: nat, base: nat, capitalized: bool, k: nat)
    requires 2 <= base <= 36
    requires 1 <= k && v < Power(base, k)
    ensures |Numeral(v, base, capitalized)| <= k
    decreases k
  {
    DivMod(v, base);
    if v >= base {
      assert k != 1;
      assert v / base < Power(base, k - 1) by {
        assert Power(base, k) == base * Power(base, k - 1);
        DivBelow(v, base, Power(base, k - 1));
      }
      NumeralLength(v / base, base, capitalized, k - 1);
    }
  }

  lemma DivBelow(v: nat, b: nat, p: nat)
    requires b >= 1 && v < b * p
    ensures v / b < p
  {
  }

  function Power(b: nat, k: nat): nat
  {
    if k == 0 then 1 else b * Power(b, k - 1)
  }

  lemma {:induction false} PowerAdd(b: nat, m: nat, n: nat)
    ensures Power(b, m + n) == Power(b, m) * Power(b, n)
    decreases m
  {
    if m > 0 {
      PowerAdd(b, m - 1, n);
      assert Power(b, m + n) == b * Power(b, m - 1 + n);
    }
  }

  /** C++ `%` on int: the remainder takes the sign of the dividend. */
  function CRem(a: int, b: int): int
    requires b > 0
  {
    if a >= 0 then a % b else -((-a) % b)
  }

  /** C++ `/` on int: truncates toward zero. */
  function CQuot(a: int, b: int): int
    requires b > 0
  {
    if a >= 0 then a / b else -((-a) / b)
  }

  /** C's division is Euclidean division of the magnitude, with the dividend's sign. */
  lemma CDivMod(a: int, b: int)
    requires 2 <= b
    ensures a >= 0 ==> CQuot(a, b) == a / b && CRem(a, b) == a % b
    ensures a < 0 ==> CQuot(a, b) == -((-a) / b) && CRem(a, b) == -((-a) % b)
    ensures -b < CRem(a, b) < b
    ensures a == CQuot(a, b) * b + CRem(a, b)
    ensures CQuot(a, b) == 0 <==> -b < a < b
    ensures CQuot(a, b) != 0 ==> (if CQuot(a, b) >= 0 then CQuot(a, b) else -CQuot(a, b)) < (if a >= 0 then a else -a)
  {
    if a >= 0 {
      DivMod(a, b);
    } else {
      DivMod(-a, b);
    }
  }

  /** The character itoa writes for one remainder `place` (itoa's `place < 10 ? ... : ...`). */
  function PlaceChar(place: int): char
    requires -36 < place < 36
  {
    if place < 10 then (place + '0' as int) as char else (place - 10 + 'a' as int) as char
  }

  /**
   * The characters itoa's do-while loop writes, least significant first: one
   * per iteration, until the quotient reaches 0.
   */
  function PlacesWritten(v: int, base: nat): (s: string)
    requires 2 <= base <= 36
    ensures 1 <= |s|
    ensures forall i :: 0 <= i < |s| ==> s[i] != '\0'
    decreases if v >= 0 then v else -v
  {
    CDivMod(v, base);
    var q := CQuot(v, base);
    if q == 0 then [PlaceChar(CRem(v, base))]
    else [PlaceChar(CRem(v, base))] + PlacesWritten(q, base)
  }

  /** The first place written is the remainder; the quotient's places follow unless it is 0, and it is smaller. */
  lemma PlacesWrittenFirst(v: int, base: nat)
    requires 2 <= base <= 36
    ensures -36 < CRem(v, base) < 36
    ensures var q := CQuot(v, base);
      && PlacesWritten(v, base) == [PlaceChar(CRem(v, base))] + (if q == 0 then [] else PlacesWritten(q, base))
      && (q != 0 ==> (if q >= 0 then q else -q) < (if v >= 0 then v else -v))
  {
    CDivMod(v, base);
  }

  /** Is itoa asked to write a minus sign (only base 10 handles negatives). */
  predicate ItoaNegative(value: int, base: nat) { base == 10 && value < 0 }

  /** The text (without the terminating NUL) that itoa leaves in its buffer. */
  function ItoaText(value: int, base: nat): (r: string)
    requires 2 <= base <= 36
    ensures 1 <= |r|
    ensures forall i :: 0 <= i < |r| ==> r[i] != '\0'
  {
    var neg := ItoaNegative(value, base);
    var v := if neg then -value else value;
    Reverse(PlacesWritten(v, base) + (if neg then "-" else ""))
  }

  lemma ReverseCons(c: char, t: string)
    ensures Reverse([c] + t) == Reverse(t) + [c]
  {
    var l, r := Reverse([c] + t), Reverse(t) + [c];
    assert forall i :: 0 <= i < |l| ==> l[i] == r[i];
  }

  lemma {:induction false} PlacesWrittenNatural(v: nat, base: nat)
    requires 2 <= base <= 36
    ensures Reverse(PlacesWritten(v, base)) == Numeral(v, base, false)
    decreases v
  {
    CDivMod(v, base);
    DivMod(v, base);
    if v >= base {
      PlacesWrittenNatural(v / base, base);
      var tail := PlacesWritten(v / base, base);
      var c := DigitChar(v % base, false);
      assert PlacesWritten(v, base) == [c] + tail;
      ReverseCons(c, tail);
    }
  }

  /** For non-negative values itoa writes exactly the base-`base` numeral, lower-case. */
  lemma ItoaNonNegative(value: int, base: nat)
    requires 2 <= base <= 36 && value >= 0
    ensures ItoaText(value, base) == Numeral(value, base, false)
  {
    PlacesWrittenNatural(value, base);
    assert PlacesWritten(value, base) + "" == PlacesWritten(value, base);
  }

  /** In base 10 a negative value becomes '-' followed by the numeral of its magnitude. */
  lemma ItoaNegativeDecimal(value: int)
    requires value < 0
    ensures ItoaText(value, 10) == "-" + Numeral(-value, 10, false)
  {
    PlacesWrittenNatural(-value, 10);
    var p := PlacesWritten(-value, 10);
    ReverseAppend(p, "-");
    assert Reverse("-") == "-";
  }

  /**
   * Outside base 10 a negative value is not given a sign: C's remainders are
   * then negative and each digit d of the magnitude comes out as the character
   * '0' - d.
   */
  lemma {:induction false} PlacesWrittenNegative(v: int, base: nat)
    requires 2 <= base <= 36 && v < 0
    ensures |PlacesWritten(v, base)| == |PlacesWritten(-v, base)|
    ensures forall i :: 0 <= i < |PlacesWritten(v, base)| ==>
      PlacesWritten(v, base)[i] as int == '0' as int - DigitValue(PlacesWritten(-v, base)[i])
    decreases -v
  {
    CDivMod(v, base);
    CDivMod(-v, base);
    var q := CQuot(v, base);
    var d := (-v) % base;
    DigitCharValue(d, false);
    assert PlacesWritten(v, base)[0] as int == '0' as int - d;
    assert PlacesWritten(-v, base)[0] == DigitChar(d, false);
    if q != 0 {
      PlacesWrittenNegative(q, base);
      assert -q == CQuot(-v, base);
    }
  }

  /** Reversing two strings keeps a position-by-position digit relation between them. */
  lemma ReverseComplement(a: string, b: string)
    requires |a| == |b|
    requires forall i :: 0 <= i < |a| ==> a[i] as int == '0' as int - DigitValue(b[i])
    ensures forall i :: 0 <= i < |a| ==> Reverse(a)[i] as int == '0' as int - DigitValue(Reverse(b)[i])
  {
    forall i | 0 <= i < |a|
      ensures Reverse(a)[i] as int == '0' as int - DigitValue(Reverse(b)[i])
    {
      var j := |a| - 1 - i;
      assert Reverse(a)[i] == a[j] && Reverse(b)[i] == b[j];
    }
  }

  lemma ItoaNegativeNonDecimal(value: int, base: nat)
    requires 2 <= base <= 36 && base != 10 && value < 0
    ensures |ItoaText(value, base)| == |Numeral(-value, base, false)|
    ensures forall i :: 0 <= i < |ItoaText(value, base)| ==>
      ItoaText(value, base)[i] as int == '0' as int - DigitValue(Numeral(-value, base, false)[i])
  {
    var a, b := PlacesWritten(value, base), PlacesWritten(-value, base);
    PlacesWrittenNegative(value, base);
    PlacesWrittenNatural(-value, base);
    assert a + "" == a;
    ReverseComplement(a, b);
  }
}
