/**
 * ASCII classification and case mapping of `kstd::Char` (kstd/ASCII.hh).
 * `kernel::Char` (kstd/ascii.hh) is the same code under another namespace;
 * both are modelled by the one set of definitions below.
 */
module Ascii {

  predicate IsDigit(c: char) { '0' <= c <= '9' }

  predicate IsHexDigit(c: char) { IsDigit(c) || ('a' <= c <= 'f') || ('A' <= c <= 'F') }

  predicate IsLower(c: char) { 'a' <= c <= 'z' }

  predicate IsUpper(c: char) { 'A' <= c <= 'Z' }

  predicate IsLetter(c: char) { IsLower(c) || IsUpper(c) }

  predicate IsAlphanumeric(c: char) { IsLetter(c) || IsDigit(c) }

  /** The lower-case letter at the same alphabet position; the identity on everything else. */
  function ToLower(c: char): (r: char)
    ensures IsUpper(c) ==> IsLower(r) && r as int - 'a' as int == c as int - 'A' as int
    ensures !IsUpper(c) ==> r == c
  {
    if IsUpper(c) then ('a' as int + (c as int - 'A' as int)) as char else c
  }

  /** The upper-case letter at the same alphabet position; the identity on everything else. */
  function ToUpper(c: char): (r: char)
    ensures IsLower(c) ==> IsUpper(r) && r as int - 'A' as int == c as int - 'a' as int
    ensures !IsLower(c) ==> r == c
  {
    if IsLower(c) then ('A' as int + (c as int - 'a' as int)) as char else c
  }

  /** The twenty-two characters a hexadecimal numeral may use. */
  const HexAlphabet: string := "0123456789abcdefABCDEF"

  lemma HexDigitIffInAlphabet(c: char)
    ensures IsHexDigit(c) <==> c in HexAlphabet
  {
    if IsHexDigit(c) {
      var i := if IsDigit(c) then c as int - '0' as int
               else if 'a' <= c <= 'f' then 10 + (c as int - 'a' as int)
               else 16 + (c as int - 'A' as int);
      assert HexAlphabet[i] == c;
    }
  }

  /** Digits, letters and everything else are three disjoint classes. */
  lemma ClassesDisjoint(c: char)
    ensures !(IsDigit(c) && IsLetter(c))
    ensures !(IsLower(c) && IsUpper(c))
    ensures IsAlphanumeric(c) <==> IsDigit(c) || IsLower(c) || IsUpper(c)
  {
  }

  /** Lower-case letters survive a trip through upper case, and both mappings are idempotent. */
  lemma LowerRoundTrip(c: char)
    ensures IsLower(c) ==> ToLower(ToUpper(c)) == c
    ensures ToUpper(ToUpper(c)) == ToUpper(c)
    ensures ToLower(ToLower(c)) == ToLower(c)
  {
  }

  /** Upper-case letters survive a trip through lower case (the round trip of kernel::Char). */
  lemma UpperRoundTrip(c: char)
    ensures IsUpper(c) ==> ToUpper(ToLower(c)) == c
  {
  }

  /** Case mapping never changes whether a character is a letter, a digit or a hex digit. */
  lemma CaseMappingKeepsClass(c: char)
    ensures IsLetter(ToUpper(c)) == IsLetter(c) && IsLetter(ToLower(c)) == IsLetter(c)
    ensures IsDigit(ToUpper(c)) == IsDigit(c) && IsDigit(ToLower(c)) == IsDigit(c)
    ensures IsHexDigit(ToUpper(c)) == IsHexDigit(c) && IsHexDigit(ToLower(c)) == IsHexDigit(c)
  {
  }
}
