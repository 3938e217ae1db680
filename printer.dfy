/**
 * The imperative side of the two formatters: the console's `itoa` (a digit
 * loop and an in-place reversal over a character buffer), the emit loop of
 * `print`, `print` itself and the `printFormat` loop. Each is proved to do
 * exactly what the state machine of module Format says; the console is a
 * character log that `PrintChar` appends to.
 */
module Printing {
  import opened Common
  import opened Ascii
  import opened Numerals
  import opened CString
  import opened Format

  /** Where `printChar` (and, for the console's %c, `putchar`) sends characters. */
  class Screen {
    var output: string

    constructor()
      ensures output == []
    {
      output := [];
    }

    method PrintChar(c: char)
      modifies this
      ensures output == old(output) + [c]
    {
      output := output + [c];
    }
  }

  // ---------------------------------------------------------------------
  // itoa (src/ConsolePrintFormat.cc)

  /** Every 32-bit value `itoa` accepts fits, with its terminator, in the 32-character buffer of `print`. */
  lemma ItoaFits(value: int, base: nat)
    requires base == 10 || base == 16
    requires -TWO32 / 2 <= value < TWO32 / 2
    ensures |ItoaText(value, base)| <= 11
  {
    assert Power(10, 10) == 10000000000;
    assert Power(16, 8) == 0x1_0000_0000;
    var k := if base == 10 then 10 else 8;
    if value >= 0 {
      ItoaNonNegative(value, base);
      NumeralLength(value, base, false, k);
    } else if base == 10 {
      ItoaNegativeDecimal(value);
      NumeralLength(-value, base, false, k);
    } else {
      ItoaNegativeNonDecimal(value, base);
      NumeralLength(-value, base, false, k);
    }
  }

  /**
   * `itoa(value, buffer, base)`: the digits, least significant first, then
   * '-' for a negative base-10 value, then the terminator; and finally the
   * characters before the terminator reversed in place.
   */
  method Itoa(value: int, buffer: array<char>, base: nat)
    requires 2 <= base <= 36
    requires -TWO32 / 2 <= value < TWO32 / 2
    requires !(ItoaNegative(value, base) && value == -TWO32 / 2)
    requires |ItoaText(value, base)| < buffer.Length
    modifies buffer
    ensures buffer[..|ItoaText(value, base)|] == ItoaText(value, base)
    ensures buffer[|ItoaText(value, base)|] == NUL
    ensures forall i :: |ItoaText(value, base)| < i < buffer.Length ==> buffer[i] == old(buffer[i])
  {
    var neg := base == 10 && value < 0;
    var v := value;
    if neg {
      v := -v;
    }
    ghost var digits := PlacesWritten(v, base);
    ghost var written := digits + (if neg then "-" else "");
    assert ItoaText(value, base) == Reverse(written);
    var p := WritePlaces(v, buffer, base);
    if neg {
      buffer[p] := '-';
      p := p + 1;
    }
    assert buffer[..p] == written;
    buffer[p] := NUL;
    ReverseBuffer(buffer, p);
  }

  /** The do-while loop of `itoa`: one remainder character per pass until the quotient is 0. */
  method WritePlaces(v: int, buffer: array<char>, base: nat) returns (p: nat)
    requires 2 <= base <= 36
    requires |PlacesWritten(v, base)| < buffer.Length
    modifies buffer
    ensures p == |PlacesWritten(v, base)| && buffer[..p] == PlacesWritten(v, base)
    ensures forall i :: p <= i < buffer.Length ==> buffer[i] == old(buffer[i])
  {
    ghost var digits := PlacesWritten(v, base);
    var rest := v;
    var done := false;
    p := 0;
    while !done
      invariant p <= |digits|
      invariant buffer[..p] + (if done then [] else PlacesWritten(rest, base)) == digits
      invariant forall i :: p <= i < buffer.Length ==> buffer[i] == old(buffer[i])
      decreases (if rest >= 0 then rest else -rest) + (if done then 0 else 1)
    {
      ghost var before := buffer[..p];
      PlacesWrittenFirst(rest, base);
      var place := CRem(rest, base);
      rest := CQuot(rest, base);
      buffer[p] := PlaceChar(place);
      p := p + 1;
      assert buffer[..p] == before + [PlaceChar(place)];
      done := rest == 0;
    }
    assert buffer[..p] == digits;
  }

  /** The final loop of `itoa`: swap the ends of `buffer[..n]` towards the middle. */
  method ReverseBuffer(buffer: array<char>, n: nat)
    requires n <= buffer.Length
    modifies buffer
    ensures buffer[..n] == Reverse(old(buffer[..n]))
    ensures forall i :: n <= i < buffer.Length ==> buffer[i] == old(buffer[i])
  {
    ghost var s := buffer[..];
    var t := 0;
    var p := n - 1;
    while p > t
      invariant 0 <= t && t + p == n - 1 && t <= p + 1
      invariant forall i :: 0 <= i < t ==> buffer[i] == s[n - 1 - i]
      invariant forall i :: p < i < n ==> buffer[i] == s[n - 1 - i]
      invariant forall i :: t <= i <= p ==> buffer[i] == s[i]
      invariant forall i :: n <= i < buffer.Length ==> buffer[i] == s[i]
    {
      var c := buffer[p];
      buffer[p] := buffer[t];
      buffer[t] := c;
      p := p - 1;
      t := t + 1;
    }
    assert forall i :: 0 <= i < n ==> buffer[..n][i] == Reverse(s[..n])[i];
  }

  // ---------------------------------------------------------------------
  // print (src/kstd/PrintFormat.cc, src/ConsolePrintFormat.cc)

  /** The emit loop of `print`: for i from width down to 1, `str[length - i]` or the pad. */
  method EmitField(screen: Screen, str: seq<char>, length: nat, width: int, pad: char)
    requires length <= |str| && length <= width
    modifies screen
    ensures screen.output == old(screen.output) + Justify(str[..length], width, pad)
  {
    ghost var field := Justify(str[..length], width, pad);
    ghost var start := screen.output;
    assert |field| == width;
    var i := width;
    while i > 0
      invariant 0 <= i <= width
      invariant screen.output == start + field[..width - i]
    {
      assert field[..width - i + 1] == field[..width - i] + [field[width - i]];
      if i <= length {
        assert field[width - i] == field[width - length..][length - i];
        screen.PrintChar(str[length - i]);
      } else if i <= width {
        screen.PrintChar(pad);
      }
      i := i - 1;
    }
    assert field[..width] == field;
  }

  /** The %c branch of `print`: width - 1 spaces, the character, and the width as the result. */
  method PrintCharacter(screen: Screen, spec: Spec, arg: Arg) returns (nchars: int)
    requires CharConversion(spec, arg).Some?
    modifies screen
    ensures screen.output == old(screen.output) + CharConversion(spec, arg).value.text
    ensures nchars == CharConversion(spec, arg).value.printed
  {
    var width := spec.width;
    if width == 0 {
      width := 1;
    }
    ghost var start := screen.output;
    for i := 1 to width
      invariant screen.output == start + Padding(' ', i - 1)
    {
      screen.PrintChar(' ');
      assert Padding(' ', i) == Padding(' ', i - 1) + [' '];
    }
    screen.PrintChar(arg.c);
    assert Padding(' ', width - 1) + [arg.c] == CharConversion(spec, arg).value.text;
    nchars := width;
  }

  /** The characters a numeric conversion leaves in `print`'s 32-character buffer. */
  method NumberDigits(d: Dialect, spec: Spec, c: char, n: int) returns (str: seq<char>, length: nat)
    requires IsSpecifier(d, c) && c != 'c' && c != 's' && NumberText(d, spec, c, n).Some?
    ensures length <= |str| && str[..length] == NumberText(d, spec, c, n).value
  {
    match d
    case Kernel =>
      str := NumberText(d, spec, c, n).value;
      length := |str|;
    case Console =>
      var value := if c == 'd' then WrapSigned(SignedOf(spec.size, n), TWO32 / 2)
        else WrapSigned(UnsignedOf(spec.size, n), TWO32 / 2);
      var base := if c == 'd' then 10 else 16;
      ItoaFits(value, base);
      var buffer := new char[32](_ => NUL);
      Itoa(value, buffer, base);
      ghost var text := ItoaText(value, base);
      LengthOfTerminated(buffer[..], |text|, 32);
      assert buffer[0..] == buffer[..];
      length := LengthOf(buffer, 0, 32);
      str := buffer[..];
      assert str[..length] == buffer[..|text|];
  }

  /** The numeric and pointer branches of `print`. */
  method PrintNumber(screen: Screen, d: Dialect, corrected: bool, spec: Spec, c: char, arg: Arg) returns (nchars: int)
    requires IsSpecifier(d, c) && c != 'c' && c != 's' && NumberConversion(d, corrected, spec, c, arg).Some?
    modifies screen
    ensures screen.output == old(screen.output) + NumberConversion(d, corrected, spec, c, arg).value.text
    ensures nchars == NumberConversion(d, corrected, spec, c, arg).value.printed
  {
    var pad := ' ';
    if spec.zeroPadded || (d == Kernel && c == 'p') {
      pad := '0';
    }
    var str, length := NumberDigits(d, spec, c, arg.n);
    var width: int := spec.width;
    if width < length {
      width := length;
    }
    EmitField(screen, str, length, width, pad);
    assert Justify(str[..length], width, pad) == Justify(str[..length], spec.width, pad);
    nchars := if corrected then width else 0;
  }

  /** The string branch of `print`: the string's length, then the field padded with spaces. */
  method PrintString(screen: Screen, corrected: bool, spec: Spec, arg: Arg) returns (nchars: int)
    requires StringConversion(corrected, spec, arg).Some?
    modifies screen
    ensures screen.output == old(screen.output) + StringConversion(corrected, spec, arg).value.text
    ensures nchars == StringConversion(corrected, spec, arg).value.printed
  {
    TextEnds(arg.s);
    var length := Length(arg.s, |arg.s|);
    var width: int := spec.width;
    if width < length {
      width := length;
    }
    EmitField(screen, arg.s, length, width, ' ');
    assert Justify(arg.s[..length], width, ' ') == Justify(Text(arg.s), spec.width, ' ');
    nchars := if corrected then width else 0;
  }

  /** `Spec::print` / `PrintfSpec::print`: emit the field and return what the count gains. */
  method Print(screen: Screen, d: Dialect, corrected: bool, spec: Spec, c: char, arg: Arg) returns (nchars: int)
    requires IsSpecifier(d, c) && Conversion(d, corrected, spec, c, arg).Some?
    modifies screen
    ensures screen.output == old(screen.output) + Conversion(d, corrected, spec, c, arg).value.text
    ensures nchars == Conversion(d, corrected, spec, c, arg).value.printed
  {
    if c == 'c' {
      nchars := PrintCharacter(screen, spec, arg);
    } else if c == 's' {
      nchars := PrintString(screen, corrected, spec, arg);
    } else {
      nchars := PrintNumber(screen, d, corrected, spec, c, arg);
    }
  }

  // ---------------------------------------------------------------------
  // printFormat

  /**
   * `printFormat(format, args)`: walk the format up to its terminator, moving
   * between the Default, Percent, Width and Size states, printing plain
   * characters and, at each specifier, the next argument.
   */
  method PrintFormat(screen: Screen, d: Dialect, corrected: bool, format: seq<char>, args: seq<Arg>)
    returns (nchars: int)
    requires Terminated(format) && Formatted(d, corrected, format, args).Some?
    modifies screen
    ensures screen.output == old(screen.output) + Formatted(d, corrected, format, args).value.out
    ensures nchars == Formatted(d, corrected, format, args).value.count
  {
    ghost var t := Text(format);
    TextEnds(format);
    ghost var final := Run(d, corrected, Start, t, args).value;
    ghost var emitted: string := [];
    var state := Default;
    var spec := Cleared();
    var next := 0;
    nchars := 0;
    var i := 0;
    while format[i] != NUL
      invariant i <= |t|
      invariant screen.output == old(screen.output) + emitted
      invariant Run(d, corrected, Machine(state, spec, emitted, nchars, next), t[i..], args) == Some(final)
      decreases |t| - i
    {
      state, spec, nchars, next, emitted := Advance(screen, d, corrected, state, spec, nchars, next, format[i], args, emitted, t, i, final, old(screen.output));
      i := i + 1;
    }
    assert i == |t| && t[i..] == [];
  }

  /** One pass of the `printFormat` loop, read as the step that takes the run from position `i` of `t` to `i + 1`. */
  method Advance(screen: Screen, d: Dialect, corrected: bool, state: State, spec: Spec, nchars: int, next: nat,
                 c: char, args: seq<Arg>, ghost emitted: string, ghost t: string, ghost i: nat, ghost final: Machine, ghost base: string)
    returns (state': State, spec': Spec, nchars': int, next': nat, ghost emitted': string)
    requires i < |t| && t[i] == c && screen.output == base + emitted
    requires Run(d, corrected, Machine(state, spec, emitted, nchars, next), t[i..], args) == Some(final)
    modifies screen
    ensures Run(d, corrected, Machine(state', spec', emitted', nchars', next'), t[i + 1..], args) == Some(final)
    ensures screen.output == base + emitted'
  {
    RunFirst(d, corrected, Machine(state, spec, emitted, nchars, next), t, i, args);
    state', spec', nchars', next', emitted' := Dispatch(screen, d, corrected, state, spec, nchars, next, c, args, emitted);
    Extended(base, emitted, emitted');
  }

  /** Output that already holds `base + a` and then receives the rest of `b` holds `base + b`. */
  lemma Extended(base: string, a: string, b: string)
    requires a <= b
    ensures (base + a) + b[|a|..] == base + b
  {
    assert a + b[|a|..] == b;
  }

  /** One pass of the `printFormat` loop for the format character `c`, including the `state_size` and `state_specifier` tails. */
  method Dispatch(screen: Screen, d: Dialect, corrected: bool, state: State, spec: Spec, nchars: int, next: nat,
                  c: char, args: seq<Arg>, ghost emitted: string)
    returns (state': State, spec': Spec, nchars': int, next': nat, ghost emitted': string)
    requires Step(d, corrected, Machine(state, spec, emitted, nchars, next), c, args).Some?
    modifies screen
    ensures Machine(state', spec', emitted', nchars', next') == Step(d, corrected, Machine(state, spec, emitted, nchars, next), c, args).value
    ensures emitted <= emitted' && screen.output == old(screen.output) + emitted'[|emitted|..]
  {
    state', spec', nchars', next', emitted' := state, spec, nchars, next, emitted;
    var toSize, toSpecifier := false, false;
    if state == Default {
      if c == '%' {
        state' := Percent;
        spec' := Cleared();
      } else {
        screen.PrintChar(c);
        emitted' := emitted + [c];
        nchars' := nchars + 1;
      }
    } else if state == Percent {
      if c == '%' {
        state' := Default;
        screen.PrintChar(c);
        emitted' := emitted + [c];
        nchars' := nchars + 1;
      } else if IsDigit(c) {
        if c == '0' && !spec.zeroPadded {
          spec' := spec.(zeroPadded := true);
        } else {
          state' := Width;
          spec' := spec.(width := c as int - '0' as int);
        }
      } else if IsSizeChar(c) {
        toSize := true;
      } else if IsSpecifier(d, c) {
        toSpecifier := true;
      }
    } else if state == Width {
      if IsDigit(c) {
        spec' := spec.(width := 10 * spec.width + (c as int - '0' as int));
      } else if IsSizeChar(c) {
        state' := SizeState;
        toSize := true;
      } else if IsSpecifier(d, c) {
        toSpecifier := true;
      }
    } else {
      if IsSizeChar(c) {
        toSize := true;
      } else if IsSpecifier(d, c) {
        toSpecifier := true;
      }
    }
    if toSize {
      spec' := spec'.(size := NextSize(spec'.size, c));
    }
    if toSpecifier {
      StepSpecifier(d, corrected, Machine(state, spec, emitted, nchars, next), c, args);
      state', spec', nchars', next', emitted' := Specifier(screen, d, corrected, state, spec, nchars, next, c, args, emitted);
    }
  }

  /** `state_specifier`: back to Default, read the next argument and print it. */
  method Specifier(screen: Screen, d: Dialect, corrected: bool, state: State, spec: Spec, nchars: int, next: nat,
                   c: char, args: seq<Arg>, ghost emitted: string)
    returns (state': State, spec': Spec, nchars': int, next': nat, ghost emitted': string)
    requires IsSpecifier(d, c)
    requires Convert(d, corrected, Machine(state, spec, emitted, nchars, next), c, args).Some?
    modifies screen
    ensures Machine(state', spec', emitted', nchars', next') ==
      Convert(d, corrected, Machine(state, spec, emitted, nchars, next), c, args).value
    ensures emitted <= emitted' && screen.output == old(screen.output) + emitted'[|emitted|..]
  {
    state' := Default;
    spec' := spec;
    if d == Kernel && c == 'X' {
      spec' := spec'.(capitalized := true);
    }
    var n := Print(screen, d, corrected, spec', c, args[next]);
    emitted' := emitted + Conversion(d, corrected, spec', c, args[next]).value.text;
    nchars' := nchars + n;
    next' := next + 1;
  }
}
