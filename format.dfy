/**
 * The printf-style format-string state machine shared by `kstd::printFormat`
 * (src/kstd/PrintFormat.cc) and `Console::printFormat`
 * (src/ConsolePrintFormat.cc). The two snapshots run the same machine over the
 * characters before the format's terminator; they differ in the specifiers
 * they accept, in how a number becomes text, and in when they pad with '0'.
 *
 * Arguments are tagged values. `Int(n)` is an integer argument, read as the C
 * type the conversion asks for (reduced modulo that type's width); `Chr(c)` is
 * the character given to %c; `Str(s)` is the memory a %s pointer points at. A
 * missing argument, an argument of the wrong kind, an unterminated string and
 * the overflows C leaves undefined make the whole call `None`.
 *
 * `corrected == false` is the count as written: `Spec::print` returns its
 * local `nchars`, which stays 0, so only plain characters, "%%" and %c are
 * counted. `corrected == true` counts every emitted character, as the
 * header's "Number of characters printed" promises.
 */
module Format {
  import opened Common
  import opened Ascii
  import opened Numerals
  import opened CString

  /** Which of the two snapshots of the machine runs. */
  datatype Dialect = Kernel | Console

  datatype Size = Normal | DoubleShort | Short | Long | DoubleLong

  datatype State = Default | Percent | Width | SizeState

  /** The parsed part of a conversion (the value is carried by the argument). */
  datatype Spec = Spec(zeroPadded: bool, capitalized: bool, width: nat, size: Size)

  datatype Arg = Int(n: int) | Chr(c: char) | Str(s: seq<char>)

  /** What one conversion emits, and what it adds to the returned count. */
  datatype Field = Field(text: string, printed: int)

  datatype Machine = Machine(state: State, spec: Spec, out: string, count: int, next: nat)

  /** The result of a whole call: the characters sent to the console and the returned count. */
  datatype Printed = Printed(out: string, count: int)

  const IntMax: int := TWO32 / 2 - 1

  /** `clear()`: every field of the spec back to its initial value. */
  function Cleared(): (s: Spec)
    ensures !s.zeroPadded && !s.capitalized && s.width == 0 && s.size == Normal
  {
    Spec(false, false, 0, Normal)
  }

  const Start: Machine := Machine(Default, Cleared(), [], 0, 0)

  /** `isSize` / `is_size`. */
  predicate IsSizeChar(c: char) { c == 'h' || c == 'l' }

  /** `isSpecifier` (kernel) and `is_specifier` (console); the console has no 'i' and no 'p'. */
  predicate IsSpecifier(d: Dialect, c: char)
  {
    match d
    case Kernel => c == 'c' || c == 'd' || c == 'i' || c == 'p' || c == 's' || c == 'x' || c == 'X'
    case Console => c == 'd' || c == 'x' || c == 'X' || c == 'c' || c == 's'
  }

  /** `state_size`: a repeated 'h' or 'l' doubles the size, any other one sets it. */
  function NextSize(size: Size, c: char): (r: Size)
    requires IsSizeChar(c)
    ensures c == 'h' ==> (r == Short || r == DoubleShort)
    ensures c == 'l' ==> (r == Long || r == DoubleLong)
    ensures r == DoubleShort <==> c == 'h' && size == Short
    ensures r == DoubleLong <==> c == 'l' && size == Long
  {
    if c == 'h' then (if size == Short then DoubleShort else Short)
    else (if size == Long then DoubleLong else Long)
  }

  /** The value a signed conversion reads: int, signed char, short, long (32 bits on i386), long long. */
  function SignedOf(size: Size, n: int): (v: int)
    ensures -TWO64 / 2 <= v < TWO64 / 2
    ensures size != DoubleLong ==> -TWO32 / 2 <= v < TWO32 / 2
  {
    match size
    case Normal => WrapSigned(n, TWO32 / 2)
    case DoubleShort => WrapSigned(n, TWO8 / 2)
    case Short => WrapSigned(n, TWO16 / 2)
    case Long => WrapSigned(n, TWO32 / 2)
    case DoubleLong => WrapSigned(n, TWO64 / 2)
  }

  /** The value an unsigned conversion reads: unsigned, unsigned char, unsigned short, unsigned long, unsigned long long. */
  function UnsignedOf(size: Size, n: int): (v: nat)
    ensures v < TWO64
    ensures size != DoubleLong ==> v < TWO32
  {
    match size
    case Normal => n % TWO32
    case DoubleShort => n % TWO8
    case Short => n % TWO16
    case Long => n % TWO32
    case DoubleLong => n % TWO64
  }

  /** `n` copies of `pad` (none when `n` is not positive). */
  function Padding(pad: char, n: int): (r: string)
    ensures |r| == if n > 0 then n else 0
    ensures forall i :: 0 <= i < |r| ==> r[i] == pad
  {
    seq(if n > 0 then n else 0, _ => pad)
  }

  /**
   * The emit loop of `print`: the text right-justified in a field of
   * max(width, |text|) characters, filled on the left with `pad`.
   */
  function Justify(text: string, width: int, pad: char): (field: string)
    ensures |field| == if width > |text| then width else |text|
    ensures field[|field| - |text|..] == text
    ensures forall i :: 0 <= i < |field| - |text| ==> field[i] == pad
  {
    Padding(pad, width - |text|) + text
  }

  /** The character `print` fills a numeric, pointer or string field with. */
  function PadFor(d: Dialect, spec: Spec, c: char): (pad: char)
    ensures pad == '0' <==> (c != 's' && (spec.zeroPadded || (d == Kernel && c == 'p')))
  {
    if c == 's' then ' '
    else if spec.zeroPadded || (d == Kernel && c == 'p') then '0'
    else ' '
  }

  /**
   * The digits of a numeric conversion: the kernel uses `CString::fromInteger`
   * and friends, the console its own `itoa`, which takes an `int` (so wider
   * and unsigned values are first converted to `int`) and overflows on
   * negating INT_MIN in base 10.
   */
  function NumberText(d: Dialect, spec: Spec, c: char, n: int): Option<string>
    requires IsSpecifier(d, c) && c != 'c' && c != 's'
  {
    match d
    case Kernel =>
      if c == 'd' || c == 'i' then Some(FromInteger(SignedOf(spec.size, n), 10, false))
      else if c == 'p' then Some(FromPointer(n % TWO32, 16, true))
      else Some(FromUnsignedInteger(UnsignedOf(spec.size, n), 16, spec.capitalized))
    case Console =>
      if c == 'd' then
        var v := WrapSigned(SignedOf(spec.size, n), TWO32 / 2);
        if v == -TWO32 / 2 then None else Some(ItoaText(v, 10))
      else Some(ItoaText(WrapSigned(UnsignedOf(spec.size, n), TWO32 / 2), 16))
  }

  /** %c: width - 1 spaces, then the character; `print` returns the width (0 counts as 1). */
  function CharConversion(spec: Spec, arg: Arg): (r: Option<Field>)
    ensures r.Some? ==> 0 <= r.value.printed == |r.value.text|
  {
    if !arg.Chr? then None
    else
      var w := if spec.width == 0 then 1 else spec.width;
      Some(Field(Padding(' ', w - 1) + [arg.c], w))
  }

  /** %s: the string's characters before its terminator, right-justified with spaces. */
  function StringConversion(corrected: bool, spec: Spec, arg: Arg): (r: Option<Field>)
    ensures r.Some? ==> r.value.printed == if corrected then |r.value.text| else 0
  {
    if !arg.Str? || !Terminated(arg.s) then None
    else
      var field := Justify(Text(arg.s), spec.width, ' ');
      Some(Field(field, if corrected then |field| else 0))
  }

  /** %d, %i, %p, %x, %X: the number's text right-justified with the dialect's pad. */
  function NumberConversion(d: Dialect, corrected: bool, spec: Spec, c: char, arg: Arg): (r: Option<Field>)
    requires IsSpecifier(d, c) && c != 'c' && c != 's'
    ensures r.Some? ==> r.value.printed == if corrected then |r.value.text| else 0
  {
    if !arg.Int? then None
    else
      match NumberText(d, spec, c, arg.n)
      case None => None
      case Some(t) =>
        var field := Justify(t, spec.width, PadFor(d, spec, c));
        Some(Field(field, if corrected then |field| else 0))
  }

  /** `Spec::print` / `PrintfSpec::print` for the conversion `c` of `arg`. */
  function Conversion(d: Dialect, corrected: bool, spec: Spec, c: char, arg: Arg): (r: Option<Field>)
    requires IsSpecifier(d, c)
    ensures r.Some? ==> 0 <= r.value.printed <= |r.value.text|
    ensures r.Some? && (corrected || c == 'c') ==> r.value.printed == |r.value.text|
    ensures r.Some? && !corrected && c != 'c' ==> r.value.printed == 0
  {
    if c == 'c' then CharConversion(spec, arg)
    else if c == 's' then StringConversion(corrected, spec, arg)
    else NumberConversion(d, corrected, spec, c, arg)
  }

  /** `state_specifier`: read the next argument, print it, return to Default. */
  function Convert(d: Dialect, corrected: bool, m: Machine, c: char, args: seq<Arg>): (r: Option<Machine>)
    requires IsSpecifier(d, c)
    ensures r.Some? ==> r.value.state == Default && r.value.next == m.next + 1 && m.out <= r.value.out
    ensures r.Some? ==> 0 <= r.value.count - m.count <= |r.value.out| - |m.out|
    ensures r.Some? && corrected ==> r.value.count - m.count == |r.value.out| - |m.out|
  {
    if m.next >= |args| then None
    else
      var spec := if d == Kernel && c == 'X' then m.spec.(capitalized := true) else m.spec;
      match Conversion(d, corrected, spec, c, args[m.next])
      case None => None
      case Some(f) => Some(Machine(Default, spec, m.out + f.text, m.count + f.printed, m.next + 1))
  }

  /**
   * The transitions of the loop body that print no argument: plain
   * characters, "%%", the '0' flag, width digits and size letters. A
   * specifier is never '%', a digit or a size letter, so the order of the
   * tests in `printFormat` lets every specifier after '%' reach
   * `state_specifier`; `Step` sends those to `Convert` and the rest here.
   */
  function Parse(m: Machine, c: char): (r: Option<Machine>)
    ensures r.Some? ==> r.value.next == m.next
    ensures r.Some? ==> (r.value.out == m.out && r.value.count == m.count) ||
                        (r.value.out == m.out + [c] && r.value.count == m.count + 1)
  {
    match m.state
    case Default =>
      if c == '%' then Some(m.(state := Percent, spec := Cleared()))
      else Some(m.(out := m.out + [c], count := m.count + 1))
    case Percent =>
      if c == '%' then Some(m.(state := Default, out := m.out + [c], count := m.count + 1))
      else if IsDigit(c) then
        if c == '0' && !m.spec.zeroPadded then Some(m.(spec := m.spec.(zeroPadded := true)))
        else Some(m.(state := Width, spec := m.spec.(width := c as int - '0' as int)))
      else if IsSizeChar(c) then Some(m.(spec := m.spec.(size := NextSize(m.spec.size, c))))
      else Some(m)
    case Width =>
      if IsDigit(c) then
        var w := 10 * m.spec.width + (c as int - '0' as int);
        if w > IntMax then None else Some(m.(spec := m.spec.(width := w)))
      else if IsSizeChar(c) then Some(m.(state := SizeState, spec := m.spec.(size := NextSize(m.spec.size, c))))
      else Some(m)
    case SizeState =>
      if IsSizeChar(c) then Some(m.(spec := m.spec.(size := NextSize(m.spec.size, c))))
      else Some(m)
  }

  /** One pass of the loop body of `printFormat` for the format character `c`. */
  function Step(d: Dialect, corrected: bool, m: Machine, c: char, args: seq<Arg>): Option<Machine>
  {
    if m.state != Default && IsSpecifier(d, c) then Convert(d, corrected, m, c, args)
    else Parse(m, c)
  }

  /** The loop of `printFormat` over the characters `t`, from machine `m`. */
  function Run(d: Dialect, corrected: bool, m: Machine, t: string, args: seq<Arg>): Option<Machine>
    decreases |t|
  {
    if t == [] then Some(m)
    else
      match Step(d, corrected, m, t[0], args)
      case None => None
      case Some(m') => Run(d, corrected, m', t[1..], args)
  }

  /** A run from position `i` of `t` that succeeds takes the step for `t[i]` and runs on from `i + 1`. */
  lemma RunFirst(d: Dialect, corrected: bool, m: Machine, t: string, i: nat, args: seq<Arg>)
    requires i < |t| && Run(d, corrected, m, t[i..], args).Some?
    ensures Step(d, corrected, m, t[i], args).Some?
    ensures Run(d, corrected, m, t[i..], args) == Run(d, corrected, Step(d, corrected, m, t[i], args).value, t[i + 1..], args)
  {
    assert t[i..][0] == t[i] && t[i..][1..] == t[i + 1..];
  }

  /** `printFormat(format, args)`: what reaches the console and what is returned. */
  function Formatted(d: Dialect, corrected: bool, format: seq<char>, args: seq<Arg>): Option<Printed>
    requires Terminated(format)
  {
    match Run(d, corrected, Start, Text(format), args)
    case None => None
    case Some(m) => Some(Printed(m.out, m.count))
  }

  // ---------------------------------------------------------------------
  // Counting

  /** One step only appends to the output and counts at most what it appends. */
  lemma StepCount(d: Dialect, corrected: bool, m: Machine, c: char, args: seq<Arg>)
    ensures match Step(d, corrected, m, c, args)
      case None => true
      case Some(m') =>
        m.out <= m'.out && 0 <= m'.count - m.count <= |m'.out| - |m.out| &&
        (corrected ==> m'.count - m.count == |m'.out| - |m.out|)
  {
  }

  lemma {:induction false} RunCount(d: Dialect, corrected: bool, m: Machine, t: string, args: seq<Arg>)
    ensures match Run(d, corrected, m, t, args)
      case None => true
      case Some(m') =>
        m.out <= m'.out && 0 <= m'.count - m.count <= |m'.out| - |m.out| &&
        (corrected ==> m'.count - m.count == |m'.out| - |m.out|)
    decreases |t|
  {
    if t != [] {
      StepCount(d, corrected, m, t[0], args);
      match Step(d, corrected, m, t[0], args)
      case None =>
      case Some(m1) => RunCount(d, corrected, m1, t[1..], args);
    }
  }

  /** With the corrected count, `printFormat` returns exactly the number of characters printed. */
  lemma CorrectedCountIsLength(d: Dialect, format: seq<char>, args: seq<Arg>)
    requires Terminated(format)
    ensures match Formatted(d, true, format, args)
      case None => true
      case Some(p) => p.count == |p.out|
  {
    RunCount(d, true, Start, Text(format), args);
  }

  /** As written, the count never exceeds the characters printed. */
  lemma CountAsWrittenBounded(d: Dialect, format: seq<char>, args: seq<Arg>)
    requires Terminated(format)
    ensures match Formatted(d, false, format, args)
      case None => true
      case Some(p) => 0 <= p.count <= |p.out|
  {
    RunCount(d, false, Start, Text(format), args);
  }

  /** The count mode changes only the count of a conversion, never its text. */
  lemma ConversionSameText(d: Dialect, spec: Spec, c: char, arg: Arg)
    requires IsSpecifier(d, c)
    ensures Conversion(d, false, spec, c, arg).Some? == Conversion(d, true, spec, c, arg).Some?
    ensures Conversion(d, false, spec, c, arg).Some? ==>
      Conversion(d, false, spec, c, arg).value.text == Conversion(d, true, spec, c, arg).value.text
  {
  }

  lemma StepSameOutput(d: Dialect, m1: Machine, m2: Machine, c: char, args: seq<Arg>)
    requires m1.(count := 0) == m2.(count := 0)
    ensures Step(d, false, m1, c, args).Some? == Step(d, true, m2, c, args).Some?
    ensures Step(d, false, m1, c, args).Some? ==>
      Step(d, false, m1, c, args).value.(count := 0) == Step(d, true, m2, c, args).value.(count := 0)
  {
    if m1.state != Default && IsSpecifier(d, c) && m1.next < |args| {
      var spec := if d == Kernel && c == 'X' then m1.spec.(capitalized := true) else m1.spec;
      ConversionSameText(d, spec, c, args[m1.next]);
    } else if m1.state == Default || !IsSpecifier(d, c) {
      assert Parse(m1, c).Some? ==> Parse(m1, c).value.(count := 0) == Parse(m2, c).value.(count := 0);
    }
  }

  lemma {:induction false} RunSameOutput(d: Dialect, m1: Machine, m2: Machine, t: string, args: seq<Arg>)
    requires m1.(count := 0) == m2.(count := 0)
    ensures Run(d, false, m1, t, args).Some? == Run(d, true, m2, t, args).Some?
    ensures Run(d, false, m1, t, args).Some? ==>
      Run(d, false, m1, t, args).value.(count := 0) == Run(d, true, m2, t, args).value.(count := 0)
    decreases |t|
  {
    if t != [] {
      StepSameOutput(d, m1, m2, t[0], args);
      var s1, s2 := Step(d, false, m1, t[0], args), Step(d, true, m2, t[0], args);
      if s1.Some? {
        RunSameOutput(d, s1.value, s2.value, t[1..], args);
      }
    }
  }

  lemma SameOutput(d: Dialect, format: seq<char>, args: seq<Arg>)
    requires Terminated(format)
    ensures Formatted(d, false, format, args).Some? == Formatted(d, true, format, args).Some?
    ensures Formatted(d, false, format, args).Some? ==>
      Formatted(d, false, format, args).value.out == Formatted(d, true, format, args).value.out
  {
    RunSameOutput(d, Start, Start, Text(format), args);
  }

  /** "%d" of 42: "42" reaches the console, but the count as written is 0. */
  lemma CountAsWrittenMissesNumbers(d: Dialect)
    ensures Formatted(d, false, "%d\0", [Int(42)]) == Some(Printed("42", 0))
    ensures Formatted(d, true, "%d\0", [Int(42)]) == Some(Printed("42", 2))
  {
    LengthOfTerminated("%d\0", 2, 3);
    assert Text("%d\0") == "%d";
    FortyTwoRun(d, false);
    FortyTwoRun(d, true);
  }

  lemma FortyTwoRun(d: Dialect, corrected: bool)
    ensures Run(d, corrected, Start, "%d", [Int(42)]) ==
      Some(Machine(Default, Cleared(), "42", if corrected then 2 else 0, 1))
  {
    var args := [Int(42)];
    var m1 := Start.(state := Percent, spec := Cleared());
    StepPercent(d, corrected, Start, args);
    StepSpecifier(d, corrected, m1, 'd', args);
    ConvertFortyTwo(d, corrected);
    assert "%d"[1..] == "d" && "d"[1..] == [];
  }

  lemma ConvertFortyTwo(d: Dialect, corrected: bool)
    ensures Convert(d, corrected, Start.(state := Percent, spec := Cleared()), 'd', [Int(42)]) ==
      Some(Machine(Default, Cleared(), "42", if corrected then 2 else 0, 1))
  {
    FortyTwoText();
    assert NumberText(d, Cleared(), 'd', 42) == Some("42");
  }

  lemma FortyTwoText()
    ensures ItoaText(42, 10) == "42" && FromInteger(42, 10, false) == "42"
  {
    NumeralDigits(42, 10, false);
    assert Numeral(42, 10, false) == "42";
    ItoaNonNegative(42, 10);
  }

  // ---------------------------------------------------------------------
  // Plain text and "%%"

  /** In the Default state a character other than '%' is emitted and counted. */
  lemma StepPlain(d: Dialect, corrected: bool, m: Machine, c: char, args: seq<Arg>)
    requires m.state == Default && c != '%'
    ensures Step(d, corrected, m, c, args) == Some(m.(out := m.out + [c], count := m.count + 1))
  {
  }

  /** A '%' in the Default state starts a conversion with a cleared spec. */
  lemma StepPercent(d: Dialect, corrected: bool, m: Machine, args: seq<Arg>)
    requires m.state == Default
    ensures Step(d, corrected, m, '%', args) == Some(m.(state := Percent, spec := Cleared()))
  {
  }

  /** After '%', a character that is neither '%', a digit, a size nor a specifier is skipped. */
  lemma StepIgnored(d: Dialect, corrected: bool, m: Machine, c: char, args: seq<Arg>)
    requires m.state == Percent && c != '%' && !IsDigit(c) && !IsSizeChar(c) && !IsSpecifier(d, c)
    ensures Step(d, corrected, m, c, args) == Some(m)
  {
  }

  /** Once a conversion has started, a specifier prints the next argument. */
  lemma StepSpecifier(d: Dialect, corrected: bool, m: Machine, c: char, args: seq<Arg>)
    requires m.state != Default && IsSpecifier(d, c)
    ensures Step(d, corrected, m, c, args) == Convert(d, corrected, m, c, args)
  {
  }

  /** Characters outside a conversion are emitted unchanged, one count each. */
  lemma {:induction false} RunPlain(d: Dialect, corrected: bool, m: Machine, t: string, args: seq<Arg>)
    requires m.state == Default && '%' !in t
    ensures Run(d, corrected, m, t, args) == Some(m.(out := m.out + t, count := m.count + |t|))
    decreases |t|
  {
    if t != [] {
      assert t[0] in t && t == [t[0]] + t[1..];
      var m1 := m.(out := m.out + [t[0]], count := m.count + 1);
      StepPlain(d, corrected, m, t[0], args);
      RunPlain(d, corrected, m1, t[1..], args);
      assert m1.out + t[1..] == m.out + t;
      assert m1.count + |t[1..]| == m.count + |t|;
    } else {
      assert m.out + t == m.out;
    }
  }

  lemma PlainText(d: Dialect, corrected: bool, format: seq<char>, args: seq<Arg>)
    requires Terminated(format) && '%' !in Text(format)
    ensures Formatted(d, corrected, format, args) == Some(Printed(Text(format), |Text(format)|))
  {
    RunPlain(d, corrected, Start, Text(format), args);
    assert Start.out + Text(format) == Text(format);
  }

  /** "%%" emits one '%', counts it, consumes no argument and ends the conversion. */
  lemma PercentPercent(d: Dialect, corrected: bool, m: Machine, args: seq<Arg>)
    requires m.state == Default
    ensures Run(d, corrected, m, "%%", args) ==
      Some(m.(spec := Cleared(), out := m.out + "%", count := m.count + 1))
  {
    var m1 := m.(state := Percent, spec := Cleared());
    assert Step(d, corrected, m, '%', args) == Some(m1);
    assert Run(d, corrected, m1, "%", args) == Step(d, corrected, m1, '%', args);
  }

  // ---------------------------------------------------------------------
  // Flags and width

  /** A '0' right after '%' sets zero padding; the next '0' starts the width. */
  lemma ZeroFlagOnce(d: Dialect, corrected: bool, m: Machine, args: seq<Arg>)
    requires m.state == Percent && !m.spec.zeroPadded
    ensures Run(d, corrected, m, "00", args) ==
      Some(m.(state := Width, spec := m.spec.(zeroPadded := true, width := 0)))
  {
    var m1 := m.(spec := m.spec.(zeroPadded := true));
    assert Step(d, corrected, m, '0', args) == Some(m1);
    assert Run(d, corrected, m1, "0", args) == Step(d, corrected, m1, '0', args);
  }

  /** The width after reading the decimal digits `t` onto the width `w`, most significant first. */
  function WidthAfter(w: nat, t: string): (r: nat)
    requires forall i :: 0 <= i < |t| ==> IsDigit(t[i])
    ensures r >= w
    decreases |t|
  {
    if t == [] then w
    else
      assert IsDigit(t[0]);
      WidthAfter(10 * w + (t[0] as int - '0' as int), t[1..])
  }

  /** Digits in the Width state extend the width in base 10 (while it fits an `int`). */
  lemma {:induction false} WidthDigits(d: Dialect, corrected: bool, m: Machine, t: string, args: seq<Arg>)
    requires m.state == Width && forall i :: 0 <= i < |t| ==> IsDigit(t[i])
    requires WidthAfter(m.spec.width, t) <= IntMax
    ensures Run(d, corrected, m, t, args) == Some(m.(spec := m.spec.(width := WidthAfter(m.spec.width, t))))
    decreases |t|
  {
    if t != [] {
      assert IsDigit(t[0]);
      var w := 10 * m.spec.width + (t[0] as int - '0' as int);
      var m1 := m.(spec := m.spec.(width := w));
      assert WidthAfter(w, t[1..]) == WidthAfter(m.spec.width, t);
      assert Step(d, corrected, m, t[0], args) == Some(m1);
      WidthDigits(d, corrected, m1, t[1..], args);
    }
  }

  /** "%12d": '1' starts the width, '2' extends it to 12. */
  lemma WidthTwelve(d: Dialect, corrected: bool, m: Machine, args: seq<Arg>)
    requires m.state == Percent
    ensures Run(d, corrected, m, "12", args) == Some(m.(state := Width, spec := m.spec.(width := 12)))
  {
    var m1 := m.(state := Width, spec := m.spec.(width := 1));
    assert Step(d, corrected, m, '1', args) == Some(m1);
    WidthDigits(d, corrected, m1, "2", args);
  }

  /** Running over a concatenation is running over each part in turn. */
  lemma {:induction false} RunAppend(d: Dialect, corrected: bool, m: Machine, a: string, b: string, args: seq<Arg>)
    ensures Run(d, corrected, m, a + b, args) ==
      match Run(d, corrected, m, a, args)
      case None => None
      case Some(m') => Run(d, corrected, m', b, args)
    decreases |a|
  {
    if a == [] {
      assert a + b == b;
    } else {
      assert (a + b)[0] == a[0] && (a + b)[1..] == a[1..] + b;
      match Step(d, corrected, m, a[0], args)
      case None =>
      case Some(m1) => RunAppend(d, corrected, m1, a[1..], b, args);
    }
  }

  // ---------------------------------------------------------------------
  // Sizes and specifiers

  /** "hh" after '%' selects DoubleShort and "ll" DoubleLong, without leaving the Percent state. */
  lemma DoubledSizes(d: Dialect, corrected: bool, m: Machine, args: seq<Arg>)
    requires m.state == Percent && m.spec.size == Normal
    ensures Run(d, corrected, m, "hh", args) == Some(m.(spec := m.spec.(size := DoubleShort)))
    ensures Run(d, corrected, m, "ll", args) == Some(m.(spec := m.spec.(size := DoubleLong)))
  {
    var mh := m.(spec := m.spec.(size := Short));
    assert Step(d, corrected, m, 'h', args) == Some(mh);
    assert Run(d, corrected, mh, "h", args) == Step(d, corrected, mh, 'h', args);
    var ml := m.(spec := m.spec.(size := Long));
    assert Step(d, corrected, m, 'l', args) == Some(ml);
    assert Run(d, corrected, ml, "l", args) == Step(d, corrected, ml, 'l', args);
  }

  /**
   * The console's specifier test has no 'i', so "%i" is ignored and the
   * conversion goes on: "%id" prints its argument in the console dialect,
   * while the kernel prints it at the 'i' and then emits 'd' as text.
   */
  lemma ConsoleIgnoresI(corrected: bool)
    ensures Formatted(Console, corrected, "%id\0", [Int(7)]).Some?
    ensures Formatted(Console, corrected, "%id\0", [Int(7)]).value.out == "7"
  {
    LengthOfTerminated("%id\0", 3, 4);
    assert Text("%id\0") == "%id";
    var args := [Int(7)];
    var mc := Start.(state := Percent, spec := Cleared());
    var done := Machine(Default, Cleared(), "7", if corrected then 1 else 0, 1);
    ConvertSeven(Console, corrected, 'd');
    StepPercent(Console, corrected, Start, args);
    StepIgnored(Console, corrected, mc, 'i', args);
    StepSpecifier(Console, corrected, mc, 'd', args);
    RunSteps(Console, corrected, Start, '%', 'i', 'd', args);
  }

  /** The kernel accepts 'i' as a specifier, so "%id" prints the argument and then 'd'. */
  lemma KernelPrintsI(corrected: bool)
    ensures Formatted(Kernel, corrected, "%id\0", [Int(7)]).Some?
    ensures Formatted(Kernel, corrected, "%id\0", [Int(7)]).value.out == "7d"
  {
    LengthOfTerminated("%id\0", 3, 4);
    assert Text("%id\0") == "%id";
    var args := [Int(7)];
    var mc := Start.(state := Percent, spec := Cleared());
    var done := Machine(Default, Cleared(), "7", if corrected then 1 else 0, 1);
    ConvertSeven(Kernel, corrected, 'i');
    StepPercent(Kernel, corrected, Start, args);
    StepSpecifier(Kernel, corrected, mc, 'i', args);
    StepPlain(Kernel, corrected, done, 'd', args);
    assert done.out + ['d'] == "7d";
    RunSteps(Kernel, corrected, Start, '%', 'i', 'd', args);
  }

  /** Running over three characters is three steps. */
  lemma RunSteps(d: Dialect, corrected: bool, m: Machine, a: char, b: char, c: char, args: seq<Arg>)
    ensures Run(d, corrected, m, [a, b, c], args) ==
      match Step(d, corrected, m, a, args)
      case None => None
      case Some(m1) =>
        match Step(d, corrected, m1, b, args)
        case None => None
        case Some(m2) => Step(d, corrected, m2, c, args)
  {
    assert [a, b, c][0] == a && [a, b, c][1..] == [b, c];
    match Step(d, corrected, m, a, args)
    case None =>
    case Some(m1) =>
      assert [b, c][0] == b && [b, c][1..] == [c];
      match Step(d, corrected, m1, b, args)
      case None =>
      case Some(m2) =>
        assert [c][0] == c && [c][1..] == [];
        assert Run(d, corrected, m, [a, b, c], args) == Run(d, corrected, m2, [c], args);
        match Step(d, corrected, m2, c, args)
        case None =>
        case Some(m3) => assert Run(d, corrected, m3, [], args) == Some(m3);
  }

  lemma ConvertSeven(d: Dialect, corrected: bool, c: char)
    requires (d == Console && c == 'd') || (d == Kernel && c == 'i')
    ensures Convert(d, corrected, Start.(state := Percent, spec := Cleared()), c, [Int(7)]) ==
      Some(Machine(Default, Cleared(), "7", if corrected then 1 else 0, 1))
  {
    SevenText();
    assert NumberText(d, Cleared(), c, 7) == Some("7");
  }

  lemma SevenText()
    ensures ItoaText(7, 10) == "7" && FromInteger(7, 10, false) == "7"
  {
    NumeralDigits(7, 10, false);
    assert Numeral(7, 10, false) == "7";
    ItoaNonNegative(7, 10);
  }

  // ---------------------------------------------------------------------
  // Fields

  /** %c: width 0 counts as 1; width - 1 spaces, then the character; the count is the width. */
  lemma CharField(d: Dialect, corrected: bool, spec: Spec, ch: char)
    ensures Conversion(d, corrected, spec, 'c', Chr(ch)).Some?
    ensures var f := Conversion(d, corrected, spec, 'c', Chr(ch)).value;
      var w := if spec.width == 0 then 1 else spec.width;
      |f.text| == w && f.printed == w && f.text[w - 1] == ch &&
      forall i :: 0 <= i < w - 1 ==> f.text[i] == ' '
  {
  }

  /** %s: the string's characters before its terminator, right-justified with spaces. */
  lemma StringField(d: Dialect, corrected: bool, spec: Spec, s: seq<char>)
    requires Terminated(s)
    ensures Conversion(d, corrected, spec, 's', Str(s)).Some?
    ensures var f := Conversion(d, corrected, spec, 's', Str(s)).value;
      f.text == Padding(' ', spec.width - Length(s, |s|)) + s[..Length(s, |s|)]
  {
    var r := StringConversion(corrected, spec, Str(s));
    assert Conversion(d, corrected, spec, 's', Str(s)) == r;
    assert r.value.text == Justify(Text(s), spec.width, ' ');
  }

  /** %p: eight or fewer upper-case hexadecimal digits of the address, padded with '0'. */
  lemma PointerField(corrected: bool, spec: Spec, n: int)
    ensures Conversion(Kernel, corrected, spec, 'p', Int(n)).Some?
    ensures var f := Conversion(Kernel, corrected, spec, 'p', Int(n)).value;
      var t := Numeral(n % TWO32, 16, true);
      |t| <= 8 && f.text == Padding('0', spec.width - |t|) + t
  {
    NumeralLength(n % TWO32, 16, true, 8);
  }

  /**
   * For an `int` that is not negative both dialects print the same decimal
   * digits; they differ only in padding, where the kernel's '0' flag and the
   * console's agree as well.
   */
  lemma DialectsAgreeOnDecimal(corrected: bool, spec: Spec, n: int)
    requires 0 <= n <= IntMax && spec.size == Normal
    ensures Conversion(Kernel, corrected, spec, 'd', Int(n)) == Conversion(Console, corrected, spec, 'd', Int(n))
    ensures Conversion(Kernel, corrected, spec, 'd', Int(n)).Some?
  {
    ItoaNonNegative(n, 10);
  }

  /** %x in the kernel: the unsigned value's hexadecimal numeral, in the case 'X' or 'x' selected. */
  lemma KernelHexField(corrected: bool, spec: Spec, c: char, n: int)
    requires c == 'x' || c == 'X'
    ensures var m := Machine(Percent, spec, [], 0, 0);
      var r := Convert(Kernel, corrected, m, c, [Int(n)]);
      var t := Numeral(UnsignedOf(spec.size, n), 16, spec.capitalized || c == 'X');
      r.Some? && r.value.out == Padding(if spec.zeroPadded then '0' else ' ', spec.width - |t|) + t
  {
  }

  /**
   * %x in the console: `itoa` is given an `int`, so an unsigned value of 2^31
   * or more arrives negative and is written digit by digit as '0' minus each
   * digit of its magnitude, with no sign.
   */
  lemma ConsoleHexOfLargeValue(corrected: bool, spec: Spec, n: int)
    requires spec.size == Normal && TWO32 / 2 <= n < TWO32
    ensures var r := Conversion(Console, corrected, spec, 'x', Int(n));
      var v := n - TWO32;
      r.Some? && r.value.text == Justify(ItoaText(v, 16), spec.width, PadFor(Console, spec, 'x')) &&
      |ItoaText(v, 16)| == |Numeral(-v, 16, false)|
  {
    assert UnsignedOf(spec.size, n) == n;
    assert WrapSigned(n, TWO32 / 2) == n - TWO32 by {
      assert n % TWO32 == n;
    }
    ItoaNegativeNonDecimal(n - TWO32, 16);
  }
}
