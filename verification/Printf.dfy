/** The formatted output of lib/sanitizer_common/sanitizer_printf.cc. */
module Printf {
  import opened Options

  const TWO_63 := 0x8000_0000_0000_0000
  const TWO_64 := 0x1_0000_0000_0000_0000
  const MAX_LEN := 30

  // ----- Numbers as text

  function DigitChar(digit: nat): char
    requires digit < 16
  {
    "0123456789abcdef"[digit]
  }

  function DigitOf(c: char): nat { if 'a' <= c <= 'f' then (c - 'a') as int + 10 else if '0' <= c <= '9' then (c - '0') as int else 0 }

  /** Most significant digit first. */
  function NumberText(num: nat, base: nat): string
    requires 2 <= base <= 16
  {
    if num < base then [DigitChar(num)] else NumberText(num / base, base) + [DigitChar(num % base)]
  }

  function Zeros(n: nat): string { seq(n, _ => '0') }

  function Padded(num: nat, base: nat, minimal: nat): string
    requires 2 <= base <= 16
  {
    var text := NumberText(num, base);
    Zeros(if |text| < minimal then minimal - |text| else 0) + text
  }

  function SignedText(num: int): string { if num < 0 then "-" + NumberText(-num, 10) else NumberText(num, 10) }

  /** What a string of digits is worth. */
  function Value(text: string, base: nat): nat {
    if text == "" then 0 else Value(text[..|text| - 1], base) * base + DigitOf(text[|text| - 1])
  }

  predicate IsDigit(c: char) { '0' <= c <= '9' }

  predicate AllDigits(text: string) { forall i :: 0 <= i < |text| ==> IsDigit(text[i]) }

  lemma {:induction false} ValueMore(text: string, c: char, base: nat)
    ensures Value(text + [c], base) == Value(text, base) * base + DigitOf(c)
  {
    assert (text + [c])[..|text|] == text;
  }

  lemma {:induction false} DigitBack(digit: nat)
    requires digit < 16
    ensures DigitOf(DigitChar(digit)) == digit && (digit < 10 ==> IsDigit(DigitChar(digit)))
    ensures digit > 0 ==> DigitChar(digit) != '0'
  {
  }

  /** The text of a number is worth the number, and starts with a zero only when it is zero. */
  lemma {:induction false} TextValue(num: nat, base: nat)
    requires 2 <= base <= 16
    ensures Value(NumberText(num, base), base) == num
    ensures |NumberText(num, base)| >= 1 && (NumberText(num, base)[0] == '0' ==> num == 0)
    ensures base <= 10 ==> AllDigits(NumberText(num, base))
  {
    hide DigitChar, DigitOf, Value, IsDigit;
    if num < base {
      DigitBack(num);
      OneDigit(DigitChar(num), base);
    } else {
      Quotient(num, base);
      TextValue(num / base, base);
      DigitBack(num % base);
      ValueMore(NumberText(num / base, base), DigitChar(num % base), base);
    }
  }

  lemma {:induction false} OneDigit(c: char, base: nat)
    ensures Value([c], base) == DigitOf(c)
  {
    hide DigitOf;
    assert [c][..0] == "";
    assert Value("", base) * base == 0;
  }

  lemma {:induction false} Quotient(num: nat, base: nat)
    requires 2 <= base <= num
    ensures 0 < num / base < num && num / base * base + num % base == num && num % base < base
  {
    assert num == base * (num / base) + num % base;
    assert num / base * 2 <= num / base * base;
  }

  lemma {:induction false} ZerosWorthless(n: nat, text: string, base: nat)
    ensures Value(Zeros(n) + text, base) == Value(text, base)
    decreases |text|, n
  {
    if text == "" {
      assert Zeros(n) + text == Zeros(n);
      if n > 0 {
        ZerosWorthless(n - 1, text, base);
        assert Zeros(n - 1) + text == Zeros(n - 1) == Zeros(n)[..n - 1];
      }
    } else {
      ZerosWorthless(n, text[..|text| - 1], base);
      assert (Zeros(n) + text)[..n + |text| - 1] == Zeros(n) + text[..|text| - 1];
    }
  }

  // ----- The output buffer

  /** The part of the text that fits below end is there, and nothing at or above pos has been touched. */
  ghost predicate Holds(buff: string, before: string, pos: nat, end: nat, text: string) {
    && end <= |buff| == |before|
    && pos == (if |text| < end then |text| else end)
    && buff[..pos] == text[..pos] && buff[pos..] == before[pos..]
  }

  method AppendChar(buff: array<char>, at: nat, end: nat, c: char, ghost before: string, ghost text: string)
      returns (result: nat, pos: nat)
    requires Holds(buff[..], before, at, end, text)
    modifies buff
    ensures result == 1 && Holds(buff[..], before, pos, end, text + [c])
  {
    pos := at;
    if pos < end {
      buff[pos] := c;
      pos := pos + 1;
    }
    result := 1;
  }

  /** The digits of num_buffer, the last one first. */
  function Shown(digits: seq<nat>): string
    requires forall i :: 0 <= i < |digits| ==> digits[i] < 16
  {
    if digits == [] then "" else [DigitChar(digits[|digits| - 1])] + Shown(digits[..|digits| - 1])
  }

  lemma {:induction false} ShownMore(digits: seq<nat>, digit: nat)
    requires digit < 16 && forall i :: 0 <= i < |digits| ==> digits[i] < 16
    ensures Shown(digits + [digit]) == [DigitChar(digit)] + Shown(digits)
  {
    assert (digits + [digit])[..|digits|] == digits;
  }

  function Pow10(n: nat): nat { if n == 0 then 1 else 10 * Pow10(n - 1) }

  lemma {:induction false} Pow10Monotone(m: nat, n: nat)
    requires m <= n
    ensures 1 <= Pow10(m) <= Pow10(n)
    decreases n
  {
    if m < n {
      Pow10Monotone(m, n - 1);
    } else if m > 0 {
      Pow10Monotone(m - 1, n - 1);
    }
  }

  lemma {:induction false} TwentyDigits(pos: nat, left: nat)
    requires left * Pow10(pos) < TWO_64 && left > 0
    ensures pos < 20
  {
    Pow10At20();
    AtLeastOnce(left, Pow10(pos));
    if pos >= 20 {
      Pow10Monotone(20, pos);
    }
  }

  lemma {:induction false} AtLeastOnce(left: nat, p: nat)
    requires left > 0
    ensures left * p >= p
  {
  }

  lemma {:induction false} Pow10At20()
    ensures Pow10(20) >= TWO_64
  {
    assert Pow10(4) == 10_000;
    assert Pow10(8) == 100_000_000;
    assert Pow10(12) == 1_000_000_000_000;
    assert Pow10(16) == 1_0000_0000_0000_0000;
  }

  lemma {:induction false} Divided(left: nat, base: nat, pos: nat)
    requires base >= 10 && left * Pow10(pos) < TWO_64
    ensures left / base * Pow10(pos + 1) < TWO_64
  {
    var p := Pow10(pos);
    assert left / base * 10 <= left;
    assert left / base * (10 * p) == (left / base * 10) * p;
    assert (left / base * 10) * p <= left * p;
  }

  /** The do-while loop of AppendUnsigned() and the padding after it: RAW_CHECK_MSG never fires. */
  method Digits(num: nat, base: nat, minimal: nat) returns (num_buffer: array<nat>, pos: nat)
    requires num < TWO_64 && (base == 10 || base == 16) && minimal < MAX_LEN
    ensures fresh(num_buffer) && num_buffer.Length == MAX_LEN && pos <= MAX_LEN
    ensures forall i :: 0 <= i < pos ==> num_buffer[i] < 16
    ensures Shown(num_buffer[..pos]) == Padded(num, base, minimal)
  {
    hide DigitChar, Pow10, Shown, NumberText, Zeros, StillToDo;
    num_buffer := new nat[MAX_LEN];
    pos := 0;
    var left: nat := num;
    AllToDo(num, base);
    while pos == 0 || left > 0
      invariant pos <= MAX_LEN && forall i :: 0 <= i < pos ==> num_buffer[i] < 16
      invariant StillToDo(num, base, left, num_buffer[..pos])
      decreases if pos == 0 then 1 else 0, left
    {
      OneMoreDigit(num, base, left, num_buffer[..pos]);
      assert pos < MAX_LEN; // RAW_CHECK_MSG(pos < kMaxLen, "appendNumber buffer overflow")
      ghost var shown := num_buffer[..pos];
      var digit := left % base;
      num_buffer[pos] := digit;
      pos := pos + 1;
      assert num_buffer[..pos] == shown + [digit];
      left := left / base;
    }
    AllDone(num, base, num_buffer[..pos]);
    ghost var text := NumberText(num, base);
    while pos < minimal
      invariant |text| <= pos <= MAX_LEN && forall i :: 0 <= i < pos ==> num_buffer[i] < 16
      invariant Shown(num_buffer[..pos]) == Zeros(pos - |text|) + text
      invariant pos == |text| || pos <= minimal
    {
      ghost var shown := num_buffer[..pos];
      ShownMore(shown, 0);
      num_buffer[pos] := 0;
      pos := pos + 1;
      assert num_buffer[..pos] == shown + [0];
      ZeroMore(pos - 1 - |text|, text);
    }
  }

  /** The digits taken off so far, behind the text of what is left, are the text of the number. */
  ghost predicate StillToDo(num: nat, base: nat, left: nat, digits: seq<nat>)
    requires 2 <= base <= 16
  {
    && (forall i :: 0 <= i < |digits| ==> digits[i] < 16)
    && |Shown(digits)| == |digits| && left * Pow10(|digits|) < TWO_64
    && NumberText(num, base) == (if digits == [] || left > 0 then NumberText(left, base) else "") + Shown(digits)
  }

  lemma {:induction false} AllToDo(num: nat, base: nat)
    requires num < TWO_64 && 2 <= base <= 16
    ensures StillToDo(num, base, num, [])
  {
  }

  lemma {:induction false} AllDone(num: nat, base: nat, digits: seq<nat>)
    requires 2 <= base <= 16 && digits != [] && StillToDo(num, base, 0, digits)
    ensures |NumberText(num, base)| == |digits| && Shown(digits) == Zeros(0) + NumberText(num, base)
  {
  }

  lemma {:induction false} OneMoreDigit(num: nat, base: nat, left: nat, digits: seq<nat>)
    requires base == 10 || base == 16
    requires StillToDo(num, base, left, digits) && (digits == [] || left > 0)
    ensures |digits| < 20 && left % base < 16 && (left > 0 ==> left / base < left)
    ensures StillToDo(num, base, left / base, digits + [left % base])
  {
    hide DigitChar, Pow10, Shown;
    if left > 0 {
      TwentyDigits(|digits|, left);
    }
    ShownMore(digits, left % base);
    Divided(left, base, |digits|);
  }

  lemma {:induction false} ZeroMore(n: nat, text: string)
    ensures [DigitChar(0)] + (Zeros(n) + text) == Zeros(n + 1) + text
  {
  }

  lemma {:induction false} ShownTop(digits: seq<nat>, all: string, done: nat)
    requires digits != [] && forall i :: 0 <= i < |digits| ==> digits[i] < 16
    requires done <= |all| && all == all[..done] + Shown(digits)
    ensures done < |all| && all[done] == DigitChar(digits[|digits| - 1])
    ensures all == all[..done + 1] + Shown(digits[..|digits| - 1])
  {
    hide DigitChar;
  }

  method AppendUnsigned(buff: array<char>, at: nat, end: nat, num: nat, base: nat, minimal: nat,
      ghost before: string, ghost text: string) returns (result: nat, pos: nat)
    requires Holds(buff[..], before, at, end, text)
    requires num < TWO_64 && (base == 10 || base == 16) && minimal < MAX_LEN
    modifies buff
    ensures result == |Padded(num, base, minimal)|
    ensures Holds(buff[..], before, pos, end, text + Padded(num, base, minimal))
  {
    hide Holds, Padded, DigitChar, NumberText;
    var num_buffer, left := Digits(num, base, minimal);
    result, pos := 0, at;
    ghost var all := Shown(num_buffer[..left]);
    assert text + all[..0] == text;
    while left > 0
      invariant left <= MAX_LEN && forall i :: 0 <= i < left ==> num_buffer[i] < 16
      invariant result <= |all| && all == all[..result] + Shown(num_buffer[..left])
      invariant Holds(buff[..], before, pos, end, text + all[..result])
    {
      left := left - 1;
      ShownTop(num_buffer[..left + 1], all, result);
      assert num_buffer[..left + 1][..left] == num_buffer[..left];
      var one;
      one, pos := AppendChar(buff, pos, end, DigitChar(num_buffer[left]), before, text + all[..result]);
      assert text + all[..result] + [DigitChar(num_buffer[left])] == text + all[..result + 1];
      result := result + one;
    }
    assert num_buffer[..0] == [];
    assert all[..result] == all;
  }

  /** `(u64)-num`, the least number being its own opposite. */
  function Negated(num: int): nat
    requires -TWO_63 <= num < 0
  {
    (-num) % TWO_64
  }

  method AppendSignedDecimal(buff: array<char>, at: nat, end: nat, num: int, ghost before: string, ghost text: string)
      returns (result: nat, pos: nat)
    requires Holds(buff[..], before, at, end, text) && -TWO_63 <= num < TWO_63
    modifies buff
    ensures result == |SignedText(num)| && Holds(buff[..], before, pos, end, text + SignedText(num))
  {
    hide Holds, NumberText;
    if num < 0 {
      var sign;
      sign, pos := AppendChar(buff, at, end, '-', before, text);
      result, pos := AppendUnsigned(buff, pos, end, Negated(num), 10, 0, before, text + "-");
      NotPadded(-num);
      assert text + "-" + NumberText(-num, 10) == text + SignedText(num);
      result := result + sign;
    } else {
      result, pos := AppendUnsigned(buff, at, end, num, 10, 0, before, text);
      NotPadded(num);
    }
  }

  lemma {:induction false} NotPadded(num: nat)
    ensures Padded(num, 10, 0) == NumberText(num, 10)
  {
    assert Zeros(0) == "";
  }

  /** A null pointer is spelt out. */
  function StringText(s: Option<string>): string { match s case None => "<null>" case Some(t) => t }

  method AppendString(buff: array<char>, at: nat, end: nat, s: Option<string>, ghost before: string, ghost text: string)
      returns (result: nat, pos: nat)
    requires Holds(buff[..], before, at, end, text)
    modifies buff
    ensures result == |StringText(s)| && Holds(buff[..], before, pos, end, text + StringText(s))
  {
    hide Holds;
    var t := StringText(s);
    result, pos := 0, at;
    var i := 0;
    assert text + t[..0] == text;
    while i < |t|
      invariant result == i <= |t| && Holds(buff[..], before, pos, end, text + t[..i])
    {
      var one;
      one, pos := AppendChar(buff, pos, end, t[i], before, text + t[..i]);
      assert text + t[..i] + [t[i]] == text + t[..i + 1];
      result := result + one;
      i := i + 1;
    }
    assert t[..i] == t;
  }

  function PointerText(ptr: nat): string { "0x" + Padded(ptr, 16, 12) }

  method AppendPointer(buff: array<char>, at: nat, end: nat, ptr: nat, ghost before: string, ghost text: string)
      returns (result: nat, pos: nat)
    requires Holds(buff[..], before, at, end, text) && ptr < TWO_64
    modifies buff
    ensures result == |PointerText(ptr)| && Holds(buff[..], before, pos, end, text + PointerText(ptr))
  {
    hide Holds, Padded;
    var more;
    result, pos := AppendString(buff, at, end, Some("0x"), before, text);
    more, pos := AppendUnsigned(buff, pos, end, ptr, 16, 12, before, text + "0x");
    assert text + "0x" + Padded(ptr, 16, 12) == text + PointerText(ptr);
    result := result + more;
  }

  // ----- Formats

  type Int32 = n: int | -0x8000_0000 <= n < 0x8000_0000
  type Int64 = n: int | -TWO_63 <= n < TWO_63
  type Word32 = n: int | 0 <= n < 0x1_0000_0000
  type Word64 = n: int | 0 <= n < TWO_64

  datatype Arg = Int(int32: Int32) | SPtr(int64: Int64) | Unsigned(word32: Word32) | UPtr(word64: Word64)
    | Str(chars: Option<string>) | Char(c: char)

  /** A failed RAW_CHECK ends the process; an argument that is missing or of another type is undefined. */
  datatype Outcome = Text(text: string) | Dies | Undefined

  function Then(text: string, rest: Outcome): Outcome {
    match rest case Text(more) => Text(text + more) case _ => rest
  }

  /** What one directive prints: its letter, whether a z stands before it, and the arguments left. */
  function Directive(letter: char, have_z: bool, args: seq<Arg>): Outcome {
    if letter == 'd' then
      if args == [] then Undefined
      else if have_z && args[0].SPtr? then Text(SignedText(args[0].int64))
      else if !have_z && args[0].Int? then Text(SignedText(args[0].int32))
      else Undefined
    else if letter == 'u' || letter == 'x' then
      var base := if letter == 'u' then 10 else 16;
      if args == [] then Undefined
      else if have_z && args[0].UPtr? then Text(Padded(args[0].word64, base, 0))
      else if !have_z && args[0].Unsigned? then Text(Padded(args[0].word32, base, 0))
      else Undefined
    else if have_z then Dies
    else if letter == 'p' then
      if args != [] && args[0].UPtr? then Text(PointerText(args[0].word64)) else Undefined
    else if letter == 's' then
      if args != [] && args[0].Str? then Text(StringText(args[0].chars)) else Undefined
    else if letter == 'c' then
      if args != [] && args[0].Char? then Text([args[0].c]) else Undefined
    else if letter == '%' then Text("%")
    else Dies
  }

  /** Digits of the base that are worth num, with no superfluous zero in front. */
  predicate Spells(text: string, base: nat, num: nat)
  {
    text != "" && Value(text, base) == num && (text[0] == '0' ==> num == 0)
  }

  /** What a directive promises to print of its argument. */
  predicate Promised(letter: char, arg: Arg, text: string)
  {
    match arg
    case Int(n) => letter == 'd' && SpellsSigned(text, n)
    case SPtr(n) => letter == 'd' && SpellsSigned(text, n)
    case Unsigned(n) => (letter == 'u' && Spells(text, 10, n)) || (letter == 'x' && Spells(text, 16, n))
    case UPtr(n) =>
      || (letter == 'u' && Spells(text, 10, n)) || (letter == 'x' && Spells(text, 16, n))
      || (letter == 'p' && |text| >= 14 && text[..2] == "0x" && Value(text[2..], 16) == n)
    case Str(None) => letter == 's' && text == "<null>"
    case Str(Some(chars)) => letter == 's' && text == chars
    case Char(c) => letter == 'c' && text == [c]
  }

  predicate SpellsSigned(text: string, n: int)
  {
    if n < 0 then text != "" && text[0] == '-' && Spells(text[1..], 10, -n) else Spells(text, 10, n)
  }

  /** Which arguments a directive takes. */
  predicate Takes(letter: char, have_z: bool, arg: Arg)
  {
    match arg
    case Int(_) => letter == 'd' && !have_z
    case SPtr(_) => letter == 'd' && have_z
    case Unsigned(_) => (letter == 'u' || letter == 'x') && !have_z
    case UPtr(_) => ((letter == 'u' || letter == 'x') && have_z) || (letter == 'p' && !have_z)
    case Str(_) => letter == 's' && !have_z
    case Char(_) => letter == 'c' && !have_z
  }

  lemma {:induction false} SignedSpelt(n: int)
    ensures SpellsSigned(SignedText(n), n)
  {
    hide Value, DigitChar, AllDigits;
    TextValue(if n < 0 then -n else n, 10);
    if n < 0 { assert SignedText(n)[1..] == NumberText(-n, 10); }
  }

  lemma {:induction false} UnsignedSpelt(n: nat, base: nat)
    requires 2 <= base <= 16
    ensures Spells(Padded(n, base, 0), base, n)
  {
    hide Value, DigitChar, AllDigits;
    TextValue(n, base);
    assert Zeros(0) + NumberText(n, base) == NumberText(n, base);
  }

  lemma {:induction false} PointerSpelt(n: nat)
    ensures var text := PointerText(n);
      |text| >= 14 && text[..2] == "0x" && Value(text[2..], 16) == n
  {
    hide Value, DigitChar, AllDigits, NumberText, Zeros;
    TextValue(n, 16);
    var digits := NumberText(n, 16);
    ZeroCount(if |digits| < 12 then 12 - |digits| else 0);
    ZerosWorthless(if |digits| < 12 then 12 - |digits| else 0, digits, 16);
    assert PointerText(n)[2..] == Padded(n, 16, 12);
  }

  lemma {:induction false} ZeroCount(n: nat)
    ensures |Zeros(n)| == n
  {
  }

  /** Every directive prints what it promises of the argument it takes: %d, %u and %x the number in decimal or hexadecimal,
      %p 0x and at least twelve hexadecimal digits, %s the string or <null>, %c the character; %% needs none.  The process
      dies exactly for a letter that is none of these, and for a z before another letter than d, u or x. */
  lemma {:induction false} DirectivePrints(letter: char, have_z: bool, args: seq<Arg>)
    ensures args != [] && Takes(letter, have_z, args[0]) ==>
      Directive(letter, have_z, args).Text? && Promised(letter, args[0], Directive(letter, have_z, args).text)
    ensures letter == '%' && !have_z ==> Directive(letter, have_z, args) == Text("%")
    ensures Directive(letter, have_z, args).Dies? <==> letter !in (if have_z then "dux" else "duxpsc%")
  {
    hide SignedText, Padded, PointerText, SpellsSigned, Spells, Value, NumberText;
    if args != [] {
      match args[0]
      case Int(n) => SignedSpelt(n);
      case SPtr(n) => SignedSpelt(n);
      case Unsigned(n) => UnsignedSpelt(n, 10); UnsignedSpelt(n, 16);
      case UPtr(n) => UnsignedSpelt(n, 10); UnsignedSpelt(n, 16); PointerSpelt(n);
      case Str(_) =>
      case Char(_) =>
    }
  }

  predicate HasZ(format: string) { |format| > 1 && format[1] == 'z' }

  /** What a format prints when there is no end to the buffer. */
  function Formatted(format: string, args: seq<Arg>): Outcome
    decreases |format|
  {
    if format == "" then Text("")
    else if format[0] != '%' then Then([format[0]], Formatted(format[1..], args))
    else
      var at := if HasZ(format) then 2 else 1;
      if |format| == at then Dies
      else
        match Directive(format[at], HasZ(format), args)
        case Text(text) => Then(text, Formatted(format[at + 1..], if format[at] == '%' then args else args[1..]))
        case other => other
  }

  lemma {:induction false} Plain(text: string, format: string, args: seq<Arg>)
    requires format != "" && format[0] != '%'
    ensures Then(text, Formatted(format, args)) == Then(text + [format[0]], Formatted(format[1..], args))
  {
    hide Formatted;
    assert Formatted(format, args) == Then([format[0]], Formatted(format[1..], args)) by {
      PlainStep(format, args);
    }
    ThenThen(text, [format[0]], Formatted(format[1..], args));
  }

  lemma {:induction false} PlainStep(format: string, args: seq<Arg>)
    requires format != "" && format[0] != '%'
    ensures Formatted(format, args) == Then([format[0]], Formatted(format[1..], args))
  {
    hide Directive, Then;
  }

  lemma {:induction false} DirectiveStep(text: string, format: string, at: nat, args: seq<Arg>)
    requires format != "" && format[0] == '%' && at == (if HasZ(format) then 2 else 1) && at < |format|
    ensures var piece := Directive(format[at], HasZ(format), args);
      if piece.Text? then
        var left := if format[at] == '%' then args else args[1..];
        Then(text, Formatted(format, args)) == Then(text + piece.text, Formatted(format[at + 1..], left))
      else Then(text, Formatted(format, args)) == piece
  {
    hide HasZ;
    OnlyPercent(format[at], HasZ(format), args);
    var piece := Directive(format[at], HasZ(format), args);
    hide Directive;
    if piece.Text? {
      var left := if format[at] == '%' then args else args[1..];
      ThenThen(text, piece.text, Formatted(format[at + 1..], left));
    }
  }

  lemma {:induction false} OnlyPercent(letter: char, have_z: bool, args: seq<Arg>)
    ensures Directive(letter, have_z, args).Text? && letter != '%' ==> args != []
  {
    hide SignedText, Padded, PointerText, StringText;
  }

  lemma {:induction false} ThenThen(a: string, b: string, rest: Outcome)
    ensures Then(a, Then(b, rest)) == Then(a + b, rest)
  {
    match rest
    case Text(more) => assert a + (b + more) == a + b + more;
    case _ =>
  }

  /** The text cut off to leave room for a NUL, and the NUL; the rest of the buffer as it was. */
  ghost predicate Printed(buff: string, before: string, length: nat, text: string) {
    && 0 < length <= |buff| == |before|
    && var n := if |text| < length then |text| else length - 1;
      buff[..n] == text[..n] && buff[n] == '\0' && buff[n + 1..] == before[n + 1..]
  }

  /** One directive: undefined behaviour is left open, and ok is false when a RAW_CHECK fails. */
  method AppendDirective(buff: array<char>, at: nat, end: nat, letter: char, have_z: bool, args: seq<Arg>,
      ghost before: string, ghost text: string) returns (ok: bool, result: nat, pos: nat)
    requires Holds(buff[..], before, at, end, text)
    modifies buff
    ensures var piece := Directive(letter, have_z, args);
      && ok == piece.Text?
      && (ok ==> result == |piece.text| && Holds(buff[..], before, pos, end, text + piece.text))
  {
    hide Holds, SignedText, Padded, PointerText, StringText;
    ok, result, pos := Directive(letter, have_z, args).Text?, 0, at;
    if !ok {
      return;
    }
    if letter == 'd' {
      var dval: int := if have_z then args[0].int64 else args[0].int32;
      result, pos := AppendSignedDecimal(buff, at, end, dval, before, text);
    } else if letter == 'u' || letter == 'x' {
      var uval: nat := if have_z then args[0].word64 else args[0].word32;
      result, pos := AppendUnsigned(buff, at, end, uval, if letter == 'u' then 10 else 16, 0, before, text);
    } else if letter == 'p' {
      result, pos := AppendPointer(buff, at, end, args[0].word64, before, text);
    } else if letter == 's' {
      result, pos := AppendString(buff, at, end, args[0].chars, before, text);
    } else if letter == 'c' {
      result, pos := AppendChar(buff, at, end, args[0].c, before, text);
    } else {
      result, pos := AppendChar(buff, at, end, '%', before, text);
    }
  }

  /** lib/sanitizer_common/sanitizer_printf.cc:86-148 */
  method VSNPrintf(buff: array<char>, buff_length: int, format: string, args: seq<Arg>) returns (ok: bool, result: nat)
    requires buff_length <= buff.Length
    modifies buff
    ensures buff_length <= 0 || Formatted(format, args).Dies? ==> !ok
    ensures buff_length > 0 && Formatted(format, args).Text? ==>
      ok && result == |Formatted(format, args).text| && Printed(buff[..], old(buff[..]), buff_length, Formatted(format, args).text)
  {
    hide Formatted, Directive, Holds, HasZ, Printed;
    result := 0;
    if buff_length <= 0 {
      // RAW_CHECK(buff_length > 0)
      return false, 0;
    }
    var buff_end := buff_length - 1;
    var cur: nat, used: nat, pos: nat := 0, 0, 0;
    ghost var before, text := buff[..], "";
    Started(before, buff_end);
    ThenNothing(Formatted(format, args));
    assert format[0..] == format && args[0..] == args;
    while cur < |format|
      invariant cur <= |format| && used <= |args| && result == |text|
      invariant Holds(buff[..], before, pos, buff_end, text)
      invariant Formatted(format, args) == Then(text, Formatted(format[cur..], args[used..]))
    {
      ghost var rest := format[cur..];
      if format[cur] != '%' {
        Plain(text, rest, args[used..]);
        var one;
        one, pos := AppendChar(buff, pos, buff_end, format[cur], before, text);
        result := result + one;
        text := text + [format[cur]];
        assert rest[1..] == format[cur + 1..];
        cur := cur + 1;
        continue;
      }
      ZAfter(format, cur);
      cur := cur + 1;
      var have_z := cur < |format| && format[cur] == 'z';
      cur := cur + if have_z then 1 else 0;
      if cur == |format| {
        NothingAfter(text, rest, args[used..]);
        return false, 0;
      }
      ghost var piece := Directive(format[cur], have_z, args[used..]);
      DirectiveStep(text, rest, if have_z then 2 else 1, args[used..]);
      OnlyPercent(format[cur], have_z, args[used..]);
      var more;
      ok, more, pos := AppendDirective(buff, pos, buff_end, format[cur], have_z, args[used..], before, text);
      if !ok {
        return false, 0;
      }
      result := result + more;
      text := text + piece.text;
      if format[cur] != '%' {
        assert args[used..][1..] == args[used + 1..];
        used := used + 1;
      }
      assert rest[(if have_z then 2 else 1) + 1..] == format[cur + 1..];
      cur := cur + 1;
    }
    assert format[cur..] == "";
    NothingLeft(text, args[used..]);
    Position(buff[..], before, pos, buff_end, text);
    ghost var held := buff[..];
    buff[pos] := '\0';
    Ended(held, before, pos, buff_end, text);
    assert buff[..] == held[pos := '\0'];
    return true, result;
  }

  lemma {:induction false} Started(before: string, end: nat)
    requires end <= |before|
    ensures Holds(before, before, 0, end, "")
  {
  }

  lemma {:induction false} ThenNothing(all: Outcome)
    ensures Then("", all) == all
  {
    match all
    case Text(text) => assert "" + text == text;
    case _ =>
  }

  lemma {:induction false} NothingLeft(text: string, args: seq<Arg>)
    ensures Then(text, Formatted("", args)) == Text(text)
  {
    assert text + "" == text;
  }

  lemma {:induction false} ZAfter(format: string, cur: nat)
    requires cur < |format|
    ensures HasZ(format[cur..]) <==> cur + 1 < |format| && format[cur + 1] == 'z'
  {
  }

  lemma {:induction false} NothingAfter(text: string, format: string, args: seq<Arg>)
    requires format != "" && format[0] == '%' && |format| == if HasZ(format) then 2 else 1
    ensures Then(text, Formatted(format, args)) == Dies
  {
    hide Directive;
  }

  lemma {:induction false} Position(buff: string, before: string, pos: nat, end: nat, text: string)
    requires Holds(buff, before, pos, end, text)
    ensures pos <= end <= |buff| == |before|
  {
  }

  lemma {:induction false} Ended(held: string, before: string, pos: nat, end: nat, text: string)
    requires Holds(held, before, pos, end, text) && end < |held|
    ensures Printed(held[pos := '\0'], before, end + 1, text)
  {
  }

  /** The string that a buffer holds. */
  function CString(buff: string): string {
    if buff == "" || buff[0] == '\0' then "" else [buff[0]] + CString(buff[1..])
  }

  lemma {:induction false} CStringStops(text: string, buff: string)
    requires '\0' !in text && text <= buff && |text| < |buff| && buff[|text|] == '\0'
    ensures CString(buff) == text
    decreases |text|
  {
    if text != "" {
      CStringStops(text[1..], buff[1..]);
    }
  }

  /** The buffer holds a prefix of the text, and all of it exactly when the returned length says so. */
  lemma {:induction false} TruncatedExactly(buff: string, before: string, length: nat, text: string)
    requires Printed(buff, before, length, text) && '\0' !in text
    ensures CString(buff) <= text && |CString(buff)| < length
    ensures CString(buff) == text <==> |text| < length
  {
    var n := if |text| < length then |text| else length - 1;
    assert buff[..n] <= buff;
    CStringStops(text[..n], buff);
  }
}
