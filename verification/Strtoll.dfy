/** internal_simple_strtoll() of lib/sanitizer_common/sanitizer_libc.cc, the reader of what %zd prints. */
module Strtoll {
  import opened Printf

  const MAX_U64 := 0xFFFF_FFFF_FFFF_FFFF
  const MAX_S64 := 0x7FFF_FFFF_FFFF_FFFF

  predicate IsSpace(c: char) { c == ' ' || c == '\n' || c == '\t' || c == '\r' || c == 0xC as char || c == 0xB as char }

  /** The nearest 64-bit number. */
  function Clamped(n: int): int { if n > MAX_S64 then MAX_S64 else if n < -TWO_63 then -TWO_63 else n }

  function Saturated(n: nat): nat { if n > MAX_U64 then MAX_U64 else n }

  function SpacesEnd(text: string, i: nat): (r: nat)
    requires i <= |text|
    ensures i <= r <= |text|
    decreases |text| - i
  {
    if i < |text| && IsSpace(text[i]) then SpacesEnd(text, i + 1) else i
  }

  function DigitsEnd(text: string, i: nat): (r: nat)
    requires i <= |text|
    ensures i <= r <= |text|
    decreases |text| - i
  {
    if i < |text| && IsDigit(text[i]) then DigitsEnd(text, i + 1) else i
  }

  function SignEnd(text: string, i: nat): (r: nat)
    requires i <= |text|
    ensures i <= r <= |text|
  {
    if i < |text| && (text[i] == '+' || text[i] == '-') then i + 1 else i
  }

  predicate Minus(text: string, i: nat) { i < |text| && text[i] == '-' }

  function Signed(minus: bool, n: int): int { if minus then -n else n }

  /** The number read, and where reading stopped: before the sign when there is no digit. */
  function Read(text: string): (int, nat) {
    var sign := SpacesEnd(text, 0);
    var first := SignEnd(text, sign);
    var end := DigitsEnd(text, first);
    var value := Value(text[first..end], 10);
    (Clamped(Signed(Minus(text, sign), value)), if end > first then end else sign)
  }

  /** One turn of the digit loop, in 64-bit words. */
  function Turn(res: nat, digit: nat): nat {
    var tens := if res <= MAX_U64 / 10 then res * 10 else MAX_U64;
    if tens <= MAX_U64 - digit then tens + digit else MAX_U64
  }

  lemma {:induction false} SaturatingTurn(v: nat, digit: nat)
    requires digit < 10
    ensures Turn(Saturated(v), digit) == Saturated(v * 10 + digit)
  {
  }

  lemma {:induction false} OneDigitMore(text: string, first: nat, i: nat)
    requires first <= i < |text| && IsDigit(text[i])
    ensures DigitsEnd(text, i) == DigitsEnd(text, i + 1) && 0 <= text[i] as int - '0' as int < 10
    ensures Turn(Saturated(Value(text[first..i], 10)), text[i] as int - '0' as int) == Saturated(Value(text[first..i + 1], 10))
  {
    var digit := text[i] as int - '0' as int;
    assert DigitOf(text[i]) == digit;
    hide Turn, Saturated, IsDigit, DigitOf, Value;
    SaturatingTurn(Value(text[first..i], 10), digit);
    ValueMore(text[first..i], text[i], 10);
    assert text[first..i + 1] == text[first..i] + [text[i]];
  }

  lemma {:induction false} LastTurn(v: nat, minus: bool)
    ensures Clamped(Signed(minus, v))
      == var res := Saturated(v);
        if minus then (if res > MAX_S64 then -TWO_63 else res * -1) else (if MAX_S64 < res then MAX_S64 else res)
  {
  }

  /** lib/sanitizer_common/sanitizer_libc.cc:177-206; ok is false when CHECK_EQ(base, 10) fails. */
  method InternalSimpleStrtoll(nptr: string, base: int) returns (ok: bool, n: int, endptr: nat)
    ensures ok <==> base == 10
    ensures ok ==> (n, endptr) == Read(nptr)
  {
    hide IsSpace, IsDigit, Value, Saturated, Clamped, Signed;
    n, endptr := 0, 0;
    if base != 10 {
      return false, 0, 0;
    }
    var i := 0;
    while i < |nptr| && IsSpace(nptr[i])
      invariant i <= |nptr| && SpacesEnd(nptr, 0) == SpacesEnd(nptr, i)
    {
      i := i + 1;
    }
    var sgn, res, have_digits := 1, 0, false;
    var old_nptr := i;
    if i < |nptr| && nptr[i] == '+' {
      i := i + 1;
    } else if i < |nptr| && nptr[i] == '-' {
      sgn := -1;
      i := i + 1;
    }
    ghost var first := i;
    NothingRead(nptr, first);
    while i < |nptr| && IsDigit(nptr[i])
      invariant first <= i <= |nptr| && DigitsEnd(nptr, first) == DigitsEnd(nptr, i)
      invariant res == Saturated(Value(nptr[first..i], 10)) && have_digits == (i > first)
    {
      OneDigitMore(nptr, first, i);
      res := if res <= MAX_U64 / 10 then res * 10 else MAX_U64;
      var digit := nptr[i] as int - '0' as int;
      res := if res <= MAX_U64 - digit then res + digit else MAX_U64;
      have_digits := true;
      i := i + 1;
    }
    LastTurn(Value(nptr[first..i], 10), sgn < 0);
    endptr := if have_digits then i else old_nptr;
    if sgn > 0 {
      n := if MAX_S64 < res then MAX_S64 else res;
    } else {
      n := if res > MAX_S64 then -TWO_63 else res * -1;
    }
    ok := true;
  }

  lemma {:induction false} NoDigits(text: string)
    requires text == ""
    ensures Value(text, 10) == 0
  {
  }

  lemma {:induction false} NothingRead(text: string, first: nat)
    requires first <= |text|
    ensures Saturated(Value(text[first..first], 10)) == 0
  {
  }

  // ----- What Read means

  lemma {:induction false} SpacesSkipped(spaces: string, rest: string, i: nat)
    requires i <= |spaces| && (forall k :: 0 <= k < |spaces| ==> IsSpace(spaces[k])) && (rest == "" || !IsSpace(rest[0]))
    ensures SpacesEnd(spaces + rest, i) == |spaces|
    decreases |spaces| - i
  {
    hide IsSpace;
    if i < |spaces| {
      SpacesSkipped(spaces, rest, i + 1);
    }
  }

  lemma {:induction false} DigitsSkipped(before: string, digits: string, rest: string, i: nat)
    requires |before| <= i <= |before| + |digits| && AllDigits(digits) && (rest == "" || !IsDigit(rest[0]))
    ensures DigitsEnd(before + digits + rest, i) == |before| + |digits|
    decreases |before| + |digits| - i
  {
    hide IsDigit;
    if i < |before| + |digits| {
      DigitsSkipped(before, digits, rest, i + 1);
    }
  }

  /** Spaces, a sign, digits and anything else: the number is the signed value, clamped. */
  lemma {:induction false} ReadParts(spaces: string, sign: string, digits: string, rest: string)
    requires forall k :: 0 <= k < |spaces| ==> IsSpace(spaces[k])
    requires (sign == "" || sign == "+" || sign == "-") && digits != "" && AllDigits(digits)
    requires rest == "" || !IsDigit(rest[0])
    ensures Read(spaces + sign + digits + rest)
      == (Clamped(Signed(sign == "-", Value(digits, 10))), |spaces| + |sign| + |digits|)
  {
    hide Value;
    var text := spaces + sign + digits + rest;
    var tail := sign + digits + rest;
    assert text == spaces + tail;
    assert tail[0] == if sign == "" then digits[0] else sign[0];
    SpacesSkipped(spaces, tail, 0);
    var first := |spaces| + |sign|;
    assert |spaces| < |text| && text[|spaces|] == tail[0];
    assert SignEnd(text, |spaces|) == first;
    DigitsSkipped(spaces + sign, digits, rest, first);
    assert text[first..first + |digits|] == digits;
  }

  /** What %zd prints of a 64-bit number is read back as that number, whatever follows it. */
  lemma {:induction false} PrintThenRead(n: int, rest: string)
    requires -TWO_63 <= n < TWO_63 && (rest == "" || !IsDigit(rest[0]))
    ensures Read(SignedText(n) + rest) == (n, |SignedText(n)|)
  {
    hide Value, NumberText, Read, IsDigit;
    var digits := NumberText(if n < 0 then -n else n, 10);
    TextValue(if n < 0 then -n else n, 10);
    var sign := if n < 0 then "-" else "";
    ReadParts("", sign, digits, rest);
    assert "" + sign + digits + rest == SignedText(n) + rest;
  }

  /** Without a digit nothing is read, but the spaces are skipped all the same. */
  lemma {:induction false} ReadNothing(spaces: string, sign: string, rest: string)
    requires forall k :: 0 <= k < |spaces| ==> IsSpace(spaces[k])
    requires sign == "" || sign == "+" || sign == "-"
    requires rest == "" || (!IsDigit(rest[0]) && !IsSpace(rest[0]) && rest[0] != '+' && rest[0] != '-')
    ensures Read(spaces + sign + rest) == (0, |spaces|)
  {
    hide Value;
    var text := spaces + sign + rest;
    var tail := sign + rest;
    assert text == spaces + tail;
    SpacesSkipped(spaces, tail, 0);
    var first := |spaces| + |sign|;
    assert first < |text| ==> text[first] == rest[0];
    assert SignEnd(text, |spaces|) == first;
    assert DigitsEnd(text, first) == first;
    NoDigits(text[first..first]);
  }
}
