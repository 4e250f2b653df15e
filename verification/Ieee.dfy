/** What IEEE 754-2008 asks of the arithmetic operations, stated on encodings and exact integers:
sections 4.3.1 (roundTiesToEven), 6.1 (infinities), 6.2 (quiet NaN results) and 6.3 (signs). */
module Ieee {
  import opened Bits
  import opened Floats

  /** The encoding with the given sign and magnitude fields. */
  function WithSign(f: Format, negative: bool, abs: nat): nat
  {
    if negative then f.SignBit() + abs else abs
  }

  /** Section 5.4.1: the correctly rounded sum. */
  ghost predicate IsSum(f: Format, a: nat, b: nat, r: nat)
    requires f.Valid()
  {
    if IsNaN(f, a) || IsNaN(f, b) then IsQuietNaN(f, r)
    else if IsInf(f, a) && IsInf(f, b) then r == if Negative(f, a) == Negative(f, b) then a else f.QNaN()
    else if IsInf(f, a) then r == a
    else if IsInf(f, b) then r == b
    else
      var exact := SignedVal(f, a) + SignedVal(f, b);
      if exact == 0 then r == WithSign(f, Negative(f, a) && Negative(f, b), 0)
      else Negative(f, r) == (exact < 0) && Nearest(f, Abs(f, r), Distance(exact, 0), 1)
  }

  /** The correctly rounded product.  A product of two magnitudes counts squared quanta. */
  ghost predicate IsProduct(f: Format, a: nat, b: nat, r: nat)
    requires f.Valid()
  {
    var negative := Negative(f, a) != Negative(f, b);
    if IsNaN(f, a) || IsNaN(f, b) then IsQuietNaN(f, r)
    else if IsInf(f, a) || IsInf(f, b) then
      r == if Abs(f, a) == 0 || Abs(f, b) == 0 then f.QNaN() else WithSign(f, negative, f.Inf())
    else
      && Negative(f, r) == negative
      && Nearest(f, Abs(f, r), Val(f, Abs(f, a)) * Val(f, Abs(f, b)), Pow2(f.Scale()))
  }

  /** What section 6 and section 7.3 ask of a quotient with a NaN, infinite or zero operand. */
  ghost predicate IsSpecialQuotient(f: Format, a: nat, b: nat, r: nat)
    requires f.Valid()
  {
    var negative := Negative(f, a) != Negative(f, b);
    if IsNaN(f, a) || IsNaN(f, b) then IsQuietNaN(f, r)
    else if IsInf(f, a) then r == if IsInf(f, b) then f.QNaN() else WithSign(f, negative, f.Inf())
    else if IsInf(f, b) then r == WithSign(f, negative, 0)
    else if Abs(f, a) == 0 then r == if Abs(f, b) == 0 then f.QNaN() else WithSign(f, negative, 0)
    else Abs(f, b) == 0 && r == WithSign(f, negative, f.Inf())
  }

  /** The correctly rounded quotient. */
  ghost predicate IsQuotient(f: Format, a: nat, b: nat, r: nat)
    requires f.Valid()
  {
    if IsFinite(f, a) && IsFinite(f, b) && Abs(f, a) != 0 && Abs(f, b) != 0 then
      && Negative(f, r) == (Negative(f, a) != Negative(f, b))
      && Nearest(f, Abs(f, r), Val(f, Abs(f, a)) * Pow2(f.Scale()), Val(f, Abs(f, b)))
    else
      IsSpecialQuotient(f, a, b, r)
  }
}
