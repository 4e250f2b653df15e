/** IEEE 754 binary interchange formats and roundTiesToEven.

A float is its encoding: a natural number of Width() bits.  The magnitude of a finite float is an
integer number of quanta, the quantum being the smallest subnormal.  The same formula gives the
infinity the magnitude 2^(emax+1), which is the value section 4.3.1 of IEEE 754-2008 uses for it
when it decides whether a result overflows. */
module Floats {
  import opened Bits

  datatype Format = Format(p: nat, eb: nat) {
    // the routines hold exponents in a C int
    ghost predicate Valid() { p >= 1 && 4 <= eb <= 30 }
    function Width(): nat { p + eb + 1 }
    function MaxExponent(): nat { Pow2(eb) - 1 }
    // maxExponent >> 1
    function Bias(): nat requires eb >= 1 { Pow2(eb - 1) - 1 }
    function Implicit(): nat { Pow2(p) }
    function Inf(): nat { Lsh(MaxExponent(), p) }
    function SignBit(): nat { Pow2(p + eb) }
    // implicitBit >> 1
    function Quiet(): nat requires p >= 1 { Pow2(p - 1) }
    function QNaN(): nat requires p >= 1 { Inf() + Quiet() }
    // the number of quanta in 1.0 is Pow2(Scale())
    function Scale(): nat requires Valid() { Bias() + p - 1 }
  }

  function Single(): (f: Format) ensures f.Valid() { Format(23, 8) }
  function Double(): (f: Format) ensures f.Valid() { Format(52, 11) }

  function Negative(f: Format, x: nat): bool { x >= f.SignBit() }
  function Abs(f: Format, x: nat): nat { Low(x, f.p + f.eb) }
  predicate IsNaN(f: Format, x: nat) { Abs(f, x) > f.Inf() }
  predicate IsInf(f: Format, x: nat) { Abs(f, x) == f.Inf() }
  predicate IsFinite(f: Format, x: nat) { Abs(f, x) < f.Inf() }
  ghost predicate IsQuietNaN(f: Format, x: nat)
    requires f.Valid()
  {
    IsNaN(f, x) && Shr(x, f.p - 1) % 2 == 1
  }

  /** The magnitude, in quanta, encoded by the exponent and significand fields. */
  function Val(f: Format, abs: nat): nat
  {
    var e, s := Shr(abs, f.p), Low(abs, f.p);
    if e == 0 then s else Lsh(Pow2(f.p) + s, e - 1)
  }

  function SignedVal(f: Format, x: nat): int
  {
    if Negative(f, x) then 0 - Val(f, Abs(f, x)) else Val(f, Abs(f, x))
  }

  function Distance(x: int, y: int): nat { if x < y then y - x else x - y }

  /** abs encodes a magnitude, the infinity included. */
  ghost predicate Encoding(f: Format, abs: nat) { abs <= f.Inf() }

  /** abs encodes the magnitude nearest to n/d, ties going to the even encoding. */
  ghost predicate Nearest(f: Format, abs: nat, n: nat, d: nat)
  {
    && Encoding(f, abs)
    && forall s: nat {:trigger Encoding(f, s)} | Encoding(f, s) && s != abs ::
         var mine, other := Distance(Val(f, abs) * d, n), Distance(Val(f, s) * d, n);
         mine < other || (mine == other && abs % 2 == 0)
  }

  // ----- The value grows with the encoding

  lemma {:induction false} ValFields(f: Format, e: nat, s: nat)
    requires s < Pow2(f.p)
    ensures Val(f, Lsh(e, f.p) + s) == if e == 0 then s else Lsh(Pow2(f.p) + s, e - 1)
  {
    SplitUnique(e, s, f.p);
  }

  lemma {:induction false} Binades(f: Format, e: nat, k: nat)
    ensures Lsh(e + k, f.p) == Lsh(e, f.p) + Lsh(k, f.p)
    ensures Lsh(0, f.p) == 0 && Lsh(1, f.p) == Pow2(f.p) && Lsh(2, f.p) == 2 * Pow2(f.p)
  {
    LshSum(e, k, f.p);
    LshZero(f.p);
    LshPow2(0, f.p);
    LshSum(1, 1, f.p);
  }

  /** A significand of p+1 digits in a normal binade packs below infinity. */
  lemma {:induction false} BinadeFits(f: Format, e: nat, q: nat)
    requires 1 <= e < f.MaxExponent() && q < 2 * Pow2(f.p)
    ensures Lsh(e - 1, f.p) + q < f.Inf()
  {
    Binades(f, e - 1, 2);
    LshMono(e + 1, f.MaxExponent(), f.p);
  }

  /** A significand of p+1 digits (or fewer in the lowest binade) packed above exponent e.
      A significand that has just carried into one more digit packs correctly too. */
  lemma {:induction false} ValPack(f: Format, e: nat, sig: nat)
    requires sig <= 2 * Pow2(f.p)
    requires e == 0 || sig >= Pow2(f.p)
    ensures Val(f, Lsh(e, f.p) + sig) == Lsh(sig, e)
  {
    var m := Pow2(f.p);
    Binades(f, e, 1);
    Binades(f, e, 2);
    if sig < m {
      ValFields(f, 0, sig);
    } else if sig < 2 * m {
      ValFields(f, e + 1, sig - m);
    } else {
      ValFields(f, e + 2, 0);
      LshSum(m, m, e);
    }
  }

  /** Every encoding is a packed significand. */
  lemma {:induction false} Unpack(f: Format, r: nat) returns (e: nat, sig: nat)
    ensures r == Lsh(e, f.p) + sig && sig < 2 * Pow2(f.p)
    ensures e == 0 || sig >= Pow2(f.p)
    ensures Val(f, r) == Lsh(sig, e)
  {
    Split(r, f.p);
    if Shr(r, f.p) == 0 {
      e, sig := 0, Low(r, f.p);
      LshZero(f.p);
    } else {
      e, sig := Shr(r, f.p) - 1, Pow2(f.p) + Low(r, f.p);
      Binades(f, e, 1);
    }
    ValPack(f, e, sig);
  }

  lemma {:induction false} ValStep(f: Format, r: nat)
    ensures Val(f, r) < Val(f, r + 1)
  {
    var e, sig := Unpack(f, r);
    ValPack(f, e, sig + 1);
    LshMono(sig, sig + 1, e);
  }

  lemma {:induction false} ValMono(f: Format, r: nat, s: nat)
    requires r <= s
    ensures Val(f, r) <= Val(f, s)
    ensures r < s ==> Val(f, r) < Val(f, s)
  {
    if r < s {
      ValMono(f, r, s - 1);
      ValStep(f, s - 1);
    }
  }

  // ----- Deciding a rounding from its two neighbours

  /** Which of two adjacent encodings the roundTiesToEven rule picks, the fraction between them
      being compared with one half. */
  function TieEven(r: nat, fraction: int, half: int): nat
  {
    if fraction < half then r else if fraction > half then r + 1 else r + r % 2
  }

  lemma {:induction false} TieEvenAgrees(r: nat, a: int, b: int, x: int, y: int)
    requires (a < b <==> x < y) && (a > b <==> x > y)
    ensures TieEven(r, a, b) == TieEven(r, x, y)
  {
  }

  lemma {:induction false} NearestBelow(f: Format, r: nat, n: nat, d: nat)
    requires d > 0 && r < f.Inf()
    requires Val(f, r) * d <= n
    requires 2 * n <= Val(f, r) * d + Val(f, r + 1) * d
    requires r % 2 == 0 || 2 * n < Val(f, r) * d + Val(f, r + 1) * d
    ensures Nearest(f, r, n, d)
  {
    forall s: nat | Encoding(f, s) && s != r
      ensures s < r ==> Val(f, s) * d < Val(f, r) * d
      ensures s > r ==> Val(f, r + 1) * d <= Val(f, s) * d
    {
      if s < r {
        ValMono(f, s, r);
        MulLe(Val(f, s), Val(f, r), d);
      } else {
        ValMono(f, r + 1, s);
        MulLe(Val(f, r + 1), Val(f, s), d);
      }
    }
  }

  lemma {:induction false} NearestAbove(f: Format, r: nat, n: nat, d: nat)
    requires d > 0 && r < f.Inf()
    requires n <= Val(f, r + 1) * d || r + 1 == f.Inf()
    requires 2 * n >= Val(f, r) * d + Val(f, r + 1) * d
    requires r % 2 == 1 || 2 * n > Val(f, r) * d + Val(f, r + 1) * d
    ensures Nearest(f, r + 1, n, d)
  {
    ValStep(f, r);
    MulLe(Val(f, r), Val(f, r + 1), d);
    forall s: nat | Encoding(f, s) && s != r + 1
      ensures s <= r ==> Val(f, s) * d <= Val(f, r) * d
      ensures s > r ==> Val(f, r + 1) * d < Val(f, s) * d
    {
      if s <= r {
        ValMono(f, s, r);
        MulLe(Val(f, s), Val(f, r), d);
      } else {
        ValMono(f, r + 1, s);
        MulLe(Val(f, r + 1), Val(f, s), d);
      }
    }
  }

  lemma {:induction false} NearestBetween(f: Format, r: nat, n: nat, d: nat, half: nat)
    requires d > 0 && r < f.Inf()
    requires Val(f, r) * d <= n <= Val(f, r + 1) * d
    requires half == Val(f, r) * d + Val(f, r + 1) * d
    ensures Nearest(f, TieEven(r, 2 * n, half), n, d)
  {
    if 2 * n < half || (2 * n == half && r % 2 == 0) {
      NearestBelow(f, r, n, d);
    } else {
      NearestAbove(f, r, n, d);
    }
  }

  /** A value n/d between q and q+1 units of the binade with exponent e. */
  lemma {:induction false} NearestInBinade(f: Format, e: nat, q: nat, n: nat, d: nat)
    requires d > 0
    requires q < 2 * Pow2(f.p) && (e == 0 || q >= Pow2(f.p))
    requires Lsh(e, f.p) + q < f.Inf()
    requires Lsh(q, e) * d <= n <= Lsh(q + 1, e) * d
    ensures Nearest(f, TieEven(Lsh(e, f.p) + q, 2 * n, Lsh(q, e) * d + Lsh(q + 1, e) * d), n, d)
  {
    ValPack(f, e, q);
    ValPack(f, e, q + 1);
    NearestBetween(f, Lsh(e, f.p) + q, n, d, Lsh(q, e) * d + Lsh(q + 1, e) * d);
  }

  lemma {:induction false} InfFacts(f: Format)
    requires f.Valid()
    ensures f.Inf() % 2 == 0 && f.MaxExponent() >= 15
    ensures Pow2(f.p) < f.Inf() && f.Inf() + Pow2(f.p) == f.SignBit()
    ensures Val(f, f.Inf()) == Pow2(f.p + f.MaxExponent() - 1)
  {
    Pow2Mono(4, f.eb);
    assert Pow2(4) == 2 * Pow2(3) && Pow2(3) == 2 * Pow2(2) && Pow2(2) == 2 * Pow2(1);
    LshEven(f.MaxExponent(), f.p);
    var e := f.MaxExponent() - 1;
    Binades(f, e, 1);
    Binades(f, f.MaxExponent(), 1);
    LshPow2(f.eb, f.p);
    LshMono(1, f.MaxExponent(), f.p);
    ValPack(f, e, Pow2(f.p));
    LshPow2(f.p, e);
  }

  /** Magnitudes of 2^(emax+1) and more overflow. */
  lemma {:induction false} NearestInf(f: Format, n: nat, d: nat)
    requires f.Valid() && d > 0
    requires Val(f, f.Inf()) * d <= n
    ensures Nearest(f, f.Inf(), n, d)
  {
    var r := f.Inf() - 1;
    InfFacts(f);
    ValStep(f, r);
    MulLe(Val(f, r), Val(f, r + 1), d);
    NearestAbove(f, r, n, d);
  }

  lemma {:induction false} NearestZero(f: Format, n: nat, d: nat)
    requires f.Valid() && d > 0 && 2 * n <= d
    ensures Nearest(f, 0, n, d)
  {
    InfFacts(f);
    LshZero(f.p);
    ValPack(f, 0, 0);
    ValPack(f, 0, 1);
    NearestBelow(f, 0, n, d);
  }

  /** Rounding leaves a representable magnitude alone. */
  lemma {:induction false} NearestExact(f: Format, abs: nat)
    requires abs < f.Inf()
    ensures Nearest(f, abs, Val(f, abs), 1)
  {
    ValStep(f, abs);
    NearestBelow(f, abs, Val(f, abs), 1);
  }

  /** roundTiesToEven is a function: no two encodings are both nearest. */
  lemma {:induction false} NearestUnique(f: Format, r: nat, s: nat, n: nat, d: nat)
    requires d > 0
    requires Nearest(f, r, n, d) && Nearest(f, s, n, d)
    ensures r == s
  {
    if r < s {
      NotBothNearest(f, r, s, n, d);
    } else if s < r {
      NotBothNearest(f, s, r, n, d);
    }
  }

  /** Two even encodings have an odd one between them, which would be nearer than both. */
  lemma {:induction false} NotBothNearest(f: Format, r: nat, s: nat, n: nat, d: nat)
    requires d > 0 && r < s
    ensures !(Nearest(f, r, n, d) && Nearest(f, s, n, d))
  {
    ValMono(f, r, r + 1);
    ValMono(f, r + 1, s);
    MulLe(Val(f, r), Val(f, r + 1), d);
    MulLe(Val(f, r + 1), Val(f, s), d);
    assert Encoding(f, s) ==> Encoding(f, r + 1);
  }
}
