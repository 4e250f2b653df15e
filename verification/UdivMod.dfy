/** lib/udivmoddi4.c and lib/udivmodti4.c: unsigned division of double words.

w is the width of a half: 32 for __udivmoddi4, 64 for __udivmodti4.  The code works on halves, with
shifts that may reach past the width of a half; their results are masked away. */
module UdivMod {
  import opened Bits
  import opened ShiftSubtract
  import opened WideWords

  /** udwords of lib/int_types.h. */
  datatype Words = Words(high: nat, low: nat)

  function All(w: nat, x: Words): nat { Lsh(x.high, w) + x.low }
  predicate Fits(w: nat, x: Words) { x.high < Pow2(w) && x.low < Pow2(w) }
  function Halves(w: nat, x: nat): Words { Words(Shr(x, w), Low(x, w)) }

  lemma {:induction false} HalvesAll(w: nat, x: nat)
    requires x < Pow2(2 * w)
    ensures All(w, Halves(w, x)) == x && Fits(w, Halves(w, x))
  {
    Split(x, w);
    LshPow2(w, w);
    ShrLt(x, w, Pow2(w));
  }

  lemma {:induction false} AllFits(w: nat, x: Words)
    requires Fits(w, x)
    ensures All(w, x) < Pow2(2 * w) && Halves(w, All(w, x)) == x
    ensures x.high == 0 ==> All(w, x) == x.low
    ensures x.high > 0 ==> BitLen(All(w, x)) == w + BitLen(x.high)
  {
    hide Lsh, BitLen, Shr, Low;
    SplitUnique(x.high, x.low, w);
    LshMono(x.high, Pow2(w), w);
    LshPow2(w, w);
    LshZero(w);
    if x.high > 0 {
      var k := BitLen(x.high);
      BitLenBounds(x.high);
      LshMono(Pow2(k - 1), x.high, w);
      LshPow2(k - 1, w);
      LshMono(x.high, Pow2(k), w);
      LshPow2(k, w);
      BitLenUnique(All(w, x), w + k);
    }
  }

  // ----- Powers of two

  lemma {:induction false} CtzRange(w: nat, x: nat)
    requires 0 < x < Pow2(w) && And(x, x - 1) == 0
    ensures Ctz(x) < w && x == Pow2(Ctz(x)) && And(x, 0) == 0
    ensures forall y: nat :: And(y, x - 1) == Low(y, Ctz(x))
  {
    PowerTest(x);
    if Ctz(x) >= w { Pow2Mono(w, Ctz(x)); }
    forall y: nat ensures And(y, x - 1) == Low(y, Ctz(x)) { AndMask(y, Ctz(x)); }
  }

  // ----- Setting up q:r = n, shifted left so that r has one bit less than d

  /** What the shifts and masks have to produce. */
  ghost predicate IsSetUp(w: nat, n: Words, sr: nat, q: Words, r: Words)
    requires sr <= 2 * w
  {
    && Fits(w, q) && Fits(w, r)
    && All(w, q) == Lsh(Low(All(w, n), sr), 2 * w - sr)
    && All(w, r) == Shr(All(w, n), sr)
  }

  lemma {:induction false} SetUpShort(w: nat, n: Words, sr: nat)
    requires Fits(w, n) && 1 <= sr < w
    ensures IsSetUp(w, n, sr, Words(Low(Lsh(n.low, w - sr), w), 0),
      Words(Shr(n.high, sr), Or(Low(Lsh(n.high, w - sr), w), Shr(n.low, sr))))
  {
    SetUpQuotient(w, n, sr);
    WideSplit(w, n.high, n.low, sr);
    LowLsh(n.high, w - sr, w);
    OrFields(Low(n.high, sr), Shr(n.low, sr), w - sr);
    ShrLe(n.high, sr);
  }

  lemma {:induction false} SetUpQuotient(w: nat, n: Words, sr: nat)
    requires Fits(w, n) && 1 <= sr <= w
    ensures Low(Lsh(n.low, w - sr), w) < Pow2(w)
    ensures All(w, Words(Low(Lsh(n.low, w - sr), w), 0)) == Lsh(Low(All(w, n), sr), 2 * w - sr)
  {
    Split(Lsh(n.low, w - sr), w);
    LowLsh(n.low, w - sr, w);
    LshLsh(Low(n.low, sr), w - sr, w);
    SplitUnique(n.high, n.low, w);
    LowLow(All(w, n), sr, w - sr);
  }

  lemma {:induction false} SetUpWord(w: nat, n: Words)
    requires Fits(w, n) && w >= 1
    ensures IsSetUp(w, n, w, Words(n.low, 0), Words(0, n.high))
  {
    SplitUnique(n.high, n.low, w);
    LshZero(w);
    Pow2Mono(0, w);
  }

  lemma {:induction false} SetUpLong(w: nat, n: Words, j: nat)
    requires Fits(w, n) && 1 <= j < w
    ensures IsSetUp(w, n, w + j,
      Words(Or(Low(Lsh(n.high, w - j), w), Shr(n.low, j)), Low(Lsh(n.low, w - j), w)),
      Words(0, Shr(n.high, j)))
  {
    LongRemainder(w, n, j);
    LongQuotient(w, n, j);
  }

  lemma {:induction false} LongRemainder(w: nat, n: Words, j: nat)
    requires Fits(w, n) && 1 <= j < w
    ensures All(w, Words(0, Shr(n.high, j))) == Shr(All(w, n), w + j)
    ensures Shr(n.high, j) < Pow2(w)
  {
    LongSplit(w, n.high, n.low, j);
    LshZero(w);
    ShrLe(n.high, j);
  }

  lemma {:induction false} LongQuotient(w: nat, n: Words, j: nat)
    requires Fits(w, n) && 1 <= j < w
    ensures var q := Words(Or(Low(Lsh(n.high, w - j), w), Shr(n.low, j)), Low(Lsh(n.low, w - j), w));
      Fits(w, q) && All(w, q) == Lsh(Low(All(w, n), w + j), w - j)
  {
    hide Lsh, Shr, Low, Or;
    var h := Low(n.high, j);
    LowLsh(n.high, w - j, w);
    Split(n.high, j);
    LshMono(h, Pow2(j), w - j);
    LshPow2(j, w - j);
    SplitSmall(Lsh(h, w - j), w);
    WideLeft(w, h, n.low, w - j);
    Split(Lsh(n.low, w - j), w);
    LowHigh(w, n, j);
  }

  lemma {:induction false} LowHigh(w: nat, n: Words, j: nat)
    requires Fits(w, n)
    ensures Low(All(w, n), w + j) == Lsh(Low(n.high, j), w) + n.low
  {
    SplitUnique(n.high, n.low, w);
    LowLow(All(w, n), w, j);
    Split(Low(All(w, n), w + j), w);
  }

  /** lib/udivmoddi4.c:169-175. */
  method SetUpMaskedQuotient(w: nat, n: Words, sr: nat) returns (q: Words)
    requires Fits(w, n) && 1 <= sr < 2 * w
    ensures sr < w ==> q == Words(Low(Lsh(n.low, w - sr), w), 0)
    ensures sr == w ==> q == Words(n.low, 0)
    ensures sr > w ==> q == Words(Or(Low(Lsh(n.high, 2 * w - sr), w), Shr(n.low, sr - w)), Low(Lsh(n.low, 2 * w - sr), w))
  {
    var a := ShiftLeft(w, n.low, 2 * w - sr);
    var b := ShiftLeft(w, n.low, w - sr);
    var c := ShiftLeft(w, n.high, 2 * w - sr);
    var d := ShiftRight(w, n.low, sr - w);
    Masked(w, a, w - sr < 0);
    Masked(w, b, sr - w - 1 < 0);
    OrBound(c, d, w);
    Masked(w, Or(c, d), w - sr < 0);
    SplitSmall(n.low, w);
    q := Words(Or(And(b, SignMask(w, sr - w - 1 < 0)), And(Or(c, d), SignMask(w, w - sr < 0))),
      And(a, SignMask(w, w - sr < 0)));
  }

  /** lib/udivmoddi4.c:176-182. */
  method SetUpMaskedRemainder(w: nat, n: Words, sr: nat) returns (r: Words)
    requires Fits(w, n) && 1 <= sr < 2 * w
    ensures sr < w ==> r == Words(Shr(n.high, sr), Or(Low(Lsh(n.high, w - sr), w), Shr(n.low, sr)))
    ensures sr == w ==> r == Words(0, n.high)
    ensures sr > w ==> r == Words(0, Shr(n.high, sr - w))
  {
    var a := ShiftRight(w, n.high, sr);
    var b := ShiftRight(w, n.high, sr - w);
    var c := ShiftLeft(w, n.high, w - sr);
    var d := ShiftRight(w, n.low, sr);
    Masked(w, a, sr - w < 0);
    Masked(w, b, w - sr - 1 < 0);
    OrBound(c, d, w);
    Masked(w, Or(c, d), sr - w < 0);
    r := Words(And(a, SignMask(w, sr - w < 0)),
      Or(And(b, SignMask(w, w - sr - 1 < 0)), And(Or(c, d), SignMask(w, sr - w < 0))));
  }

  /** Dividend K X, divisor 0 K: any shift count up to the double width, chosen without a branch. */
  method SetUpMasked(w: nat, n: Words, sr: nat) returns (q: Words, r: Words)
    requires Fits(w, n) && 1 <= sr < 2 * w
    ensures IsSetUp(w, n, sr, q, r)
  {
    q := SetUpMaskedQuotient(w, n, sr);
    r := SetUpMaskedRemainder(w, n, sr);
    if sr < w {
      SetUpShort(w, n, sr);
    } else if sr == w {
      SetUpWord(w, n);
    } else {
      SetUpLong(w, n, sr - w);
    }
  }

  /** Dividend K X, divisor K K (lib/udivmoddi4.c:201-219): the count may be a whole word. */
  method SetUpHigh(w: nat, n: Words, sr: nat) returns (q: Words, r: Words)
    requires Fits(w, n) && 1 <= sr <= w
    ensures IsSetUp(w, n, sr, q, r)
  {
    var a := ShiftLeft(w, n.low, w - sr);
    q := Words(a, 0);
    var b := ShiftRight(w, n.high, sr);
    var c := ShiftLeft(w, n.high, w - sr);
    var d := ShiftRight(w, n.low, sr);
    Masked(w, b, sr - w < 0);
    Masked(w, d, sr - w < 0);
    r := Words(And(b, SignMask(w, sr - w < 0)), Or(c, And(d, SignMask(w, sr - w < 0))));
    if sr < w {
      SetUpShort(w, n, sr);
    } else {
      SetUpWord(w, n);
      SplitSmall(n.low, w);
      SplitSmall(n.high, w);
      assert Or(n.high, 0) == n.high;
    }
  }

  /** Dividend K K, divisor K 0 (lib/udivmoddi4.c:113-117). */
  method SetUpLow(w: nat, n: Words, sr: nat) returns (q: Words, r: Words)
    requires Fits(w, n) && 1 <= sr < w
    ensures IsSetUp(w, n, sr, q, r)
  {
    var a := ShiftLeft(w, n.low, w - sr);
    q := Words(a, 0);
    var b := ShiftRight(w, n.high, sr);
    var c := ShiftLeft(w, n.high, w - sr);
    var d := ShiftRight(w, n.low, sr);
    r := Words(b, Or(c, d));
    SetUpShort(w, n, sr);
  }

  // ----- The loop

  lemma {:induction false} TopBit(w: nat, x: nat)
    requires w >= 1 && x < Pow2(w)
    ensures Shr(x, w - 1) <= 1
    ensures Shr(x, w - 1) == 1 <==> 2 * x >= Pow2(w)
  {
    SplitSmall(x, w - 1);
  }

  /** Two words shifted left as one. */
  lemma {:induction false} ShiftWords(w: nat, x: Words, bit: nat)
    requires w >= 1 && Fits(w, x) && bit <= 1
    ensures var y := Words(2 * Low(x.high, w - 1) + Shr(x.low, w - 1), 2 * Low(x.low, w - 1) + bit);
      All(w, y) == 2 * Low(All(w, x), 2 * w - 1) + bit
    ensures Shr(All(w, x), 2 * w - 1) == Shr(x.high, w - 1)
  {
    SplitUnique(x.high, x.low, w);
    ShrShr(All(w, x), w, w - 1);
    LowHigh(w, x, w - 1);
    ShiftJoin(w, Low(x.high, w - 1), x.low);
  }

  lemma {:induction false} ShiftJoin(w: nat, h: nat, low: nat)
    requires w >= 1
    ensures Lsh(2 * h + Shr(low, w - 1), w) + 2 * Low(low, w - 1) == 2 * (Lsh(h, w) + low)
  {
    LshSum(2 * h, Shr(low, w - 1), w);
    LshSum(h, h, w);
    Split(low, w - 1);
    assert Lsh(Shr(low, w - 1), w) == 2 * Lsh(Shr(low, w - 1), w - 1);
  }

  /** One word pair shifted: both halves of the formula the loop uses for r and for q. */
  method ShiftOne(w: nat, x: Words, bit: nat) returns (y: Words)
    requires w >= 1 && Fits(w, x) && bit <= 1
    ensures Fits(w, y) && All(w, y) == 2 * Low(All(w, x), 2 * w - 1) + bit
  {
    TopBit(w, x.low);
    ShiftWord(w, x.high, Shr(x.low, w - 1));
    ShiftWord(w, x.low, bit);
    ShiftWords(w, x, bit);
    y := Words(Or(Low(Lsh(x.high, 1), w), Shr(x.low, w - 1)), Or(Low(Lsh(x.low, 1), w), bit));
  }

  /** `r:q = ((r:q) << 1) | carry`. */
  method ShiftPair(w: nat, q0: Words, r0: Words, carry: nat) returns (q: Words, r: Words)
    requires w >= 1 && Fits(w, q0) && Fits(w, r0) && carry <= 1
    ensures Fits(w, q) && Fits(w, r)
    ensures All(w, r) == 2 * Low(All(w, r0), 2 * w - 1) + Shr(All(w, q0), 2 * w - 1)
    ensures All(w, q) == 2 * Low(All(w, q0), 2 * w - 1) + carry
  {
    TopBit(w, q0.high);
    ShiftWords(w, q0, carry);
    r := ShiftOne(w, r0, Shr(q0.high, w - 1));
    q := ShiftOne(w, q0, carry);
  }

  /** One turn, no bit of the remainder being shifted out. */
  lemma {:induction false} TurnWhole(w: nat, n: nat, d: nat, sr: nat, q: nat, r: nat, carry: nat)
    requires Dividing(w, n, d, sr, q, r, carry) && sr > 0
    ensures carry <= 1 && d < Pow2(w) && Low(r, w - 1) == r
    ensures var r1, q1 := 2 * r + Shr(q, w - 1), 2 * Low(q, w - 1) + carry;
      && r1 < Pow2(w) && r1 < 2 * d && (2 * d <= Pow2(w) || 2 * r1 >= Pow2(w))
      && Dividing(w, n, d, sr - 1, q1, if r1 >= d then r1 - d else r1, if r1 >= d then 1 else 0)
  {
    hide Lsh, Shr, Low;
    Turn(w, n, d, sr, q, r, carry);
    SplitSmall(r, w - 1);
  }

  /** lib/udivmoddi4.c:231-245. */
  method LoopTurn(w: nat, ghost n: nat, d: nat, ghost sr: nat, q0: Words, r0: Words, carry0: nat)
    returns (q: Words, r: Words, carry: nat)
    requires w >= 1 && Fits(w, q0) && Fits(w, r0) && sr > 0
    requires Dividing(2 * w, n, d, sr, All(w, q0), All(w, r0), carry0)
    ensures Fits(w, q) && Fits(w, r)
    ensures Dividing(2 * w, n, d, sr - 1, All(w, q), All(w, r), carry)
  {
    hide Dividing, Lsh, Shr, Low, Pow2;
    TurnWhole(2 * w, n, d, sr, All(w, q0), All(w, r0), carry0);
    q, r := ShiftPair(w, q0, r0, carry0);
    var rest;
    rest, carry := Subtract(2 * w, d, All(w, r));
    HalvesAll(w, rest);
    r := Halves(w, rest);
  }

  /** lib/udivmoddi4.c:228-250. */
  method Loop(w: nat, n: Words, d: Words, q0: Words, r0: Words, sr0: nat) returns (quotient: nat, remainder: nat)
    requires w >= 1 && Fits(w, n) && Fits(w, d) && sr0 <= 2 * w && IsSetUp(w, n, sr0, q0, r0)
    requires Dividing(2 * w, All(w, n), All(w, d), sr0, All(w, q0), All(w, r0), 0)
    ensures All(w, d) > 0
    ensures quotient == All(w, n) / All(w, d) && remainder == All(w, n) % All(w, d)
  {
    var q, r, carry, sr := q0, r0, 0, sr0;
    while sr > 0
      invariant Fits(w, q) && Fits(w, r)
      invariant Dividing(2 * w, All(w, n), All(w, d), sr, All(w, q), All(w, r), carry)
    {
      q, r, carry := LoopTurn(w, All(w, n), All(w, d), sr, q, r, carry);
      sr := sr - 1;
    }
    Finish(2 * w, All(w, n), All(w, d), All(w, q), All(w, r), carry);
    ShiftOnce(2 * w, All(w, q), carry);
    quotient := Or(Low(Lsh(All(w, q), 1), 2 * w), carry);
    remainder := All(w, r);
  }

  lemma {:induction false} ShiftOnce(w: nat, q: nat, carry: nat)
    requires w >= 1 && 2 * q + carry < Pow2(w) && carry <= 1
    ensures Or(Low(Lsh(q, 1), w), carry) == 2 * q + carry
  {
    ShiftWord(w, q, carry);
  }

  // ----- Special cases

  /** Dividend K 0, divisor K 0. */
  lemma {:induction false} HighOnly(w: nat, n: nat, d: nat)
    requires d > 0
    ensures Lsh(d, w) > 0
    ensures Lsh(n, w) / Lsh(d, w) == n / d && Lsh(n, w) % Lsh(d, w) == Lsh(n % d, w)
  {
    DivMod(n, d);
    LshSum(n / d * d, n % d, w);
    LshMul(n / d, 0, d, w);
    LshMono(n % d, d, w);
    LshGe(d, w);
    DivModUnique(Lsh(n, w), Lsh(d, w), n / d, Lsh(n % d, w));
  }

  /** A divisor that is a power of two times a word. */
  lemma {:induction false} PowerDivisor(n: nat, c: nat)
    ensures Shr(n, c) == n / Pow2(c) && Low(n, c) == n % Pow2(c)
  {
    ShiftMeaning(n, c);
  }

  lemma {:induction false} HighPower(w: nat, n: Words, c: nat)
    requires Fits(w, n)
    ensures Lsh(Pow2(c), w) > 0
    ensures Shr(n.high, c) == All(w, n) / Lsh(Pow2(c), w)
    ensures Lsh(Low(n.high, c), w) + n.low == All(w, n) % Lsh(Pow2(c), w)
  {
    SplitUnique(n.high, n.low, w);
    ShrShr(All(w, n), w, c);
    LowHigh(w, n, c);
    LshPow2(c, w);
    PowerDivisor(All(w, n), w + c);
  }

  lemma {:induction false} LowPower(w: nat, n: Words, c: nat)
    requires Fits(w, n) && 1 <= c < w
    ensures All(w, Words(Shr(n.high, c), Or(Low(Lsh(n.high, w - c), w), Shr(n.low, c)))) == All(w, n) / Pow2(c)
    ensures Low(n.low, c) == All(w, n) % Pow2(c)
  {
    SetUpShort(w, n, c);
    WideSplit(w, n.high, n.low, c);
    PowerDivisor(All(w, n), c);
  }

  lemma {:induction false} TooSmall(n: nat, d: nat)
    requires n < d
    ensures n / d == 0 && n % d == n
  {
    MulComm(0, d);
    DivModUnique(n, d, 0, n);
  }

  lemma {:induction false} SmallWords(w: nat, n: Words, d: Words)
    requires Fits(w, n) && Fits(w, d) && All(w, d) > 0 && n.high == 0
    ensures d.high == 0 ==> All(w, n) == n.low && All(w, d) == d.low
    ensures d.high > 0 ==> All(w, n) / All(w, d) == 0 && All(w, n) % All(w, d) == n.low
  {
    LshZero(w);
    if d.high > 0 {
      LshMono(1, d.high, w);
      LshPow2(0, w);
      TooSmall(n.low, All(w, d));
    }
  }

  /** The dividend fits a word. */
  method SmallDividend(w: nat, n: Words, d: Words) returns (quotient: nat, remainder: nat)
    requires w >= 1 && Fits(w, n) && Fits(w, d) && All(w, d) > 0 && n.high == 0
    ensures quotient == All(w, n) / All(w, d) && remainder == All(w, n) % All(w, d)
  {
    SmallWords(w, n, d);
    if d.high == 0 {
      quotient, remainder := n.low / d.low, n.low % d.low;
    } else {
      quotient, remainder := 0, n.low;
    }
  }

  lemma {:induction false} ShiftCount(w: nat, n: Words, d: Words)
    requires Fits(w, n) && Fits(w, d) && n.high > 0 && d.high > 0
    ensures Clz(w, d.high) - Clz(w, n.high) == BitLen(All(w, n)) - BitLen(All(w, d)) < w
    ensures Clz(w, d.high) < Clz(w, n.high) ==> All(w, n) < All(w, d)
  {
    AllFits(w, n);
    AllFits(w, d);
    BitLenLe(n.high, w);
    BitLenLe(d.high, w);
    BitLenLe(d.high, 0);
    if BitLen(All(w, n)) < BitLen(All(w, d)) {
      ShorterIsLess(All(w, n), All(w, d));
    }
  }

  lemma {:induction false} StartWords(w: nat, n: Words, d: Words, sr: nat, q: Words, r: Words)
    requires Fits(w, n) && Fits(w, d) && All(w, d) > 0 && 1 <= sr <= 2 * w
    requires sr == BitLen(All(w, n)) - BitLen(All(w, d)) + 1 && IsSetUp(w, n, sr, q, r)
    ensures Dividing(2 * w, All(w, n), All(w, d), sr, All(w, q), All(w, r), 0)
  {
    AllFits(w, n);
    AllFits(w, d);
    Start(2 * w, All(w, n), All(w, d), sr);
  }

  /** Divisor K 0 (lib/udivmoddi4.c:70-118). */
  method LowZeroDivisor(w: nat, n: Words, d: Words) returns (quotient: nat, remainder: nat)
    requires w >= 1 && Fits(w, n) && Fits(w, d) && n.high > 0 && d.high > 0 && d.low == 0
    ensures All(w, d) > 0
    ensures quotient == All(w, n) / All(w, d) && remainder == All(w, n) % All(w, d)
  {
    if n.low == 0 {
      HighOnly(w, n.high, d.high);
      quotient, remainder := n.high / d.high, All(w, Words(n.high % d.high, 0));
    } else if And(d.high, d.high - 1) == 0 {
      quotient, remainder := HighPowerDivisor(w, n, d);
    } else {
      quotient, remainder := HighDivisor(w, n, d, w - 2);
    }
  }

  /** d is a power of two. */
  method HighPowerDivisor(w: nat, n: Words, d: Words) returns (quotient: nat, remainder: nat)
    requires w >= 1 && Fits(w, n) && Fits(w, d) && d.high > 0 && d.low == 0 && And(d.high, d.high - 1) == 0
    ensures All(w, d) > 0
    ensures quotient == All(w, n) / All(w, d) && remainder == All(w, n) % All(w, d)
  {
    CtzRange(w, d.high);
    HighPower(w, n, Ctz(d.high));
    quotient := ShiftRight(w, n.high, Ctz(d.high));
    remainder := All(w, Words(And(n.high, d.high - 1), n.low));
  }

  /** A high half that is 1 is a power of two. */
  lemma {:induction false} NotOne(w: nat, x: nat)
    requires w >= 1 && 0 < x < Pow2(w) && And(x, x - 1) != 0
    ensures Clz(w, x) <= w - 2
  {
    BitLenLe(x, 1);
    BitLenLe(x, 0);
  }

  /** The two cases whose divisor has a high half: largest is the largest count below 2^31 that
      can occur; sr is unsigned, so a negative count is larger. */
  method HighDivisor(w: nat, n: Words, d: Words, largest: int) returns (quotient: nat, remainder: nat)
    requires w >= 1 && Fits(w, n) && Fits(w, d) && n.high > 0 && d.high > 0
    requires largest == w - 1 || (largest == w - 2 && And(d.high, d.high - 1) != 0)
    ensures All(w, d) > 0
    ensures quotient == All(w, n) / All(w, d) && remainder == All(w, n) % All(w, d)
  {
    LshGe(d.high, w);
    ShiftCount(w, n, d);
    if largest == w - 2 { NotOne(w, d.high); }
    var count := Clz(w, d.high) - Clz(w, n.high);
    if count < 0 || count > largest {
      TooSmall(All(w, n), All(w, d));
      return 0, All(w, n);
    }
    var sr: nat := count + 1;
    var q, r;
    if largest == w - 2 {
      q, r := SetUpLow(w, n, sr);
    } else {
      q, r := SetUpHigh(w, n, sr);
    }
    StartWords(w, n, d, sr, q, r);
    quotient, remainder := Loop(w, n, d, q, r, sr);
  }

  /** Divisor 0 K (lib/udivmoddi4.c:121-183). */
  method WordDivisor(w: nat, n: Words, d: Words) returns (quotient: nat, remainder: nat)
    requires w >= 1 && Fits(w, n) && Fits(w, d) && n.high > 0 && d.high == 0 && d.low > 0
    ensures All(w, d) > 0
    ensures quotient == All(w, n) / All(w, d) && remainder == All(w, n) % All(w, d)
  {
    LshZero(w);
    if And(d.low, d.low - 1) == 0 {
      // d is a power of two
      CtzRange(w, d.low);
      remainder := And(n.low, d.low - 1);
      if d.low == 1 {
        return All(w, n), remainder;
      }
      var sr := Ctz(d.low);
      LowPower(w, n, sr);
      var a := ShiftRight(w, n.high, sr);
      var b := ShiftLeft(w, n.high, w - sr);
      var c := ShiftRight(w, n.low, sr);
      return All(w, Words(a, Or(b, c))), remainder;
    }
    var sr := 1 + w + Clz(w, d.low) - Clz(w, n.high);
    WordCount(w, n, d);
    var q, r := SetUpMasked(w, n, sr);
    StartWords(w, n, d, sr, q, r);
    quotient, remainder := Loop(w, n, d, q, r, sr);
  }

  lemma {:induction false} WordCount(w: nat, n: Words, d: Words)
    requires w >= 1 && Fits(w, n) && Fits(w, d) && n.high > 0 && d.high == 0 && d.low > 0
    requires And(d.low, d.low - 1) != 0
    ensures var sr := 1 + w + Clz(w, d.low) - Clz(w, n.high);
      2 <= sr < 2 * w && sr == BitLen(All(w, n)) - BitLen(All(w, d)) + 1
  {
    LshZero(w);
    AllFits(w, n);
    NotOne(w, d.low);
    BitLenLe(n.high, w);
    BitLenLe(n.high, 0);
    BitLenLe(d.low, w);
  }

  /** __udivmoddi4 and __udivmodti4: division by zero is the caller's error. */
  method UdivMod(w: nat, a: nat, b: nat) returns (quotient: nat, remainder: nat)
    requires w >= 1 && a < Pow2(2 * w) && 0 < b < Pow2(2 * w)
    ensures quotient == a / b && remainder == a % b
  {
    HalvesAll(w, a);
    HalvesAll(w, b);
    LshZero(w);
    var n, d := Halves(w, a), Halves(w, b);
    if n.high == 0 {
      quotient, remainder := SmallDividend(w, n, d);
    } else if d.low == 0 {
      quotient, remainder := LowZeroDivisor(w, n, d);
    } else if d.high == 0 {
      quotient, remainder := WordDivisor(w, n, d);
    } else {
      quotient, remainder := HighDivisor(w, n, d, w - 1);
    }
  }

  method Udivmoddi4(a: nat, b: nat) returns (quotient: nat, remainder: nat)
    requires a < Pow2(64) && 0 < b < Pow2(64)
    ensures quotient == a / b && remainder == a % b
  {
    quotient, remainder := UdivMod(32, a, b);
  }

  method Udivmodti4(a: nat, b: nat) returns (quotient: nat, remainder: nat)
    requires a < Pow2(128) && 0 < b < Pow2(128)
    ensures quotient == a / b && remainder == a % b
  {
    quotient, remainder := UdivMod(64, a, b);
  }
}
