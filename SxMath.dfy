/**
 * Scalar helpers of SectorFW/Math/sx_math.h: clamping, integer wrap, sign,
 * and the unsigned power-of-two and alignment helpers.
 *
 * The templates are instantiated as follows. Floating-point clamp and sign
 * are modelled on `real` (integers embed exactly). The unsigned bit helpers
 * (is_power_of_two, ceil_pow2, floor_pow2) work on 32-bit words. The
 * alignment helpers work on natural numbers below 2^32 with the wrap-around
 * of unsigned arithmetic written out and the bitwise AND defined digit by
 * digit, so that the mask form can be compared with the division form.
 */
module SxMath {
  import opened Arith


  // ---------------------------------------------------------------------
  // clamp, clamp01

  function Clamp(x: real, lo: real, hi: real): (r: real)
    ensures lo <= hi ==> lo <= r <= hi
    ensures lo <= x <= hi ==> r == x
    ensures lo <= hi && x < lo ==> r == lo
    ensures lo <= hi && hi < x ==> r == hi
  {
    if x < lo then lo else if x > hi then hi else x
  }

  function Clamp01(x: real): (r: real)
    ensures 0.0 <= r <= 1.0
    ensures 0.0 <= x <= 1.0 ==> r == x
  {
    Clamp(x, 0.0, 1.0)
  }

  // ---------------------------------------------------------------------
  // Integer wrap

  function Abs(x: int): nat { if x < 0 then -x else x }

  lemma DivNonNegative(x: nat, d: nat)
    requires d > 0
    ensures x / d >= 0
  {
  }

  /** C++ `a / b` on signed integers: the quotient truncated toward zero. */
  function TruncDiv(a: int, b: int): (q: int)
    requires b != 0
    ensures Abs(q) == Abs(a) / Abs(b)
    ensures (a < 0) == (b < 0) ==> q >= 0
    ensures (a < 0) != (b < 0) ==> q <= 0
  {
    DivNonNegative(Abs(a), Abs(b));
    var m := Abs(a) / Abs(b);
    if (a < 0) == (b < 0) then m else -m
  }

  /**
   * C++ `a % b` on signed integers: the remainder that goes with the
   * truncating quotient, so it takes the sign of `a`.
   */
  function TruncRem(a: int, b: int): (r: int)
    requires b != 0
    ensures Abs(r) < Abs(b)
    ensures a >= 0 ==> r >= 0
    ensures a < 0 ==> r <= 0
    ensures a == TruncDiv(a, b) * b + r
  {
    var n := Abs(b);
    var r := if a >= 0 then a % n else -((-a) % n);
    assert Abs(a) == Abs(a) / n * n + Abs(a) % n;
    assert TruncDiv(a, b) * b == (if a >= 0 then 1 else -1) * (Abs(a) / n * n);
    r
  }

  /** For a negative dividend, the Euclidean remainder is the truncating one shifted up by the divisor. */
  lemma EuclidFromTrunc(a: int, w: int)
    requires w > 0 && a < 0
    ensures a % w == (if TruncRem(a, w) < 0 then TruncRem(a, w) + w else 0)
  {
    var s := (-a) % w;
    var q := (-a) / w;
    assert TruncRem(a, w) == -s;
    assert -a == q * w + s;
    if s > 0 {
      DivModUnique(a, w, -q - 1, w - s);
    } else {
      DivModUnique(a, w, -q, 0);
    }
  }

  /**
   * Integer `wrap(x, lo, hi)`: for hi > lo the result is lo plus the
   * mathematical (never negative) remainder of x - lo by hi - lo, so it lies
   * in [lo, hi). The truncating C++ remainder is corrected by adding the width
   * when it is negative.
   */
  function Wrap(x: int, lo: int, hi: int): (r: int)
    requires hi != lo
    ensures lo < hi ==> lo <= r < hi && r == lo + (x - lo) % (hi - lo)
  {
    var w := hi - lo;
    var m := TruncRem(x - lo, w);
    var m' := if m < 0 then m + w else m;
    if lo < hi && x - lo < 0 then EuclidFromTrunc(x - lo, w); m' + lo else m' + lo
  }

  /**
   * Integer `wrap` when the common type of x, lo and hi is unsigned, of
   * `modulus` = 2^n values: the three arguments are converted to it, and
   * x - l and h - l are taken modulo 2^n before the remainder. A remainder is
   * never negative there, so no width is added back. The width h - l must not
   * be 0 as an unsigned value (the division would be undefined).
   */
  function WrapUnsigned(x: int, lo: int, hi: int, modulus: nat): (r: nat)
    requires modulus > 0 && (hi % modulus - lo % modulus) % modulus != 0
    ensures r < modulus
    ensures 0 <= lo < hi < modulus && 0 <= x < modulus ==>
      lo <= r < hi && r == lo + ((x - lo) % modulus) % (hi - lo)
  {
    var l, h := lo % modulus, hi % modulus;
    SmallMod(lo, modulus);
    SmallMod(hi, modulus);
    SmallMod(x, modulus);
    SmallMod(hi - lo, modulus);
    var w := (h - l) % modulus;
    var v := (x % modulus - l) % modulus;
    SmallMod(v % w + l, modulus);
    (v % w + l) % modulus
  }

  /** Below the modulus the remainder is the value itself. */
  lemma SmallMod(a: int, modulus: nat)
    requires modulus > 0
    ensures 0 <= a < modulus ==> a % modulus == a
  {
    if 0 <= a < modulus {
      DivModUnique(a, modulus, 0, a);
    }
  }

  /** With x at or above lo nothing wraps, and the unsigned wrap is the signed one. */
  lemma WrapUnsignedAgrees(x: int, lo: int, hi: int, modulus: nat)
    requires 0 <= lo <= x < modulus && lo < hi < modulus
    ensures WrapUnsigned(x, lo, hi, modulus) == Wrap(x, lo, hi)
  {
    assert (x - lo) % modulus == x - lo;
  }

  /**
   * Below lo the two differ: on 32-bit unsigned values wrap(3u, 5u, 10u) is 9
   * where the signed wrap gives 8, and wrap(-1, 0, 5u) is 0 where it gives 4.
   */
  lemma WrapUnsignedBelowLo()
    ensures WrapUnsigned(3, 5, 10, Word) == 9 && Wrap(3, 5, 10) == 8
    ensures WrapUnsigned(-1, 0, 5, Word) == 0 && Wrap(-1, 0, 5) == 4
  {
  }

  // ---------------------------------------------------------------------
  // sign

  /** `sign` for signed and floating-point types: (x > 0) - (x < 0). */
  function Sign(x: real): (r: int)
    ensures r == -1 || r == 0 || r == 1
    ensures r == 1 <==> x > 0.0
    ensures r == -1 <==> x < 0.0
  {
    (if x > 0.0 then 1 else 0) - (if x < 0.0 then 1 else 0)
  }

  /** `sign` for unsigned types. */
  function SignUnsigned(x: nat): (r: int)
    ensures r == 0 || r == 1
    ensures r == 0 <==> x == 0
  {
    if x == 0 then 0 else 1
  }

  // ---------------------------------------------------------------------
  // Powers of two on 32-bit words

  type u32 = bv32

  /** The word with only bit k set. */
  function Bit(k: u32): u32
    requires k < 32
  {
    1 << k
  }

  /** The word has exactly one bit set. */
  ghost predicate OneBit(x: u32)
  {
    exists k: u32 :: k < 32 && x == Bit(k)
  }

  predicate IsPowerOfTwo(x: u32)
  {
    x != 0 && x & (x - 1) == 0
  }

  lemma LowBitsClear(x: u32, k: u32)
    requires IsPowerOfTwo(x) && k < 32 && x & (Bit(k) - 1) == 0 && x != Bit(k)
    ensures k + 1 < 32 && x & (Bit(k + 1) - 1) == 0
  {
  }

  lemma OneBitIsPowerOfTwo(x: u32)
    requires OneBit(x)
    ensures IsPowerOfTwo(x)
  {
  }

  lemma PowerOfTwoIsOneBit(x: u32)
    requires IsPowerOfTwo(x)
    ensures OneBit(x)
  {
    var k: u32 := 0;
    while x != Bit(k)
      invariant k < 32
      invariant x & (Bit(k) - 1) == 0
      decreases 32 - k
    {
      LowBitsClear(x, k);
      k := k + 1;
    }
  }

  /** is_power_of_two(x) holds exactly when x has a single set bit. */
  lemma IsPowerOfTwoIffOneBit(x: u32)
    ensures IsPowerOfTwo(x) <==> OneBit(x)
  {
    if IsPowerOfTwo(x) {
      PowerOfTwoIsOneBit(x);
    }
    if OneBit(x) {
      OneBitIsPowerOfTwo(x);
    }
  }

  /** One step of the smear loop of ceil_pow2: OR the word with itself shifted right by s. */
  function SmearStep(v: u32, s: u32): u32
    requires s < 32
  {
    v | (v >> s)
  }

  /** The five smear steps written out. */
  function SmearAll(x: u32): u32
  {
    SmearStep(SmearStep(SmearStep(SmearStep(SmearStep(x, 1), 2), 4), 8), 16)
  }

  /** Smearing sets every bit below the highest set bit, so one more is the next power of two. */
  lemma SmearAllIsBelowPower(v: u32)
    requires 1 < v <= 0x8000_0000
    ensures IsPowerOfTwo(SmearAll(v - 1) + 1)
    ensures v <= SmearAll(v - 1) + 1
    ensures (SmearAll(v - 1) + 1) >> 1 < v
  {
  }

  lemma SmearAllOverflows(v: u32)
    requires 0x8000_0000 < v
    ensures SmearAll(v - 1) + 1 == 0
  {
  }

  /** ceil_pow2: the least power of two not below v; 1 for v <= 1; 0 when that power does not fit. */
  method CeilPow2(v0: u32) returns (r: u32)
    ensures v0 <= 1 ==> r == 1
    ensures 1 < v0 <= 0x8000_0000 ==> OneBit(r) && v0 <= r && r >> 1 < v0
    ensures 0x8000_0000 < v0 ==> r == 0
  {
    if v0 <= 1 {
      return 1;
    }
    var v := Smear(v0 - 1);
    r := v + 1;
    CeilPow2Result(v0, r);
  }

  /** The smear loop of ceil_pow2: v |= v >> s for s = 1, 2, 4, 8, 16. */
  method Smear(x: u32) returns (v: u32)
    ensures v == SmearAll(x)
  {
    v := x;
    // the word after each of the five smear steps
    ghost var x2 := SmearStep(x, 1);
    ghost var x4 := SmearStep(x2, 2);
    ghost var x8 := SmearStep(x4, 4);
    ghost var x16 := SmearStep(x8, 8);
    ghost var x32 := SmearStep(x16, 16);
    var s: u32 := 1;
    while s < 32
      invariant (s == 1 && v == x) || (s == 2 && v == x2) || (s == 4 && v == x4)
             || (s == 8 && v == x8) || (s == 16 && v == x16) || (s == 32 && v == x32)
      decreases 32 - s
    {
      v := SmearStep(v, s);
      s := s << 1;
    }
  }

  /** One more than the smeared v - 1 is the next power of two, or 0 past 2^31. */
  lemma CeilPow2Result(v0: u32, r: u32)
    requires 1 < v0 && r == SmearAll(v0 - 1) + 1
    ensures v0 <= 0x8000_0000 ==> OneBit(r) && v0 <= r && r >> 1 < v0
    ensures 0x8000_0000 < v0 ==> r == 0
  {
    if v0 <= 0x8000_0000 {
      SmearAllIsBelowPower(v0);
      PowerOfTwoIsOneBit(r);
    } else {
      SmearAllOverflows(v0);
    }
  }

  lemma ShiftOnceMore(v: u32, w: u32)
    requires w <= 31
    ensures (v >> 1) >> w == v >> (w + 1)
    ensures w > 0 ==> (v >> 1) >> (w - 1) == v >> w
  {
  }

  /**
   * std::bit_width: the number of bits needed to write v, that is the w with
   * v < 2^w and, for v != 0, 2^(w-1) <= v (stated with shifts).
   */
  function BitWidth(v: u32): (w: u32)
    ensures w <= 32
    ensures v >> w == 0
    ensures v == 0 <==> w == 0
    ensures v != 0 ==> v >> (w - 1) == 1
    decreases v
  {
    if v == 0 then 0 else
      var w' := BitWidth(v >> 1);
      ShiftOnceMore(v, w');
      1 + w'
  }

  function FloorPow2(v: u32): u32
  {
    if v == 0 then 0 else Bit(BitWidth(v) - 1)
  }

  lemma HighestBitBounds(v: u32, k: u32)
    requires k < 32 && v >> k == 1
    ensures Bit(k) <= v && v >> 1 < Bit(k)
  {
  }

  /** floor_pow2: the greatest power of two not above v, and 0 for 0. */
  lemma FloorPow2IsGreatestPowerBelow(v: u32)
    ensures v == 0 ==> FloorPow2(v) == 0
    ensures v != 0 ==> OneBit(FloorPow2(v)) && FloorPow2(v) <= v && v >> 1 < FloorPow2(v)
  {
    if v != 0 {
      HighestBitBounds(v, BitWidth(v) - 1);
    }
  }

  // ---------------------------------------------------------------------
  // Alignment on unsigned 32-bit values, as natural numbers below 2^32

  const Word: nat := 0x1_0000_0000

  function Pow2(k: nat): (p: nat)
    ensures p >= 1
  {
    if k == 0 then 1 else 2 * Pow2(k - 1)
  }

  /** Bitwise AND of two naturals, one binary digit at a time. */
  function BitAnd(x: nat, y: nat): nat
  {
    if x == 0 || y == 0 then 0 else 2 * BitAnd(x / 2, y / 2) + (if x % 2 == 1 && y % 2 == 1 then 1 else 0)
  }

  /** Unsigned `a - 1`, wrapping 0 to 2^32 - 1. */
  function Pred(a: nat): (r: nat)
    requires a < Word
    ensures r < Word
  {
    (a + Word - 1) % Word
  }

  function AlignUp(v: nat, a: nat): (r: nat)
    requires v < Word && a < Word
    ensures r < Word
  {
    if a == 0 then v else ((v + (a - 1)) % Word) / a * a
  }

  function AlignDown(v: nat, a: nat): (r: nat)
    requires v < Word && a < Word
    ensures r < Word
  {
    if a == 0 then v else v / a * a
  }

  function AlignUpPow2(v: nat, a: nat): nat
    requires v < Word && a < Word
  {
    BitAnd((v + Pred(a)) % Word, Word - 1 - Pred(a))
  }

  function AlignDownPow2(v: nat, a: nat): nat
    requires v < Word && a < Word
  {
    BitAnd(v, Word - 1 - Pred(a))
  }

  lemma DivMul(v: nat, a: nat)
    requires a > 0
    ensures v / a * a <= v < v / a * a + a
    ensures (v / a * a) % a == 0
  {
    DivModUnique(v / a * a, a, v / a, 0);
  }

  /** align_up: a multiple of a, not below v and less than a above it, when v + a - 1 does not wrap. */
  lemma AlignUpBounds(v: nat, a: nat)
    requires v < Word && 0 < a < Word && v + a - 1 < Word
    ensures AlignUp(v, a) % a == 0
    ensures v <= AlignUp(v, a) < v + a
  {
    DivMul(v + a - 1, a);
  }

  /** align_down: the greatest multiple of a not above v. */
  lemma AlignDownBounds(v: nat, a: nat)
    requires v < Word && 0 < a < Word
    ensures AlignDown(v, a) % a == 0
    ensures AlignDown(v, a) <= v < AlignDown(v, a) + a
  {
    DivMul(v, a);
  }

  lemma AlignZero(v: nat)
    requires v < Word
    ensures AlignUp(v, 0) == v && AlignDown(v, 0) == v
  {
  }

  lemma {:induction false} BitAndOnes(x: nat, w: nat)
    requires x < Pow2(w)
    ensures BitAnd(x, Pow2(w) - 1) == x
  {
    if x != 0 {
      assert w > 0;
      BitAndOnes(x / 2, w - 1);
      assert (Pow2(w) - 1) / 2 == Pow2(w - 1) - 1;
    }
  }

  lemma ModPow2Split(x: nat, k: nat)
    requires k > 0
    ensures x % Pow2(k) == x % 2 + 2 * ((x / 2) % Pow2(k - 1))
  {
    var p := Pow2(k - 1);
    var q, b := x / 2, x % 2;
    var m, r := q / p, q % p;
    assert x == m * (2 * p) + (2 * r + b);
    DivModUnique(x, 2 * p, m, 2 * r + b);
  }

  /** The w-bit mask with the low k bits clear. */
  function HighMask(w: nat, k: nat): nat
    requires k <= w
  {
    Pow2Monotone(k, w);
    Pow2(w) - Pow2(k)
  }

  lemma HighMaskHalf(w: nat, k: nat)
    requires 0 < k < w
    ensures HighMask(w, k) > 0
    ensures HighMask(w, k) / 2 == HighMask(w - 1, k - 1) && HighMask(w, k) % 2 == 0
  {
    Pow2Monotone(k + 1, w);
    var h := HighMask(w - 1, k - 1);
    assert HighMask(w, k) == 2 * h;
    DivModUnique(HighMask(w, k), 2, h, 0);
  }

  /** ANDing with the mask that clears the low k of w bits rounds down to a multiple of 2^k. */
  lemma {:induction false} BitAndClearLow(x: nat, w: nat, k: nat)
    requires k <= w && x < Pow2(w)
    ensures BitAnd(x, HighMask(w, k)) == x - x % Pow2(k)
  {
    if k == 0 {
      BitAndOnes(x, w);
    } else if k == w {
      DivModUnique(x, Pow2(k), 0, x);
    } else if x != 0 {
      var y := HighMask(w, k);
      HighMaskHalf(w, k);
      assert BitAnd(x, y) == 2 * BitAnd(x / 2, HighMask(w - 1, k - 1));
      BitAndClearLow(x / 2, w - 1, k - 1);
      ModPow2Split(x, k);
    }
  }

  lemma {:induction false} Pow2Monotone(j: nat, k: nat)
    requires j <= k
    ensures Pow2(j) <= Pow2(k)
    decreases k - j
  {
    if j < k {
      Pow2Monotone(j + 1, k);
    }
  }

  lemma {:induction false} Pow2Add(j: nat, k: nat)
    ensures Pow2(j + k) == Pow2(j) * Pow2(k)
  {
    if k > 0 {
      Pow2Add(j, k - 1);
    }
  }

  lemma Pow2Word(k: nat)
    requires k < 32
    ensures Pow2(k) < Word && Pow2(32) == Word
  {
    assert Pow2(4) == 16;
    Pow2Add(4, 4);
    Pow2Add(8, 8);
    Pow2Add(16, 16);
    Pow2Monotone(k, 31);
  }

  lemma RoundDownIsAlignDown(x: nat, a: nat)
    requires a > 0
    ensures x - x % a == x / a * a
  {
  }

  /** The mask forms agree with the division forms whenever the alignment is a power of two, wrap-around included. */
  lemma AlignPow2Agrees(v: nat, a: nat, k: nat)
    requires v < Word && a < Word && k < 32 && a == Pow2(k)
    ensures AlignDownPow2(v, a) == AlignDown(v, a)
    ensures AlignUpPow2(v, a) == AlignUp(v, a)
  {
    PredOfPositive(a);
    var d := MaskClearsLow(v, a, k);
    assert AlignDownPow2(v, a) == d;
    var u := (v + (a - 1)) % Word;
    var e := MaskClearsLow(u, a, k);
    assert AlignUpPow2(v, a) == e;
  }

  lemma PredOfPositive(a: nat)
    requires 0 < a < Word
    ensures Pred(a) == a - 1
  {
    DivModUnique(a + Word - 1, Word, 1, a - 1);
  }

  /** Masking off the bits below a = 2^k rounds a 32-bit word down to a multiple of a. */
  lemma MaskClearsLow(u: nat, a: nat, k: nat) returns (r: nat)
    requires u < Word && a < Word && k < 32 && a == Pow2(k)
    ensures r == u / a * a && BitAnd(u, Word - 1 - Pred(a)) == r
  {
    r := u / a * a;
    Pow2Word(k);
    PredOfPositive(a);
    assert Word - 1 - Pred(a) == HighMask(32, k);
    BitAndClearLow(u, 32, k);
    RoundDownIsAlignDown(u, a);
  }
}
