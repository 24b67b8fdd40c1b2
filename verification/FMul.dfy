/** The multiplier of fpu/impl/fmul.c: a truncated partial-product multiplication. */
module FMul {
  import opened Arithmetic
  import opened FpuLib
  import opened Floats

  /** `h`, the upper 13 bits of a significand: bit 12 of the sliced field is clear, so the
      source's bitwise or with 0x1000 is a sum. */
  function High(x: Word): Word { (Slice(x, 23, 12) + 0x1000) % TWO32 }

  /** `l`, the lower 11 bits of a significand. */
  function Low(x: Word): Word { Slice(x, 11, 1) }

  /** `mm`: three of the four partial products, two of them truncated, plus 2; all in 32 bits. */
  function Partial(x1: Word, x2: Word): Word {
    Combine(Times(High(x1), High(x2)), Times(High(x1), Low(x2)), Times(Low(x1), High(x2)))
  }

  /** A 32-bit product. */
  function Times(a: Word, b: Word): Word { a * b % TWO32 }

  function Combine(hh: Word, hl: Word, lh: Word): Word { (hh + Shr(hl, 11) + Shr(lh, 11) + 2) % TWO32 }

  /** `es`: the exponents added with a bias that puts an in-range result in 256..511. */
  function BiasedExp(e1: Word, e2: Word): Word { Slice((e1 + e2 + 129) % TWO32, 9, 1) }

  /** `ey`. */
  function ResultExp(es: Word, mm: Word): Word {
    if Shr(es, 8) == 0 then 0
    else if Shr(mm, 25) != 0 then Slice((es + 1) % TWO32, 8, 1)
    else Slice(es, 8, 1)
  }

  /** `my`. */
  function ResultMan(e1: Word, e2: Word, ey: Word, mm: Word): Word {
    if e1 == 0 || e2 == 0 || ey == 0 then 0
    else if Shr(mm, 25) != 0 then Slice(mm, 25, 3)
    else Slice(mm, 24, 2)
  }

  function FMul(x1: Word, x2: Word): Word {
    var e1, e2 := Slice(x1, 31, 24), Slice(x2, 31, 24);
    var mm := Partial(x1, x2);
    var sy: Word := if Shr(x1, 31) == Shr(x2, 31) then 0 else 1;
    var ey := ResultExp(BiasedExp(e1, e2), mm);
    MkFloat(sy, ey, ResultMan(e1, e2, ey, mm))
  }

  // ---- What the slices compute, on plain integers ----

  ghost function H(x: Word): nat { Man(x) / 2048 + 4096 }
  ghost function L(x: Word): nat { Man(x) % 2048 }
  ghost function SumOf(h1: nat, l1: nat, h2: nat, l2: nat): nat { h1 * h2 + h1 * l2 / 2048 + l1 * h2 / 2048 + 2 }
  ghost function Sum(x1: Word, x2: Word): nat { SumOf(H(x1), L(x1), H(x2), L(x2)) }

  /** 1 when the sum reached 2^25, so that the product is at least about 2. */
  ghost function Carry(x1: Word, x2: Word): nat { if Sum(x1, x2) >= 0x200_0000 then 1 else 0 }

  /** The exponent field the product needs, before any clamping. */
  ghost function ProductExp(x1: Word, x2: Word): int { Exp(x1) + Exp(x2) - 127 + Carry(x1, x2) }

  /** The 24-bit significand kept from the sum. */
  ghost function Kept(x1: Word, x2: Word): nat {
    if Carry(x1, x2) == 1 then Sum(x1, x2) / 4 else Sum(x1, x2) / 2
  }

  ghost function SignXor(x1: Word, x2: Word): nat { if Sign(x1) == Sign(x2) then 0 else 1 }

  lemma ProductRange(a: nat, b: nat, n: nat, m: nat)
    requires a <= n && b <= m
    ensures 0 <= a * b <= n * m
  {
    MulMonotone(a, n, b);
    MulMonotone(b, m, n);
    assert b * n == n * b && m * n == n * m;
  }

  lemma HighLow(x: Word)
    ensures High(x) == H(x) && Low(x) == L(x)
    ensures 4096 <= H(x) <= 8191 && L(x) <= 2047
    ensures HIDDEN + Man(x) == H(x) * 2048 + L(x)
  {
    hide Slice, Pow2;
    FieldSlices(x);
    Fields(x);
  }

  lemma SumOfRange(h1: nat, l1: nat, h2: nat, l2: nat)
    requires 4096 <= h1 <= 8191 && 4096 <= h2 <= 8191 && l1 <= 2047 && l2 <= 2047
    ensures 0x100_0000 <= h1 * h2 < 0x400_0000 && h1 * l2 < 0x100_0000 && l1 * h2 < 0x100_0000
    ensures 0x100_0000 < SumOf(h1, l1, h2, l2) < 0x400_0000
  {
    ProductRange(h1, h2, 8191, 8191);
    ProductRange(h1, l2, 8191, 2047);
    ProductRange(l1, h2, 2047, 8191);
    ProductRange(4096, 4096, h1, h2);
  }

  lemma CombineSmall(hh: Word, hl: Word, lh: Word)
    requires hh < 0x400_0000 && hl < 0x100_0000 && lh < 0x100_0000
    ensures Combine(hh, hl, lh) == hh + hl / 2048 + lh / 2048 + 2
  {
    assert Pow2(11) == 2048;
  }

  /** No intermediate product wraps, and the sum always fits 26 bits and reaches 2^24. */
  lemma SumRange(x1: Word, x2: Word)
    ensures Partial(x1, x2) == Sum(x1, x2)
    ensures 0x100_0000 < Sum(x1, x2) < 0x400_0000
  {
    hide High, Low, H, L;
    HighLow(x1);
    HighLow(x2);
    SumOfRange(H(x1), L(x1), H(x2), L(x2));
    Fits(H(x1) * H(x2));
    Fits(H(x1) * L(x2));
    Fits(L(x1) * H(x2));
    CombineSmall(H(x1) * H(x2), H(x1) * L(x2), L(x1) * H(x2));
  }

  lemma ExpClosed(e1: Word, e2: Word, mm: Word)
    requires e1 <= 255 && e2 <= 255 && mm < 0x400_0000
    ensures var e := e1 + e2 - 127 + (if mm >= 0x200_0000 then 1 else 0);
            ResultExp(BiasedExp(e1, e2), mm) == if 127 <= e1 + e2 && e <= 255 then e else 0
  {
    hide Slice, Pow2, Shr;
    var t := e1 + e2 + 129;
    var es := if t < 512 then t else t - 512;
    Pow2Values();
    SliceIs(t, 9, 1, 1, 512);
    SliceIs(es, 8, 1, 1, 256);
    SliceIs(es + 1, 8, 1, 1, 256);
    ShrIs(es, 8, 256);
    ShrIs(mm, 25, 0x200_0000);
    assert BiasedExp(e1, e2) == es;
  }

  lemma ManClosed(e1: Word, e2: Word, ey: Word, mm: Word)
    requires 0x100_0000 <= mm < 0x400_0000
    ensures ResultMan(e1, e2, ey, mm) ==
            if e1 == 0 || e2 == 0 || ey == 0 then 0
            else (if mm >= 0x200_0000 then mm / 4 else mm / 2) - HIDDEN
  {
    hide Slice, Pow2, Shr;
    Pow2Values();
    SliceIs(mm, 25, 3, 4, 0x80_0000);
    SliceIs(mm, 24, 2, 2, 0x80_0000);
    ShrIs(mm, 25, 0x200_0000);
  }

  /** fmul in closed form, for every pair of words. */
  lemma Closed(x1: Word, x2: Word)
    ensures HIDDEN <= Kept(x1, x2) < 2 * HIDDEN
    ensures var y := FMul(x1, x2);
            && Sign(y) == SignXor(x1, x2)
            && Exp(y) == (if 127 <= Exp(x1) + Exp(x2) && ProductExp(x1, x2) <= 255 then ProductExp(x1, x2) else 0)
            && Man(y) == (if Exp(x1) == 0 || Exp(x2) == 0 || Exp(y) == 0 then 0 else Kept(x1, x2) - HIDDEN)
  {
    hide Slice, Partial, Sum, MkFloat, ResultExp, BiasedExp, ResultMan;
    FieldSlices(x1);
    FieldSlices(x2);
    SumRange(x1, x2);
    var e1, e2, mm := Slice(x1, 31, 24), Slice(x2, 31, 24), Partial(x1, x2);
    var ey := ResultExp(BiasedExp(e1, e2), mm);
    ExpClosed(e1, e2, mm);
    ManClosed(e1, e2, ey, mm);
    Fields(x1);
    Fields(x2);
    MkFloatFields(SignXor(x1, x2), ey, ResultMan(e1, e2, ey, mm));
  }

  // ---- Accuracy ----

  /** The dropped fractions and the dropped low product cost less than the added 2 makes up for. */
  lemma SumError(h1: nat, l1: nat, h2: nat, l2: nat)
    requires 4096 <= h1 <= 8191 && 4096 <= h2 <= 8191 && l1 <= 2047 && l2 <= 2047
    ensures var p := (h1 * 2048 + l1) * (h2 * 2048 + l2);
            -0x40_0000 < SumOf(h1, l1, h2, l2) * 0x40_0000 - p <= 0x80_0000
  {
    ProductRange(l1, l2, 2047, 2047);
    assert (h1 * 2048 + l1) * (h2 * 2048 + l2)
        == h1 * h2 * 0x40_0000 + h1 * l2 * 2048 + l1 * h2 * 2048 + l1 * l2;
  }

  /** With both significands P = M1*M2, the kept bits are within one unit in the last place
      (2^23, or 2^24 after a carry) and within a 2^-23 part of P. */
  lemma KeptError(x1: Word, x2: Word)
    ensures var p := (HIDDEN + Man(x1)) * (HIDDEN + Man(x2));
            var ulp := if Carry(x1, x2) == 1 then 0x100_0000 else 0x80_0000;
            && Abs(Kept(x1, x2) * ulp - p) <= ulp
            && Abs(Kept(x1, x2) * ulp - p) * 0x80_0000 <= p
  {
    hide H, L, SumOf;
    HighLow(x1);
    HighLow(x2);
    SumRange(x1, x2);
    SumError(H(x1), L(x1), H(x2), L(x2));
    ProductRange(HIDDEN, HIDDEN, HIDDEN + Man(x1), HIDDEN + Man(x2));
  }

  /** The exact product of two normal magnitudes. */
  lemma OperandScale(x1: Word, x2: Word)
    requires Normal(x1) && Normal(x2)
    ensures MagUnits(x1) * MagUnits(x2) == (HIDDEN + Man(x1)) * (HIDDEN + Man(x2)) * Pow2(Exp(x1) + Exp(x2) - 2)
  {
    hide Pow2;
    var a, b := Exp(x1) - 1, Exp(x2) - 1;
    Pow2Add(a, b);
    Regroup(HIDDEN + Man(x1), Pow2(a), HIDDEN + Man(x2), Pow2(b));
  }

  /** Scaling the significands of a product: MagUnits(x1)*MagUnits(x2) and MagUnits(y)*ONE share
      the factor 2^(e1+e2-2). */
  lemma CommonScale(x1: Word, x2: Word)
    requires Normal(x1) && Normal(x2) && 1 <= ProductExp(x1, x2) <= 254
    ensures var y := FMul(x1, x2); var k := Pow2(Exp(x1) + Exp(x2) - 2);
            var ulp := if Carry(x1, x2) == 1 then 0x100_0000 else 0x80_0000;
            && MagUnits(x1) * MagUnits(x2) == (HIDDEN + Man(x1)) * (HIDDEN + Man(x2)) * k
            && MagUnits(y) * ONE == Kept(x1, x2) * ulp * k
            && Pow2(Scale(y)) * ONE == ulp * k
  {
    hide Pow2, Kept, Carry, FMul;
    Closed(x1, x2);
    Pow2Values();
    OperandScale(x1, x2);
    var y := FMul(x1, x2);
    var c := Carry(x1, x2);
    assert c == 0 || c == 1 by { CarryBit(x1, x2); }
    var a, b := Exp(x1) - 1, Exp(x2) - 1;
    assert Pow2(Scale(y)) * ONE == Pow2(23 + c) * Pow2(a + b) by {
      assert Scale(y) + 149 == 23 + c + (a + b);
      Pow2Add(Scale(y), 149);
      Pow2Add(23 + c, a + b);
    }
    Regroup(Kept(x1, x2), Pow2(Scale(y)), 1, ONE);
    Regroup(Kept(x1, x2), Pow2(23 + c), 1, Pow2(a + b));
  }

  lemma CarryBit(x1: Word, x2: Word)
    ensures Carry(x1, x2) <= 1
  {
  }

  lemma Regroup(m: int, a: int, n: int, b: int)
    ensures (m * a) * (n * b) == (m * n) * (a * b)
    ensures (m * a) * b == m * (a * b)
  {
  }

  /** Main result: for normal operands whose product has a normal exponent, fmul has the sign and
      the exponent of the product, errs by at most one unit in the last place of the result, and by
      at most a 2^-23 part of the exact product (the intended limit was 2^-22). */
  lemma FMulAccurate(x1: Word, x2: Word)
    requires Normal(x1) && Normal(x2) && 1 <= ProductExp(x1, x2) <= 254
    ensures var y := FMul(x1, x2); var exact := Units(x1) * Units(x2);
            && Normal(y) && Exp(y) == ProductExp(x1, x2) && Sign(y) == SignXor(x1, x2)
            && Abs(Units(y) * ONE - exact) <= Pow2(Scale(y)) * ONE
            && Abs(Units(y) * ONE - exact) * 0x80_0000 <= Abs(exact)
  {
    hide FMul, Pow2, MagUnits, Carry, Units, Scale, Exp, Man, Sign, Kept;
    Closed(x1, x2);
    CarryBit(x1, x2);
    MagError(x1, x2);
    SignedProduct(x1, x2);
    SignedUnits(FMul(x1, x2));
    SameSign(SignXor(x1, x2), MagUnits(FMul(x1, x2)) * ONE, MagUnits(x1) * MagUnits(x2));
  }

  lemma SameSign(s: nat, a: int, b: int)
    requires b >= 0
    ensures var x, y := if s == 0 then a else -a, if s == 0 then b else -b;
            Abs(x - y) == Abs(a - b) && Abs(y) == b
  {
  }

  /** The same bounds on magnitudes. */
  lemma MagError(x1: Word, x2: Word)
    requires Normal(x1) && Normal(x2) && 1 <= ProductExp(x1, x2) <= 254
    ensures var y := FMul(x1, x2); var exact := MagUnits(x1) * MagUnits(x2);
            && Abs(MagUnits(y) * ONE - exact) <= Pow2(Scale(y)) * ONE
            && Abs(MagUnits(y) * ONE - exact) * 0x80_0000 <= exact
  {
    hide Kept, Carry, FMul, Pow2, ProductExp, MagUnits, Exp, Man, Scale;
    KeptError(x1, x2);
    CommonScale(x1, x2);
    var k := Pow2(Exp(x1) + Exp(x2) - 2);
    var ulp := if Carry(x1, x2) == 1 then 0x100_0000 else 0x80_0000;
    ScaleBounds(Kept(x1, x2) * ulp, (HIDDEN + Man(x1)) * (HIDDEN + Man(x2)), ulp, k);
  }

  lemma ScaleBounds(a: nat, p: nat, ulp: nat, k: nat)
    requires Abs(a - p) <= ulp && Abs(a - p) * 0x80_0000 <= p
    ensures Abs(a * k - p * k) <= ulp * k && Abs(a * k - p * k) * 0x80_0000 <= p * k
  {
    var d := Abs(a - p);
    AbsScale(a, p, k);
    MulMonotone(d, ulp, k);
    MulMonotone(d * 0x80_0000, p, k);
    Regroup(0x80_0000, d, 1, k);
  }

  lemma SignedUnits(y: Word)
    ensures Units(y) * ONE == (if Sign(y) == 0 then MagUnits(y) * ONE else -(MagUnits(y) * ONE))
  {
  }

  lemma SignedProduct(x1: Word, x2: Word)
    ensures Units(x1) * Units(x2) ==
            (if SignXor(x1, x2) == 0 then MagUnits(x1) * MagUnits(x2) else -(MagUnits(x1) * MagUnits(x2)))
  {
    hide MagUnits;
    Fields(x1);
    Fields(x2);
  }

  // ---- Monotonicity ----

  /** The result encoding without clamping, as one number: exponent steps and mantissa steps. */
  ghost function Spread(s: nat): nat { if s >= 0x200_0000 then HIDDEN + s / 4 else s / 2 }
  ghost function Unclamped(x1: Word, x2: Word): int { (Exp(x1) + Exp(x2) - 128) * HIDDEN + Spread(Sum(x1, x2)) }

  lemma MagOfProduct(x1: Word, x2: Word)
    requires Normal(x1) && Normal(x2)
    ensures var u := Unclamped(x1, x2);
            && ProductExp(x1, x2) * HIDDEN <= u < (ProductExp(x1, x2) + 1) * HIDDEN
            && Mag(FMul(x1, x2)) == if HIDDEN <= u < 256 * HIDDEN then u else 0
  {
    hide FMul, Sum;
    Closed(x1, x2);
    SumRange(x1, x2);
    Fields(FMul(x1, x2));
  }

  lemma SumMonotone(h1: nat, l1: nat, h2: nat, l2: nat, g2: nat, k2: nat)
    requires 1 <= h1 && l2 <= 2047 && k2 <= 2047 && h2 * 2048 + l2 <= g2 * 2048 + k2
    ensures SumOf(h1, l1, h2, l2) <= SumOf(h1, l1, g2, k2)
  {
    MulMonotone(h2, g2, l1);
    DivMonotone(l1 * h2, l1 * g2, 2048);
    if h2 == g2 {
      MulMonotone(l2, k2, h1);
      DivMonotone(h1 * l2, h1 * k2, 2048);
    } else {
      HighStep(h1, h2, l2, g2, k2);
    }
  }

  /** A step of the upper half outweighs any change of the lower half. */
  lemma HighStep(h1: nat, h2: nat, l2: nat, g2: nat, k2: nat)
    requires 1 <= h1 && h2 < g2 && l2 <= 2047
    ensures h1 * h2 + h1 * l2 / 2048 <= h1 * g2 + h1 * k2 / 2048
  {
    MulMonotone(h2 + 1, g2, h1);
    MulMonotone(l2, 2047, h1);
    MulMonotone(0, k2, h1);
    var a, b := h1 * l2, h1 * k2;
    assert a / 2048 <= h1;
    assert 0 <= b / 2048;
  }

  /** One exponent step outweighs any loss of mantissa. */
  lemma StepOutweighs(x1: Word, x2: Word, z2: Word)
    ensures Spread(Sum(x1, x2)) <= HIDDEN + Spread(Sum(x1, z2))
  {
    hide H, L, SumOf;
    HighLow(x1);
    HighLow(x2);
    HighLow(z2);
    SumAtMost(H(x1), L(x1), H(x2), L(x2));
    SumMonotone(H(x1), L(x1), 4096, 0, H(z2), L(z2));
    SumAtOne(H(x1), L(x1));
    Fields(x1);
  }

  lemma SumAtMost(h1: nat, l1: nat, h2: nat, l2: nat)
    requires 4096 <= h1 <= 8191 && 4096 <= h2 <= 8191 && l1 <= 2047 && l2 <= 2047
    ensures SumOf(h1, l1, h2, l2) <= 4 * (h1 * 2048 + l1)
  {
    hide SumOf;
    SumError(h1, l1, h2, l2);
    MulMonotone(h2 * 2048 + l2, 0xFF_FFFF, h1 * 2048 + l1);
  }

  /** The sum for a significand of exactly one. */
  lemma SumAtOne(h: nat, l: nat)
    ensures SumOf(h, l, 4096, 0) == 2 * (h * 2048 + l) + 2
  {
  }

  lemma UnclampedMonotone(x1: Word, x2: Word, z2: Word)
    requires Mag(x2) <= Mag(z2)
    ensures Unclamped(x1, x2) <= Unclamped(x1, z2)
  {
    hide H, L, SumOf, Spread, Exp, Man, Mag;
    Fields(x2);
    Fields(z2);
    if Exp(x2) < Exp(z2) {
      StepOutweighs(x1, x2, z2);
    } else {
      HighLow(x1);
      HighLow(x2);
      HighLow(z2);
      SumMonotone(H(x1), L(x1), H(x2), L(x2), H(z2), L(z2));
      SpreadMonotone(Sum(x1, x2), Sum(x1, z2));
    }
  }

  lemma SpreadMonotone(s: nat, t: nat)
    requires s <= t
    ensures Spread(s) <= Spread(t)
  {
  }

  /** Main result: a larger second operand never gives a smaller result, except where the larger
      product overflows the exponent (then the result is flushed to zero) and the smaller one is
      not itself flushed. */
  lemma FMulMonotone(x1: Word, x2: Word, z2: Word)
    requires Normal(x1) && Normal(x2) && Normal(z2) && Mag(x2) <= Mag(z2)
    ensures Mag(FMul(x1, x2)) <= Mag(FMul(x1, z2)) <==>
            (ProductExp(x1, z2) <= 255 || !(1 <= ProductExp(x1, x2) <= 255))
  {
    hide FMul, Unclamped, ProductExp;
    MagOfProduct(x1, x2);
    MagOfProduct(x1, z2);
    UnclampedMonotone(x1, x2, z2);
  }

  /** It fails, for example, on 2^127 times 1.0 and times 4.0. */
  lemma FMulOverflowShrinks()
    ensures Mag(FMul(0x7F00_0000, 0x4080_0000)) < Mag(FMul(0x7F00_0000, 0x3F80_0000))
  {
    hide FMul;
    FMulMonotone(0x7F00_0000, 0x3F80_0000, 0x4080_0000);
  }

  lemma FMulCommutes(x1: Word, x2: Word)
    ensures FMul(x1, x2) == FMul(x2, x1)
  {
    hide FMul;
    Closed(x1, x2);
    Closed(x2, x1);
    assert Sum(x1, x2) == Sum(x2, x1);
    Fields(FMul(x1, x2));
    Fields(FMul(x2, x1));
  }

  /** The range in which no overflow is possible, in both arguments. */
  lemma FMulMonotoneInRange(x1: Word, z1: Word, x2: Word, z2: Word)
    requires Normal(x1) && Normal(z1) && Normal(x2) && Normal(z2)
    requires Mag(x1) <= Mag(z1) && Mag(x2) <= Mag(z2) && Exp(z1) + Exp(z2) <= 381
    ensures Mag(FMul(x1, x2)) <= Mag(FMul(z1, z2))
  {
    hide FMul, Carry;
    Fields(x1);
    Fields(z1);
    CarryBit(x1, z2);
    CarryBit(z1, z2);
    CarryBit(z2, z1);
    FMulMonotone(x1, x2, z2);
    FMulMonotone(z2, x1, z1);
    FMulCommutes(x1, z2);
    FMulCommutes(z1, z2);
  }

  /** Zero does not annihilate: a zero operand gives a zero exactly when the other one is below
      the largest float under 2. */
  lemma ZeroOperand(x1: Word, x2: Word)
    requires Mag(x1) == 0
    ensures Mag(FMul(x1, x2)) == 0 <==> Mag(x2) < 0x3FFF_FFFF
  {
    hide FMul;
    Closed(x1, x2);
    Fields(x1);
    Fields(x2);
    Fields(FMul(x1, x2));
    HighLow(x2);
    assert H(x1) == 4096 && L(x1) == 0;
    assert Sum(x1, x2) == 2 * (HIDDEN + Man(x2)) + 2;
  }
}
