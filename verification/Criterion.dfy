/** The acceptance criterion of fmul (fpu/test/fmul.c), against the correctly rounded product. */
module Criterion {
  import opened Arithmetic
  import opened FpuLib
  import opened Floats
  import opened Multiplier = FMul

  /** No finite float is nearer to `exact`, which counts 2^-298. Ties may go either way. */
  ghost predicate Nearest(w: Word, exact: int) {
    Finite(w) && forall v: Word :: Finite(v) ==> Abs(Units(w) * ONE - exact) <= Abs(Units(v) * ONE - exact)
  }

  /** The difference is below a 2^-22 part of the reference, or below 2^-126. */
  ghost predicate MeetsCriterion(y: Word, w: Word) {
    Abs(Units(y) - Units(w)) * 0x40_0000 < Abs(Units(w)) || Abs(Units(y) - Units(w)) < HIDDEN
  }

  // ---- A nearest float is nearest in magnitude ----

  /** A word with the magnitude of `v` and the sign of `exact`. */
  lemma Signed(v: Word, exact: int) returns (u: Word)
    requires Finite(v)
    ensures Finite(u) && Abs(Units(u) * ONE - exact) == Abs(MagUnits(v) * ONE - Abs(exact))
  {
    hide MagUnits;
    Fields(v);
    var s: Word := if exact < 0 then 1 else 0;
    MkFloatFields(s, Exp(v), Man(v));
    u := MkFloat(s, Exp(v), Man(v));
    SameMag(u, v);
    SignedUnits(u);
  }

  lemma NearestInMagnitude(w: Word, exact: int, v: Word)
    requires Nearest(w, exact) && Finite(v)
    ensures Abs(Units(w) * ONE - exact) == Abs(MagUnits(w) * ONE - Abs(exact))
    ensures Abs(MagUnits(w) * ONE - Abs(exact)) <= Abs(MagUnits(v) * ONE - Abs(exact))
  {
    hide MagUnits, Units, Pow2, Nearest, Finite;
    NoNearer(w, exact, v);
    var a := Signed(w, exact);
    var b := Signed(v, exact);
    NoNearer(w, exact, a);
    NoNearer(w, exact, b);
    SignedUnits(w);
    assert Abs(Units(w) * ONE - exact) >= Abs(MagUnits(w) * ONE - Abs(exact));
  }

  lemma NoNearer(w: Word, exact: int, v: Word)
    requires Nearest(w, exact) && Finite(v)
    ensures Finite(w) && Abs(Units(w) * ONE - exact) <= Abs(Units(v) * ONE - exact)
  {
    hide Units, Pow2, Finite;
  }

  /** The next float up and the next one down, seen from a normal float below the largest binade. */
  lemma Up(w: Word) returns (v: Word)
    requires 1 <= Exp(w) <= 253
    ensures Finite(v) && MagUnits(v) == MagUnits(w) + Pow2(Scale(w))
  {
    hide MagUnits;
    Fields(w);
    if Man(w) + 1 < HIDDEN {
      v := MkFloat(0, Exp(w), Man(w) + 1);
      MkFloatFields(0, Exp(w), Man(w) + 1);
    } else {
      v := MkFloat(0, Exp(w) + 1, 0);
      MkFloatFields(0, Exp(w) + 1, 0);
    }
    UpUnits(w, v);
  }

  lemma UpUnits(w: Word, v: Word)
    requires 1 <= Exp(w) <= 253
    requires if Man(w) + 1 < HIDDEN then Exp(v) == Exp(w) && Man(v) == Man(w) + 1
             else Man(w) + 1 == HIDDEN && Exp(v) == Exp(w) + 1 && Man(v) == 0
    ensures MagUnits(v) == MagUnits(w) + Pow2(Scale(w))
  {
    StepUp(Man(w), Pow2(Scale(w)));
  }

  lemma StepUp(m: nat, p: nat)
    ensures (HIDDEN + m + 1) * p == (HIDDEN + m) * p + p
    ensures m + 1 == HIDDEN ==> HIDDEN * (2 * p) == (HIDDEN + m) * p + p
  {
    MulDistributes(HIDDEN + m, 1, p);
  }

  lemma Down(w: Word) returns (v: Word)
    requires Normal(w)
    ensures Finite(v) && MagUnits(w) - Pow2(Scale(w)) <= MagUnits(v) < MagUnits(w)
  {
    hide MagUnits;
    Fields(w);
    if Man(w) > 0 {
      v := MkFloat(0, Exp(w), Man(w) - 1);
      MkFloatFields(0, Exp(w), Man(w) - 1);
    } else {
      v := MkFloat(0, Exp(w) - 1, HIDDEN - 1);
      MkFloatFields(0, Exp(w) - 1, HIDDEN - 1);
    }
    DownUnits(w, v);
  }

  lemma DownUnits(w: Word, v: Word)
    requires Normal(w)
    requires if Man(w) > 0 then Exp(v) == Exp(w) && Man(v) == Man(w) - 1 else Exp(v) == Exp(w) - 1 && Man(v) == HIDDEN - 1
    ensures MagUnits(w) - Pow2(Scale(w)) <= MagUnits(v) < MagUnits(w)
  {
    var p := Pow2(Scale(w));
    if Man(w) > 0 {
      StepUp(Man(w) - 1, p);
    } else if Exp(w) > 1 {
      StepUp(HIDDEN - 1, Pow2(Scale(v)));
    }
  }

  /** A nearest float is off by at most half a unit in its last place. */
  lemma HalfUnit(w: Word, exact: int)
    requires Nearest(w, exact) && 1 <= Exp(w) <= 253
    ensures 2 * Abs(MagUnits(w) * ONE - Abs(exact)) <= Pow2(Scale(w)) * ONE
  {
    hide Nearest, MagUnits, Scale, Pow2;
    var u := Up(w);
    var v := Down(w);
    NearestInMagnitude(w, exact, u);
    NearestInMagnitude(w, exact, v);
    Between(MagUnits(w), MagUnits(u), MagUnits(v), Pow2(Scale(w)), Abs(exact), ONE);
  }

  lemma Between(w: nat, u: nat, v: nat, p: nat, e: nat, one: nat)
    requires one >= 1 && u == w + p && w - p <= v < w
    requires Abs(w * one - e) <= Abs(u * one - e) && Abs(w * one - e) <= Abs(v * one - e)
    ensures 2 * Abs(w * one - e) <= p * one
  {
    MulDistributes(w, p, one);
    MulDistributes(w, v, one);
    MulMonotone(w - v, p, one);
    MulMonotone(1, w - v, one);
    Midway(w * one, u * one, v * one, p * one, e);
  }

  lemma Midway(w: int, u: int, v: int, p: int, e: int)
    requires u == w + p && w - p <= v <= w
    requires Abs(w - e) <= Abs(u - e) && Abs(w - e) <= Abs(v - e)
    ensures p > 0 && v < w ==> 2 * Abs(w - e) <= p
  {
  }

  /** Relative to itself, it is off by at most a 2^-24 part. */
  lemma RelativeHalfUnit(w: Word, exact: int)
    requires Nearest(w, exact) && 1 <= Exp(w) <= 253
    ensures Abs(Units(w) * ONE - exact) * 0x100_0000 <= Abs(Units(w) * ONE)
    ensures HIDDEN <= Abs(Units(w))
  {
    hide Nearest, Pow2, Scale, MagUnits;
    HalfUnit(w, exact);
    NearestInMagnitude(w, exact, w);
    NormalUnits(w);
    MulMonotone(HIDDEN * Pow2(Scale(w)), MagUnits(w), ONE);
    MulAssoc(HIDDEN, Pow2(Scale(w)), ONE);
    SignedUnits(w);
    HalfOfPart(Abs(Units(w) * ONE - exact), Pow2(Scale(w)) * ONE, MagUnits(w) * ONE);
    assert Abs(Units(w) * ONE) == MagUnits(w) * ONE;
    assert Abs(Units(w)) == MagUnits(w);
  }

  lemma HalfOfPart(d: nat, u: nat, w: nat)
    requires 2 * d <= u && HIDDEN * u <= w
    ensures d * 0x100_0000 <= w
  {
  }

  lemma NormalUnits(w: Word)
    requires 1 <= Exp(w)
    ensures HIDDEN <= HIDDEN * Pow2(Scale(w)) <= MagUnits(w)
  {
    hide Pow2;
    MulMonotone(1, Pow2(Scale(w)), HIDDEN);
    MulMonotone(HIDDEN, Significand(w), Pow2(Scale(w)));
  }

  // ---- When the product is in range ----

  /** With exponents that add up to less than 127 the rounded product is subnormal. */
  lemma SmallExponents(x1: Word, x2: Word, w: Word)
    requires Normal(x1) && Normal(x2) && Nearest(w, Units(x1) * Units(x2)) && 1 <= Exp(w)
    ensures Exp(x1) + Exp(x2) >= 127
  {
    hide Nearest, MagUnits, Pow2;
    if Exp(x1) + Exp(x2) <= 126 {
      BelowNormal(x1, x2);
      SubnormalUnits();
      NormalUnits(w);
      SignedProduct(x1, x2);
      NearestInMagnitude(w, Units(x1) * Units(x2), 0x7F_FFFF);
      MulMonotone(HIDDEN, MagUnits(w), ONE);
    }
  }

  lemma SubnormalUnits()
    ensures Finite(0x7F_FFFF) && MagUnits(0x7F_FFFF) == HIDDEN - 1
  {
  }

  /** Such a product stays below the middle between the largest subnormal and 2^-126. */
  lemma BelowNormal(x1: Word, x2: Word)
    requires Normal(x1) && Normal(x2) && Exp(x1) + Exp(x2) <= 126
    ensures 2 * (MagUnits(x1) * MagUnits(x2)) < (2 * HIDDEN - 1) * ONE
  {
    hide MagUnits, Pow2;
    Fields(x1);
    Fields(x2);
    OperandScale(x1, x2);
    ProductRange(HIDDEN + Man(x1), HIDDEN + Man(x2), 0xFF_FFFF, 0xFF_FFFF);
    var p, k := (HIDDEN + Man(x1)) * (HIDDEN + Man(x2)), Pow2(Exp(x1) + Exp(x2) - 2);
    Pow2Monotone(Exp(x1) + Exp(x2) - 2, 124);
    ProductRange(p, k, 0xFF_FFFF * 0xFF_FFFF, Pow2(124));
    Pow2Add(25, 124);
    Pow2Values();
  }

  /** A rounded product below the last binade keeps fmul from overflowing. */
  lemma NoOverflow(x1: Word, x2: Word, w: Word)
    requires Normal(x1) && Normal(x2) && Nearest(w, Units(x1) * Units(x2)) && 1 <= Exp(w) <= 253
    ensures ProductExp(x1, x2) <= 254
  {
    hide Nearest, MagUnits, Pow2, Carry;
    if ProductExp(x1, x2) >= 255 {
      Large(x1, x2);
      SignedProduct(x1, x2);
      HalfUnit(w, Units(x1) * Units(x2));
      Moderate(w);
      Pow2Add(2, 401);
      Pow2Values();
    }
  }

  lemma Moderate(w: Word)
    requires 1 <= Exp(w) <= 253
    ensures 2 * (MagUnits(w) * ONE) + Pow2(Scale(w)) * ONE <= 4 * HIDDEN * Pow2(401)
  {
    hide Pow2;
    Fields(w);
    var p := Pow2(Scale(w));
    Pow2Monotone(Scale(w), 252);
    Pow2Add(252, 149);
    MulMonotone(p, Pow2(252), ONE);
    MulMonotone(Significand(w), 2 * HIDDEN - 1, p * ONE);
    MulAssoc(Significand(w), p, ONE);
  }

  lemma Large(x1: Word, x2: Word)
    requires Normal(x1) && Normal(x2) && ProductExp(x1, x2) >= 255
    ensures MagUnits(x1) * MagUnits(x2) >= (HIDDEN - 1) * Pow2(403)
  {
    hide MagUnits, Pow2, Carry, Kept, FMul;
    Closed(x1, x2);
    CarryBit(x1, x2);
    KeptError(x1, x2);
    OperandScale(x1, x2);
    Pow2Values();
    var c, e := Carry(x1, x2), Exp(x1) + Exp(x2) - 2;
    var p, k := (HIDDEN + Man(x1)) * (HIDDEN + Man(x2)), Pow2(e);
    assert p >= (HIDDEN - 1) * Pow2(23 + c);
    MulMonotone((HIDDEN - 1) * Pow2(23 + c), p, k);
    MulAssoc(HIDDEN - 1, Pow2(23 + c), k);
    Pow2Add(23 + c, e);
    Pow2Monotone(403, 23 + c + e);
  }

  // ---- The criterion ----

  lemma CriterionArith(got: int, exact: int, rounded: int)
    requires rounded != 0 && Abs(got - exact) * 0x80_0000 <= Abs(exact)
    requires Abs(rounded - exact) * 0x100_0000 <= Abs(rounded)
    ensures Abs(got - rounded) * 0x40_0000 < Abs(rounded)
  {
  }

  lemma InRange(x1: Word, x2: Word, w: Word)
    requires Normal(x1) && Normal(x2) && Nearest(w, Units(x1) * Units(x2)) && 1 <= Exp(w) <= 253
    requires ProductExp(x1, x2) >= 1
    ensures Abs(Units(FMul(x1, x2)) - Units(w)) * 0x40_0000 < Abs(Units(w))
  {
    hide Nearest, FMul, Units, Pow2, ProductExp;
    NoOverflow(x1, x2, w);
    FMulAccurate(x1, x2);
    RelativeHalfUnit(w, Units(x1) * Units(x2));
    var y, u := Units(FMul(x1, x2)), Units(w);
    MulMonotone(1, Abs(u), ONE);
    AbsScale(u, 0, ONE);
    CriterionArith(y * ONE, Units(x1) * Units(x2), u * ONE);
    AbsScale(y, u, ONE);
    Cancel(Abs(y - u), Abs(u), ONE);
  }

  lemma Cancel(a: nat, b: nat, k: nat)
    requires a * k * 0x40_0000 < b * k
    ensures a * 0x40_0000 < b
  {
    if b <= a * 0x40_0000 { MulMonotone(b, a * 0x40_0000, k); }
  }

  lemma Flushed(x1: Word, x2: Word, w: Word)
    requires Normal(x1) && Normal(x2) && 1 <= Exp(w) && ProductExp(x1, x2) <= 0
    ensures Units(FMul(x1, x2)) == 0 && !MeetsCriterion(FMul(x1, x2), w)
  {
    hide FMul, Carry, MagUnits, Pow2;
    var y := FMul(x1, x2);
    Closed(x1, x2);
    Fields(y);
    ZeroUnits(y);
    NormalUnits(w);
  }

  /** Main result: fmul meets the criterion, for all normal operands and every rounded product with
      an exponent field that the criterion looks at, except where the exponent fields add up to 127
      and the sum does not carry: there it returns zero for a product that rounds to 2^-126. */
  lemma FMulMeetsCriterion(x1: Word, x2: Word, w: Word)
    requires Normal(x1) && Normal(x2) && Nearest(w, Units(x1) * Units(x2)) && 1 <= Exp(w) <= 253
    ensures MeetsCriterion(FMul(x1, x2), w) <==> !(Exp(x1) + Exp(x2) == 127 && Sum(x1, x2) < 0x200_0000)
  {
    hide Nearest, FMul, Units, Pow2, Sum;
    SmallExponents(x1, x2, w);
    if ProductExp(x1, x2) >= 1 { InRange(x1, x2, w); } else { Flushed(x1, x2, w); }
  }

  /** Every float is a whole number of units, so a float within half a unit is nearest. */
  lemma WithinHalf(w: Word, exact: int)
    requires Finite(w) && 2 * Abs(Units(w) * ONE - exact) <= ONE
    ensures Nearest(w, exact)
  {
    hide Units, Pow2, Finite;
    forall v: Word | Finite(v)
      ensures Abs(Units(w) * ONE - exact) <= Abs(Units(v) * ONE - exact)
    {
      MulDistributes(Units(v), Units(w), ONE);
      if Units(v) > Units(w) { MulMonotone(1, Units(v) - Units(w), ONE); }
      if Units(v) < Units(w) { MulMonotone(Units(v) - Units(w), -1, ONE); }
    }
  }

  /** An input where it fails: fmul returns zero, and the product rounds to 2^-126. */
  lemma CriterionFails()
    ensures var x1, x2, w := 0x1F80_0AAB, 0x207F_EAAB, 0x80_0000;
            && Normal(x1) && Normal(x2) && Nearest(w, Units(x1) * Units(x2)) && Exp(w) == 1
            && FMul(x1, x2) == 0 && !MeetsCriterion(FMul(x1, x2), w)
  {
    hide FMul, MeetsCriterion, Nearest, Units, Pow2, Sum;
    var x1, x2, w := 0x1F80_0AAB, 0x207F_EAAB, 0x80_0000;
    ExampleProduct();
    SmallestNormal();
    WithinHalf(w, Units(x1) * Units(x2));
    Closed(x1, x2);
    Fields(FMul(x1, x2));
    Flushed(x1, x2, w);
  }

  /** The example's exponents add up to 127, its sum does not carry, and its product is 2^-126 less
      some 2^-150th part. */
  lemma ExampleProduct()
    ensures var x1, x2 := 0x1F80_0AAB, 0x207F_EAAB;
            && Exp(x1) == 63 && Exp(x2) == 64 && Sign(x1) == 0 && Sign(x2) == 0 && Sum(x1, x2) < 0x200_0000
            && 2 * Abs(HIDDEN * ONE - Units(x1) * Units(x2)) <= ONE
  {
    hide MagUnits, Pow2, Units;
    var x1, x2 := 0x1F80_0AAB, 0x207F_EAAB;
    OperandScale(x1, x2);
    SignedProduct(x1, x2);
    var k := Pow2(125);
    assert Units(x1) * Units(x2) == 0x80_0AAB * 0xFF_EAAB * k;
    assert ONE == 0x100_0000 * k by { Pow2Add(24, 125); Pow2Values(); }
  }

  lemma SmallestNormal()
    ensures Units(0x80_0000) == HIDDEN && Exp(0x80_0000) == 1
  {
  }
}
