/** fcvtsw (fpu/impl/fcvtsw.c) returns a nearest float, and how it composes with fcvtws. */
module IntToFloat {
  import opened Arithmetic
  import opened FpuLib
  import opened Floats
  import opened Convert

  /** The 24-bit significand of x: x scaled to 2^23..2^24 and rounded. */
  ghost function Mantissa(x: nat): nat
    requires x > 0
  {
    RoundHalf(x * HIDDEN, Pow2(TopBit(x)))
  }

  // ---- The bits ----

  lemma RoundOffset(u: nat, k: nat, d: nat)
    requires d > 0
    ensures RoundHalf(k * d + u, d) == k + RoundHalf(u, d)
  {
    var q, r := (2 * u + d) / (2 * d), (2 * u + d) % (2 * d);
    assert 2 * u + d == q * (2 * d) + r;
    MulDistributes(k, q, 2 * d);
    assert 2 * (k * d + u) + d == (k + q) * (2 * d) + r;
    DivModUnique(2 * (k * d + u) + d, 2 * d, k + q, r);
  }

  /** `xs`: the bits after the leading one, left-aligned in 32 bits. */
  lemma ShiftedOut(x: Word, t: nat)
    requires t <= 31 && Pow2(t) <= x < 2 * Pow2(t)
    ensures Shl(x, 32 - t) == (x - Pow2(t)) * Pow2(32 - t)
    ensures ((x - Pow2(t)) * Pow2(32 - t)) * Pow2(t) == ((x - Pow2(t)) * HIDDEN) * 512
  {
    hide Pow2;
    var f, p, q := x - Pow2(t), Pow2(t), Pow2(32 - t);
    Pow2Add(t, 32 - t);
    Pow2Values();
    MulDistributes(p, f, q);
    MulMonotone(f, p - 1, q);
    MulDistributes(p, 1, q);
    MulMonotone(0, f, q);
    DivModUnique(x * q, TWO32, 1, f * q);
    MulAssoc(f, q, p);
  }

  /** The kept bits plus the next one round the fraction, and reach 2^23 only in the carry case. */
  lemma RoundFraction(xs: Word)
    ensures var top, next := Shr(xs, 9), Slice(xs, 9, 9);
            && top + next == RoundHalf(xs, 512) <= HIDDEN
            && (top == 0x7f_ffff && next != 0 <==> top + next == HIDDEN)
            && Slice(top + next, 23, 1) == (top + next) % HIDDEN
  {
    hide Pow2, Slice, Shr, RoundHalf;
    Pow2Values();
    RoundBits(xs);
    ShrIs(xs, 9, 512);
    SliceIs(xs, 9, 9, 256, 2);
    SliceIs(xs / 512 + xs / 256 % 2, 23, 1, 1, HIDDEN);
  }

  lemma RoundBits(xs: Word)
    ensures xs / 512 + xs / 256 % 2 == RoundHalf(xs, 512) <= HIDDEN
    ensures xs / 512 <= 0x7f_ffff
  {
  }

  lemma FromShiftIs(s: Word, x: Word)
    requires s <= 1 && x > 0
    ensures var y := FromShift(s, x, LeadShift(x));
            Sign(y) == s && Mag(y) == (126 + TopBit(x)) * HIDDEN + Mantissa(x)
    ensures HIDDEN <= Mantissa(x) <= 2 * HIDDEN
  {
    hide Pow2, TopBit, Slice, Shr, RoundHalf, MkFloat;
    var t := TopBit(x);
    var p := Pow2(t);
    TopBitBelow32(x);
    var f := x - p;
    ShiftedOut(x, t);
    Pow2Values();
    var xs: Word := Shl(x, 32 - t);
    RoundFraction(xs);
    RoundRatio(f * HIDDEN, p, xs, 512);
    MulDistributes(p, f, HIDDEN);
    RoundOffset(f * HIDDEN, HIDDEN, p);
    var r := RoundHalf(xs, 512);
    assert Mantissa(x) == HIDDEN + r;
    var e: Word := if r == HIDDEN then 128 + t else 127 + t;
    MkFloatFields(s, e, r % HIDDEN);
    assert LeadShift(x) == 32 - t;
    assert t == 0 ==> xs == 0;
    assert FromShift(s, x, LeadShift(x)) == MkFloat(s, e, r % HIDDEN);
  }

  /** Both encodings of a carry are the same number: K*2^(126+t). */
  lemma MagUnitsOf(y: Word, e: nat, k: nat)
    requires Mag(y) == e * HIDDEN + k && HIDDEN <= k <= 2 * HIDDEN && 1 <= e
    ensures MagUnits(y) == k * Pow2(e)
    ensures Exp(y) == if k == 2 * HIDDEN then e + 2 else e + 1
  {
    Fields(y);
    if k == 2 * HIDDEN {
      QuotientUnique(HIDDEN, Exp(y), Man(y), e + 2, 0);
    } else {
      QuotientUnique(HIDDEN, Exp(y), Man(y), e + 1, k - HIDDEN);
    }
  }

  /** fcvtsw of a nonzero integer: sign, exponent and value. */
  lemma FCvtSWIs(n: Int32)
    requires n != 0
    ensures var x := Abs(n); var y := FCvtSW(n); var t := TopBit(x);
            && t <= 31 && Sign(y) == (if n < 0 then 1 else 0)
            && MagUnits(y) == Mantissa(x) * Pow2(126 + t)
            && Exp(y) == (if Mantissa(x) == 2 * HIDDEN then 128 + t else 127 + t)
  {
    hide TopBit, Mantissa, FromShift, MagUnits, Mag, Pow2;
    var x := Abs(n);
    TopBitBelow32(x);
    FromShiftIs(if n < 0 then 1 else 0, x);
    MagUnitsOf(FCvtSW(n), 126 + TopBit(x), Mantissa(x));
  }

  lemma FCvtSWZero()
    ensures FCvtSW(0) == 0
  {
    hide Pow2, Slice, Shr;
    Pow2Values();
    ShrIs(0, 9, 512);
    SliceIs(0, 9, 9, 256, 2);
    SliceIs(0, 23, 1, 1, HIDDEN);
  }

  // ---- Nearest, halves away from zero ----

  lemma RoundWithin(a: nat, b: nat)
    requires b > 0
    ensures var k := RoundHalf(a, b); 0 < 2 * (k * b - a) + b <= 2 * b
  {
    var k, r := (2 * a + b) / (2 * b), (2 * a + b) % (2 * b);
    assert 2 * a + b == k * (2 * b) + r;
    MulAssoc(k, 2, b);
  }

  /** Among all multiples of b, RoundHalf(a, b)*b is nearest to a, and the largest such. */
  lemma RoundNearest(a: nat, b: nat, j: int)
    requires b > 0
    ensures var k := RoundHalf(a, b);
            && Abs(k * b - a) <= Abs(j * b - a)
            && (Abs(k * b - a) == Abs(j * b - a) ==> j <= k)
            && 2 * Abs(k * b - a) <= b
  {
    hide RoundHalf;
    var k: int := RoundHalf(a, b);
    RoundWithin(a, b);
    MulDistributes(k, 1, b);
    if j > k { MulMonotone(k + 1, j, b); }
    if j < k { MulMonotone(j, k - 1, b); }
  }

  /** A float of at least 2^t is a multiple of the spacing 2^(126+t) units. */
  lemma OnGrid(w: Word, t: nat) returns (j: nat)
    requires Finite(w) && MagUnits(w) >= HIDDEN * Pow2(126 + t)
    ensures MagUnits(w) == j * Pow2(126 + t)
  {
    hide Pow2;
    Fields(w);
    Pow2Gap(Scale(w), 126 + t);
    if Scale(w) < 126 + t {
      MulMonotone(Significand(w), 2 * HIDDEN - 1, Pow2(Scale(w)));
      assert false;
    }
    var d := Scale(w) - (126 + t);
    Pow2Add(d, 126 + t);
    MulAssoc(Significand(w), Pow2(d), Pow2(126 + t));
    j := Significand(w) * Pow2(d);
  }

  /** x*ONE and the rounded value, both as multiples of 2^126. */
  lemma GridScale(x: nat)
    requires x > 0
    ensures var t := TopBit(x);
            && x * ONE == x * HIDDEN * Pow2(126)
            && Pow2(126 + t) == Pow2(t) * Pow2(126)
            && Mantissa(x) * Pow2(126 + t) == Mantissa(x) * Pow2(t) * Pow2(126)
            && HIDDEN * Pow2(126 + t) <= x * ONE
  {
    hide Pow2, TopBit, Mantissa;
    var t := TopBit(x);
    Pow2Values();
    Pow2Add(23, 126);
    Pow2Add(t, 126);
    MulAssoc(x, HIDDEN, Pow2(126));
    MulAssoc(Mantissa(x), Pow2(t), Pow2(126));
    MulAssoc(HIDDEN, Pow2(t), Pow2(126));
    MulMonotone(Pow2(t), x, HIDDEN);
    MulMonotone(HIDDEN * Pow2(t), x * HIDDEN, Pow2(126));
  }

  /** No number v that is a float (up to sign) is nearer to x than the rounded magnitude. */
  lemma NearestMag(x: nat, w: Word, v: int)
    requires x > 0 && Finite(w) && (v == MagUnits(w) || v == -(MagUnits(w) as int))
    ensures var y := Mantissa(x) * Pow2(126 + TopBit(x));
            && Abs(y - x * ONE) <= Abs(v - x * ONE)
            && (Abs(y - x * ONE) == Abs(v - x * ONE) ==> 0 <= v <= y)
  {
    hide Pow2, TopBit, Mantissa, MagUnits;
    var t, u := TopBit(x), Pow2(126);
    GridScale(x);
    if v >= HIDDEN * Pow2(126 + t) {
      var j := OnGrid(w, t);
      MulAssoc(j, Pow2(t), u);
      NearestOnGrid(x, j);
    } else {
      MulAssoc(HIDDEN, Pow2(t), u);
      NearestOnGrid(x, HIDDEN);
    }
  }

  lemma NearestOnGrid(x: nat, j: int)
    requires x > 0
    ensures var t, u, k := TopBit(x), Pow2(126), Mantissa(x);
            && Abs(k * Pow2(t) * u - x * HIDDEN * u) <= Abs(j * Pow2(t) * u - x * HIDDEN * u)
            && (Abs(k * Pow2(t) * u - x * HIDDEN * u) == Abs(j * Pow2(t) * u - x * HIDDEN * u)
                ==> j * Pow2(t) * u <= k * Pow2(t) * u)
  {
    hide Pow2, TopBit, RoundHalf;
    var a, b, u, k := x * HIDDEN, Pow2(TopBit(x)), Pow2(126), Mantissa(x);
    RoundNearest(a, b, j);
    AbsScale(k * b, a, u);
    AbsScale(j * b, a, u);
    var c, d := Abs(k * b - a), Abs(j * b - a);
    MulMonotone(c, d, u);
    if c < d { MulMonotone(c + 1, d, u); MulDistributes(c, 1, u); }
    else { MulMonotone(j, k, b); MulMonotone(j * b, k * b, u); }
  }

  /** Main result: no finite float is nearer to n than fcvtsw(n), and among equally near ones
      fcvtsw(n) is the larger in magnitude. */
  lemma FCvtSWNearest(n: Int32, w: Word)
    requires Finite(w)
    ensures var y := FCvtSW(n);
            && Finite(y)
            && Abs(Units(y) - n * ONE) <= Abs(Units(w) - n * ONE)
            && (Abs(Units(y) - n * ONE) == Abs(Units(w) - n * ONE) ==> Abs(Units(w)) <= Abs(Units(y)))
  {
    hide Pow2, TopBit, Mantissa, MagUnits, FCvtSW;
    if n == 0 {
      FCvtSWZero();
      ZeroUnits(0);
    } else {
      FCvtSWIs(n);
      var x := Abs(n);
      NearestMag(x, w, if n < 0 then -Units(w) else Units(w));
      Mirror(n, x, Units(w), Units(FCvtSW(n)), Mantissa(x) * Pow2(126 + TopBit(x)), x * ONE);
    }
  }

  /** Distances do not change when both sides are negated. */
  lemma Mirror(n: int, x: nat, w: int, y: int, m: nat, a: nat)
    requires x == Abs(n) && a == x * ONE && y == (if n < 0 then 0 - m else m)
    ensures var v := if n < 0 then -w else w;
            && Abs(y - n * ONE) == Abs(m - a) && Abs(w - n * ONE) == Abs(v - a)
            && Abs(y) == m && Abs(w) == Abs(v)
  {
    assert n * ONE == if n < 0 then 0 - a else a;
  }

  // ---- Composition with fcvtws ----

  /** An integer that is a float at all is converted exactly. */
  lemma FCvtSWExact(n: Int32, w: Word)
    requires Finite(w) && Units(w) == n * ONE
    ensures Finite(FCvtSW(n)) && Units(FCvtSW(n)) == n * ONE
  {
    hide Units, FCvtSW, Pow2;
    FCvtSWNearest(n, w);
  }

  /** Up to 2^24 nothing is lost. */
  lemma FCvtSWExactSmall(n: Int32)
    requires Abs(n) <= 0x100_0000
    ensures Finite(FCvtSW(n)) && Units(FCvtSW(n)) == n * ONE
    ensures Exp(FCvtSW(n)) <= 152
  {
    hide Pow2, TopBit, Mantissa, FCvtSW, MagUnits;
    var x := Abs(n);
    if n == 0 {
      FCvtSWZero();
      ZeroUnits(0);
    } else {
      FCvtSWIs(n);
      Pow2Gap(24, TopBit(x));
      Pow2Values();
      var t := TopBit(x);
      assert t <= 24;
      GridScale(x);
      assert Mantissa(x) * Pow2(t) == x * HIDDEN by { SmallDivides(x); }
      assert n * ONE == if n < 0 then -(x * ONE) else x * ONE;
    }
  }

  lemma SmallDivides(x: nat)
    requires 0 < x <= 0x100_0000
    ensures Mantissa(x) * Pow2(TopBit(x)) == x * HIDDEN
  {
    hide Pow2, TopBit, RoundHalf;
    var t := TopBit(x);
    Pow2Gap(24, t);
    Pow2Values();
    if t == 24 {
      RoundMultiple(HIDDEN, Pow2(t));
    } else {
      Pow2Add(23 - t, t);
      MulAssoc(x, Pow2(23 - t), Pow2(t));
      RoundMultiple(x * Pow2(23 - t), Pow2(t));
    }
  }

  /** fcvtsw always yields an integer. */
  lemma IntegerValued(n: Int32) returns (v: int)
    ensures Units(FCvtSW(n)) == v * ONE
  {
    hide Pow2, TopBit, Mantissa, FCvtSW, MagUnits;
    if Abs(n) <= 0x100_0000 {
      FCvtSWExactSmall(n);
      v := n;
    } else {
      FCvtSWIs(n);
      var x := Abs(n);
      var t := TopBit(x);
      Pow2Gap(t, 24);
      Pow2Values();
      Pow2Add(t - 23, 149);
      MulAssoc(Mantissa(x), Pow2(t - 23), ONE);
      var k: int := Mantissa(x) * Pow2(t - 23);
      v := if n < 0 then -k else k;
    }
  }

  lemma RoundExact(v: int)
    ensures RoundHalfAway(v * ONE, ONE) == v
  {
    hide Pow2, RoundHalf;
    RoundMultiple(Abs(v), ONE);
    if v < 0 { MulMonotone(v, 0, ONE); } else { MulMonotone(0, v, ONE); }
  }

  /** fcvtws undoes fcvtsw up to 2^24. */
  lemma RoundTripSmall(n: Int32)
    requires Abs(n) <= 0x100_0000
    ensures FCvtWS(FCvtSW(n)) == n
  {
    hide FCvtSW, FCvtWS, Units, Pow2, RoundHalfAway;
    FCvtSWExactSmall(n);
    FCvtWSRounds(FCvtSW(n));
    RoundExact(n);
  }

  /** The exponent field stays in fcvtws's range exactly below 2^31 - 64. */
  lemma ExpBound(n: Int32)
    ensures Exp(FCvtSW(n)) <= 157 <==> Abs(n) < 0x8000_0000 - 64
  {
    hide Pow2, TopBit, FCvtSW, MagUnits, RoundHalf;
    if n == 0 {
      FCvtSWZero();
    } else {
      FCvtSWIs(n);
      var x := Abs(n);
      var t := TopBit(x);
      Pow2Values();
      Pow2Gap(t, 30);
      Pow2Gap(30, t);
      if t == 30 { TopMantissa(x); }
      if t < 30 { Pow2Monotone(t + 1, 30); assert x < Pow2(30) by { OneMore(t); } }
    }
  }

  lemma OneMore(t: nat)
    ensures Pow2(t + 1) == 2 * Pow2(t)
  {
  }

  lemma TopMantissa(x: nat)
    requires x > 0 && TopBit(x) == 30
    ensures Mantissa(x) == (x + 64) / 128
  {
    hide TopBit;
    Pow2Values();
  }

  /** Main result: converting to float, to integer and to float again changes no bit exactly
      when |n| < 2^31 - 64; from there on the first conversion reaches 2^31 and the second returns 0. */
  lemma RoundTripFixpoint(n: Int32)
    ensures FCvtSW(FCvtWS(FCvtSW(n))) == FCvtSW(n) <==> Abs(n) < 0x8000_0000 - 64
  {
    hide FCvtSW, FCvtWS, Units, Pow2, RoundHalfAway;
    var y := FCvtSW(n);
    ExpBound(n);
    var v := IntegerValued(n);
    FCvtSWNearest(n, 0);
    FCvtWSRounds(y);
    FCvtSWZero();
    if Abs(n) < 0x8000_0000 - 64 {
      RoundExact(v);
      FCvtSWExact(v, y);
      if v == 0 {
        SmallestIsOne(n);
      } else {
        if v < 0 { MulMonotone(v, -1, ONE); } else { MulMonotone(1, v, ONE); }
        UnitsInjective(FCvtSW(v), y);
      }
    }
  }

  /** Only zero converts to zero. */
  lemma SmallestIsOne(n: Int32)
    requires Units(FCvtSW(n)) == 0
    ensures n == 0
  {
    hide FCvtSW, TopBit, Pow2, Mantissa;
    if n != 0 {
      FCvtSWIs(n);
      ZeroUnits(FCvtSW(n));
      Fields(FCvtSW(n));
    }
  }
}
