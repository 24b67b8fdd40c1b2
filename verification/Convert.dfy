/** Conversions between 32-bit integers and floats (fpu/impl/fcvtws.c, fpu/impl/fcvtsw.c) and the
    floor built from them (fpu/impl/ffloor.c). */
module Convert {
  import opened Arithmetic
  import opened FpuLib
  import opened Floats

  /** An `int32_t`. */
  type Int32 = n: int | -0x8000_0000 <= n < 0x8000_0000

  function Signed(w: Word): Int32 { if w < 0x8000_0000 then w else w - TWO32 }

  // ---- fcvtws ----

  /** `me >> sa`, with shifts of 32 and more giving zero as the source guards them. */
  function GuardedShr(me: Word, sa: Word): Word { if sa > 31 then 0 else Shr(me, sa) }

  /** `mesr`: the shifted significand plus the first bit shifted out. */
  function RoundShift(me: Word, sa: Word): Word {
    var sai: Word := (sa - 1) % TWO32;
    var mes := GuardedShr(me, sa);
    if GuardedShr(me, sai) % 2 == 1 then (mes + 1) % TWO32 else mes
  }

  function RoundedMag(e: Word, m: Word): Word {
    RoundShift((0x4000_0000 + Shl(m, 7)) % TWO32, (157 - e) % TWO32)
  }

  /** `(~x | 0x80000000) + 1`. */
  function Complement(x: Word): Word {
    var inverted := TWO32 - 1 - x;
    ((if inverted < 0x8000_0000 then inverted + 0x8000_0000 else inverted) + 1) % TWO32
  }

  function FCvtWS(x: Word): Int32 {
    var mesr := RoundedMag(Slice(x, 31, 24), Slice(x, 23, 1));
    if Shr(x, 31) == 0 then Signed(mesr) else Signed(Complement(mesr))
  }

  // ---- fcvtsw ----

  /** Position of the leading one. */
  function TopBit(x: nat): (t: nat)
    requires x > 0
    ensures Pow2(t) <= x < 2 * Pow2(t)
  {
    if x == 1 then 0 else 1 + TopBit(x / 2)
  }

  /** `sa`: how far the leading one is from falling off the left end; 0 for zero. */
  function LeadShift(xabs: Word): Word
    ensures LeadShift(xabs) <= 32
  {
    if xabs == 0 then 0 else TopBitBelow32(xabs); 32 - TopBit(xabs)
  }

  /** The straight-line part after the search. */
  function FromShift(s: Word, xabs: Word, sa: Word): Word {
    var xs := if sa == 32 then 0 else Shl(xabs, sa);
    var top, next := Shr(xs, 9), Slice(xs, 9, 9);
    var ey: Word :=
      if sa == 0 then 0
      else if top == 0x7f_ffff && next != 0 then (127 - sa + 33) % TWO32
      else (127 - sa + 32) % TWO32;
    MkFloat(s, ey, Slice((top + next) % TWO32, 23, 1))
  }

  /** fcvtsw as a function. The source negates in 32 bits; for -2^31 this is the wrapped result. */
  function FCvtSW(n: Int32): Word {
    FromShift(if n < 0 then 1 else 0, Abs(n), LeadShift(Abs(n)))
  }

  lemma TopBitBelow32(x: Word)
    requires x > 0
    ensures TopBit(x) <= 31
  {
    Pow2Gap(31, TopBit(x));
    Pow2Values();
  }

  lemma TopBitUnique(x: nat, t: nat)
    requires x > 0 && Pow2(t) <= x < 2 * Pow2(t)
    ensures TopBit(x) == t
  {
    Pow2Gap(TopBit(x), t);
    Pow2Gap(t, TopBit(x));
  }

  /** fcvtsw with its downward search for the leading one. */
  method ConvertIntToFloat(x: Int32) returns (y: Word)
    ensures y == FCvtSW(x)
  {
    hide FromShift;
    var s: Word := if x < 0 then 1 else 0;
    var n: int := x;
    var xabs: Word := if n >= 0 then n else -n;
    var sa: Word := 0;
    var i := 31;
    Pow2Values();
    while i >= 0
      invariant -1 <= i <= 31
      invariant xabs < Pow2(i + 1)
      invariant sa == 0
    {
      if Shr(xabs, i) % 2 == 1 {
        sa := 32 - i;
        break;
      }
      assert xabs < Pow2(i) by { BitClear(xabs, i); }
      if i == 0 {
        sa := 0;
      }
      i := i - 1;
    }
    if sa != 0 {
      BitSet(xabs, i);
      TopBitUnique(xabs, i);
    }
    assert sa == LeadShift(xabs);
    y := FromShift(s, xabs, sa);
  }

  lemma BitClear(x: Word, i: nat)
    requires x < Pow2(i + 1) && Shr(x, i) % 2 != 1
    ensures x < Pow2(i)
  {
    if x >= Pow2(i) { DivModUnique(x, Pow2(i), 1, x - Pow2(i)); }
  }

  lemma BitSet(x: Word, i: nat)
    requires Shr(x, i) % 2 == 1
    ensures x >= Pow2(i)
  {
    if x < Pow2(i) { DivModUnique(x, Pow2(i), 0, x); }
  }

  // ---- fcvtws rounds half away from zero ----

  /** u/d rounded to an integer, halves away from zero. */
  ghost function RoundHalf(u: nat, d: nat): nat
    requires d > 0
  {
    (2 * u + d) / (2 * d)
  }

  ghost function RoundHalfAway(u: int, d: nat): int
    requires d > 0
  {
    if u >= 0 then RoundHalf(u, d) else -(RoundHalf(-u, d) as int)
  }

  /** Equal ratios round alike. */
  lemma RoundRatio(u: nat, d: nat, v: nat, b: nat)
    requires d > 0 && b > 0 && u * b == v * d
    ensures RoundHalf(u, d) == RoundHalf(v, b)
  {
    var q := RoundHalf(v, b);
    var r := 2 * v + b - 2 * b * q;
    assert 0 <= r < 2 * b;
    var s := 2 * u + d - 2 * d * q;
    RatioStep(u, d, v, b, q);
    if s < 0 { MulMonotone(s, -1, b); MulMonotone(0, r, d); }
    if s >= 2 * d { MulMonotone(2 * d, s, b); MulMonotone(r, 2 * b - 1, d); Commute(b, d); }
    DivModUnique(2 * u + d, 2 * d, q, s);
  }

  lemma Commute(b: int, d: int)
    ensures 2 * d * b == 2 * b * d && (2 * b - 1) * d == 2 * b * d - d
  {
  }

  lemma RatioStep(u: int, d: int, v: int, b: int, q: int)
    requires u * b == v * d
    ensures (2 * u + d - 2 * d * q) * b == (2 * v + b - 2 * b * q) * d
  {
    calc {
      (2 * u + d - 2 * d * q) * b;
      2 * (u * b) + d * b - 2 * d * q * b;
      2 * (v * d) + b * d - 2 * b * q * d;
      (2 * v + b - 2 * b * q) * d;
    }
  }

  ghost function Halved(x: nat, times: nat): int { x / Pow2(times) }

  /** A floor and the bit below it make a rounding. */
  lemma ShiftRounds(me: nat, sa: nat)
    ensures RoundHalf(me, Pow2(sa)) ==
            if sa == 0 then me else Halved(me, sa) + Halved(me, sa - 1) % 2
  {
    if sa > 0 {
      hide RoundHalf;
      DivDiv(me, Pow2(sa - 1), 2);
      RoundByTwo(me, Pow2(sa - 1));
    } else {
      RoundWhole(me);
    }
  }

  lemma RoundWhole(me: nat)
    ensures RoundHalf(me, 1) == me
  {
  }

  lemma RoundByTwo(me: nat, p: nat)
    requires p >= 1
    ensures RoundHalf(me, 2 * p) == me / p / 2 + me / p % 2
  {
    DivDiv(2 * me + 2 * p, 2, 2 * p);
    DivDiv(me + p, p, 2);
    DivModUnique(me + p, p, me / p + 1, me % p);
  }

  /** The rounded magnitude; from 2^31 on (exponent field above 157) the shift amount wraps and
      everything is shifted out. */
  lemma RoundedMagIs(e: Word, m: Word)
    requires e <= 255 && m < HIDDEN
    ensures RoundedMag(e, m) < 0x8000_0000
    ensures RoundedMag(e, m) == if e > 157 then 0 else RoundHalf((HIDDEN + m) * 128, Pow2(157 - e))
  {
    hide Pow2, RoundShift, RoundHalf;
    Pow2Values();
    var me := (HIDDEN + m) * 128;
    assert (0x4000_0000 + Shl(m, 7)) % TWO32 == me;
    if e <= 157 {
      RoundShiftIs(me, 157 - e);
    } else {
      AllShiftedOut(me, TWO32 + 157 - e);
    }
  }

  lemma AllShiftedOut(me: Word, sa: Word)
    requires sa > 32
    ensures RoundShift(me, sa) == 0
  {
  }

  lemma RoundShiftIs(me: Word, sa: Word)
    requires me < 0x8000_0000 - 64 && sa <= 157
    ensures RoundShift(me, sa) < 0x8000_0000
    ensures RoundShift(me, sa) == RoundHalf(me, Pow2(sa))
  {
    hide Pow2, GuardedShr, RoundHalf, Halved;
    ShiftRounds(me, sa);
    GuardedShrIs(me, sa);
    if sa == 0 {
      FarGuard(me);
    } else {
      GuardedShrIs(me, sa - 1);
      HalfOf(me, sa);
    }
  }

  lemma FarGuard(me: Word)
    ensures GuardedShr(me, TWO32 - 1) == 0
  {
  }

  lemma GuardedShrIs(me: Word, sa: Word)
    requires me < 0x8000_0000
    ensures GuardedShr(me, sa) == Halved(me, sa) && (sa == 0 ==> Halved(me, sa) == me)
  {
    if sa > 31 { FarShift(me, sa); } else { ShrIs(me, sa, Pow2(sa)); }
  }

  lemma FarShift(me: Word, sa: nat)
    requires me < 0x8000_0000 && sa >= 31
    ensures me / Pow2(sa) == 0
  {
    Pow2Monotone(31, sa);
    Pow2Values();
    DivModUnique(me, Pow2(sa), 0, me);
  }

  lemma HalfOf(me: Word, sa: nat)
    requires sa > 0 && me < 0x8000_0000
    ensures 0 <= Halved(me, sa) < 0x4000_0000
  {
    DivDiv(me, 2, Pow2(sa - 1));
    ShrinkByDivision(me / 2, Pow2(sa - 1));
  }

  lemma MagRounds(x: Word)
    requires Exp(x) <= 157
    ensures RoundedMag(Exp(x), Man(x)) == RoundHalf(MagUnits(x), ONE)
  {
    hide Pow2, RoundedMag, RoundHalf;
    Fields(x);
    RoundedMagIs(Exp(x), Man(x));
    if Exp(x) == 0 {
      SmallRounds(Man(x));
      assert MagUnits(x) == Man(x) by { Pow2Values(); }
    } else {
      var e, sig := Exp(x), HIDDEN + Man(x);
      ScaleUp(sig, e);
      RoundRatio(MagUnits(x), ONE, sig * 128, Pow2(157 - e));
    }
  }

  lemma ScaleUp(sig: nat, e: nat)
    requires 1 <= e <= 157
    ensures (sig * Pow2(e - 1)) * Pow2(157 - e) == (sig * 128) * ONE
  {
    hide Pow2;
    Pow2Add(e - 1, 157 - e);
    Pow2Add(7, 149);
    Pow2Values();
    MulAssoc(sig, Pow2(e - 1), Pow2(157 - e));
    MulAssoc(sig, 128, ONE);
  }

  lemma OneIsLarge()
    ensures ONE >= 0x1_0000_0000
  {
    hide Pow2;
    Pow2Monotone(32, 149);
    Pow2Values();
  }

  /** A subnormal is below one half. */
  lemma SmallRounds(m: nat)
    requires m < HIDDEN
    ensures RoundHalf(m, ONE) == RoundHalf((HIDDEN + m) * 128, Pow2(157)) == 0
  {
    hide Pow2;
    OneIsLarge();
    DivModUnique(2 * m + ONE, 2 * ONE, 0, 2 * m + ONE);
    var p := Pow2(157);
    assert p >= 0x1_0000_0000 by { Pow2Monotone(32, 157); Pow2Values(); }
    DivModUnique(2 * (HIDDEN + m) * 128 + p, 2 * p, 0, 2 * (HIDDEN + m) * 128 + p);
  }

  lemma FCvtWSIs(x: Word)
    ensures RoundedMag(Exp(x), Man(x)) < 0x8000_0000
    ensures FCvtWS(x) == var r: int := RoundedMag(Exp(x), Man(x)); if Sign(x) == 0 then r else -r
  {
    hide RoundedMag, Slice, Shr;
    Fields(x);
    FieldSlices(x);
    RoundedMagIs(Exp(x), Man(x));
  }

  /** Main result: fcvtws rounds a finite float to the nearest integer, halves away from zero,
      exactly when the exponent field is at most 157; above that it returns 0. */
  lemma FCvtWSRounds(x: Word)
    requires Finite(x)
    ensures FCvtWS(x) == RoundHalfAway(Units(x), ONE) <==> Exp(x) <= 157
    ensures Exp(x) > 157 ==> FCvtWS(x) == 0
  {
    hide RoundedMag, FCvtWS, RoundHalf, MagUnits, Pow2;
    FCvtWSIs(x);
    Fields(x);
    RoundedMagIs(Exp(x), Man(x));
    if Exp(x) <= 157 {
      MagRounds(x);
      assert RoundHalf(0, ONE) == 0 by { RoundMultiple(0, ONE); }
    } else {
      BigMag(x);
      RoundAtLeast(MagUnits(x), ONE);
    }
  }

  lemma BigMag(x: Word)
    requires Exp(x) > 157
    ensures MagUnits(x) >= ONE
  {
    Fields(x);
    Pow2Monotone(149, Scale(x));
    MulMonotone(1, Significand(x), Pow2(Scale(x)));
  }

  lemma RoundAtLeast(u: nat, d: nat)
    requires 0 < d <= u
    ensures RoundHalf(u, d) >= 1
  {
    DivMonotone(2 * d, 2 * u + d, 2 * d);
    DivModUnique(2 * d, 2 * d, 1, 0);
  }

  lemma RoundMultiple(k: nat, d: nat)
    requires d > 0
    ensures RoundHalf(k * d, d) == k
  {
    DivModUnique(2 * (k * d) + d, 2 * d, k, d);
  }
}
