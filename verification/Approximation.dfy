/** The parts of fdiv (fpu/impl/fdiv.c) and fsqrt (fpu/impl/fsqrt.c) that do not depend on the
    host's floating point: segment choice, the reciprocal line over exact reals, and the exact
    range reduction of the square root. */
module Approximation {
  import opened Arithmetic
  import opened FpuLib
  import opened Floats

  // ---- fdiv ----

  /** `h`: the segment number, from the top ten bits of the divisor's mantissa. */
  function Segment(m2: Word): Word { Slice(m2, 23, 14) }

  function Grad(h: Word): real {
    1024.0 * (1024.0 / (1024.0 + h as real) - 1024.0 / (1025.0 + h as real))
  }

  function Intercept(h: Word): real {
    1024.0 * (1.0 - (1024.0 + h as real) / (1025.0 + h as real))
    + (768.0 / (1024.0 + h as real) - 256.0 / (1025.0 + h as real) + 1024.0 / (2049.0 + (2 * h) as real))
  }

  lemma SegmentRange(m2: Word)
    requires m2 < HIDDEN
    ensures var h := Segment(m2); h <= 1023 && h * 8192 <= m2 < (h + 1) * 8192
  {
    hide Slice, Pow2;
    assert Pow2(13) == 8192 && Pow2(10) == 1024 by { Pow2Thirteen(); }
    SliceIs(m2, 23, 14, 8192, 1024);
  }

  lemma Pow2Thirteen()
    ensures Pow2(13) == 8192 && Pow2(10) == 1024
  {
  }

  ghost function Factor(s: real, d: real): real { 1.0 - s * d - 2.0 * d * d }

  /** With p = 1/a, q = 1/b and s = 1/(a+b), and t between a and b = a+1, the line through the
      segment is off by (pq/8)(1 - sd - 2dd) for d = 2t - (a+b). */
  lemma LineError(a: real, p: real, q: real, s: real, t: real)
    requires a * p == 1.0 && (a + 1.0) * q == 1.0 && (2.0 * a + 1.0) * s == 1.0
    ensures var d := 2.0 * t - (2.0 * a + 1.0);
            8.0 * (t * (0.75 * (p + q) + s - (p - q) * t) - 1.0) == p * q * Factor(s, d)
  {
    var c, w := 2.0 * a + 1.0, p * q;
    var d := 2.0 * t - c;
    assert p - q == w && p + q == c * w by { Reciprocals(a, p, q); }
    assert c * c * w == 4.0 + w by { SquareSum(a, p, q); }
    assert c * w == 4.0 * s + w * s by { CancelOne(c, s, w); }
    Expand(c, d, w, s);
    assert t == (c + d) / 2.0;
  }

  lemma CancelOne(c: real, s: real, w: real)
    requires c * s == 1.0 && c * c * w == 4.0 + w
    ensures c * w == 4.0 * s + w * s
  {
    var k := c * w;
    assert k == (c * s) * k == s * (c * k);
    assert c * k == 4.0 + w;
  }

  lemma Reciprocals(a: real, p: real, q: real)
    requires a * p == 1.0 && (a + 1.0) * q == 1.0
    ensures p - q == p * q && p + q == (2.0 * a + 1.0) * (p * q)
  {
    assert p == p * ((a + 1.0) * q) == (a * p) * q + p * q;
    assert q == q * (a * p) == a * (p * q);
  }

  lemma SquareSum(a: real, p: real, q: real)
    requires a * p == 1.0 && (a + 1.0) * q == 1.0
    ensures (2.0 * a + 1.0) * (2.0 * a + 1.0) * (p * q) == 4.0 + p * q
  {
    var w := p * q;
    assert a * (a + 1.0) * w == (a * p) * ((a + 1.0) * q) == 1.0;
    assert (2.0 * a + 1.0) * (2.0 * a + 1.0) == 4.0 * (a * (a + 1.0)) + 1.0;
  }

  lemma Expand(c: real, d: real, w: real, s: real)
    requires c * s == 1.0 && c * c * w == 4.0 + w && c * w == 4.0 * s + w * s
    ensures var t := (c + d) / 2.0;
            8.0 * (t * (0.75 * (c * w) + s - w * t) - 1.0) == w * (1.0 - s * d - 2.0 * d * d)
  {
    var t := (c + d) / 2.0;
    var k := c * w;
    assert w * t == k / 2.0 + w * d / 2.0;
    assert 0.75 * k + s - w * t == k / 4.0 + s - w * d / 2.0;
    var v := k / 4.0 + s - w * d / 2.0;
    assert c * v == 2.0 + w / 4.0 - k * d / 2.0 by {
      assert c * k == 4.0 + w;
      assert c * (w * d / 2.0) == k * d / 2.0;
    }
    assert d * v == k * d / 4.0 + s * d - w * d * d / 2.0;
    assert k * d == 4.0 * s * d + w * s * d;
    assert t * v == (c * v + d * v) / 2.0;
  }

  lemma MulMono(a: real, b: real, c: real)
    requires a <= b && c >= 0.0
    ensures a * c <= b * c
  {
  }

  lemma UnitReciprocal(a: real, p: real, lo: real, hi: real)
    requires a * p == 1.0 && 0.0 < lo <= a && lo * hi == 1.0
    ensures 0.0 < p <= hi && lo * p <= 1.0
  {
    if p <= 0.0 { MulMono(p, 0.0, a); }
    MulMono(lo, a, p);
    assert p == (lo * hi) * p == hi * (lo * p);
    if hi <= 0.0 { MulMono(hi, 0.0, lo); }
    MulMono(lo * p, 1.0, hi);
  }

  /** The error factor is below 2^-23 on every segment, by a margin of about one part in 2000. */
  lemma ErrorBound(p: real, q: real, s: real, d: real, e: real)
    requires 0.0 < p && 1024.0 * p <= 1.0 && 0.0 < q && 1025.0 * q <= 1.0 && 0.0 < s && 2049.0 * s <= 1.0
    requires -1.0 <= d <= 1.0
    requires e == p * q * Factor(s, d)
    ensures -8.0 < 8388608.0 * e && 8388608.0 * e < 8.0
  {
    hide Factor;
    var w, a := p * q, 1024.0 * p;
    MulMono(a, 1.0, q);
    assert a * q <= 1.0 * q;
    assert a * q == 1024.0 * w;
    assert w > 0.0;
    FactorBound(s, d);
    SmallProduct(w, Factor(s, d), e);
  }

  lemma FactorBound(s: real, d: real)
    requires 0.0 < s && 2049.0 * s <= 1.0 && -1.0 <= d <= 1.0
    ensures -2050.0 <= 2049.0 * Factor(s, d) <= 2050.0
  {
    UnitSquare(d);
    var sd, dd := s * d, d * d;
    MulMono(d, 1.0, s);
    assert d * s <= 1.0 * s;
    MulMono(-1.0, d, s);
    assert -1.0 * s <= d * s;
    SmallFactor(s, sd, dd);
    assert Factor(s, d) == 1.0 - sd - 2.0 * dd;
  }

  lemma UnitSquare(d: real)
    requires -1.0 <= d <= 1.0
    ensures 0.0 <= d * d <= 1.0
  {
    var e := if d >= 0.0 then d else 0.0 - d;
    MulMono(e, 1.0, e);
    assert e * e <= 1.0 * e;
    assert e * e == d * d;
  }

  lemma SmallFactor(s: real, sd: real, dd: real)
    requires 0.0 < s && 2049.0 * s <= 1.0 && -s <= sd <= s && 0.0 <= dd <= 1.0
    ensures -2050.0 <= 2049.0 * (1.0 - sd - 2.0 * dd) <= 2050.0
  {
  }

  lemma SmallProduct(w: real, g: real, x: real)
    requires 0.0 < w && 1049600.0 * w <= 1.0 && -2050.0 <= 2049.0 * g <= 2050.0 && x == w * g
    ensures -8.0 < 8388608.0 * x && 8388608.0 * x < 8.0
  {
    var a := 2049.0 * g;
    MulMono(a, 2050.0, w);
    assert a * w <= 2050.0 * w;
    MulMono(-2050.0, a, w);
    assert -2050.0 * w <= a * w;
    assert a * w == 2049.0 * x;
    SmallRatio(x, w);
  }

  lemma SmallRatio(x: real, w: real)
    requires 0.0 < w && 1049600.0 * w <= 1.0 && -2050.0 * w <= 2049.0 * x <= 2050.0 * w
    ensures -8.0 < 8388608.0 * x < 8.0
  {
  }

  /** The bound for a divisor t/1024 in a segment that starts at a/1024. */
  lemma LineWithin(a: real, p: real, q: real, s: real, t: real)
    requires a * p == 1.0 && (a + 1.0) * q == 1.0 && (2.0 * a + 1.0) * s == 1.0 && 1024.0 <= a <= t <= a + 1.0
    ensures -1.0 / 8388608.0 < t * (0.75 * (p + q) + s - (p - q) * t) - 1.0 < 1.0 / 8388608.0
  {
    hide Factor;
    UnitReciprocal(a, p, 1024.0, 1.0 / 1024.0);
    UnitReciprocal(a + 1.0, q, 1025.0, 1.0 / 1025.0);
    UnitReciprocal(2.0 * a + 1.0, s, 2049.0, 1.0 / 2049.0);
    LineError(a, p, q, s, t);
    var e := p * q * Factor(s, 2.0 * t - (2.0 * a + 1.0));
    ErrorBound(p, q, s, 2.0 * t - (2.0 * a + 1.0), e);
    ScaledDown(t * (0.75 * (p + q) + s - (p - q) * t), e);
  }

  /** Main result for fdiv: over exact reals, the divisor mantissa lies in its segment and the
      segment's line times the mantissa is within 2^-23 of 1. */
  lemma ReciprocalLine(m2: Word)
    requires m2 < HIDDEN
    ensures var h := Segment(m2); var x := 1.0 + m2 as real / 8388608.0;
            && 1.0 + h as real / 1024.0 <= x < 1.0 + (h + 1) as real / 1024.0
            && -1.0 / 8388608.0 < x * (Intercept(h) - Grad(h) * x) - 1.0 < 1.0 / 8388608.0
  {
    hide Segment, Grad, Intercept;
    SegmentRange(m2);
    var h, x := Segment(m2), 1.0 + m2 as real / 8388608.0;
    var a, t := 1024.0 + h as real, 1024.0 * x;
    var p, q, s := 1.0 / a, 1.0 / (a + 1.0), 1.0 / (2.0 * a + 1.0);
    assert a * p == 1.0 && (a + 1.0) * q == 1.0 && (2.0 * a + 1.0) * s == 1.0;
    LineWithin(a, p, q, s, t);
    CoefficientsInReciprocals(h, a, p, q, s);
    Rescale(x, 0.75 * (p + q) + s, p - q);
    assert x * (Intercept(h) - Grad(h) * x) == t * (0.75 * (p + q) + s - (p - q) * t);
  }

  lemma ScaledDown(f: real, e: real)
    requires 8.0 * (f - 1.0) == e && -8.0 < 8388608.0 * e && 8388608.0 * e < 8.0
    ensures -1.0 / 8388608.0 < f - 1.0 < 1.0 / 8388608.0
  {
  }

  lemma Rescale(x: real, i: real, g: real)
    ensures x * (1024.0 * i - 1048576.0 * g * x) == (1024.0 * x) * (i - g * (1024.0 * x))
  {
  }

  lemma CoefficientsInReciprocals(h: Word, a: real, p: real, q: real, s: real)
    requires a == 1024.0 + h as real && p == 1.0 / a && q == 1.0 / (a + 1.0) && s == 1.0 / (2.0 * a + 1.0)
    ensures Grad(h) == 1048576.0 * (p - q)
    ensures Intercept(h) == 1024.0 * (0.75 * (p + q) + s)
  {
    assert 1024.0 / a == 1024.0 * p && 1024.0 / (a + 1.0) == 1024.0 * q;
    assert 1.0 - a / (a + 1.0) == q;
    assert 768.0 / a == 768.0 * p && 256.0 / (a + 1.0) == 256.0 * q;
    assert 1024.0 / (2049.0 + (2 * h) as real) == 1024.0 * s;
  }

  // ---- fsqrt ----

  /** `h`: exponent parity, flipped, above the top nine mantissa bits. */
  function SqrtSegment(x: Word): Word {
    var f := Slice(x, 24, 15);
    if f % 1024 >= 512 then f - 512 else f + 512
  }

  /** `mn`: the argument scaled into [1, 4). */
  function Reduced(x: Word): Word {
    MkFloat(0, if Slice(x, 31, 24) % 2 == 1 then 127 else 128, Slice(x, 23, 1))
  }

  /** `ey`: the halved exponent, with the unsigned wrap of `e - 127`. */
  function SqrtExp(e: Word): Word {
    if e == 255 || e == 0 then 0 else ((e - 127) % TWO32 / 2 + 127) % TWO32
  }

  /** The result of fsqrt, given the mantissa bits `my` of the approximated root. */
  function SqrtResult(x: Word, my: Word): Word { MkFloat(Shr(x, 31), SqrtExp(Slice(x, 31, 24)), my) }

  lemma SegmentBits(x: Word)
    ensures SqrtSegment(x) == (if Exp(x) % 2 == 1 then 0 else 512) + Man(x) / 16384
  {
    hide Slice, Pow2;
    Pow2Values();
    assert Pow2(10) == 1024 by { Pow2Thirteen(); }
    SliceIs(x, 24, 15, 16384, 1024);
    DivDiv(x, 16384, 512);
    DivDiv(x / 16384, 512, 2);
    DivModUnique(Man(x), 16384, x / 16384 % 512, x % 16384);
  }

  /** Main result for fsqrt: mn * 4^(ey-127) is the argument, mn lies in the chosen segment, and
      the result's exponent field is floor((e+127)/2) even though the source halves a wrapped
      difference. */
  lemma SqrtReduction(x: Word, my: Word)
    requires Normal(x) && Sign(x) == 0 && my < HIDDEN
    ensures var ey := Exp(SqrtResult(x, my)); var mn := Reduced(x); var h := SqrtSegment(x);
            && ey == (Exp(x) + 127) / 2 && Sign(SqrtResult(x, my)) == 0 && Man(SqrtResult(x, my)) == my
            && Units(mn) * Pow2(ey * 2) == Units(x) * Pow2(254)
            && (if h < 512 then (512 + h) * ONE <= 512 * Units(mn) < (513 + h) * ONE
                else h * ONE <= 256 * Units(mn) < (h + 1) * ONE)
  {
    hide Slice, Pow2, Shr, MkFloat, SqrtSegment, SqrtExp, Exp, Man, Sign, Reduced;
    FieldSlices(x);
    WrappedExp(Exp(x), my);
    ReducedUnits(x);
    SegmentBits(x);
    Fields(x);
    var u := Pow2(126);
    assert ONE == HIDDEN * u by {
      Pow2Add(23, 126);
      Pow2Values();
    }
    SegmentScale(Man(x), u);
  }

  /** The scaled argument, in units, and the factor it was scaled by. */
  lemma ReducedUnits(x: Word)
    requires Normal(x) && Sign(x) == 0
    ensures Units(Reduced(x)) == (if Exp(x) % 2 == 1 then 1 else 2) * ((HIDDEN + Man(x)) * Pow2(126))
    ensures Units(Reduced(x)) * Pow2((Exp(x) + 127) / 2 * 2) == Units(x) * Pow2(254)
  {
    hide Slice, Pow2, Shr, MkFloat, Exp, Man, Sign;
    FieldSlices(x);
    Fields(x);
    var e, sig := Exp(x), HIDDEN + Man(x);
    var k: Word := if e % 2 == 1 then 127 else 128;
    MkFloatFields(0, k, Man(x));
    var j := (e + 127) / 2 * 2;
    assert k - 1 + j == e - 1 + 254;
    Pow2Add(k - 1, j);
    Pow2Add(e - 1, 254);
    MulAssoc(sig, Pow2(k - 1), Pow2(j));
    MulAssoc(sig, Pow2(e - 1), Pow2(254));
    Pow2Add(1, 126);
    Pow2Values();
    MulAssoc(sig, 2, Pow2(126));
  }

  lemma SegmentScale(m: nat, u: nat)
    requires m < HIDDEN && u > 0
    ensures var j := m / 16384;
            (512 + j) * (HIDDEN * u) <= 512 * ((HIDDEN + m) * u) < (513 + j) * (HIDDEN * u)
  {
    var j := m / 16384;
    MulMonotone((512 + j) * HIDDEN, 512 * (HIDDEN + m), u);
    MulMonotone(512 * (HIDDEN + m) + 1, (513 + j) * HIDDEN, u);
    MulDistributes(512 * (HIDDEN + m), 1, u);
    MulAssoc(512 + j, HIDDEN, u);
    MulAssoc(513 + j, HIDDEN, u);
    MulAssoc(512, HIDDEN + m, u);
  }

  lemma HalvedExp(e: Word)
    requires 1 <= e <= 254
    ensures SqrtExp(e) == (if e < 127 then 0x8000_0000 else 0) + (e + 127) / 2
  {
    if e < 127 { DivModUnique(e - 127, TWO32, -1, TWO32 + e - 127); }
  }

  /** The wrapped high bit of the halved difference falls off in mkfloat. */
  /** Zeros, subnormals, infinities and NaNs get exponent field 0. */
  lemma SpecialExp(x: Word, my: Word)
    requires my < HIDDEN
    ensures Exp(x) == 0 || Exp(x) == 255 ==>
              var w := SqrtResult(x, my); Exp(w) == 0 && Man(w) == my && Sign(w) == Sign(x)
  {
    hide Slice, Shr, Pow2;
    Fields(x);
    FieldSlices(x);
    MkFloatFields(Sign(x), 0, my);
  }

  lemma WrappedExp(e: Word, my: Word)
    requires 1 <= e <= 254 && my < HIDDEN
    ensures var w := MkFloat(0, SqrtExp(e), my);
            Exp(w) == (e + 127) / 2 && Sign(w) == 0 && Man(w) == my
  {
    hide Pow2;
    var f: Word := (e + 127) / 2;
    MkFloatFields(0, f, my);
    Pow2Values();
    HalvedExp(e);
    DivModUnique((0x8000_0000 + f) * 0x80_0000, TWO32, 0x40_0000, f * 0x80_0000);
    Fits(f * 0x80_0000);
  }
}
