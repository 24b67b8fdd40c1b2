/** Single-precision words and the numbers they stand for. Every finite float is an integer
    number of units of 2^-149, so values are integers and 1.0 is ONE units. */
module Floats {
  import opened Arithmetic
  import opened FpuLib

  const HIDDEN: int := 0x80_0000      // 2^23, the implicit leading one of a normal significand
  const SIGN_BIT: int := 0x8000_0000  // 2^31
  const ONE: nat := Pow2(149)

  function Sign(w: Word): nat { w / SIGN_BIT }
  function Exp(w: Word): nat { w / HIDDEN % 256 }
  function Man(w: Word): nat { w % HIDDEN }

  /** The encoding without its sign bit. */
  function Mag(w: Word): nat { w % SIGN_BIT }

  predicate Finite(w: Word) { Exp(w) < 255 }
  predicate Normal(w: Word) { 1 <= Exp(w) <= 254 }
  predicate NaN(w: Word) { Exp(w) == 255 && Man(w) != 0 }

  function Significand(w: Word): nat { if Exp(w) == 0 then Man(w) else HIDDEN + Man(w) }
  function Scale(w: Word): nat { if Exp(w) == 0 then 0 else Exp(w) - 1 }
  function MagUnits(w: Word): nat { Significand(w) * Pow2(Scale(w)) }

  /** The value of a finite float, in units of 2^-149. */
  function Units(w: Word): int { var m: int := MagUnits(w); if Sign(w) == 0 then m else -m }

  /** Position of a word in the order of floats; both zeros share one position. */
  function Key(w: Word): int { var m: int := Mag(w); if Sign(w) == 0 then m else -m }

  /** The host's `<` and `>=` on floats: false as soon as one side is not a number. */
  predicate FLess(a: Word, b: Word) { !NaN(a) && !NaN(b) && Key(a) < Key(b) }
  predicate FGreaterEq(a: Word, b: Word) { !NaN(a) && !NaN(b) && Key(a) >= Key(b) }

  lemma Fields(w: Word)
    ensures Sign(w) <= 1 && Man(w) < HIDDEN
    ensures Mag(w) == Exp(w) * HIDDEN + Man(w)
    ensures w == Sign(w) * SIGN_BIT + Mag(w)
  {
    DivDiv(w, HIDDEN, 256);
  }

  /** What the emulator's slices of a float mean. */
  lemma FieldSlices(w: Word)
    ensures Shr(w, 31) == Sign(w) && Slice(w, 31, 24) == Exp(w) && Slice(w, 23, 1) == Man(w)
    ensures Slice(w, 23, 12) == Man(w) / 2048 && Slice(w, 11, 1) == Man(w) % 2048
  {
    hide Slice, Pow2, Shr;
    Pow2Values();
    ShrIs(w, 31, SIGN_BIT);
    SliceIs(w, 31, 24, HIDDEN, 256);
    SliceIs(w, 23, 1, 1, HIDDEN);
    SliceIs(w, 23, 12, 2048, 4096);
    SliceIs(w, 11, 1, 1, 2048);
    DivDiv(w, 2048, 4096);
    DivModUnique(Man(w), 2048, w / 2048 % 4096, w % 2048);
  }

  lemma MkFloatFields(s: Word, e: Word, m: Word)
    requires s <= 1 && e <= 255 && m < HIDDEN
    ensures MkFloat(s, e, m) == s * SIGN_BIT + e * HIDDEN + m
    ensures var w := MkFloat(s, e, m);
            Sign(w) == s && Exp(w) == e && Man(w) == m && Mag(w) == e * HIDDEN + m
  {
    Pow2Values();
    var w := MkFloat(s, e, m);
    DivModUnique(w, SIGN_BIT, s, e * HIDDEN + m);
    DivModUnique(w, HIDDEN, s * 256 + e, m);
    DivModUnique(w / HIDDEN, 256, s, e);
  }

  /** Magnitudes of finite floats grow with their encodings. */
  lemma MagOrder(a: Word, b: Word)
    requires Finite(b) && Mag(a) < Mag(b)
    ensures MagUnits(a) < MagUnits(b)
  {
    hide Slice;
    Fields(a);
    Fields(b);
    var i, j := Scale(a), Scale(b);
    Pow2Monotone(i, j);
    if Exp(a) == Exp(b) {
      assert MagUnits(b) - MagUnits(a) == (Man(b) - Man(a)) * Pow2(i) by {
        MulDistributes(Significand(b), Significand(a), Pow2(i));
      }
      MulMonotone(1, Man(b) - Man(a), Pow2(i));
    } else {
      assert Exp(a) < Exp(b);
      MulMonotone(HIDDEN, Significand(b), Pow2(j));
      if Exp(a) > 0 {
        Pow2Monotone(i + 1, j);
        MulMonotone(Significand(a) + 1, 2 * HIDDEN, Pow2(i));
        MulDistributes(Significand(a), 1, Pow2(i));
      } else {
        MulMonotone(1, Pow2(j), HIDDEN);
      }
    }
  }

  /** The order on encodings is the order on values. */
  lemma KeyOrder(a: Word, b: Word)
    requires Finite(a) && Finite(b)
    ensures Key(a) < Key(b) <==> Units(a) < Units(b)
  {
    ZeroUnits(a);
    ZeroUnits(b);
    if Mag(a) < Mag(b) { MagOrder(a, b); } else if Mag(b) < Mag(a) { MagOrder(b, a); } else { SameMag(a, b); }
  }

  lemma SameMag(a: Word, b: Word)
    requires Mag(a) == Mag(b)
    ensures Exp(a) == Exp(b) && Man(a) == Man(b) && MagUnits(a) == MagUnits(b)
  {
    Fields(a);
    Fields(b);
    QuotientUnique(HIDDEN, Exp(a), Man(a), Exp(b), Man(b));
  }

  lemma ZeroUnits(w: Word)
    ensures MagUnits(w) == 0 <==> Mag(w) == 0
  {
    Fields(w);
    if Significand(w) > 0 { MulMonotone(1, Significand(w), Pow2(Scale(w))); }
  }

  /** A nonzero finite value has one encoding. */
  lemma UnitsInjective(a: Word, b: Word)
    requires Finite(a) && Finite(b) && Units(a) == Units(b) != 0
    ensures a == b
  {
    ZeroUnits(a);
    ZeroUnits(b);
    KeyOrder(a, b);
    KeyOrder(b, a);
    Fields(a);
    Fields(b);
  }
}
