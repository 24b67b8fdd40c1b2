/** ffloor (fpu/impl/ffloor.c) is the mathematical floor. */
module FFloor {
  import opened Arithmetic
  import opened FpuLib
  import opened Floats
  import opened Convert
  import opened IntToFloat

  /** The source subtracts 1.0 in double precision, exactly, and narrows the result to a float.
      `narrow` is the host's narrowing, from units of 2^-149 to an encoding. */
  ghost predicate Faithful(narrow: int -> Word) {
    forall w: Word :: Finite(w) ==> Finite(narrow(Units(w))) && Units(narrow(Units(w))) == Units(w)
  }

  /** An encoding of a value that is a float. */
  ghost function Encoding(units: int): Word {
    if exists w: Word :: Finite(w) && Units(w) == units then var w: Word :| Finite(w) && Units(w) == units; w else 0
  }

  /** There is such a narrowing. */
  lemma FaithfulExists() returns (narrow: int -> Word)
    ensures Faithful(narrow)
  {
    hide Units, Finite;
    narrow := u => Encoding(u);
  }

  function FFloor(x: Word, narrow: int -> Word): Word {
    if Slice(x, 31, 24) > 157 then x
    else
      var f := FCvtSW(FCvtWS(x));
      if FGreaterEq(x, f) then f else narrow(Units(f) - ONE)
  }

  /** From 2^23 on every float is an integer. */
  lemma LargeIsInteger(x: Word) returns (k: int)
    requires Exp(x) >= 150
    ensures Units(x) == k * ONE
  {
    hide Pow2;
    Pow2Add(Scale(x) - 149, 149);
    MulAssoc(Significand(x), Pow2(Scale(x) - 149), ONE);
    k := Significand(x) * Pow2(Scale(x) - 149);
    if Sign(x) != 0 { k := -k; }
  }

  lemma SmallMag(x: Word)
    requires Exp(x) < 150
    ensures Abs(Units(x)) < HIDDEN * ONE
  {
    hide Pow2;
    Fields(x);
    Pow2Gap(Scale(x), 149);
    MulMonotone(Significand(x), 2 * HIDDEN - 1, Pow2(Scale(x)));
  }

  /** The inner rounding misses by at most one half. */
  lemma RoundNear(u: int, d: nat)
    requires d > 0
    ensures 2 * Abs(RoundHalfAway(u, d) * d - u) <= d
  {
    hide RoundHalf;
    RoundNearest(Abs(u), d, 0);
  }

  lemma RoundSmall(u: int, d: nat)
    requires d > 0 && Abs(u) < HIDDEN * d
    ensures Abs(RoundHalfAway(u, d)) <= HIDDEN
  {
    hide RoundHalfAway;
    RoundNear(u, d);
    var v := RoundHalfAway(u, d);
    if v > HIDDEN { MulMonotone(HIDDEN + 1, v, d); }
    if v < -HIDDEN { MulMonotone(v, -HIDDEN - 1, d); }
  }

  /** The inner fcvtsw is exact on every result of fcvtws. */
  lemma InnerExact(x: Word)
    requires Exp(x) <= 157
    ensures var v := FCvtWS(x); Finite(FCvtSW(v)) && Units(FCvtSW(v)) == v * ONE
    ensures Exp(x) < 150 ==> Abs(FCvtWS(x)) <= HIDDEN
  {
    hide FCvtSW, FCvtWS, Units, Pow2, RoundHalfAway;
    FCvtWSRounds(x);
    if Exp(x) >= 150 {
      var k := LargeIsInteger(x);
      RoundExact(k);
      FCvtSWExact(k, x);
    } else {
      SmallMag(x);
      RoundSmall(Units(x), ONE);
      FCvtSWExactSmall(FCvtWS(x));
    }
  }

  /** A number within half a step of v*d has floor v or v-1. */
  lemma FloorFrom(u: int, v: int, d: nat)
    requires d > 0 && 2 * Abs(v * d - u) <= d
    ensures u / d == if u >= v * d then v else v - 1
  {
    if u >= v * d {
      DivModUnique(u, d, v, u - v * d);
    } else {
      MulDistributes(v, 1, d);
      DivModUnique(u, d, v - 1, u - v * d + d);
    }
  }

  /** Main result: for every finite float, ffloor returns a float whose value is the largest
      integer not above the argument. */
  lemma FFloorIsFloor(x: Word, narrow: int -> Word)
    requires Finite(x) && Faithful(narrow)
    ensures Finite(FFloor(x, narrow)) && Units(FFloor(x, narrow)) == Units(x) / ONE * ONE
  {
    hide FCvtSW, FCvtWS, Units, Pow2, RoundHalfAway, Slice, Shr, Key, Faithful;
    FieldSlices(x);
    if Exp(x) > 157 {
      var k := LargeIsInteger(x);
      DivModUnique(Units(x), ONE, k, 0);
    } else {
      var v := FCvtWS(x);
      var f := FCvtSW(v);
      FCvtWSRounds(x);
      InnerExact(x);
      RoundNear(Units(x), ONE);
      FloorFrom(Units(x), v, ONE);
      KeyOrder(x, f);
      if Units(x) < v * ONE {
        assert Exp(x) < 150 by {
          if Exp(x) >= 150 {
            var k := LargeIsInteger(x);
            RoundExact(k);
          }
        }
        MulDistributes(v, 1, ONE);
        FCvtSWExactSmall(v - 1);
        NarrowExact(narrow, FCvtSW(v - 1));
      }
    }
  }

  lemma NarrowExact(narrow: int -> Word, w: Word)
    requires Faithful(narrow) && Finite(w)
    ensures Finite(narrow(Units(w))) && Units(narrow(Units(w))) == Units(w)
  {
  }
}
