/** The word helpers of the FPU emulator (fpu/impl/fpulib.c), on 32-bit words held as integers. */
module FpuLib {
  import opened Arithmetic

  const TWO32: int := 0x1_0000_0000

  /** A `uint32_t`. */
  type Word = x: int | 0 <= x < 0x1_0000_0000

  /** `x >> n`. */
  function Shr(x: Word, n: nat): (r: Word)
    ensures r <= x
  {
    ShrinkByDivision(x, Pow2(n));
    x / Pow2(n)
  }

  /** `x << n`, with the high bits lost. */
  function Shl(x: Word, n: nat): Word {
    (x * Pow2(n)) % TWO32
  }

  /** `slice` of fpulib.c: the bits of `x` from position `left` down to `right`, counted from 1. */
  function Slice(x: Word, left: nat, right: nat): Word
    requires 1 <= right <= left <= 32
  {
    Shr(Shl(x, 32 - left), 31 - left + right)
  }

  /** `mkfloat` of fpulib.c: every shift and sum is modulo 2^32. */
  function MkFloat(s: Word, e: Word, m: Word): Word {
    (Shl(s, 31) + Shl(e, 23) + m) % TWO32
  }

  /** A shift by a known power. */
  lemma ShrIs(x: Word, n: nat, d: nat)
    requires d == Pow2(n)
    ensures Shr(x, n) == x / d
  {
  }

  /** A value that fits is not changed by the wrap. */
  lemma Fits(x: nat)
    requires x < TWO32
    ensures x % TWO32 == x
  {
  }

  /** `slice` cuts out the field of width `left - right + 1` that starts at bit `right - 1`. */
  lemma SliceField(x: Word, left: nat, right: nat)
    requires 1 <= right <= left <= 32
    ensures Slice(x, left, right) == x / Pow2(right - 1) % Pow2(left - right + 1)
  {
    hide Pow2;
    var up, low, width := Pow2(32 - left), Pow2(right - 1), Pow2(left - right + 1);
    WordSplit(right - 1, left - right + 1, 32 - left);
    Pow2Add(32 - left, right - 1);
    CutField(x, up, low, width);
    assert 32 - left + (right - 1) == 31 - left + right;
    assert Slice(x, left, right) == (x * up) % TWO32 / (up * low);
  }

  /** `slice`, with the two powers already known. */
  lemma SliceIs(x: Word, left: nat, right: nat, low: nat, width: nat)
    requires 1 <= right <= left <= 32 && low == Pow2(right - 1) && width == Pow2(left - right + 1)
    ensures Slice(x, left, right) == x / low % width
  {
    hide Slice;
    SliceField(x, left, right);
  }
}
