/** Integer facts about powers of two, quotients and remainders. */
module Arithmetic {
  function Pow2(n: nat): (r: nat)
    ensures r >= 1
  {
    if n == 0 then 1 else 2 * Pow2(n - 1)
  }

  lemma ShrinkByDivision(x: nat, d: nat)
    requires d >= 1
    ensures 0 <= x / d <= x
  {
    var q := x / d;
    assert x == q * d + x % d;
    if q < 0 { MulMonotone(q, -1, d); }
    MulMonotone(1, d, q);
  }

  lemma Pow2Values()
    ensures Pow2(0) == 1 && Pow2(1) == 2 && Pow2(2) == 4 && Pow2(7) == 128 && Pow2(8) == 256 && Pow2(9) == 512 && Pow2(11) == 2048 && Pow2(12) == 4096
    ensures Pow2(14) == 16384 && Pow2(22) == 0x40_0000 && Pow2(23) == 0x80_0000
    ensures Pow2(24) == 0x100_0000 && Pow2(25) == 0x200_0000 && Pow2(30) == 0x4000_0000
    ensures Pow2(31) == 0x8000_0000 && Pow2(32) == 0x1_0000_0000
  {
    assert Pow2(8) == 256;
    assert Pow2(16) == 0x1_0000;
    assert Pow2(24) == 0x100_0000;
  }

  lemma {:induction false} Pow2Add(a: nat, b: nat)
    ensures Pow2(a + b) == Pow2(a) * Pow2(b)
  {
    if a > 0 {
      Pow2Add(a - 1, b);
      assert Pow2(a + b) == 2 * Pow2(a - 1 + b);
    }
  }

  lemma {:induction false} Pow2Monotone(a: nat, b: nat)
    requires a <= b
    ensures Pow2(a) <= Pow2(b)
  {
    if a < b { Pow2Monotone(a, b - 1); }
  }

  lemma Pow2Gap(a: nat, b: nat)
    ensures a < b ==> 2 * Pow2(a) <= Pow2(b)
  {
    if a < b { Pow2Monotone(a + 1, b); }
  }

  lemma MulMonotone(a: int, b: int, c: int)
    requires a <= b && c >= 0
    ensures a * c <= b * c
  {
  }

  lemma MulDistributes(a: int, b: int, c: int)
    ensures (a + b) * c == a * c + b * c && (a - b) * c == a * c - b * c
  {
  }

  lemma MulAssoc(a: int, b: int, c: int)
    ensures a * b * c == a * (b * c)
  {
  }

  function Abs(x: int): nat { if x < 0 then -x else x }

  lemma AbsScale(x: int, y: int, k: nat)
    ensures Abs(x * k - y * k) == Abs(x - y) * k
  {
    MulDistributes(x, y, k);
    if x < y { MulMonotone(x - y, 0, k); } else { MulMonotone(0, x - y, k); }
  }

  lemma QuotientUnique(d: int, q: int, r: int, p: int, s: int)
    requires q * d + r == p * d + s && 0 <= r < d && 0 <= s < d
    ensures q == p && r == s
  {
    MulDistributes(q, p, d);
    if q > p { MulMonotone(1, q - p, d); }
    if q < p { MulMonotone(q - p, -1, d); }
  }

  /** A quotient and a remainder determine each other. */
  lemma DivModUnique(x: int, d: int, q: int, r: int)
    requires d > 0 && x == q * d + r && 0 <= r < d
    ensures x / d == q && x % d == r
  {
    QuotientUnique(d, q, r, x / d, x % d);
  }

  lemma DivMonotone(x: int, y: int, d: int)
    requires d > 0 && x <= y
    ensures x / d <= y / d
  {
    var p, q := x / d, y / d;
    assert x == p * d + x % d && y == q * d + y % d;
    MulDistributes(p, q, d);
    if p > q { MulMonotone(1, p - q, d); }
  }

  /** Dividing by a product is dividing twice. */
  lemma DivDiv(x: nat, a: nat, b: nat)
    requires a >= 1 && b >= 1
    ensures a * b >= 1 && x / (a * b) == (x / a) / b
    ensures x % (a * b) == (x / a) % b * a + x % a
  {
    var q, r := x / a, x % a;
    var q2, r2 := q / b, q % b;
    assert x == q * a + r;
    assert q == q2 * b + r2;
    assert x == q2 * (a * b) + (r2 * a + r) by {
      assert (q2 * b + r2) * a == q2 * (a * b) + r2 * a;
    }
    MulMonotone(r2, b - 1, a);
    assert (b - 1) * a == a * b - a;
    assert 0 <= r2 * a;
    DivModUnique(x, a * b, q2, r2 * a + r);
  }

  /** Scaling dividend and divisor scales the remainder. */
  lemma ModScale(x: nat, p: nat, k: nat)
    requires p >= 1 && k >= 1
    ensures p * k >= 1 && (x * k) % (p * k) == x % p * k
  {
    DivDiv(x * k, k, p);
    DivModUnique(x * k, k, x, 0);
    assert k * p == p * k;
  }

  /** A field cut out by two shifts, with every power of two abstract. */
  lemma CutField(x: nat, up: nat, low: nat, width: nat)
    requires up >= 1 && low >= 1 && width >= 1
    ensures up * low >= 1 && low * width * up >= 1
    ensures (x * up) % (low * width * up) / (up * low) == x / low % width
  {
    var r := x % (low * width);
    ModScale(x, low * width, up);
    DivDiv(r * up, up, low);
    DivModUnique(r * up, up, r, 0);
    DivDiv(x, low, width);
    DivModUnique(r, low, x / low % width, x % low);
  }

  lemma WordSplit(a: nat, b: nat, c: nat)
    requires a + b + c == 32
    ensures Pow2(a) * Pow2(b) * Pow2(c) == 0x1_0000_0000
  {
    hide Pow2;
    var p := Pow2(a + b);
    assert Pow2(a) * Pow2(b) == p by { Pow2Add(a, b); }
    assert p * Pow2(c) == Pow2(32) by { Pow2Add(a + b, c); }
    assert Pow2(32) == 0x1_0000_0000 by { Pow2Values(); }
  }
}
