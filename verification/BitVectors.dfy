/** What the operations on 32-bit words mean for the integers they stand for. */
module BitVectors {
  import opened Arithmetic
  import opened FpuLib
  import Convert

  /** The number a word stands for. */
  function Nat(x: bv32): Word { x as int }

  /** The word for a number. */
  function Bits(w: Word): bv32 { w as bv32 }

  /** Its two's complement reading. */
  function Signed(x: bv32): int { Convert.Signed(Nat(x)) }

  /** Bit i of a number. */
  function BitAt(x: nat, i: nat): nat { x / Pow2(i) % 2 }

  // ---- Cutting and joining words ----

  function Nat1(x: bv1): (n: nat)
    ensures n < 2
  {
    x as int
  }

  function Nat31(x: bv31): nat { x as int }
  function Nat33(x: bv33): nat { x as int }
  function Sum33(x: bv32, y: bv32): bv33 { (x as bv33) + (y as bv33) }
  function Join33(c: bv1, l: bv32): bv33 { ((c as bv33) << 32) | (l as bv33) }
  function Join32(h: bv31, l: bv1): bv32 { ((h as bv32) << 1) | (l as bv32) }
  function Half(x: bv32): bv32 { x >> 1 }
  function Low(x: bv32): bv32 { x & 1 }

  lemma SumIs(x: bv32, y: bv32)
    ensures Nat33(Sum33(x, y)) == Nat(x) + Nat(y)
  {
  }

  lemma JoinTop(c: bv1, l: bv32)
    ensures Nat33(Join33(c, l)) == TWO32 * Nat1(c) + Nat(l)
  {
  }

  lemma JoinLow(h: bv31, l: bv1)
    ensures Nat(Join32(h, l)) == 2 * Nat31(h) + Nat1(l)
  {
  }

  lemma WideUpper(h: bv31)
    ensures Nat(h as bv32) == Nat31(h)
  {
  }

  lemma WideLast(l: bv1)
    ensures Nat(l as bv32) == Nat1(l)
  {
  }

  /** A 33-bit sum is a carry and the wrapped sum. */
  lemma SumCut(x: bv32, y: bv32) returns (c: bv1)
    ensures Sum33(x, y) == Join33(c, x + y)
  {
    c := (((x as bv33) + (y as bv33)) >> 32) as bv1;
  }

  function Upper(x: bv32): bv31 { (x >> 1) as bv31 }
  function Last(x: bv32): bv1 { (x & 1) as bv1 }

  lemma WordCut(x: bv32)
    ensures x == Join32(Upper(x), Last(x))
  {
  }

  lemma UpperIs(x: bv32)
    ensures Half(x) == Upper(x) as bv32
  {
  }

  lemma LastIs(x: bv32)
    ensures Low(x) == Last(x) as bv32
  {
  }

  // ---- Sums and differences ----

  lemma AddNat(x: bv32, y: bv32)
    ensures Nat(x + y) == (Nat(x) + Nat(y)) % TWO32
  {
    hide Nat, Nat1, Nat33, Sum33, Join33;
    SumIs(x, y);
    var c := SumCut(x, y);
    JoinTop(c, x + y);
  }

  function Add(x: bv32, y: bv32): bv32 { x + y }
  function Sub(x: bv32, y: bv32): bv32 { x - y }

  lemma AddIs(x: bv32, y: bv32)
    ensures Nat(Add(x, y)) == (Nat(x) + Nat(y)) % TWO32
  {
    hide Nat;
    AddNat(x, y);
  }

  lemma SubCancels(x: bv32, y: bv32)
    ensures Add(x - y, y) == x
  {
  }

  lemma SubIs(x: bv32, y: bv32)
    ensures Nat(Sub(x, y)) == (Nat(x) - Nat(y)) % TWO32
  {
    hide Nat, Add;
    SubCancels(x, y);
    AddIs(Sub(x, y), y);
  }

  lemma FromInt(k: int)
    requires 0 <= k < TWO32
    ensures Nat(Bits(k)) == k
  {
    assert k % 0x1_0000_0000 == k;
  }

  lemma BackAgain(x: bv32)
    ensures Bits(Nat(x)) == x
  {
  }

  lemma SameNat(x: bv32, y: bv32)
    ensures x == y <==> Nat(x) == Nat(y)
  {
    hide Nat, Bits;
    BackAgain(x);
    BackAgain(y);
  }

  // ---- Comparisons ----

  lemma HalfNat(x: bv32)
    ensures Nat(Half(x)) == Nat(x) / 2 && Nat(Low(x)) == Nat(x) % 2
  {
    hide Nat, Nat1, Nat31, Join32, Half, Low, Upper, Last;
    WordCut(x);
    UpperIs(x);
    LastIs(x);
    JoinLow(Upper(x), Last(x));
    WideUpper(Upper(x));
    WideLast(Last(x));
  }

  predicate Less(x: bv32, y: bv32) { x < y }

  /** Words compare by their upper bits, then by the last one. */
  lemma LessByHalves(x: bv32, y: bv32)
    requires Less(Half(x), Half(y))
    ensures Less(x, y)
  {
  }

  lemma LessByLow(x: bv32, y: bv32)
    requires Half(x) == Half(y) && Low(x) == 0 && Low(y) == 1
    ensures Less(x, y)
  {
  }

  lemma LessAsymmetric(x: bv32, y: bv32)
    requires Less(x, y)
    ensures !Less(y, x) && x != y
  {
  }

  lemma SmallNat()
    ensures Nat(0) == 0 && Nat(1) == 1
  {
  }

  lemma {:induction false} LessFromNat(x: bv32, y: bv32)
    requires Nat(x) < Nat(y)
    ensures Less(x, y)
    decreases Nat(y)
  {
    hide Nat, Half, Low, Less;
    HalfNat(x);
    HalfNat(y);
    if Nat(Half(x)) < Nat(Half(y)) {
      LessFromNat(Half(x), Half(y));
      LessByHalves(x, y);
    } else {
      SameNat(Half(x), Half(y));
      SmallNat();
      SameNat(Low(x), 0);
      SameNat(Low(y), 1);
      LessByLow(x, y);
    }
  }

  lemma LessNat(x: bv32, y: bv32)
    ensures Less(x, y) <==> Nat(x) < Nat(y)
  {
    hide Nat, Less;
    if Less(x, y) {
      LessAsymmetric(x, y);
      SameNat(x, y);
      if Nat(y) < Nat(x) { LessFromNat(y, x); }
    } else if Nat(x) < Nat(y) {
      LessFromNat(x, y);
    }
  }

  function Flip(x: bv32): bv32 { x ^ 0x8000_0000 }

  lemma FlipIsAdd(x: bv32)
    ensures Flip(x) == Add(x, 0x8000_0000)
  {
  }

  lemma TopNat()
    ensures Nat(0x8000_0000) == 0x8000_0000
  {
  }

  /** Comparing with flipped sign bits is comparing two's complement values. */
  lemma SignedLessNat(x: bv32, y: bv32)
    ensures Less(Flip(x), Flip(y)) <==> Signed(x) < Signed(y)
  {
    hide Nat, Less, Flip, Add;
    TopNat();
    FlipIsAdd(x);
    FlipIsAdd(y);
    AddIs(x, 0x8000_0000);
    AddIs(y, 0x8000_0000);
    LessNat(Flip(x), Flip(y));
  }

  // ---- Shifts ----

  function Left(x: bv32, y: bv32): bv32
    requires y < 32
  {
    x << y
  }

  function Right(x: bv32, y: bv32): bv32
    requires y < 32
  {
    x >> y
  }

  lemma NoShift(x: bv32)
    ensures Left(x, 0) == x && Right(x, 0) == x
  {
  }

  lemma Earlier(y: bv32)
    requires y < 32 && y != 0
    ensures Sub(y, 1) < 32
  {
  }

  lemma LeftOnce(x: bv32, y: bv32)
    requires y < 32 && y != 0
    ensures Sub(y, 1) < 32 && Left(x, y) == Add(Left(x, Sub(y, 1)), Left(x, Sub(y, 1)))
  {
  }

  lemma RightOnce(x: bv32, y: bv32)
    requires y < 32 && y != 0
    ensures Sub(y, 1) < 32 && Right(x, y) == Half(Right(x, Sub(y, 1)))
  {
  }

  /** The shift amount below. */
  lemma Predecessor(y: bv32)
    requires y < 32 && y != 0
    ensures Sub(y, 1) < 32 && Nat(Sub(y, 1)) == Nat(y) - 1
  {
    hide Nat, Sub;
    Earlier(y);
    SubIs(y, 1);
    SmallNat();
    SameNat(y, 0);
  }

  lemma DoubleMod(x: nat, p: nat, l: nat)
    requires l == x * p % TWO32
    ensures (l + l) % TWO32 == x * (2 * p) % TWO32
  {
    assert x * (2 * p) == 2 * (x * p);
    TwiceMod(x * p);
  }

  lemma TwiceMod(a: nat)
    ensures (a % TWO32 + a % TWO32) % TWO32 == 2 * a % TWO32
  {
  }

  lemma {:induction false} LeftNat(x: bv32, y: bv32)
    requires y < 32
    ensures Nat(Left(x, y)) == Nat(x) * Pow2(Nat(y)) % TWO32
    decreases Nat(y)
  {
    hide Nat, Left, Add, Sub;
    if y == 0 {
      NoShift(x);
      SmallNat();
    } else {
      Predecessor(y);
      var z := Sub(y, 1);
      LeftNat(x, z);
      LeftOnce(x, y);
      AddIs(Left(x, z), Left(x, z));
      DoubleMod(Nat(x), Pow2(Nat(z)), Nat(Left(x, z)));
    }
  }

  lemma {:induction false} RightNat(x: bv32, y: bv32)
    requires y < 32
    ensures Nat(Right(x, y)) == Nat(x) / Pow2(Nat(y))
    decreases Nat(y)
  {
    hide Nat, Right, Half, Sub;
    if y == 0 {
      NoShift(x);
      SmallNat();
    } else {
      Predecessor(y);
      var z := Sub(y, 1);
      RightNat(x, z);
      RightOnce(x, y);
      HalfNat(Right(x, z));
      DivDiv(Nat(x), Pow2(Nat(z)), 2);
    }
  }

  // ---- Bits ----

  function And(x: bv32, y: bv32): bv32 { x & y }
  function Or(x: bv32, y: bv32): bv32 { x | y }
  function Xor(x: bv32, y: bv32): bv32 { x ^ y }

  function Bit(x: bv32, i: bv32): bv32
    requires i < 32
  {
    Low(Right(x, i))
  }

  lemma ShiftAmount(i: nat)
    requires i < 32
    ensures Bits(i) < 32 && Nat(Bits(i)) == i
  {
    hide Nat, Bits;
    FromInt(i);
    Below32(Bits(i));
  }

  lemma Below32(y: bv32)
    ensures Less(y, 32) <==> Nat(y) < 32
  {
    hide Nat, Less;
    LessNat(y, 32);
    assert Nat(32) == 32 by { ThirtyTwo(); }
  }

  lemma ThirtyTwo()
    ensures Nat(32) == 32
  {
  }

  lemma BitNat(x: bv32, i: bv32)
    requires i < 32
    ensures Nat(Bit(x, i)) == BitAt(Nat(x), Nat(i))
  {
    hide Nat, Low, Right;
    RightNat(x, i);
    HalfNat(Right(x, i));
  }

  lemma BitsOfAnd(x: bv32, y: bv32, i: bv32)
    requires i < 32
    ensures Bit(And(x, y), i) == if Bit(x, i) == 1 && Bit(y, i) == 1 then 1 else 0
  {
  }

  lemma BitsOfOr(x: bv32, y: bv32, i: bv32)
    requires i < 32
    ensures Bit(Or(x, y), i) == if Bit(x, i) == 1 || Bit(y, i) == 1 then 1 else 0
  {
  }

  lemma BitsOfXor(x: bv32, y: bv32, i: bv32)
    requires i < 32
    ensures Bit(Xor(x, y), i) == if Bit(x, i) != Bit(y, i) then 1 else 0
  {
  }

  /** And, or and exclusive or work bit by bit. */
  lemma BitwiseNat(x: bv32, y: bv32, i: nat)
    requires i < 32
    ensures var a, b := BitAt(Nat(x), i), BitAt(Nat(y), i);
            && BitAt(Nat(And(x, y)), i) == (if a == 1 && b == 1 then 1 else 0)
            && BitAt(Nat(Or(x, y)), i) == (if a == 1 || b == 1 then 1 else 0)
            && BitAt(Nat(Xor(x, y)), i) == (if a != b then 1 else 0)
  {
    hide Nat, Bits, BitAt, Bit, And, Or, Xor;
    ShiftAmount(i);
    var k := Bits(i);
    BitNat(x, k);
    BitNat(y, k);
    BitNat(And(x, y), k);
    BitNat(Or(x, y), k);
    BitNat(Xor(x, y), k);
    BitsOfAnd(x, y, k);
    BitsOfOr(x, y, k);
    BitsOfXor(x, y, k);
    SmallNat();
    SameNat(Bit(x, k), 1);
    SameNat(Bit(y, k), 1);
    SameNat(Bit(x, k), Bit(y, k));
  }

  // ---- Bytes and signs ----

  function Nat8(x: bv8): nat { x as int }

  lemma BytesNat(a: bv8, b: bv8, c: bv8, d: bv8)
    ensures Nat((a as bv32) | ((b as bv32) << 8) | ((c as bv32) << 16) | ((d as bv32) << 24))
            == Nat8(a) + 0x100 * Nat8(b) + 0x1_0000 * Nat8(c) + 0x100_0000 * Nat8(d)
  {
  }

  function Join8(h: bv24, l: bv8): bv32 { ((h as bv32) << 8) | (l as bv32) }

  lemma JoinByte(h: bv24, l: bv8)
    ensures Nat(Join8(h, l)) == 0x100 * (h as int) + Nat8(l) && Nat8(l) < 0x100
  {
  }

  lemma ByteCut(x: bv32)
    ensures x == Join8((x >> 8) as bv24, (x & 0xFF) as bv8)
  {
  }

  lemma LastByteNat(x: bv32)
    ensures Nat8((x & 0xFF) as bv8) == Nat(x) % 0x100
  {
    hide Nat, Nat8, Join8;
    ByteCut(x);
    JoinByte((x >> 8) as bv24, (x & 0xFF) as bv8);
  }

  function Top(x: bv32): bv1 { (x >> 31) as bv1 }
  function Rest(x: bv32): bv31 { (x & 0x7FFF_FFFF) as bv31 }
  function JoinSign(c: bv1, l: bv31): bv32 { ((c as bv32) << 31) | (l as bv32) }

  lemma JoinSignNat(c: bv1, l: bv31)
    ensures Nat(JoinSign(c, l)) == 0x8000_0000 * Nat1(c) + Nat31(l) && Nat31(l) < 0x8000_0000
  {
  }

  lemma SignCut(x: bv32)
    ensures x == JoinSign(Top(x), Rest(x))
  {
  }

  /** The sign bit and the other bits. */
  lemma SignNat(x: bv32)
    ensures Nat(x) / 0x8000_0000 == Nat1(Top(x)) && Nat(x) % 0x8000_0000 == Nat31(Rest(x))
  {
    hide Nat, Nat1, Nat31, Top, Rest, JoinSign;
    SignCut(x);
    JoinSignNat(Top(x), Rest(x));
  }
}
