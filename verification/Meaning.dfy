/** The instructions on integers: what a step of the plain interpreter does to the numbers in the
    registers, with every 32-bit operation spelled out. */
module Meaning {
  import opened Wrappers
  import opened Instr
  import opened Arithmetic
  import opened Types
  import opened Memory
  import opened FpuOps
  import opened Isa
  import BV = BitVectors
  import Decode
  import Floats
  import FMul
  import Convert
  import FFloor

  const TWO32: nat := 0x1_0000_0000

  function Nat(x: bv32): (n: nat)
    ensures n < TWO32
  {
    BV.Nat(x)
  }

  /** Two's complement. */
  function Signed(n: nat): int { if n < 0x8000_0000 then n else n - TWO32 }

  // ---- Integer operations ----

  /** `r` is the result of an operation. */
  ghost predicate AluMeans(op: RInstr, x: nat, y: nat, r: nat) {
    match op
    case Add => r == (x + y) % TWO32
    case Sub => r == (x - y) % TWO32
    case Sll => r == x * Pow2(y) % TWO32
    case Sra => r == x / Pow2(y)
    case Slt => r == if Signed(x) < Signed(y) then 1 else 0
    case And => forall i :: 0 <= i < 32 ==> BV.BitAt(r, i) == if BV.BitAt(x, i) == 1 && BV.BitAt(y, i) == 1 then 1 else 0
    case Or => forall i :: 0 <= i < 32 ==> BV.BitAt(r, i) == if BV.BitAt(x, i) == 1 || BV.BitAt(y, i) == 1 then 1 else 0
    case Xor => forall i :: 0 <= i < 32 ==> BV.BitAt(r, i) == if BV.BitAt(x, i) != BV.BitAt(y, i) then 1 else 0
  }

  /** The operation with an immediate is the one on registers. */
  function OnRegisters(op: IInstr): RInstr
    requires op != Lw && op != Jalr
  {
    match op
    case Addi => Add case Xori => Xor case Ori => Or case Andi => And case Slli => Sll case Slti => Slt
  }

  ghost predicate CompareMeans(op: BInstr, x: nat, y: nat) {
    match op
    case Beq => x == y
    case Bne => x != y
    case Blt => Signed(x) < Signed(y)
    case Bge => Signed(x) >= Signed(y)
  }

  lemma SumMeaning(x: bv32, y: bv32)
    ensures AluMeans(Add, Nat(x), Nat(y), Nat(Alu(Add, x, y))) && AluMeans(Sub, Nat(x), Nat(y), Nat(Alu(Sub, x, y)))
  {
    hide BV.Nat;
    BV.AddIs(x, y);
    BV.SubIs(x, y);
  }

  lemma ShiftMeaning(x: bv32, y: bv32)
    requires y < 32
    ensures AluMeans(Sll, Nat(x), Nat(y), Nat(Alu(Sll, x, y))) && AluMeans(Sra, Nat(x), Nat(y), Nat(Alu(Sra, x, y)))
  {
    hide BV.Nat, Pow2;
    BV.LeftNat(x, y);
    BV.RightNat(x, y);
  }

  lemma BitMeaning(x: bv32, y: bv32)
    ensures AluMeans(And, Nat(x), Nat(y), Nat(Alu(And, x, y)))
    ensures AluMeans(Or, Nat(x), Nat(y), Nat(Alu(Or, x, y)))
    ensures AluMeans(Xor, Nat(x), Nat(y), Nat(Alu(Xor, x, y)))
  {
    hide BV.Nat, BV.BitAt;
    forall i | 0 <= i < 32
      ensures var a, b := BV.BitAt(Nat(x), i), BV.BitAt(Nat(y), i);
              && BV.BitAt(Nat(Alu(And, x, y)), i) == (if a == 1 && b == 1 then 1 else 0)
              && BV.BitAt(Nat(Alu(Or, x, y)), i) == (if a == 1 || b == 1 then 1 else 0)
              && BV.BitAt(Nat(Alu(Xor, x, y)), i) == (if a != b then 1 else 0)
    {
      BV.BitwiseNat(x, y, i);
    }
  }

  lemma SignedLessIs(x: bv32, y: bv32)
    ensures SignedLess(x, y) <==> BV.Less(BV.Flip(x), BV.Flip(y))
  {
  }

  lemma LessMeaning(x: bv32, y: bv32)
    ensures SignedLess(x, y) <==> Signed(Nat(x)) < Signed(Nat(y))
  {
    hide BV.Nat, SignedLess, BV.Less, BV.Flip;
    SignedLessIs(x, y);
    BV.SignedLessNat(x, y);
  }

  /** Every register operation. */
  lemma AluMeaning(op: RInstr, x: bv32, y: bv32)
    requires !ShiftOverflows(op, y)
    ensures AluMeans(op, Nat(x), Nat(y), Nat(Alu(op, x, y)))
  {
    hide BV.Nat, SignedLess;
    match op
    case Add => SumMeaning(x, y);
    case Sub => SumMeaning(x, y);
    case Sll => ShiftMeaning(x, y);
    case Sra => ShiftMeaning(x, y);
    case Slt => LessMeaning(x, y); BV.SmallNat();
    case _ => BitMeaning(x, y);
  }

  /** Every operation with an immediate. */
  lemma AluImmMeaning(op: IInstr, x: bv32, imm: bv32)
    requires op != Lw && op != Jalr && !ImmShiftOverflows(op, imm)
    ensures AluMeans(OnRegisters(op), Nat(x), Nat(imm), Nat(AluImm(op, x, imm)))
  {
    hide AluMeans, BV.Nat;
    AluMeaning(OnRegisters(op), x, imm);
  }

  /** Every comparison. */
  lemma CompareMeaning(op: BInstr, x: bv32, y: bv32)
    ensures IntCompare(op, x, y) <==> CompareMeans(op, Nat(x), Nat(y))
  {
    hide BV.Nat, SignedLess;
    LessMeaning(x, y);
    BV.SameNat(x, y);
  }

  lemma PlusIs(x: bv32, y: bv32)
    ensures Plus(x, y) == BV.Add(x, y)
  {
  }

  /** A word plus a signed offset, modulo 2^32. */
  lemma OffsetMeaning(x: bv32, imm: bv32)
    ensures Nat(Plus(x, imm)) == (Nat(x) + Signed(Nat(imm))) % TWO32
    ensures Address(x, imm) == (Nat(x) + Signed(Nat(imm))) % TWO32
  {
    hide BV.Nat, Plus, BV.Add, Address;
    PlusIs(x, imm);
    BV.AddIs(x, imm);
    AddressIs(x, imm);
  }

  lemma AddressIs(x: bv32, imm: bv32)
    ensures Address(x, imm) == Nat(Plus(x, imm))
  {
    hide Plus;
  }

  // ---- Floating-point operations ----

  /** `r` is the result of an operation, the host's as they are. */
  ghost predicate FloatMeans(host: Host, op: EInstr, x: bv32, y: bv32, r: bv32) {
    match op
    case Fadd => r == host.fadd(x, y)
    case Fsub => r == host.fsub(x, y)
    case Fmul => Nat(r) == FMul.FMul(Nat(x), Nat(y))
    case Fdiv => r == host.fdiv(x, y)
    case Fsgnj => Floats.Mag(Nat(r)) == Floats.Mag(Nat(x)) && Floats.Sign(Nat(r)) == Floats.Sign(Nat(y))
    case Fsgnjn => Floats.Mag(Nat(r)) == Floats.Mag(Nat(x)) && Floats.Sign(Nat(r)) == 1 - Floats.Sign(Nat(y))
    case Fsgnjx => r == host.fsgnjx(x, y)
  }

  /** 0.5 is worth half of what 1.0 is. */
  const HALF: nat := 0x3F00_0000

  ghost predicate UnaryMeans(host: Host, op: HInstr, x: bv32, r: bv32) {
    match op
    case Fsqrt => r == host.fsqrt(x)
    case Fhalf => Nat(r) == FMul.FMul(Nat(x), HALF)
    case Ffloor => Nat(r) == FFloor.FFloor(Nat(x), host.narrow)
  }

  /** The tests on values; a NaN is neither positive nor negative. */
  ghost predicate TestMeans(op: YInstr, x: nat, r: nat)
    requires x < TWO32
  {
    match op
    case Fftoi => Signed(r) == Convert.FCvtWS(x)
    case Fiszero => r == if Floats.Mag(x) == 0 then 1 else 0
    case Fispos => r == if !Floats.NaN(x) && Floats.Sign(x) == 0 && Floats.Mag(x) != 0 then 1 else 0
    case Fisneg => r == if !Floats.NaN(x) && Floats.Sign(x) == 1 && Floats.Mag(x) != 0 then 1 else 0
  }

  lemma BitsNat(w: nat)
    requires w < TWO32
    ensures Nat(BV.Bits(w)) == w
  {
    hide BV.Nat, BV.Bits;
    BV.FromInt(w);
  }

  lemma CopySignIs(x: bv32, y: bv32)
    ensures CopySign(x, y) == BV.JoinSign(BV.Top(y), BV.Rest(x))
    ensures CopySign(x, Negate(y)) == BV.JoinSign(1 - BV.Top(y), BV.Rest(x))
  {
  }

  lemma OtherSign(c: bv1)
    ensures BV.Nat1(1 - c) == 1 - BV.Nat1(c)
  {
  }

  lemma CopySignMeaning(host: Host, x: bv32, y: bv32)
    ensures FloatMeans(host, Fsgnj, x, y, CopySign(x, y))
    ensures FloatMeans(host, Fsgnjn, x, y, CopySign(x, Negate(y)))
  {
    hide BV.Nat, BV.Nat1, BV.Nat31, CopySign, Negate, BV.JoinSign, BV.Top, BV.Rest;
    CopySignIs(x, y);
    OtherSign(BV.Top(y));
    BV.SignNat(x);
    BV.SignNat(y);
    BV.JoinSignNat(BV.Top(y), BV.Rest(x));
    BV.JoinSignNat(1 - BV.Top(y), BV.Rest(x));
  }

  lemma FloatOpMeaning(host: Host, op: EInstr, x: bv32, y: bv32)
    ensures FloatMeans(host, op, x, y, FloatOp(host, op, x, y))
  {
    hide BV.Nat, CopySign, Negate, BV.Bits, FMul.FMul;
    CopySignMeaning(host, x, y);
    BitsNat(FMul.FMul(BV.Nat(x), BV.Nat(y)));
  }

  lemma HalfNat()
    ensures Nat(0x3F00_0000) == HALF
  {
  }

  lemma UnaryMeaning(host: Host, op: HInstr, x: bv32)
    ensures UnaryMeans(host, op, x, FloatUnary(host, op, x))
  {
    hide BV.Nat, BV.Bits, FMul.FMul, FFloor.FFloor;
    HalfNat();
    BitsNat(FMul.FMul(BV.Nat(x), HALF));
    BitsNat(FFloor.FFloor(BV.Nat(x), host.narrow));
  }

  lemma ConvertMeaning(x: bv32)
    ensures Nat(FromInteger(x)) == Convert.FCvtSW(Signed(Nat(x)))
    ensures Signed(Nat(ToInteger(x))) == Convert.FCvtWS(Nat(x))
  {
    hide BV.Nat, BV.Bits, Convert.FCvtSW, Convert.FCvtWS;
    BitsNat(Convert.FCvtSW(Convert.Signed(BV.Nat(x))));
    var n: int := Convert.FCvtWS(BV.Nat(x));
    BitsNat(if n < 0 then n + TWO32 else n);
  }

  lemma ZeroWord(x: bv32)
    ensures IsZero(x) <==> BV.Rest(x) == 0
  {
  }

  lemma NoBits(l: bv31)
    ensures BV.Nat31(l) == 0 <==> l == 0
  {
  }

  lemma IsZeroMeaning(x: bv32)
    ensures IsZero(x) <==> Floats.Mag(Nat(x)) == 0
  {
    hide BV.Nat, BV.Nat1, BV.Nat31, IsZero, BV.Top, BV.Rest;
    ZeroWord(x);
    NoBits(BV.Rest(x));
    BV.SignNat(x);
  }

  lemma TestMeaning(op: YInstr, x: bv32)
    ensures TestMeans(op, Nat(x), Nat(FloatTest(op, x)))
  {
    hide BV.Nat, BV.Bits, Convert.FCvtWS, IsZero, ToInteger;
    ConvertMeaning(x);
    IsZeroMeaning(x);
    BV.SmallNat();
    Floats.Fields(BV.Nat(x));
    Floats.Fields(0);
  }

  /** On finite floats these are the comparisons of values. */
  lemma FiniteTests(x: bv32, y: bv32)
    requires Floats.Finite(Nat(x)) && Floats.Finite(Nat(y))
    ensures FloatLess(x, y) <==> Floats.Units(Nat(x)) < Floats.Units(Nat(y))
    ensures FloatGreaterEq(x, y) <==> Floats.Units(Nat(x)) >= Floats.Units(Nat(y))
    ensures IsZero(x) <==> Floats.Units(Nat(x)) == 0
    ensures Nat(FloatTest(Fispos, x)) == 1 <==> Floats.Units(Nat(x)) > 0
    ensures Nat(FloatTest(Fisneg, x)) == 1 <==> Floats.Units(Nat(x)) < 0
  {
    hide BV.Nat, IsZero, Floats.MagUnits, FloatTest;
    Floats.KeyOrder(BV.Nat(x), BV.Nat(y));
    Floats.ZeroUnits(BV.Nat(x));
    Floats.Fields(BV.Nat(x));
    IsZeroMeaning(x);
    TestMeaning(Fispos, x);
    TestMeaning(Fisneg, x);
  }
}
