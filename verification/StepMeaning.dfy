/** What one step of the plain interpreter means for the numbers in its registers, for every
    instruction; and with it what a step of the CPU model means. */
module StepMeaning {
  import opened Wrappers
  import opened Instr
  import opened Types
  import opened Memory
  import opened FpuOps
  import opened Isa
  import opened Meaning
  import BV = BitVectors
  import Decode
  import Floats
  import Convert

  /** The number in a register. */
  function Reg(regs: seq<bv32>, id: RegId): nat
    requires |regs| == 32
  {
    Nat(GetReg(regs, id))
  }

  /** Only register `rd` changed, and not even that if it is register 0. */
  ghost predicate Wrote(before: seq<bv32>, after: seq<bv32>, rd: RegId)
    requires |before| == 32
  {
    |after| == 32 && forall k :: 0 <= k < 32 && (k == 0 || k != Nat(rd)) ==> after[k] == before[k]
  }

  /** The program counter `offset` bytes on. */
  ghost predicate Moved(a: Arch, q: Result, offset: int) { Nat(q.arch.pc) == (Nat(a.pc) + offset) % TWO32 }

  ghost predicate SameIO(a: Arch, q: Result) { q.arch.input == a.input && q.arch.output == a.output }

  /** The run goes on with one integer register written. */
  ghost predicate IntStep(a: Arch, q: Result, rd: RegId)
    requires Valid(a)
  {
    q.outcome == Continue && SameIO(a, q) && q.arch.mem == a.mem && q.arch.fregs == a.fregs && Wrote(a.regs, q.arch.regs, rd)
  }

  ghost predicate FloatStep(a: Arch, q: Result, rd: RegId)
    requires Valid(a)
  {
    q.outcome == Continue && SameIO(a, q) && q.arch.mem == a.mem && q.arch.regs == a.regs && Wrote(a.fregs, q.arch.fregs, rd)
  }

  /** The run goes on with nothing but the program counter changed. */
  ghost predicate PlainStep(a: Arch, q: Result) { q.outcome == Continue && q.arch == a.(pc := q.arch.pc) }

  ghost predicate Fails(a: Arch, q: Result, e: Error) { q.outcome == Fail(e) && q.arch == a.(pc := q.arch.pc) && Moved(a, q, 4) }

  ghost predicate MeansLoad(a: Arch, q: Result, kind: Class, rd: RegId, addr: nat)
    requires Valid(a)
  {
    var p := Perform(a.mem, Load(kind, addr));
    if p.reply.Failed? then Fails(a, q, MemoryError(p.reply.fault))
    else
      && p.reply.Loaded? && q.arch.mem == p.mem && SameIO(a, q) && Moved(a, q, 4)
      && q.outcome == SpyFlow(p.spied)
      && (if kind == Int
          then q.arch.fregs == a.fregs && Wrote(a.regs, q.arch.regs, rd) && (rd != 0 ==> GetReg(q.arch.regs, rd) == p.reply.typed.value)
          else q.arch.regs == a.regs && Wrote(a.fregs, q.arch.fregs, rd) && (rd != 0 ==> GetReg(q.arch.fregs, rd) == p.reply.typed.value))
  }

  ghost predicate MeansStore(a: Arch, q: Result, kind: Class, addr: nat, value: bv32)
    requires Valid(a)
  {
    var p := Perform(a.mem, Store(kind, addr, value));
    if p.reply.Failed? then Fails(a, q, MemoryError(p.reply.fault))
    else q.outcome == SpyFlow(p.spied) && q.arch == a.(pc := q.arch.pc, mem := p.mem) && Moved(a, q, 4)
  }

  ghost predicate MeansR(a: Arch, q: Result, op: RInstr, rd: RegId, x: nat, y: nat)
    requires Valid(a)
  {
    if (op == Sll || op == Sra) && y >= 32 then Fails(a, q, Panicked)
    else IntStep(a, q, rd) && Moved(a, q, 4) && (rd != 0 ==> AluMeans(op, x, y, Reg(q.arch.regs, rd)))
  }

  ghost predicate MeansJump(a: Arch, q: Result, rd: RegId)
    requires Valid(a)
  {
    IntStep(a, q, rd) && (rd != 0 ==> Reg(q.arch.regs, rd) == (Nat(a.pc) + 4) % TWO32)
  }

  ghost predicate MeansBranch(a: Arch, q: Result, taken: bool, imm: bv32) {
    PlainStep(a, q) && Moved(a, q, if taken then Signed(Nat(imm)) else 4)
  }

  /** The floating-point instructions. */
  ghost predicate MeansF(host: Host, a: Arch, q: Result, f: FInstr)
    requires Valid(a)
  {
    match f
    case E(op, rd, rs1, rs2) =>
      FloatStep(a, q, rd) && Moved(a, q, 4)
      && (rd != 0 ==> FloatMeans(host, op, GetReg(a.fregs, rs1), GetReg(a.fregs, rs2), GetReg(q.arch.fregs, rd)))
    case H(op, rd, rs1) =>
      FloatStep(a, q, rd) && Moved(a, q, 4) && (rd != 0 ==> UnaryMeans(host, op, GetReg(a.fregs, rs1), GetReg(q.arch.fregs, rd)))
    case Flt(rd, rs1, rs2) =>
      IntStep(a, q, rd) && Moved(a, q, 4)
      && (rd != 0 ==> Reg(q.arch.regs, rd) == if Floats.FLess(Reg(a.fregs, rs1), Reg(a.fregs, rs2)) then 1 else 0)
    case Fitof(rd, rs1) =>
      FloatStep(a, q, rd) && Moved(a, q, 4) && (rd != 0 ==> Reg(q.arch.fregs, rd) == Convert.FCvtSW(Signed(Reg(a.regs, rs1))))
    case Y(op, rd, rs1) =>
      IntStep(a, q, rd) && Moved(a, q, 4) && (rd != 0 ==> TestMeans(op, Reg(a.fregs, rs1), Reg(q.arch.regs, rd)))
    case W(op, rs1, rs2, imm) =>
      var x, y := Reg(a.fregs, rs1), Reg(a.fregs, rs2);
      MeansBranch(a, q, if op == Fblt then Floats.FLess(x, y) else Floats.FGreaterEq(x, y), imm)
    case V(op, rs1, imm) => MeansBranch(a, q, (Floats.Mag(Reg(a.fregs, rs1)) == 0) == (op == Fbeqz), imm)
    case Flw(rd, rs1, imm) => MeansLoad(a, q, Float, rd, (Reg(a.regs, rs1) + Signed(Nat(imm))) % TWO32)
    case Fsw(rs2, rs1, imm) => MeansStore(a, q, Float, (Reg(a.regs, rs1) + Signed(Nat(imm))) % TWO32, GetReg(a.fregs, rs2))
  }

  /** Input and output. */
  ghost predicate MeansIO(a: Arch, q: Result, io: IOInstr)
    requires Valid(a)
  {
    match io
    case Outb(rs) =>
      && q.outcome == Continue && q.arch == a.(pc := q.arch.pc, output := q.arch.output) && Moved(a, q, 4)
      && |q.arch.output| == |a.output| + 1 && q.arch.output[..|a.output|] == a.output
      && BV.Nat8(q.arch.output[|a.output|]) == Reg(a.regs, rs) % 0x100
    case Inw(rd) =>
      if a.input == [] then Fails(a, q, InputError)
      else
        && q.outcome == Continue && Moved(a, q, 4) && q.arch == a.(pc := q.arch.pc, regs := q.arch.regs, input := a.input[1..])
        && Wrote(a.regs, q.arch.regs, rd) && (rd != 0 ==> GetReg(q.arch.regs, rd) == a.input[0])
    case Finw(rd) =>
      if a.input == [] then Fails(a, q, InputError)
      else
        && q.outcome == Continue && Moved(a, q, 4) && q.arch == a.(pc := q.arch.pc, fregs := q.arch.fregs, input := a.input[1..])
        && Wrote(a.fregs, q.arch.fregs, rd) && (rd != 0 ==> GetReg(q.arch.fregs, rd) == a.input[0])
  }

  /** The instruction set on integers: `q` is what instruction `i` makes of `a`. */
  ghost predicate Means(host: Host, a: Arch, q: Result, i: Instr)
    requires Valid(a)
  {
    match i
    case R(op, rd, rs1, rs2) => MeansR(a, q, op, rd, Reg(a.regs, rs1), Reg(a.regs, rs2))
    case I(op, rd, rs1, imm) =>
      var target := (Reg(a.regs, rs1) + Signed(Nat(imm))) % TWO32;
      if op == Lw then MeansLoad(a, q, Int, rd, target)
      else if op == Jalr then MeansJump(a, q, rd) && Nat(q.arch.pc) == target
      else MeansR(a, q, OnRegisters(op), rd, Reg(a.regs, rs1), Nat(imm))
    case Sw(rs1, rs2, imm) => MeansStore(a, q, Int, (Reg(a.regs, rs1) + Signed(Nat(imm))) % TWO32, GetReg(a.regs, rs2))
    case B(op, rs1, rs2, imm) => MeansBranch(a, q, CompareMeans(op, Reg(a.regs, rs1), Reg(a.regs, rs2)), imm)
    case Jal(rd, imm) => MeansJump(a, q, rd) && Moved(a, q, Signed(Nat(imm)))
    case IO(io) => MeansIO(a, q, io)
    case F(f) => MeansF(host, a, q, f)
    case End => q.outcome == Exit && q.arch == a.(pc := q.arch.pc) && Moved(a, q, 4)
  }

  // ---- The interpreter ----

  lemma RegAt(id: RegId)
    ensures Nat(id) == id as int && Nat(id) < 32
  {
    RegIndex(id);
  }

  /** A register file after a write. */
  lemma WroteReg(regs: seq<bv32>, rd: RegId, value: bv32)
    requires |regs| == 32
    ensures Wrote(regs, SetReg(regs, rd, value), rd)
    ensures rd != 0 ==> GetReg(SetReg(regs, rd, value), rd) == value
  {
    hide Nat;
    RegAt(rd);
    RegIndex(rd);
  }

  lemma FourNat()
    ensures Nat(4) == 4
  {
  }

  lemma NextPc(pc: bv32)
    ensures Nat(Plus(pc, 4)) == (Nat(pc) + 4) % TWO32
  {
    hide Nat, Plus;
    OffsetMeaning(pc, 4);
    FourNat();
  }

  /** Overflowing shifts, as numbers. */
  lemma ShiftLimit(op: RInstr, iop: IInstr, y: bv32)
    ensures ShiftOverflows(op, y) <==> (op == Sll || op == Sra) && Nat(y) >= 32
    ensures ImmShiftOverflows(iop, y) <==> iop == Slli && Nat(y) >= 32
  {
    hide BV.Nat;
    BV.Below32(y);
  }

  /** Writing an integer result, and a floating-point one. */
  lemma IntResult(a: Arch, rd: RegId, value: bv32)
    requires Valid(a)
    ensures var q := WithReg(a.(pc := Plus(a.pc, 4)), rd, value);
            IntStep(a, q, rd) && Moved(a, q, 4) && (rd != 0 ==> GetReg(q.arch.regs, rd) == value)
  {
    hide Nat, Plus, SetReg, GetReg, Wrote;
    NextPc(a.pc);
    WroteReg(a.regs, rd, value);
  }

  lemma FloatResult(a: Arch, rd: RegId, value: bv32)
    requires Valid(a)
    ensures var q := WithFReg(a.(pc := Plus(a.pc, 4)), rd, value);
            FloatStep(a, q, rd) && Moved(a, q, 4) && (rd != 0 ==> GetReg(q.arch.fregs, rd) == value)
  {
    hide Nat, Plus, SetReg, GetReg, Wrote;
    NextPc(a.pc);
    WroteReg(a.fregs, rd, value);
  }

  lemma PanicResult(a: Arch)
    ensures Fails(a, Result(a.(pc := Plus(a.pc, 4)), Fail(Panicked)), Panicked)
  {
    hide Nat, Plus;
    NextPc(a.pc);
  }

  lemma RMeaning(host: Host, a: Arch, op: RInstr, rd: RegId, rs1: RegId, rs2: RegId)
    requires Valid(a)
    ensures Means(host, a, RunInstr(host, a.(pc := Plus(a.pc, 4)), a.pc, R(op, rd, rs1, rs2)), R(op, rd, rs1, rs2))
  {
    hide Nat, Plus, Alu, AluMeans, ShiftOverflows, GetReg, IntStep, Moved, Fails, WithReg;
    var x, y := GetReg(a.regs, rs1), GetReg(a.regs, rs2);
    ShiftLimit(op, Addi, y);
    PanicResult(a);
    if !ShiftOverflows(op, y) {
      AluMeaning(op, x, y);
      IntResult(a, rd, Alu(op, x, y));
    }
  }

  lemma IMeaning(host: Host, a: Arch, op: IInstr, rd: RegId, rs1: RegId, imm: bv32)
    requires Valid(a) && op != Lw && op != Jalr
    ensures Means(host, a, RunInstr(host, a.(pc := Plus(a.pc, 4)), a.pc, I(op, rd, rs1, imm)), I(op, rd, rs1, imm))
  {
    hide Nat, Plus, AluImm, AluMeans, ImmShiftOverflows, GetReg, IntStep, Moved, Fails, WithReg;
    var x := GetReg(a.regs, rs1);
    ShiftLimit(Add, op, imm);
    PanicResult(a);
    if !ImmShiftOverflows(op, imm) {
      AluImmMeaning(op, x, imm);
      IntResult(a, rd, AluImm(op, x, imm));
    }
  }

  lemma LoadMeaning(a: Arch, kind: Class, rd: RegId, base: bv32, imm: bv32)
    requires Valid(a)
    ensures MeansLoad(a, LoadWord(a.(pc := Plus(a.pc, 4)), kind, Address(base, imm), rd), kind, rd, (Nat(base) + Signed(Nat(imm))) % TWO32)
  {
    hide Nat, Plus, Address, SetReg, GetReg, Wrote, Perform;
    NextPc(a.pc);
    OffsetMeaning(base, imm);
    var addr := Address(base, imm);
    var p := Perform(a.mem, Load(kind, addr));
    LoadReplies(a.mem, kind, addr);
    if p.reply.Loaded? {
      WroteReg(a.regs, rd, p.reply.typed.value);
      WroteReg(a.fregs, rd, p.reply.typed.value);
    }
  }

  lemma LoadReplies(m: Mem, kind: Class, addr: nat)
    requires WellFormed(m)
    ensures !Perform(m, Load(kind, addr)).reply.Stored?
    ensures !Perform(m, Store(kind, addr, 0)).reply.Loaded?
  {
  }

  lemma StoreMeaning(a: Arch, kind: Class, base: bv32, imm: bv32, value: bv32)
    requires Valid(a)
    ensures MeansStore(a, StoreWord(a.(pc := Plus(a.pc, 4)), kind, Address(base, imm), value), kind, (Nat(base) + Signed(Nat(imm))) % TWO32, value)
  {
    hide Nat, Plus, Address, Perform;
    NextPc(a.pc);
    OffsetMeaning(base, imm);
  }

  lemma LinkResult(a: Arch, rd: RegId, target: bv32)
    requires Valid(a)
    ensures MeansJump(a, Result(a.(regs := SetReg(a.regs, rd, Plus(a.pc, 4)), pc := target), Continue), rd)
  {
    hide Nat, Plus, SetReg, GetReg, Wrote;
    NextPc(a.pc);
    WroteReg(a.regs, rd, Plus(a.pc, 4));
  }

  lemma JumpMeaning(host: Host, a: Arch, i: Instr)
    requires Valid(a) && (i.Jal? || (i.I? && i.i == Jalr))
    ensures Means(host, a, RunInstr(host, a.(pc := Plus(a.pc, 4)), a.pc, i), i)
  {
    hide Nat, Plus, SetReg, GetReg, MeansJump;
    match i
    case I(_, rd, rs1, imm) =>
      OffsetMeaning(GetReg(a.regs, rs1), imm);
      LinkResult(a, rd, Plus(GetReg(a.regs, rs1), imm));
    case Jal(rd, imm) =>
      OffsetMeaning(a.pc, imm);
      LinkResult(a, rd, Plus(a.pc, imm));
  }

  lemma BranchResult(a: Arch, taken: bool, imm: bv32)
    ensures MeansBranch(a, JumpIf(a.(pc := Plus(a.pc, 4)), taken, Plus(a.pc, imm)), taken, imm)
  {
    hide Nat, Plus;
    NextPc(a.pc);
    OffsetMeaning(a.pc, imm);
  }

  lemma BranchMeaning(host: Host, a: Arch, op: BInstr, rs1: RegId, rs2: RegId, imm: bv32)
    requires Valid(a)
    ensures Means(host, a, RunInstr(host, a.(pc := Plus(a.pc, 4)), a.pc, B(op, rs1, rs2, imm)), B(op, rs1, rs2, imm))
  {
    hide Nat, Plus, GetReg, IntCompare, CompareMeans, MeansBranch, JumpIf;
    CompareMeaning(op, GetReg(a.regs, rs1), GetReg(a.regs, rs2));
    BranchResult(a, IntCompare(op, GetReg(a.regs, rs1), GetReg(a.regs, rs2)), imm);
  }

  lemma MemoryMeaning(host: Host, a: Arch, i: Instr)
    requires Valid(a) && (i.Sw? || i.End? || (i.I? && i.i == Lw))
    ensures Means(host, a, RunInstr(host, a.(pc := Plus(a.pc, 4)), a.pc, i), i)
  {
    hide Nat, Plus, Address, GetReg, LoadWord, StoreWord, MeansLoad, MeansStore;
    match i
    case I(_, rd, rs1, imm) => LoadMeaning(a, Int, rd, GetReg(a.regs, rs1), imm);
    case Sw(rs1, rs2, imm) => StoreMeaning(a, Int, GetReg(a.regs, rs1), imm, GetReg(a.regs, rs2));
    case End => NextPc(a.pc);
  }

  lemma ByteMeaning(x: bv32)
    ensures BV.Nat8(LowByte(x)) == Nat(x) % 0x100
  {
    hide BV.Nat, BV.Nat8;
    BV.LastByteNat(x);
  }

  lemma IOMeaning(host: Host, a: Arch, io: IOInstr)
    requires Valid(a)
    ensures MeansIO(a, RunInstr(host, a.(pc := Plus(a.pc, 4)), a.pc, IO(io)), io)
  {
    hide Nat, Plus, SetReg, GetReg, Wrote, LowByte, BV.Nat8;
    NextPc(a.pc);
    match io
    case Outb(rs) => ByteMeaning(GetReg(a.regs, rs));
    case Inw(rd) => if a.input != [] { WroteReg(a.regs, rd, a.input[0]); }
    case Finw(rd) => if a.input != [] { WroteReg(a.fregs, rd, a.input[0]); }
  }

  lemma FlagNat(b: bool)
    ensures Nat(Flag(b)) == if b then 1 else 0
  {
  }

  lemma FArithMeaning(host: Host, a: Arch, f: FInstr)
    requires Valid(a) && (f.E? || f.H? || f.Fitof?)
    ensures MeansF(host, a, RunFloat(host, a.(pc := Plus(a.pc, 4)), a.pc, f), f)
  {
    hide Nat, Plus, GetReg, FloatStep, Moved, WithFReg, FloatOp, FloatUnary, FromInteger, FloatMeans, UnaryMeans, Convert.FCvtSW;
    match f
    case E(op, rd, rs1, rs2) =>
      FloatOpMeaning(host, op, GetReg(a.fregs, rs1), GetReg(a.fregs, rs2));
      FloatResult(a, rd, FloatOp(host, op, GetReg(a.fregs, rs1), GetReg(a.fregs, rs2)));
    case H(op, rd, rs1) =>
      UnaryMeaning(host, op, GetReg(a.fregs, rs1));
      FloatResult(a, rd, FloatUnary(host, op, GetReg(a.fregs, rs1)));
    case Fitof(rd, rs1) =>
      ConvertMeaning(GetReg(a.regs, rs1));
      FloatResult(a, rd, FromInteger(GetReg(a.regs, rs1)));
  }

  lemma FTestMeaning(host: Host, a: Arch, f: FInstr)
    requires Valid(a) && (f.Flt? || f.Y?)
    ensures MeansF(host, a, RunFloat(host, a.(pc := Plus(a.pc, 4)), a.pc, f), f)
  {
    hide Plus, GetReg, IntStep, Moved, WithReg, FloatTest, TestMeans, Flag, Floats.FLess, BV.Nat;
    match f
    case Flt(rd, rs1, rs2) =>
      FlagNat(FloatLess(GetReg(a.fregs, rs1), GetReg(a.fregs, rs2)));
      IntResult(a, rd, Flag(FloatLess(GetReg(a.fregs, rs1), GetReg(a.fregs, rs2))));
    case Y(op, rd, rs1) =>
      TestMeaning(op, GetReg(a.fregs, rs1));
      IntResult(a, rd, FloatTest(op, GetReg(a.fregs, rs1)));
  }

  lemma FBranchMeaning(host: Host, a: Arch, f: FInstr)
    requires Valid(a) && (f.W? || f.V?)
    ensures MeansF(host, a, RunFloat(host, a.(pc := Plus(a.pc, 4)), a.pc, f), f)
  {
    hide Plus, GetReg, MeansBranch, JumpIf, IsZero, Floats.FLess, Floats.FGreaterEq, Floats.Mag, BV.Nat;
    match f
    case W(op, rs1, rs2, imm) => BranchResult(a, FloatCompare(op, GetReg(a.fregs, rs1), GetReg(a.fregs, rs2)), imm);
    case V(op, rs1, imm) =>
      IsZeroMeaning(GetReg(a.fregs, rs1));
      BranchResult(a, FloatZero(op, GetReg(a.fregs, rs1)), imm);
  }

  lemma FMemoryMeaning(host: Host, a: Arch, f: FInstr)
    requires Valid(a) && (f.Flw? || f.Fsw?)
    ensures MeansF(host, a, RunFloat(host, a.(pc := Plus(a.pc, 4)), a.pc, f), f)
  {
    hide Nat, Plus, Address, GetReg, LoadWord, StoreWord, MeansLoad, MeansStore;
    match f
    case Flw(rd, rs1, imm) => LoadMeaning(a, Float, rd, GetReg(a.regs, rs1), imm);
    case Fsw(rs2, rs1, imm) => StoreMeaning(a, Float, GetReg(a.regs, rs1), imm, GetReg(a.fregs, rs2));
  }

  lemma InstrMeaning(host: Host, a: Arch, i: Instr)
    requires Valid(a)
    ensures Means(host, a, RunInstr(host, a.(pc := Plus(a.pc, 4)), a.pc, i), i)
  {
    hide Plus, Means, MeansF, MeansIO, RunInstr, RunFloat;
    match i
    case R(op, rd, rs1, rs2) => RMeaning(host, a, op, rd, rs1, rs2);
    case I(op, rd, rs1, imm) =>
      if op == Lw { MemoryMeaning(host, a, i); } else if op == Jalr { JumpMeaning(host, a, i); } else { IMeaning(host, a, op, rd, rs1, imm); }
    case B(op, rs1, rs2, imm) => BranchMeaning(host, a, op, rs1, rs2, imm);
    case Jal(_, _) => JumpMeaning(host, a, i);
    case IO(io) => IOMeaning(host, a, io); IOUnfolds(host, a, io);
    case F(f) =>
      if f.E? || f.H? || f.Fitof? { FArithMeaning(host, a, f); }
      else if f.Flw? || f.Fsw? { FMemoryMeaning(host, a, f); }
      else if f.Flt? || f.Y? { FTestMeaning(host, a, f); }
      else { FBranchMeaning(host, a, f); }
      FloatUnfolds(host, a, f);
    case _ => MemoryMeaning(host, a, i);
  }

  lemma IOUnfolds(host: Host, a: Arch, io: IOInstr)
    requires Valid(a)
    ensures var q := RunInstr(host, a.(pc := Plus(a.pc, 4)), a.pc, IO(io)); Means(host, a, q, IO(io)) <==> MeansIO(a, q, io)
  {
    hide MeansIO, RunInstr, Plus;
  }

  lemma FloatUnfolds(host: Host, a: Arch, f: FInstr)
    requires Valid(a)
    ensures var b := a.(pc := Plus(a.pc, 4)); RunInstr(host, b, a.pc, F(f)) == RunFloat(host, b, a.pc, f)
    ensures var q := RunInstr(host, a.(pc := Plus(a.pc, 4)), a.pc, F(f)); Means(host, a, q, F(f)) <==> MeansF(host, a, q, f)
  {
    hide MeansF, RunFloat, Plus;
  }

  /** Main result: a step of the interpreter does to the numbers what its instruction means. */
  lemma IsaMeaning(host: Host, a: Arch, bin: bv32, i: Instr)
    requires Valid(a) && Fetch(a.mem, Nat(a.pc)) == Word(bin) && Decode.Decode(bin) == Ok(i)
    ensures Means(host, a, IsaStep(host, a), i)
  {
    hide Fetch, Decode.Decode, Means, RunInstr, Plus;
    PcIndex(a.pc);
    InstrMeaning(host, a, i);
  }

  lemma PcIndex(pc: bv32)
    ensures Nat(pc) == pc as int
  {
  }
}
