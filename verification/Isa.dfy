/** A plain interpreter of the instruction set: registers, memory and I/O, and no timing state.
    It is the reference that the pipelined CPU model is compared with. */
module Isa {
  import opened Instr
  import opened Types
  import opened Memory
  import opened FpuOps
  import Decode

  datatype Arch = Arch(pc: bv32, regs: seq<bv32>, fregs: seq<bv32>, mem: Mem, input: seq<bv32>, output: seq<bv8>)

  /** 32 registers of each kind; registers 0 read as zero. */
  predicate Valid(a: Arch) {
    && |a.regs| == 32 && |a.fregs| == 32 && a.regs[0] == 0 && a.fregs[0] == 0
    && WellFormed(a.mem)
  }

  /** `RuntimeError`, and `Panicked` for a Rust panic. */
  datatype Error = MemoryError(fault: Fault) | DecodeError(bin: bv32) | InputError | Panicked

  datatype Outcome = Continue | Break(spy: SpyHit) | Exit | Fail(error: Error)
  datatype Result = Result(arch: Arch, outcome: Outcome)

  function SetReg(regs: seq<bv32>, id: RegId, value: bv32): (r: seq<bv32>)
    requires |regs| == 32
    ensures |r| == 32 && r[0] == regs[0]
  {
    if id == 0 then regs else RegIndex(id); regs[id as int := value]
  }

  lemma RegIndex(id: RegId)
    ensures 0 <= id as int < 32 && (id as int == 0 <==> id == 0)
  {
  }

  function GetReg(regs: seq<bv32>, id: RegId): bv32
    requires |regs| == 32
  {
    RegIndex(id);
    regs[id as int]
  }

  predicate SignedLess(x: bv32, y: bv32) { (x ^ 0x8000_0000) < (y ^ 0x8000_0000) }

  /** Shifts of 32 and more overflow and panic. */
  predicate ShiftOverflows(op: RInstr, y: bv32) { (op == Sll || op == Sra) && y >= 32 }

  function Alu(op: RInstr, x: bv32, y: bv32): bv32
    requires !ShiftOverflows(op, y)
  {
    match op
    case Add => x + y
    case Sub => x - y
    case Xor => x ^ y
    case Or => x | y
    case And => x & y
    case Sll => x << y
    case Sra => x >> y
    case Slt => if SignedLess(x, y) then 1 else 0
  }

  /** Shifting right with copies of the sign bit coming in. */
  function ArithmeticShift(x: bv32, y: bv32): bv32
    requires y < 32
  {
    if x < 0x8000_0000 then x >> y else !(!x >> y)
  }

  /** `Sra` shifts zeros in: it is the arithmetic shift exactly on values without a sign. */
  lemma SraIsArithmetic(x: bv32, y: bv32)
    requires y < 32
    ensures Alu(Sra, x, y) == ArithmeticShift(x, y) <==> x < 0x8000_0000 || y == 0
  {
  }

  /** For example, -2 shifted by 1 is not -1. */
  lemma SraOfNegative()
    ensures Alu(Sra, 0xFFFF_FFFE, 1) == 0x7FFF_FFFF && ArithmeticShift(0xFFFF_FFFE, 1) == 0xFFFF_FFFF
  {
  }

  predicate ImmShiftOverflows(op: IInstr, imm: bv32) { op == Slli && imm >= 32 }

  function AluImm(op: IInstr, x: bv32, imm: bv32): bv32
    requires op != Lw && op != Jalr && !ImmShiftOverflows(op, imm)
  {
    match op
    case Addi => x + imm
    case Xori => x ^ imm
    case Ori => x | imm
    case Andi => x & imm
    case Slli => x << imm
    case Slti => if SignedLess(x, imm) then 1 else 0
  }

  predicate IntCompare(op: BInstr, x: bv32, y: bv32) {
    match op
    case Beq => x == y
    case Bne => x != y
    case Blt => SignedLess(x, y)
    case Bge => !SignedLess(x, y)
  }

  function FloatOp(host: Host, op: EInstr, x: bv32, y: bv32): bv32 {
    match op
    case Fadd => host.fadd(x, y)
    case Fsub => host.fsub(x, y)
    case Fmul => Multiply(x, y)
    case Fdiv => host.fdiv(x, y)
    case Fsgnj => CopySign(x, y)
    case Fsgnjn => CopySign(x, Negate(y))
    case Fsgnjx => host.fsgnjx(x, y)
  }

  function FloatUnary(host: Host, op: HInstr, x: bv32): bv32 {
    match op
    case Fsqrt => host.fsqrt(x)
    case Fhalf => Halve(x)
    case Ffloor => Floor(host, x)
  }

  function Flag(b: bool): bv32 { if b then 1 else 0 }

  function FloatTest(op: YInstr, x: bv32): bv32 {
    match op
    case Fftoi => ToInteger(x)
    case Fiszero => Flag(IsZero(x))
    case Fispos => Flag(FloatLess(0, x))
    case Fisneg => Flag(FloatLess(x, 0))
  }

  predicate FloatCompare(op: WInstr, x: bv32, y: bv32) {
    match op
    case Fblt => FloatLess(x, y)
    case Fbge => FloatGreaterEq(x, y)
  }

  predicate FloatZero(op: VInstr, x: bv32) {
    match op
    case Fbeqz => IsZero(x)
    case Fbnez => !IsZero(x)
  }

  /** `wrapping_add`. */
  function Plus(x: bv32, y: bv32): bv32 { x + y }

  function Address(base: bv32, imm: bv32): (r: nat)
    ensures r < 0x1_0000_0000
  {
    Plus(base, imm) as int
  }

  function LowByte(x: bv32): bv8 { (x & 0xFF) as bv8 }

  function SpyFlow(spy: SpyHit): Outcome { if spy == NoSpy then Continue else Break(spy) }

  function WithReg(a: Arch, rd: RegId, value: bv32): Result
    requires Valid(a)
  {
    Result(a.(regs := SetReg(a.regs, rd, value)), Continue)
  }

  function WithFReg(a: Arch, rd: RegId, value: bv32): Result
    requires Valid(a)
  {
    Result(a.(fregs := SetReg(a.fregs, rd, value)), Continue)
  }

  /** A store; `a` is past the instruction already. */
  function StoreWord(a: Arch, kind: Class, addr: nat, value: bv32): Result
    requires Valid(a)
  {
    var p := Perform(a.mem, Store(kind, addr, value));
    match p.reply
    case Failed(f) => Result(a, Fail(MemoryError(f)))
    case _ => Result(a.(mem := p.mem), SpyFlow(p.spied))
  }

  function LoadWord(a: Arch, kind: Class, addr: nat, rd: RegId): Result
    requires Valid(a)
  {
    var p := Perform(a.mem, Load(kind, addr));
    match p.reply
    case Loaded(t) =>
      if kind == Int
      then Result(a.(mem := p.mem, regs := SetReg(a.regs, rd, t.value)), SpyFlow(p.spied))
      else Result(a.(mem := p.mem, fregs := SetReg(a.fregs, rd, t.value)), SpyFlow(p.spied))
    case Failed(f) => Result(a, Fail(MemoryError(f)))
    case Stored => Result(a, Fail(Panicked))
  }

  function JumpIf(a: Arch, taken: bool, target: bv32): Result {
    Result(if taken then a.(pc := target) else a, Continue)
  }

  /** A floating-point instruction at `pc`; `a` is past it already. */
  function RunFloat(host: Host, a: Arch, pc: bv32, f: FInstr): Result
    requires Valid(a)
  {
    match f
    case E(op, rd, rs1, rs2) => WithFReg(a, rd, FloatOp(host, op, GetReg(a.fregs, rs1), GetReg(a.fregs, rs2)))
    case H(op, rd, rs1) => WithFReg(a, rd, FloatUnary(host, op, GetReg(a.fregs, rs1)))
    case Flt(rd, rs1, rs2) => WithReg(a, rd, Flag(FloatLess(GetReg(a.fregs, rs1), GetReg(a.fregs, rs2))))
    case Fitof(rd, rs1) => WithFReg(a, rd, FromInteger(GetReg(a.regs, rs1)))
    case Y(op, rd, rs1) => WithReg(a, rd, FloatTest(op, GetReg(a.fregs, rs1)))
    case W(op, rs1, rs2, imm) => JumpIf(a, FloatCompare(op, GetReg(a.fregs, rs1), GetReg(a.fregs, rs2)), Plus(pc, imm))
    case V(op, rs1, imm) => JumpIf(a, FloatZero(op, GetReg(a.fregs, rs1)), Plus(pc, imm))
    case Flw(rd, rs1, imm) => LoadWord(a, Float, Address(GetReg(a.regs, rs1), imm), rd)
    case Fsw(rs2, rs1, imm) => StoreWord(a, Float, Address(GetReg(a.regs, rs1), imm), GetReg(a.fregs, rs2))
  }

  /** An instruction at `pc`; `a` is past it already. */
  function RunInstr(host: Host, a: Arch, pc: bv32, i: Instr): Result
    requires Valid(a)
  {
    match i
    case R(op, rd, rs1, rs2) =>
      if ShiftOverflows(op, GetReg(a.regs, rs2)) then Result(a, Fail(Panicked))
      else WithReg(a, rd, Alu(op, GetReg(a.regs, rs1), GetReg(a.regs, rs2)))
    case I(op, rd, rs1, imm) =>
      if op == Lw then LoadWord(a, Int, Address(GetReg(a.regs, rs1), imm), rd)
      else if op == Jalr then
        Result(a.(regs := SetReg(a.regs, rd, a.pc), pc := Plus(GetReg(a.regs, rs1), imm)), Continue)
      else if ImmShiftOverflows(op, imm) then Result(a, Fail(Panicked))
      else WithReg(a, rd, AluImm(op, GetReg(a.regs, rs1), imm))
    case Sw(rs1, rs2, imm) => StoreWord(a, Int, Address(GetReg(a.regs, rs1), imm), GetReg(a.regs, rs2))
    case B(op, rs1, rs2, imm) => JumpIf(a, IntCompare(op, GetReg(a.regs, rs1), GetReg(a.regs, rs2)), Plus(pc, imm))
    case Jal(rd, imm) => Result(a.(regs := SetReg(a.regs, rd, a.pc), pc := Plus(pc, imm)), Continue)
    case IO(Outb(rs)) => Result(a.(output := a.output + [LowByte(GetReg(a.regs, rs))]), Continue)
    case IO(Inw(rd)) =>
      if a.input == [] then Result(a, Fail(InputError))
      else Result(a.(input := a.input[1..], regs := SetReg(a.regs, rd, a.input[0])), Continue)
    case IO(Finw(rd)) =>
      if a.input == [] then Result(a, Fail(InputError))
      else Result(a.(input := a.input[1..], fregs := SetReg(a.fregs, rd, a.input[0])), Continue)
    case F(f) => RunFloat(host, a, pc, f)
    case End => Result(a, Exit)
  }

  /** One step. The program counter moves past the word as soon as it is fetched, also when the
      rest of the step fails. */
  function IsaStep(host: Host, a: Arch): Result
    requires Valid(a)
  {
    match Fetch(a.mem, a.pc as int)
    case NoWord(f) => Result(a, Fail(if f == Fault.Panic then Panicked else MemoryError(f)))
    case Word(bin) =>
      var next := a.(pc := Plus(a.pc, 4));
      match Decode.Decode(bin)
      case Invalid => Result(next, Fail(DecodeError(bin)))
      case Panic => Result(next, Fail(Panicked))
      case Ok(i) => RunInstr(host, next, a.pc, i)
  }
}
