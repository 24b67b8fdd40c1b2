/** The stages of one CPU step on values (core_sim/src/cpu.rs): register fetch, execute, memory
    access and write-back, and the step that composes them with the timing state. */
module Stages {
  import opened Wrappers
  import opened Instr
  import opened Types
  import opened Memory
  import opened FpuOps
  import opened Isa
  import opened Pipeline
  import BranchPredictor
  import Cache
  import Decode

  const RAM_BYTE_SIZE: nat := 1000000
  const RAM_WORDS: nat := 250000
  const DDR2_ACCESS_CYCLES: nat := 90
  const BRAM_WORD_SIZE: nat := 16384
  const STACK_WORD_SIZE: nat := 256

  datatype CacheStat = CacheStat(hits: nat, misses: nat) {
    function Count(hit: bool): CacheStat { if hit then this.(hits := hits + 1) else this.(misses := misses + 1) }
  }

  /** Everything the timing model keeps. */
  datatype Timing = Timing(lines: Cache.Lines, table: BranchPredictor.Table, queue: Queue, cStat: CacheStat, bStat: BranchPredictor.BranchStat)
  datatype State = State(arch: Arch, timing: Timing)

  /** The same machine with other memory watches. */
  function WithSpies(s: State, spies: Spies): State { s.(arch := s.arch.(mem := s.arch.mem.(spies := spies))) }

  /** The timing state of a CPU that has not run yet. */
  const START_TIMING: Timing :=
    Timing(Cache.Empty(Cache.CACHE_NUM_LINES), BranchPredictor.Fresh(BranchPredictor.NUM_COUNTERS), EMPTY,
           CacheStat(0, 0), BranchPredictor.BranchStat(0, 0, 0, 0))

  /** The source register values of an instruction, in order. */
  datatype Operands = Operands(x: bv32, y: bv32)

  datatype MaInput = MaStore(kind: Class, addr: Cache.Addr, value: bv32) | MaLoad(kind: Class, id: RegId, addr: Cache.Addr)
  datatype WbInput = WbI(id: RegId, value: bv32) | WbF(id: RegId, value: bv32)

  datatype ExecuteOutput = ExecuteOutput(
    maIn: Option<MaInput>, wbIn: Option<WbInput>, newPc: Option<bv32>,
    useFpu: bool, flush: bool, cycles: nat, end: bool)
  datatype Executed = Executed(out: ExecuteOutput) | ExecuteFailed(error: Error)

  const DEFAULT: ExecuteOutput := ExecuteOutput(None, None, None, false, false, 0, false)

  /** `reg_fetch`. */
  function RegFetch(i: Instr, regs: seq<bv32>, fregs: seq<bv32>): Operands
    requires |regs| == 32 && |fregs| == 32
  {
    match i
    case R(_, _, rs1, rs2) => Operands(GetReg(regs, rs1), GetReg(regs, rs2))
    case I(_, _, rs1, _) => Operands(GetReg(regs, rs1), 0)
    case Sw(rs1, rs2, _) => Operands(GetReg(regs, rs1), GetReg(regs, rs2))
    case B(_, rs1, rs2, _) => Operands(GetReg(regs, rs1), GetReg(regs, rs2))
    case Jal(_, _) => Operands(0, 0)
    case IO(Outb(rs)) => Operands(GetReg(regs, rs), 0)
    case IO(_) => Operands(0, 0)
    case F(f) => RegFetchF(f, regs, fregs)
    case End => Operands(0, 0)
  }

  function RegFetchF(f: FInstr, regs: seq<bv32>, fregs: seq<bv32>): Operands
    requires |regs| == 32 && |fregs| == 32
  {
    match f
    case E(_, _, rs1, rs2) => Operands(GetReg(fregs, rs1), GetReg(fregs, rs2))
    case H(_, _, rs1) => Operands(GetReg(fregs, rs1), 0)
    case Flt(_, rs1, rs2) => Operands(GetReg(fregs, rs1), GetReg(fregs, rs2))
    case Fitof(_, rs1) => Operands(GetReg(regs, rs1), 0)
    case Y(_, _, rs1) => Operands(GetReg(fregs, rs1), 0)
    case W(_, rs1, rs2, _) => Operands(GetReg(fregs, rs1), GetReg(fregs, rs2))
    case V(_, rs1, _) => Operands(GetReg(fregs, rs1), 0)
    case Flw(_, rs1, _) => Operands(GetReg(regs, rs1), 0)
    case Fsw(rs2, rs1, _) => Operands(GetReg(regs, rs1), GetReg(fregs, rs2))
  }

  /** The outcome of a conditional branch; None for every other instruction. */
  function BranchTaken(i: Instr, v: Operands): Option<bool> {
    match i
    case B(op, _, _, _) => Some(IntCompare(op, v.x, v.y))
    case F(W(op, _, _, _)) => Some(FloatCompare(op, v.x, v.y))
    case F(V(op, _, _)) => Some(FloatZero(op, v.x))
    case _ => None
  }

  function BranchOut(taken: bool, target: bv32, predicted: bool): ExecuteOutput {
    DEFAULT.(newPc := if taken then Some(target) else None, flush := predicted != taken, cycles := 1)
  }

  function ResultI(rd: RegId, value: bv32, cycles: nat): ExecuteOutput {
    DEFAULT.(wbIn := Some(WbI(rd, value)), cycles := cycles)
  }

  function ResultF(rd: RegId, value: bv32, cycles: nat): ExecuteOutput {
    DEFAULT.(wbIn := Some(WbF(rd, value)), cycles := cycles)
  }

  function ECycles(op: EInstr): nat {
    match op
    case Fadd => 5 case Fsub => 5 case Fmul => 2 case Fdiv => 11 case _ => 1
  }

  function HCycles(op: HInstr): nat { match op case Fsqrt => 8 case Fhalf => 1 case Ffloor => 8 }
  function YCycles(op: YInstr): nat { match op case Fftoi => 2 case _ => 1 }

  /** `execute` on floating-point formats. */
  function ExecuteF(host: Host, f: FInstr, v: Operands, oldPc: bv32, predicted: bool): ExecuteOutput {
    match f
    case E(op, rd, _, _) => ResultF(rd, FloatOp(host, op, v.x, v.y), ECycles(op)).(useFpu := true)
    case H(op, rd, _) => ResultF(rd, FloatUnary(host, op, v.x), HCycles(op)).(useFpu := true)
    case Flt(rd, _, _) => ResultI(rd, Flag(FloatLess(v.x, v.y)), 1)
    case Fitof(rd, _) => ResultF(rd, FromInteger(v.x), 4).(useFpu := true)
    case Y(op, rd, _) => ResultI(rd, FloatTest(op, v.x), YCycles(op)).(useFpu := true)
    case W(op, _, _, imm) => BranchOut(FloatCompare(op, v.x, v.y), Plus(oldPc, imm), predicted)
    case V(op, _, imm) => BranchOut(FloatZero(op, v.x), Plus(oldPc, imm), predicted)
    case Flw(rd, _, imm) => DEFAULT.(maIn := Some(MaLoad(Float, rd, Address(v.x, imm))))
    case Fsw(_, _, imm) => DEFAULT.(maIn := Some(MaStore(Float, Address(v.x, imm), v.y)), cycles := 1)
  }

  /** `execute`, without its effects on predictor, statistics and I/O. I-type instructions carry
      0 cycles, as in the source. */
  function ExecuteInstr(host: Host, i: Instr, v: Operands, oldPc: bv32, pcPlus4: bv32, predicted: bool, input: seq<bv32>): Executed {
    match i
    case R(op, rd, _, _) =>
      if ShiftOverflows(op, v.y) then ExecuteFailed(Panicked) else Executed(ResultI(rd, Alu(op, v.x, v.y), 1))
    case I(op, rd, _, imm) =>
      if op == Lw then Executed(DEFAULT.(maIn := Some(MaLoad(Int, rd, Address(v.x, imm)))))
      else if op == Jalr then Executed(ResultI(rd, pcPlus4, 0).(flush := true, newPc := Some(Plus(v.x, imm))))
      else if ImmShiftOverflows(op, imm) then ExecuteFailed(Panicked)
      else Executed(ResultI(rd, AluImm(op, v.x, imm), 0))
    case Sw(_, _, imm) => Executed(DEFAULT.(maIn := Some(MaStore(Int, Address(v.x, imm), v.y)), cycles := 1))
    case B(op, _, _, imm) => Executed(BranchOut(IntCompare(op, v.x, v.y), Plus(oldPc, imm), predicted))
    case Jal(rd, imm) => Executed(ResultI(rd, pcPlus4, 1).(newPc := Some(Plus(oldPc, imm))))
    case IO(Outb(_)) => Executed(DEFAULT.(cycles := 1))
    case IO(Inw(rd)) => if input == [] then ExecuteFailed(InputError) else Executed(ResultI(rd, input[0], 1))
    case IO(Finw(rd)) => if input == [] then ExecuteFailed(InputError) else Executed(ResultF(rd, input[0], 1))
    case F(f) => Executed(ExecuteF(host, f, v, oldPc, predicted))
    case End => Executed(DEFAULT.(cycles := 1, end := true))
  }

  /** The effects of `execute`. */
  function InputAfter(i: Instr, input: seq<bv32>): seq<bv32> {
    if i.IO? && !i.io.Outb? && input != [] then input[1..] else input
  }

  function OutputAfter(i: Instr, v: Operands, output: seq<bv8>): seq<bv8> {
    if i.IO? && i.io.Outb? then output + [LowByte(v.x)] else output
  }

  function TableAfter(t: BranchPredictor.Table, pc: bv32, taken: Option<bool>): BranchPredictor.Table {
    if taken.Some? then BranchPredictor.Update(t, pc as int, taken.value) else t
  }

  function StatAfter(b: BranchPredictor.BranchStat, predicted: bool, taken: Option<bool>): BranchPredictor.BranchStat {
    if taken.Some? then b.Count(predicted, taken.value) else b
  }

  // ---- Memory access ----

  /** Word addresses served by on-chip memory: the low ones and the stack. */
  predicate UseBram(addr: nat) { !(BRAM_WORD_SIZE <= addr < RAM_WORDS - STACK_WORD_SIZE) }

  function AccessOf(ma: MaInput): Access {
    match ma
    case MaStore(k, addr, value) => Store(k, addr, value)
    case MaLoad(k, _, addr) => Load(k, addr)
  }

  function LinesAfter(lines: Cache.Lines, addr: Cache.Addr): Cache.Lines {
    if UseBram(addr) then lines else Cache.After(lines, addr)
  }

  predicate CacheHit(lines: Cache.Lines, addr: Cache.Addr) { !UseBram(addr) && Cache.Hits(lines, addr) }

  function CStatAfter(c: CacheStat, lines: Cache.Lines, addr: Cache.Addr): CacheStat {
    if UseBram(addr) then c else c.Count(CacheHit(lines, addr))
  }

  /** The clocks of the memory stage. */
  function MaCost(lines: Cache.Lines, addr: Cache.Addr): nat {
    if UseBram(addr) then 1 else if CacheHit(lines, addr) then 2 else DDR2_ACCESS_CYCLES
  }

  function LoadedInto(ma: MaInput, value: bv32): Option<WbInput> {
    if ma.MaLoad? then Some(if ma.kind == Int then WbI(ma.id, value) else WbF(ma.id, value)) else None
  }

  function WriteRegister(a: Arch, wb: Option<WbInput>): Arch
    requires |a.regs| == 32 && |a.fregs| == 32
  {
    match wb
    case Some(WbI(id, value)) => a.(regs := SetReg(a.regs, id, value))
    case Some(WbF(id, value)) => a.(fregs := SetReg(a.fregs, id, value))
    case None => a
  }

  function EntryOf(out: ExecuteOutput, maCycles: nat, ready: Stage, wb: Option<WbInput>): Entry {
    Entry(out.cycles, maCycles, Some(ready),
          if wb.Some? && wb.value.WbI? then Some(wb.value.id) else None,
          if wb.Some? && wb.value.WbF? then Some(wb.value.id) else None)
  }

  /** The stage after which a result can be forwarded. */
  function ReadyStage(out: ExecuteOutput): Stage {
    if out.maIn.Some? && out.maIn.value.MaLoad? then
      if UseBram(out.maIn.value.addr) then Stage.WriteBack else Stage.MemoryAccess
    else if out.useFpu then Stage.MemoryAccess
    else Stage.Execute
  }

  // ---- The step ----

  /** What a step adds to the history of a run. */
  datatype Log = Log(instr: Option<Instr>, completed: bool, exCycles: nat, stalls: nat, jalr: bool, flush: bool,
                     access: Option<Access>, branch: Option<BranchPredictor.Branch>, cached: Option<Cache.Addr>)

  const NOTHING: Log := Log(None, false, 0, 0, false, false, None, None, None)

  datatype StepResult = StepResult(state: State, outcome: Outcome, cycles: nat, log: Log)

  /** Write-back and the pipeline. */
  function Finish(s: State, i: Instr, out: ExecuteOutput, maCycles: nat, wb: Option<WbInput>, spy: SpyHit, log: Log): StepResult
    requires Valid(s.arch)
  {
    var p := Advance(s.timing.queue, i, EntryOf(out, maCycles, ReadyStage(out), wb), out.flush);
    StepResult(State(WriteRegister(s.arch, wb), s.timing.(queue := p.queue)), SpyFlow(spy), p.cycles,
               log.(instr := Some(i), completed := true, exCycles := out.cycles, stalls := p.stalls, jalr := i.I? && i.i == Jalr,
                    flush := out.flush))
  }

  /** The machine after a memory access that worked, and the log of any access. */
  function Accessed(s: State, ma: MaInput): State
    requires Valid(s.arch)
  {
    State(s.arch.(mem := Perform(s.arch.mem, AccessOf(ma)).mem),
          s.timing.(lines := LinesAfter(s.timing.lines, ma.addr), cStat := CStatAfter(s.timing.cStat, s.timing.lines, ma.addr)))
  }

  function AccessLog(log: Log, ma: MaInput): Log {
    log.(access := Some(AccessOf(ma)), cached := if UseBram(ma.addr) then None else Some(ma.addr))
  }

  function Reloaded(ma: MaInput, reply: Reply): Option<WbInput> {
    if reply.Loaded? then LoadedInto(ma, reply.typed.value) else None
  }

  lemma AccessedValid(s: State, ma: MaInput)
    requires Valid(s.arch)
    ensures Valid(Accessed(s, ma).arch)
  {
    hide Perform, AccessOf, LinesAfter, CStatAfter;
    PerformWellFormed(s.arch.mem, AccessOf(ma));
  }

  /** Everything after `execute`. A failing access has changed the cache already. */
  function AfterExecute(s: State, i: Instr, out: ExecuteOutput, log: Log): StepResult
    requires Valid(s.arch)
  {
    match out.maIn
    case None => Finish(s, i, out, 1, out.wbIn, NoSpy, log)
    case Some(ma) =>
      var p := Perform(s.arch.mem, AccessOf(ma));
      if p.reply.Failed? then
        var t := s.timing.(lines := LinesAfter(s.timing.lines, ma.addr));
        StepResult(s.(timing := t), Fail(MemoryError(p.reply.fault)), 0, AccessLog(log, ma))
      else
        AccessedValid(s, ma);
        Finish(Accessed(s, ma), i, out, MaCost(s.timing.lines, ma.addr), Reloaded(ma, p.reply), p.spied, AccessLog(log, ma))
  }

  function PcAfter(pc: bv32, newPc: Option<bv32>): bv32 { if newPc.Some? then newPc.value else pc }

  /** The machine after `execute`: program counter, I/O, predictor and branch statistics. */
  function Resolved(s: State, i: Instr, v: Operands, newPc: Option<bv32>): State {
    var taken := BranchTaken(i, v);
    var predicted := BranchPredictor.Predict(s.timing.table, s.arch.pc as int);
    State(s.arch.(pc := PcAfter(s.arch.pc, newPc), input := InputAfter(i, s.arch.input), output := OutputAfter(i, v, s.arch.output)),
          s.timing.(table := TableAfter(s.timing.table, s.arch.pc, taken), bStat := StatAfter(s.timing.bStat, predicted, taken)))
  }

  function BranchLog(pc: bv32, taken: Option<bool>): Log {
    NOTHING.(branch := if taken.Some? then Some(BranchPredictor.Branch(pc as int, taken.value)) else None)
  }

  /** `execute` as the step calls it. */
  function ExecuteAt(host: Host, s: State, oldPc: bv32, i: Instr): Executed
    requires Valid(s.arch)
  {
    ExecuteInstr(host, i, RegFetch(i, s.arch.regs, s.arch.fregs), oldPc, s.arch.pc,
                 BranchPredictor.Predict(s.timing.table, s.arch.pc as int), s.arch.input)
  }

  /** Register fetch and execute; the program counter is past the instruction already. */
  function AfterDecode(host: Host, s: State, oldPc: bv32, i: Instr): StepResult
    requires Valid(s.arch)
  {
    var v := RegFetch(i, s.arch.regs, s.arch.fregs);
    match ExecuteAt(host, s, oldPc, i)
    case ExecuteFailed(e) => StepResult(s, Fail(e), 0, NOTHING)
    case Executed(out) =>
      if out.end then StepResult(s, Exit, 0, NOTHING)
      else AfterExecute(Resolved(s, i, v, out.newPc), i, out, BranchLog(s.arch.pc, BranchTaken(i, v)))
  }

  /** `cycle_one_full`. */
  function CpuStep(host: Host, s: State): StepResult
    requires Valid(s.arch)
  {
    match Fetch(s.arch.mem, s.arch.pc as int)
    case NoWord(f) => StepResult(s, Fail(if f == Fault.Panic then Panicked else MemoryError(f)), 0, NOTHING)
    case Word(bin) =>
      var next := s.(arch := s.arch.(pc := Plus(s.arch.pc, 4)));
      match Decode.Decode(bin)
      case Invalid => StepResult(next, Fail(DecodeError(bin)), 0, NOTHING)
      case Panic => StepResult(next, Fail(Panicked), 0, NOTHING)
      case Ok(i) => AfterDecode(host, next, s.arch.pc, i)
  }

  // ---- The step refines the plain interpreter ----

  /** The architectural effect of the stages after `execute`. */
  function Commit(a: Arch, out: ExecuteOutput): Result
    requires Valid(a)
  {
    match out.maIn
    case None => Result(WriteRegister(a, out.wbIn), Continue)
    case Some(MaStore(kind, addr, value)) => StoreWord(a, kind, addr, value)
    case Some(MaLoad(kind, id, addr)) => LoadWord(a, kind, addr, id)
  }

  /** The architectural effect of everything after decoding. */
  function Staged(host: Host, a: Arch, oldPc: bv32, i: Instr, predicted: bool): Result
    requires Valid(a)
  {
    var v := RegFetch(i, a.regs, a.fregs);
    match ExecuteInstr(host, i, v, oldPc, a.pc, predicted, a.input)
    case ExecuteFailed(e) => Result(a, Fail(e))
    case Executed(out) =>
      if out.end then Result(a, Exit)
      else Commit(a.(pc := PcAfter(a.pc, out.newPc), input := InputAfter(i, a.input), output := OutputAfter(i, v, a.output)), out)
  }

  lemma PerformReplies(m: Mem, a: Access)
    requires WellFormed(m)
    ensures a.Store? ==> !Perform(m, a).reply.Loaded?
    ensures !a.Store? ==> !Perform(m, a).reply.Stored?
  {
  }

  lemma FinishCommits(s: State, i: Instr, out: ExecuteOutput, maCycles: nat, wb: Option<WbInput>, spy: SpyHit, log: Log)
    requires Valid(s.arch)
    ensures var r := Finish(s, i, out, maCycles, wb, spy, log); r.state.arch == WriteRegister(s.arch, wb) && r.outcome == SpyFlow(spy)
  {
    hide Advance, EntryOf, ReadyStage, WriteRegister;
  }

  lemma CommitsAlike(s: State, i: Instr, out: ExecuteOutput, log: Log)
    requires Valid(s.arch)
    ensures var r := AfterExecute(s, i, out, log); var d := Commit(s.arch, out);
            r.state.arch == d.arch && r.outcome == d.outcome
  {
    hide Perform, SetReg, Finish, MaCost, CStatAfter, LinesAfter, AccessLog;
    if out.maIn.None? {
      FinishCommits(s, i, out, 1, out.wbIn, NoSpy, log);
    } else {
      var ma := out.maIn.value;
      var p := Perform(s.arch.mem, AccessOf(ma));
      PerformReplies(s.arch.mem, AccessOf(ma));
      AccessedValid(s, ma);
      FinishCommits(Accessed(s, ma), i, out, MaCost(s.timing.lines, ma.addr), Reloaded(ma, p.reply), p.spied, AccessLog(log, ma));
    }
  }

  lemma StagedAlike(host: Host, s: State, oldPc: bv32, i: Instr)
    requires Valid(s.arch)
    ensures var predicted := BranchPredictor.Predict(s.timing.table, s.arch.pc as int);
            var r := AfterDecode(host, s, oldPc, i); var d := Staged(host, s.arch, oldPc, i, predicted);
            r.state.arch == d.arch && r.outcome == d.outcome
  {
    hide ExecuteInstr, RegFetch, AfterExecute, Commit, TableAfter, StatAfter, InputAfter, OutputAfter, BranchTaken, BranchLog;
    var v, ex := RegFetch(i, s.arch.regs, s.arch.fregs), ExecuteAt(host, s, oldPc, i);
    if ex.Executed? && !ex.out.end {
      CommitsAlike(Resolved(s, i, v, ex.out.newPc), i, ex.out, BranchLog(s.arch.pc, BranchTaken(i, v)));
    }
  }

  /** The stages agree with the interpreter's direct execution, for every prediction. */
  lemma FloatStaged(host: Host, a: Arch, oldPc: bv32, f: FInstr, predicted: bool)
    requires Valid(a)
    ensures Staged(host, a, oldPc, F(f), predicted) == RunFloat(host, a, oldPc, f)
  {
    hide Staged, RunFloat;
    if f.E? || f.H? { FloatArithStaged(host, a, oldPc, f, predicted); }
    else if f.Flt? || f.Fitof? || f.Y? { FloatConvertStaged(host, a, oldPc, f, predicted); }
    else { FloatOtherStaged(host, a, oldPc, f, predicted); }
  }

  lemma FloatArithStaged(host: Host, a: Arch, oldPc: bv32, f: FInstr, predicted: bool)
    requires Valid(a) && (f.E? || f.H?)
    ensures Staged(host, a, oldPc, F(f), predicted) == RunFloat(host, a, oldPc, f)
  {
    hide StoreWord, LoadWord, SetReg, GetReg, FloatOp, FloatUnary, FloatTest, FloatCompare, FloatZero, Address, Plus;
  }

  lemma FloatConvertStaged(host: Host, a: Arch, oldPc: bv32, f: FInstr, predicted: bool)
    requires Valid(a) && (f.Flt? || f.Fitof? || f.Y?)
    ensures Staged(host, a, oldPc, F(f), predicted) == RunFloat(host, a, oldPc, f)
  {
    hide StoreWord, LoadWord, SetReg, GetReg, FloatOp, FloatTest, FloatLess, FromInteger, Address, Plus;
  }

  lemma FloatOtherStaged(host: Host, a: Arch, oldPc: bv32, f: FInstr, predicted: bool)
    requires Valid(a) && (f.W? || f.V? || f.Flw? || f.Fsw?)
    ensures Staged(host, a, oldPc, F(f), predicted) == RunFloat(host, a, oldPc, f)
  {
    hide StoreWord, LoadWord, SetReg, GetReg, FloatOp, FloatUnary, FloatTest, FloatCompare, FloatZero, Address, Plus;
  }

  lemma AluStaged(host: Host, a: Arch, oldPc: bv32, i: Instr, predicted: bool)
    requires Valid(a) && (i.R? || i.I?)
    ensures Staged(host, a, oldPc, i, predicted) == RunInstr(host, a, oldPc, i)
  {
    hide StoreWord, LoadWord, SetReg, GetReg, Alu, AluImm, IntCompare, Address, ShiftOverflows, ImmShiftOverflows, ExecuteF, RunFloat, Plus, LowByte;
  }

  lemma FlowStaged(host: Host, a: Arch, oldPc: bv32, i: Instr, predicted: bool)
    requires Valid(a) && (i.Sw? || i.B? || i.Jal?)
    ensures Staged(host, a, oldPc, i, predicted) == RunInstr(host, a, oldPc, i)
  {
    hide StoreWord, LoadWord, SetReg, GetReg, IntCompare, Address, ExecuteF, RunFloat, Plus, LowByte;
  }

  lemma IoStaged(host: Host, a: Arch, oldPc: bv32, i: Instr, predicted: bool)
    requires Valid(a) && (i.IO? || i.End?)
    ensures Staged(host, a, oldPc, i, predicted) == RunInstr(host, a, oldPc, i)
  {
    hide StoreWord, LoadWord, SetReg, GetReg, ExecuteF, RunFloat, Plus, LowByte;
  }

  /** Main result: one step of the pipelined model is one step of the plain interpreter, whatever
      the timing state. */
  lemma StepRefinesIsa(host: Host, s: State)
    requires Valid(s.arch)
    ensures var r := CpuStep(host, s); var d := IsaStep(host, s.arch);
            r.state.arch == d.arch && r.outcome == d.outcome
  {
    hide AfterDecode, RunInstr, Decode.Decode, Fetch, Plus;
    match Fetch(s.arch.mem, s.arch.pc as int)
    case NoWord(_) =>
    case Word(bin) =>
      var next := s.(arch := s.arch.(pc := Plus(s.arch.pc, 4)));
      match Decode.Decode(bin)
      case Ok(i) => DecodedRefines(host, next, s.arch.pc, i);
      case _ =>
  }

  lemma DecodedRefines(host: Host, s: State, oldPc: bv32, i: Instr)
    requires Valid(s.arch)
    ensures var r := AfterDecode(host, s, oldPc, i); var d := RunInstr(host, s.arch, oldPc, i);
            r.state.arch == d.arch && r.outcome == d.outcome
  {
    hide AfterDecode, RunFloat, Staged, ExecuteInstr;
    var predicted := BranchPredictor.Predict(s.timing.table, s.arch.pc as int);
    StagedAlike(host, s, oldPc, i);
    if i.F? { FloatStaged(host, s.arch, oldPc, i.f, predicted); }
    else if i.R? || i.I? { AluStaged(host, s.arch, oldPc, i, predicted); }
    else if i.IO? || i.End? { IoStaged(host, s.arch, oldPc, i, predicted); }
    else { FlowStaged(host, s.arch, oldPc, i, predicted); }
  }
}
