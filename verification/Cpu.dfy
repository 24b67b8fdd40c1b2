/** The CPU object (core_sim/src/cpu.rs): a step updates the program counter, registers, memory,
    predictor, cache, statistics and the pipeline queue in place. Every method is proved against
    the stage functions on values. */
module Cpu {
  import opened Wrappers
  import opened Instr
  import opened Types
  import opened Memory
  import opened FpuOps
  import opened Isa
  import opened Pipeline
  import opened Stages
  import BP = BranchPredictor
  import Cache
  import Decode
  import RegFile
  import Boot
  import BV = BitVectors

  class Cpu {
    const regFile: RegFile.RegFile
    const memory: Memory
    const cache: Cache.Cache
    const predictor: BP.BranchPredictor
    var pc: bv32
    var input: seq<bv32>
    var output: seq<bv8>
    var pipeline: Queue
    var cStat: CacheStat
    var bStat: BP.BranchStat

    ghost predicate Ready()
      reads this, regFile, regFile.inner, regFile.innerF, memory
    {
      regFile.Valid() && WellFormed(memory.Value())
    }

    ghost function Value(): (s: State)
      reads this, regFile, regFile.inner, regFile.innerF, memory, cache, predictor
      requires Ready()
      ensures Valid(s.arch)
    {
      State(Arch(pc, regFile.inner[..], regFile.innerF[..], memory.Value(), input, output),
            Timing(cache.inner, predictor.inner, pipeline, cStat, bStat))
    }

    /** `Cpu::new`. */
    constructor (image: seq<bv8>, input: seq<bv32>, output: seq<bv8>)
      requires Boot.Bootable(image)
      ensures Ready() && Value() == Boot.Start(image, input, output)
      ensures fresh(memory) && fresh(cache) && fresh(predictor) && fresh(regFile.inner) && fresh(regFile.innerF)
    {
      regFile := new RegFile.RegFile();
      memory := new Memory(RAM_BYTE_SIZE);
      cache := new Cache.Cache();
      predictor := new BP.BranchPredictor();
      pc := BV.Bits(Boot.TextBegin(image));
      this.input := input;
      this.output := output;
      pipeline := EMPTY;
      cStat := CacheStat(0, 0);
      bStat := BP.BranchStat(0, 0, 0, 0);
      new;
      hide Boot.StartRegs, Boot.StartFregs, Boot.StartMem, Boot.TextBegin, BV.Bits;
      Load(image);
      Boot.StartMemWellFormed(image);
    }

    /** The stack and heap registers, the constant one, and the image. */
    method Load(image: seq<bv8>)
      requires Boot.Bootable(image) && regFile.Valid()
      requires regFile.inner[..] == seq(32, _ => 0) && regFile.innerF[..] == seq(32, _ => 0)
      requires memory.Value() == Mem(seq(RAM_BYTE_SIZE, _ => 0xCC), seq(RAM_WORDS, _ => Unknown), 0, 0, NO_SPIES)
      modifies memory, regFile.inner, regFile.innerF
      ensures regFile.Valid() && regFile.inner[..] == Boot.StartRegs(image) && regFile.innerF[..] == Boot.StartFregs()
      ensures memory.Value() == Boot.StartMem(image)
    {
      hide Boot.DataLen, Boot.TextLen, Boot.Bytes, BV.Bits;
      regFile.SetHp(BV.Bits(Boot.DataLen(image) + Boot.TextLen(image)));
      regFile.SetSp(BV.Bits(RAM_WORDS - 1));
      regFile.SetF(1, RegFile.FONE);
      var fits := memory.InitFromSlice(image[8..], Boot.TextBegin(image), Boot.TextEnd(image));
    }

    /** `add_mem_spy`. */
    method AddMemSpy(read: bool, write: bool, u: SpyUnit)
      requires Ready()
      modifies memory
      ensures Ready() && Value() == WithSpies(old(Value()), Watching(old(Value()).arch.mem.spies, read, write, u))
    {
      memory.AddSpy(read, write, u);
    }

    /** `remove_mem_spy`. */
    method RemoveMemSpy(read: bool, write: bool, u: SpyUnit)
      requires Ready()
      modifies memory
      ensures Ready() && Value() == WithSpies(old(Value()), Unwatching(old(Value()).arch.mem.spies, read, write, u.addr))
    {
      memory.RemoveSpy(read, write, u);
    }

    /** The program counter moves past the word as soon as the fetch succeeds. */
    method InstrFetch() returns (r: Fetched)
      requires Ready()
      modifies `pc
      ensures r == Fetch(memory.Value(), old(pc) as int)
      ensures pc == if r.Word? then Plus(old(pc), 4) else old(pc)
    {
      r := memory.GetFromPc(pc as int);
      if r.Word? {
        pc := Plus(pc, 4);
      }
    }

    /** `reg_fetch`: reads the source registers of an instruction. */
    method RegFetchStage(i: Instr) returns (v: Operands)
      requires Ready()
      ensures v == RegFetch(i, regFile.inner[..], regFile.innerF[..])
    {
      hide GetReg;
      var x, y := 0, 0;
      match i {
        case R(_, _, rs1, rs2) => x := regFile.Get(rs1); y := regFile.Get(rs2);
        case I(_, _, rs1, _) => x := regFile.Get(rs1);
        case Sw(rs1, rs2, _) => x := regFile.Get(rs1); y := regFile.Get(rs2);
        case B(_, rs1, rs2, _) => x := regFile.Get(rs1); y := regFile.Get(rs2);
        case IO(Outb(rs)) => x := regFile.Get(rs);
        case F(f) => x, y := RegFetchFloat(f);
        case _ =>
      }
      v := Operands(x, y);
    }

    /** `reg_fetch` on floating-point formats, which read registers of both kinds. */
    method RegFetchFloat(f: FInstr) returns (x: bv32, y: bv32)
      requires Ready()
      ensures Operands(x, y) == RegFetchF(f, regFile.inner[..], regFile.innerF[..])
    {
      hide GetReg;
      x, y := 0, 0;
      match f {
        case E(_, _, rs1, rs2) => x := regFile.GetF(rs1); y := regFile.GetF(rs2);
        case H(_, _, rs1) => x := regFile.GetF(rs1);
        case Flt(_, rs1, rs2) => x := regFile.GetF(rs1); y := regFile.GetF(rs2);
        case Fitof(_, rs1) => x := regFile.Get(rs1);
        case Y(_, _, rs1) => x := regFile.GetF(rs1);
        case W(_, rs1, rs2, _) => x := regFile.GetF(rs1); y := regFile.GetF(rs2);
        case V(_, rs1, _) => x := regFile.GetF(rs1);
        case Flw(_, rs1, _) => x := regFile.Get(rs1);
        case Fsw(rs2, rs1, _) => y := regFile.GetF(rs2); x := regFile.Get(rs1);
      }
    }

    /** Predicts, trains and counts a branch; `pc` is past it already. */
    method ResolveBranch(taken: bool, target: bv32) returns (out: ExecuteOutput)
      modifies `bStat, predictor
      ensures out == BranchOut(taken, target, BP.Predict(old(predictor.inner), pc as int))
      ensures predictor.inner == BP.Update(old(predictor.inner), pc as int, taken)
      ensures bStat == old(bStat).Count(BP.Predict(old(predictor.inner), pc as int), taken)
    {
      var predicted := predictor.PredictAt(pc as int);
      predictor.UpdateState(pc as int, taken);
      bStat := bStat.Count(predicted, taken);
      out := BranchOut(taken, target, predicted);
    }

    /** `execute` on floating-point formats: two of them are branches. */
    method ExecuteFloat(host: Host, f: FInstr, v: Operands, oldPc: bv32) returns (out: ExecuteOutput)
      modifies `bStat, predictor
      ensures out == ExecuteF(host, f, v, oldPc, BP.Predict(old(predictor.inner), pc as int))
      ensures predictor.inner == TableAfter(old(predictor.inner), pc, BranchTaken(F(f), v))
      ensures bStat == StatAfter(old(bStat), BP.Predict(old(predictor.inner), pc as int), BranchTaken(F(f), v))
    {
      hide FloatCompare, FloatZero, FloatOp, FloatUnary, FloatTest, FloatLess, FromInteger, Plus, Address, BP.Predict, BP.Update;
      match f
      case W(op, _, _, imm) =>
        out := ResolveBranch(FloatCompare(op, v.x, v.y), Plus(oldPc, imm));
      case V(op, _, imm) =>
        out := ResolveBranch(FloatZero(op, v.x), Plus(oldPc, imm));
      case _ =>
        out := ExecuteF(host, f, v, oldPc, false);
    }

    /** `execute`. */
    method Execute(host: Host, i: Instr, v: Operands, oldPc: bv32) returns (r: Executed)
      modifies `bStat, `input, `output, predictor
      ensures r == ExecuteInstr(host, i, v, oldPc, pc, BP.Predict(old(predictor.inner), pc as int), old(input))
      ensures predictor.inner == TableAfter(old(predictor.inner), pc, BranchTaken(i, v))
      ensures bStat == StatAfter(old(bStat), BP.Predict(old(predictor.inner), pc as int), BranchTaken(i, v))
      ensures input == InputAfter(i, old(input))
      ensures output == OutputAfter(i, v, old(output))
    {
      hide Alu, AluImm, IntCompare, ExecuteF, FloatCompare, FloatZero, Plus, LowByte, Address, BP.Predict, BP.Update;
      match i
      case R(op, rd, _, _) =>
        if ShiftOverflows(op, v.y) {
          return ExecuteFailed(Panicked);
        }
        return Executed(ResultI(rd, Alu(op, v.x, v.y), 1));
      case I(op, rd, _, imm) =>
        if op == Lw {
          return Executed(DEFAULT.(maIn := Some(MaLoad(Int, rd, Address(v.x, imm)))));
        }
        if op == Jalr {
          return Executed(ResultI(rd, pc, 0).(flush := true, newPc := Some(Plus(v.x, imm))));
        }
        if ImmShiftOverflows(op, imm) {
          return ExecuteFailed(Panicked);
        }
        return Executed(ResultI(rd, AluImm(op, v.x, imm), 0));
      case Sw(_, _, imm) =>
        return Executed(DEFAULT.(maIn := Some(MaStore(Int, Address(v.x, imm), v.y)), cycles := 1));
      case B(op, _, _, imm) =>
        var out := ResolveBranch(IntCompare(op, v.x, v.y), Plus(oldPc, imm));
        return Executed(out);
      case Jal(rd, imm) =>
        return Executed(ResultI(rd, pc, 1).(newPc := Some(Plus(oldPc, imm))));
      case IO(Outb(_)) =>
        output := output + [LowByte(v.x)];
        return Executed(DEFAULT.(cycles := 1));
      case IO(Inw(rd)) =>
        if input == [] {
          return ExecuteFailed(InputError);
        }
        r := Executed(ResultI(rd, input[0], 1));
        input := input[1..];
      case IO(Finw(rd)) =>
        if input == [] {
          return ExecuteFailed(InputError);
        }
        r := Executed(ResultF(rd, input[0], 1));
        input := input[1..];
      case F(f) =>
        var out := ExecuteFloat(host, f, v, oldPc);
        return Executed(out);
      case End =>
        return Executed(DEFAULT.(cycles := 1, end := true));
    }

    /** `memory_access`: the cache is looked up first, the statistics are updated last. */
    method AccessMemory(ma: MaInput) returns (reply: Reply, spied: SpyHit, cycles: nat)
      requires Ready()
      modifies `cStat, memory, cache
      ensures Ready()
      ensures Performed(memory.Value(), reply, spied) == Perform(old(memory.Value()), AccessOf(ma))
      ensures cache.inner == LinesAfter(old(cache.inner), ma.addr)
      ensures cStat == if reply.Failed? then old(cStat) else CStatAfter(old(cStat), old(cache.inner), ma.addr)
      ensures cycles == MaCost(old(cache.inner), ma.addr)
    {
      hide Write, Read, Cache.Hits, Cache.After;
      PerformWellFormed(memory.Value(), AccessOf(ma));
      var useBram, hit := UseBram(ma.addr), false;
      if !useBram {
        hit := cache.AccessCache(ma.addr);
      }
      match ma {
        case MaStore(kind, addr, value) =>
          reply, spied := memory.Set(addr, value, Demand(kind));
        case MaLoad(kind, _, addr) =>
          reply, spied := memory.Get(addr, Demand(kind));
      }
      cycles := if useBram then 1 else if hit then 2 else DDR2_ACCESS_CYCLES;
      if reply.Failed? {
        return;
      }
      if !useBram {
        cStat := cStat.Count(hit);
      }
    }

    /** `write_back`. */
    method WriteBackStage(wb: WbInput)
      requires Ready()
      modifies regFile.inner, regFile.innerF
      ensures Ready()
      ensures Value() == old(Value()).(arch := WriteRegister(old(Value()).arch, Some(wb)))
    {
      match wb
      case WbI(id, value) => regFile.Set(id, value);
      case WbF(id, value) => regFile.SetF(id, value);
    }

    /** `push_instr_to_pipeline_and_get_cycles`. */
    method PushInstr(x: Option<Entry>) returns (cycles: nat)
      modifies `pipeline
      ensures pipeline == Push(old(pipeline), x)
      ensures cycles == PushCycles(old(pipeline), x)
    {
      var ex := if x.Some? then x.value.exCycles else 1;
      var ma := if pipeline[0].Some? then pipeline[0].value.maCycles else 1;
      pipeline := [x] + pipeline[..4];
      cycles := if ex < ma then ma else ex;
    }

    /** The pipeline part of a step: stall bubbles in a loop, the instruction, two flush bubbles. */
    method AdvancePipeline(i: Instr, e: Entry, flush: bool) returns (cycles: nat)
      modifies `pipeline
      ensures var p := Advance(old(pipeline), i, e, flush); pipeline == p.queue && cycles == p.cycles
    {
      hide StallCycles, Push, PushCycles;
      ghost var q := pipeline;
      var stall := StallCycles(pipeline, i);
      cycles := 0;
      for k := 0 to stall
        invariant pipeline == PushBubbles(q, k)
        invariant cycles == BubbleCycles(q, k)
      {
        var c := PushInstr(None);
        cycles := cycles + c;
      }
      var c := PushInstr(Some(e));
      cycles := cycles + c;
      if flush {
        ghost var q' := pipeline;
        var c1 := PushInstr(None);
        var c2 := PushInstr(None);
        TwoBubbles(q');
        cycles := cycles + c1 + c2;
      }
    }

    /** Write-back and the pipeline. */
    method FinishStep(i: Instr, out: ExecuteOutput, maCycles: nat, wb: Option<WbInput>, spy: SpyHit) returns (outcome: Outcome, cycles: nat)
      requires Ready()
      modifies `pipeline, regFile.inner, regFile.innerF
      ensures Ready()
      ensures var r := Finish(old(Value()), i, out, maCycles, wb, spy, NOTHING);
              Value() == r.state && outcome == r.outcome && cycles == r.cycles
    {
      hide Advance, SetReg;
      if wb.Some? {
        WriteBackStage(wb.value);
      }
      cycles := AdvancePipeline(i, EntryOf(out, maCycles, ReadyStage(out), wb), out.flush);
      outcome := SpyFlow(spy);
    }

    /** Everything after `execute` succeeded. */
    method Complete(i: Instr, out: ExecuteOutput) returns (outcome: Outcome, cycles: nat)
      requires Ready()
      modifies `cStat, `pipeline, memory, cache, regFile.inner, regFile.innerF
      ensures Ready()
      ensures var r := AfterExecute(old(Value()), i, out, NOTHING);
              Value() == r.state && outcome == r.outcome && cycles == r.cycles
    {
      hide Perform, Finish, LinesAfter, CStatAfter, UseBram, MaCost;
      ghost var s := Value();
      if out.maIn.None? {
        outcome, cycles := FinishStep(i, out, 1, out.wbIn, NoSpy);
        return;
      }
      var ma := out.maIn.value;
      var reply, spy, maCycles := AccessMemory(ma);
      if reply.Failed? {
        FailedChangesNothing(s.arch.mem, AccessOf(ma));
        return Fail(MemoryError(reply.fault)), 0;
      }
      ghost var s' := Value();
      var wb := Reloaded(ma, reply);
      outcome, cycles := FinishStep(i, out, maCycles, wb, spy);
      FinishLogIrrelevant(s', i, out, maCycles, wb, spy, NOTHING, AccessLog(NOTHING, ma));
    }

    /** `cycle_one_full`. */
    method CycleOneFull(host: Host) returns (outcome: Outcome, cycles: nat)
      requires Ready()
      modifies this, memory, cache, predictor, regFile.inner, regFile.innerF
      ensures Ready()
      ensures var r := CpuStep(host, old(Value()));
              Value() == r.state && outcome == r.outcome && cycles == r.cycles
    {
      hide Fetch, Decode.Decode, Plus, ExecuteInstr, RegFetch, AfterExecute, TableAfter, StatAfter, InputAfter, OutputAfter, BranchTaken, BP.Predict;
      var oldPc := pc;
      ghost var s := Value();
      var fetched := InstrFetch();
      if fetched.NoWord? {
        return Fail(if fetched.fault == Fault.Panic then Panicked else MemoryError(fetched.fault)), 0;
      }
      var decoded := Decode.Decode(fetched.bin);
      if decoded.Invalid? {
        return Fail(DecodeError(fetched.bin)), 0;
      }
      if decoded.Panic? {
        return Fail(Panicked), 0;
      }
      outcome, cycles := RunDecoded(host, oldPc, decoded.instr);
    }

    /** Register fetch and `execute`, with the jump it may take. */
    method ExecuteStage(host: Host, oldPc: bv32, i: Instr) returns (r: Executed)
      requires Ready()
      modifies `pc, `bStat, `input, `output, predictor
      ensures Ready() && r == ExecuteAt(host, old(Value()), oldPc, i)
      ensures var s := old(Value());
              Value() == if r.ExecuteFailed? || r.out.end then s else Resolved(s, i, RegFetch(i, s.arch.regs, s.arch.fregs), r.out.newPc)
    {
      hide ExecuteInstr, RegFetch, TableAfter, StatAfter, InputAfter, OutputAfter, BranchTaken, BP.Predict;
      ghost var s := Value();
      var v := RegFetchStage(i);
      r := Execute(host, i, v, oldPc);
      EffectsNeedSuccess(host, i, v, oldPc, pc, BP.Predict(s.timing.table, pc as int), s);
      if r.Executed? && !r.out.end && r.out.newPc.Some? {
        pc := r.out.newPc.value;
      }
    }

    /** Register fetch and everything after it. */
    method RunDecoded(host: Host, oldPc: bv32, i: Instr) returns (outcome: Outcome, cycles: nat)
      requires Ready()
      modifies this, memory, cache, predictor, regFile.inner, regFile.innerF
      ensures Ready()
      ensures var r := AfterDecode(host, old(Value()), oldPc, i);
              Value() == r.state && outcome == r.outcome && cycles == r.cycles
    {
      hide ExecuteAt, Resolved, RegFetch, AfterExecute, BranchTaken, BranchLog;
      ghost var s := Value();
      var r := ExecuteStage(host, oldPc, i);
      if r.ExecuteFailed? {
        return Fail(r.error), 0;
      }
      if r.out.end {
        return Exit, 0;
      }
      ghost var s' := Value();
      outcome, cycles := Complete(i, r.out);
      LogIrrelevant(s', i, r.out, NOTHING, BranchLog(s.arch.pc, BranchTaken(i, RegFetch(i, s.arch.regs, s.arch.fregs))));
    }
  }

  lemma TwoBubbles(q: Queue)
    ensures PushBubbles(q, 2) == Push(Push(q, None), None)
    ensures BubbleCycles(q, 2) == PushCycles(q, None) + PushCycles(Push(q, None), None)
  {
    hide Push, PushCycles;
    assert PushBubbles(q, 1) == Push(PushBubbles(q, 0), None);
    assert BubbleCycles(q, 1) == BubbleCycles(q, 0) + PushCycles(PushBubbles(q, 0), None);
  }

  /** Where execution fails or ends the run, nothing has been predicted, read or written. */
  lemma EffectsNeedSuccess(host: Host, i: Instr, v: Operands, oldPc: bv32, pcPlus4: bv32, predicted: bool, s: State)
    ensures var e := ExecuteInstr(host, i, v, oldPc, pcPlus4, predicted, s.arch.input);
            e.ExecuteFailed? || e.out.end ==>
              && InputAfter(i, s.arch.input) == s.arch.input && OutputAfter(i, v, s.arch.output) == s.arch.output
              && TableAfter(s.timing.table, pcPlus4, BranchTaken(i, v)) == s.timing.table
              && StatAfter(s.timing.bStat, predicted, BranchTaken(i, v)) == s.timing.bStat
  {
    hide Alu, AluImm, IntCompare, FloatCompare, FloatZero, FloatOp, FloatUnary, FloatTest, FloatLess, FromInteger, Plus, LowByte, Address;
  }

  /** The log is carried along and influences nothing. */
  lemma FinishLogIrrelevant(s: State, i: Instr, out: ExecuteOutput, maCycles: nat, wb: Option<WbInput>, spy: SpyHit, l1: Log, l2: Log)
    requires Valid(s.arch)
    ensures var r, q := Finish(s, i, out, maCycles, wb, spy, l1), Finish(s, i, out, maCycles, wb, spy, l2);
            r.state == q.state && r.outcome == q.outcome && r.cycles == q.cycles
  {
    hide Advance, SetReg;
  }

  lemma LogIrrelevant(s: State, i: Instr, out: ExecuteOutput, l1: Log, l2: Log)
    requires Valid(s.arch)
    ensures var r, q := AfterExecute(s, i, out, l1), AfterExecute(s, i, out, l2);
            r.state == q.state && r.outcome == q.outcome && r.cycles == q.cycles
  {
    hide Perform, Advance, LinesAfter, CStatAfter, UseBram, MaCost;
  }
}
