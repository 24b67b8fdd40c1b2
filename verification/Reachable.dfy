/** What every step of every run does, in numbers: the instruction's meaning, and what its branches
    cost. */
module Reachable {
  import opened Wrappers
  import opened Instr
  import opened Types
  import opened Memory
  import opened FpuOps
  import opened Isa
  import opened Pipeline
  import opened Stages
  import opened Runs
  import opened Meaning
  import opened StepMeaning
  import BP = BranchPredictor
  import BV = BitVectors
  import Cache
  import Decode
  import Floats

  /** Main result: every step of every run of the CPU does to the numbers in registers, memory and
      I/O what its instruction means. */
  lemma RunMeaning(host: Host, s: State, n: nat, bin: bv32, i: Instr)
    requires Valid(s.arch) && !RunSteps(host, s, n).last.Fail?
    requires var a := RunSteps(host, s, n).state.arch; Fetch(a.mem, Nat(a.pc)) == Word(bin) && Decode.Decode(bin) == Ok(i)
    ensures var r, q := RunSteps(host, s, n), RunSteps(host, s, n + 1); Means(host, r.state.arch, Result(q.state.arch, q.last), i)
  {
    hide CpuStep, IsaStep, Means, Fetch, Decode.Decode, Nat;
    var r := RunSteps(host, s, n);
    StepRefinesIsa(host, r.state);
    IsaMeaning(host, r.state.arch, bin, i);
  }

  // ---- Branches ----

  /** The outcome of a branch, from the numbers in its registers. */
  ghost function Outcome(a: Arch, i: Instr): Option<bool>
    requires Valid(a)
  {
    match i
    case B(op, rs1, rs2, _) => Some(CompareMeans(op, Reg(a.regs, rs1), Reg(a.regs, rs2)))
    case F(W(op, rs1, rs2, _)) =>
      var x, y := Reg(a.fregs, rs1), Reg(a.fregs, rs2);
      Some(if op == Fblt then Floats.FLess(x, y) else Floats.FGreaterEq(x, y))
    case F(V(op, rs1, _)) => Some((Floats.Mag(Reg(a.fregs, rs1)) == 0) == (op == Fbeqz))
    case _ => None
  }

  lemma OutcomeIs(a: Arch, i: Instr)
    requires Valid(a)
    ensures BranchTaken(i, RegFetch(i, a.regs, a.fregs)) == Outcome(a, i)
  {
    hide BV.Nat, GetReg, IntCompare, CompareMeans, IsZero, Floats.FLess, Floats.FGreaterEq, Floats.Mag;
    match i
    case B(op, rs1, rs2, _) => CompareMeaning(op, GetReg(a.regs, rs1), GetReg(a.regs, rs2));
    case F(V(op, rs1, _)) => IsZeroMeaning(GetReg(a.fregs, rs1));
    case _ =>
  }

  /** A branch always completes; it is logged under the address behind it, and flushes exactly when
      it was predicted wrongly. Apart from branches, only jalr flushes. */
  ghost predicate BranchLogged(r: StepResult, i: Instr, outcome: Option<bool>, behind: nat, predicted: bool) {
    if outcome.Some?
    then r.log.branch == Some(BP.Branch(behind, outcome.value)) && r.log.completed && (r.log.flush <==> predicted != outcome.value)
    else r.log.branch.None? && (r.log.completed ==> (r.log.flush <==> i.I? && i.i == Jalr))
  }

  lemma FinishFlushes(s: State, i: Instr, out: ExecuteOutput, c: nat, wb: Option<WbInput>, spy: SpyHit, log: Log)
    requires Valid(s.arch)
    ensures var l := Finish(s, i, out, c, wb, spy, log).log; l.branch == log.branch && l.completed && l.flush == out.flush
  {
    hide Advance, EntryOf, ReadyStage, WriteRegister;
  }

  lemma ExecutedFlushes(s: State, i: Instr, out: ExecuteOutput, log: Log)
    requires Valid(s.arch) && !log.completed
    ensures var l := AfterExecute(s, i, out, log).log;
            l.branch == log.branch && (l.completed ==> l.flush == out.flush) && (out.maIn.None? ==> l.completed)
  {
    hide Perform, Finish, MaCost, Accessed, Reloaded, LinesAfter, AccessOf, UseBram;
    if out.maIn.None? {
      FinishFlushes(s, i, out, 1, out.wbIn, NoSpy, log);
    } else {
      var ma := out.maIn.value;
      var p := Perform(s.arch.mem, AccessOf(ma));
      AccessedValid(s, ma);
      FinishFlushes(Accessed(s, ma), i, out, MaCost(s.timing.lines, ma.addr), Reloaded(ma, p.reply), p.spied, AccessLog(log, ma));
    }
  }

  lemma DecodedBranch(host: Host, s: State, oldPc: bv32, i: Instr)
    requires Valid(s.arch)
    ensures BranchLogged(AfterDecode(host, s, oldPc, i), i, BranchTaken(i, RegFetch(i, s.arch.regs, s.arch.fregs)),
                         Nat(s.arch.pc), BP.Predict(s.timing.table, Nat(s.arch.pc)))
  {
    hide ExecuteInstr, RegFetch, AfterExecute, InputAfter, OutputAfter, BranchTaken, BP.Predict, TableAfter, StatAfter;
    var v, ex := RegFetch(i, s.arch.regs, s.arch.fregs), ExecuteAt(host, s, oldPc, i);
    FlushMeaning(host, i, v, oldPc, s.arch.pc, BP.Predict(s.timing.table, s.arch.pc as int), s.arch.input);
    if ex.Executed? && !ex.out.end {
      ExecutedFlushes(Resolved(s, i, v, ex.out.newPc), i, ex.out, BranchLog(s.arch.pc, BranchTaken(i, v)));
    }
  }

  lemma StepBranch(host: Host, s: State, bin: bv32, i: Instr)
    requires Valid(s.arch) && Fetch(s.arch.mem, Nat(s.arch.pc)) == Word(bin) && Decode.Decode(bin) == Ok(i)
    ensures var behind := (Nat(s.arch.pc) + 4) % TWO32;
            BranchLogged(CpuStep(host, s), i, Outcome(s.arch, i), behind, BP.Predict(s.timing.table, behind))
  {
    hide AfterDecode, CpuStep, Plus, BranchLogged, BP.Predict, BranchTaken, RegFetch, Outcome, Nat;
    NextPc(s.arch.pc);
    OutcomeIs(s.arch, i);
    DecodedStep(host, s, bin, i);
    DecodedBranch(host, s.(arch := s.arch.(pc := Plus(s.arch.pc, 4))), s.arch.pc, i);
  }

  lemma DecodedStep(host: Host, s: State, bin: bv32, i: Instr)
    requires Valid(s.arch) && Fetch(s.arch.mem, Nat(s.arch.pc)) == Word(bin) && Decode.Decode(bin) == Ok(i)
    ensures CpuStep(host, s) == AfterDecode(host, s.(arch := s.arch.(pc := Plus(s.arch.pc, 4))), s.arch.pc, i)
  {
    hide AfterDecode, Fetch, Decode.Decode, Plus;
  }

  /** Main result: in every reachable state of a fresh CPU, an address is predicted taken exactly when
      the counter of the run's branches that share its slot of 64 is at least 2. */
  lemma ReachablePrediction(host: Host, s: State, n: nat, addr: nat)
    requires Valid(s.arch) && s.timing == START_TIMING
    ensures var r := RunSteps(host, s, n);
            BP.Predict(r.state.timing.table, addr) <==> BP.Level(r.history.branches, addr % 64, 64) >= 2
  {
    hide RunSteps, BP.Run, BP.Predict, BP.Level, Cache.Empty;
    RunIsLogged(host, s, n);
    BP.PredictsByLevel(64, RunSteps(host, s, n).history.branches, addr);
  }

  /** Main result: in every run of a fresh CPU, a step flushes exactly when it is a branch whose
      outcome, computed from the registers, goes against the counter of the earlier branches that
      share its slot, or a jalr. */
  lemma ReachableFlush(host: Host, s: State, n: nat, bin: bv32, i: Instr)
    requires Valid(s.arch) && s.timing == START_TIMING && !RunSteps(host, s, n).last.Fail?
    requires var a := RunSteps(host, s, n).state.arch; Fetch(a.mem, Nat(a.pc)) == Word(bin) && Decode.Decode(bin) == Ok(i)
    ensures var r := RunSteps(host, s, n); var behind := (Nat(r.state.arch.pc) + 4) % TWO32;
            BranchLogged(CpuStep(host, r.state), i, Outcome(r.state.arch, i), behind, BP.Level(r.history.branches, behind % 64, 64) >= 2)
  {
    hide RunSteps, CpuStep, Fetch, Decode.Decode, BranchLogged, BP.Predict, BP.Level, Outcome, Nat, Cache.Empty, BP.Fresh;
    var r := RunSteps(host, s, n);
    StepBranch(host, r.state, bin, i);
    ReachablePrediction(host, s, n, (Nat(r.state.arch.pc) + 4) % TWO32);
  }
}
