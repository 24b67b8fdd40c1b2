/** Memory watches do not disturb the machine: they can only end a call earlier. */
module SpySteps {
  import opened Wrappers
  import opened Instr
  import opened Memory
  import opened FpuOps
  import opened Isa
  import opened Pipeline
  import opened Stages
  import BP = BranchPredictor
  import Decode

  /** Outcomes that differ in a spy's break at most. */
  predicate SameFlow(a: Outcome, b: Outcome) { a == b || ((a.Continue? || a.Break?) && (b.Continue? || b.Break?)) }

  /** Watches are reported by an access and have no other effect. */
  lemma PerformWithSpies(m: Mem, spies: Spies, a: Access)
    requires WellFormed(m)
    ensures var p, q := Perform(m, a), Perform(m.(spies := spies), a); q.mem == p.mem.(spies := spies) && q.reply == p.reply
  {
    hide RawWord, Splice, ToLe;
  }

  /** The same step, but for the watches and a break. */
  ghost predicate SameStep(r: StepResult, q: StepResult, spies: Spies) {
    q.state == WithSpies(r.state, spies) && q.cycles == r.cycles && q.log == r.log && SameFlow(r.outcome, q.outcome)
  }

  lemma FinishWithSpies(s: State, i: Instr, out: ExecuteOutput, ma: nat, wb: Option<WbInput>, hit: SpyHit, hit': SpyHit, log: Log, spies: Spies)
    requires Valid(s.arch)
    ensures SameStep(Finish(s, i, out, ma, wb, hit, log), Finish(WithSpies(s, spies), i, out, ma, wb, hit', log), spies)
  {
    hide Advance, EntryOf, ReadyStage, SetReg;
  }

  lemma AfterExecuteWithSpies(s: State, i: Instr, out: ExecuteOutput, log: Log, spies: Spies)
    requires Valid(s.arch)
    ensures SameStep(AfterExecute(s, i, out, log), AfterExecute(WithSpies(s, spies), i, out, log), spies)
  {
    hide Perform, Finish, AccessOf, UseBram, MaCost, CStatAfter, Reloaded, LinesAfter;
    var s' := WithSpies(s, spies);
    if out.maIn.None? {
      FinishWithSpies(s, i, out, 1, out.wbIn, NoSpy, NoSpy, log, spies);
    } else {
      var ma := out.maIn.value;
      var p, p' := Perform(s.arch.mem, AccessOf(ma)), Perform(s'.arch.mem, AccessOf(ma));
      PerformWithSpies(s.arch.mem, spies, AccessOf(ma));
      AccessedValid(s, ma);
      FinishWithSpies(Accessed(s, ma), i, out, MaCost(s.timing.lines, ma.addr), Reloaded(ma, p.reply), p.spied, p'.spied, AccessLog(log, ma), spies);
    }
  }

  lemma DecodedWithSpies(host: Host, s: State, oldPc: bv32, i: Instr, spies: Spies)
    requires Valid(s.arch)
    ensures SameStep(AfterDecode(host, s, oldPc, i), AfterDecode(host, WithSpies(s, spies), oldPc, i), spies)
  {
    hide ExecuteInstr, RegFetch, AfterExecute, InputAfter, OutputAfter, BranchTaken, BP.Predict, TableAfter, StatAfter, BranchLog;
    var v, ex := RegFetch(i, s.arch.regs, s.arch.fregs), ExecuteAt(host, s, oldPc, i);
    if ex.Executed? && !ex.out.end {
      AfterExecuteWithSpies(Resolved(s, i, v, ex.out.newPc), i, ex.out, BranchLog(s.arch.pc, BranchTaken(i, v)), spies);
    }
  }

  /** A step with other watches does the same, in the same number of clocks, and may only break or
      not break differently. */
  lemma StepWithSpies(host: Host, s: State, spies: Spies)
    requires Valid(s.arch)
    ensures Valid(WithSpies(s, spies).arch)
    ensures SameStep(CpuStep(host, s), CpuStep(host, WithSpies(s, spies)), spies)
  {
    hide AfterDecode, Decode.Decode, Plus, RawWord;
    assert Fetch(s.arch.mem, s.arch.pc as int) == Fetch(s.arch.mem.(spies := spies), s.arch.pc as int);
    match Fetch(s.arch.mem, s.arch.pc as int)
    case NoWord(_) =>
    case Word(bin) =>
      match Decode.Decode(bin)
      case Ok(i) => DecodedWithSpies(host, s.(arch := s.arch.(pc := Plus(s.arch.pc, 4))), s.arch.pc, i, spies);
      case _ =>
  }
}
