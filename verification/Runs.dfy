/** Whole runs of the CPU: transparency of the timing model, conservation of clocks, and what the
    histories of memory accesses, branches and cache accesses say about every reachable state. */
module Runs {
  import opened Wrappers
  import opened Instr
  import opened Types
  import opened Memory
  import opened FpuOps
  import opened Isa
  import opened Pipeline
  import opened Stages
  import BP = BranchPredictor
  import Cache
  import Decode

  // ---- What every step keeps ----

  /** The plain interpreter keeps registers 0 at zero and the memory well-formed. */
  lemma RunFloatValid(host: Host, a: Arch, pc: bv32, f: FInstr)
    requires Valid(a)
    ensures Valid(RunFloat(host, a, pc, f).arch)
  {
    hide Perform, GetReg, FloatOp, FloatUnary, FloatTest, FloatCompare, FloatZero, WellFormed;
    if f.Flw? { PerformWellFormed(a.mem, Load(Float, Address(GetReg(a.regs, f.rs1), f.imm))); }
    if f.Fsw? { PerformWellFormed(a.mem, Store(Float, Address(GetReg(a.regs, f.rs1), f.imm), GetReg(a.fregs, f.frs2))); }
  }

  lemma RunInstrValid(host: Host, a: Arch, pc: bv32, i: Instr)
    requires Valid(a)
    ensures Valid(RunInstr(host, a, pc, i).arch)
  {
    hide Perform, GetReg, Alu, AluImm, IntCompare, RunFloat, WellFormed;
    match i
    case I(Lw, rd, rs1, imm) => PerformWellFormed(a.mem, Load(Int, Address(GetReg(a.regs, rs1), imm)));
    case Sw(rs1, rs2, imm) => PerformWellFormed(a.mem, Store(Int, Address(GetReg(a.regs, rs1), imm), GetReg(a.regs, rs2)));
    case F(f) => RunFloatValid(host, a, pc, f);
    case _ =>
  }

  lemma IsaStepValid(host: Host, a: Arch)
    requires Valid(a)
    ensures Valid(IsaStep(host, a).arch)
  {
    hide RunInstr, Fetch, Decode.Decode, Plus;
    match Fetch(a.mem, a.pc as int)
    case NoWord(_) =>
    case Word(bin) =>
      match Decode.Decode(bin)
      case Ok(i) => RunInstrValid(host, a.(pc := Plus(a.pc, 4)), a.pc, i);
      case _ =>
  }

  lemma StepValid(host: Host, s: State)
    requires Valid(s.arch)
    ensures Valid(CpuStep(host, s).state.arch)
  {
    hide CpuStep, IsaStep;
    StepRefinesIsa(host, s);
    IsaStepValid(host, s.arch);
  }

  // ---- Runs ----

  /** A completed instruction, with the word it accessed. */
  datatype Passed = Passed(instr: Instr, word: Option<nat>, exCycles: nat, stalls: nat, flush: bool)

  /** What happened so far. `exSum` adds the execute clocks of completed instructions, at least
      one each. */
  datatype History = History(completed: nat, exSum: nat, stalls: nat, jalrs: nat, passed: seq<Passed>,
                             accesses: seq<Access>, branches: seq<BP.Branch>, cached: seq<Cache.Addr>)

  const NO_HISTORY: History := History(0, 0, 0, 0, [], [], [], [])

  /** The entry of a completed step. */
  function PassedBy(log: Log): Option<Passed> {
    if log.completed && log.instr.Some?
    then Some(Passed(log.instr.value, if log.access.Some? then Some(log.access.value.addr) else None, log.exCycles, log.stalls, log.flush))
    else None
  }

  function Append<T>(s: seq<T>, x: Option<T>): seq<T> { if x.Some? then s + [x.value] else s }

  function Extend(h: History, log: Log): History {
    History(h.completed + if log.completed then 1 else 0,
            h.exSum + if log.completed then Max(log.exCycles, 1) else 0,
            h.stalls + log.stalls,
            h.jalrs + if log.jalr then 1 else 0,
            Append(h.passed, PassedBy(log)),
            Append(h.accesses, log.access), Append(h.branches, log.branch), Append(h.cached, log.cached))
  }

  datatype Run = Run(state: State, last: Outcome, clocks: nat, history: History)

  /** n steps; a failed machine stays put. */
  function RunSteps(host: Host, s: State, n: nat): (r: Run)
    requires Valid(s.arch)
    ensures Valid(r.state.arch)
  {
    if n == 0 then Run(s, Continue, 0, NO_HISTORY)
    else
      var p := RunSteps(host, s, n - 1);
      if p.last.Fail? then p
      else
        StepValid(host, p.state);
        var r := CpuStep(host, p.state);
        Run(r.state, r.outcome, p.clocks + r.cycles, Extend(p.history, r.log))
  }

  /** n steps of the plain interpreter. */
  function IsaRun(host: Host, a: Arch, n: nat): (r: Result)
    requires Valid(a)
    ensures Valid(r.arch)
  {
    if n == 0 then Result(a, Continue)
    else
      var p := IsaRun(host, a, n - 1);
      if p.outcome.Fail? then p
      else
        IsaStepValid(host, p.arch);
        IsaStep(host, p.arch)
  }

  /** Main result: timing is transparent. Program counter, registers, memory, I/O and outcome of a
      run are those of the plain interpreter. */
  lemma {:induction false} TimingTransparent(host: Host, s: State, n: nat)
    requires Valid(s.arch)
    ensures var r := RunSteps(host, s, n); Result(r.state.arch, r.last) == IsaRun(host, s.arch, n)
  {
    hide CpuStep, IsaStep;
    if n > 0 {
      TimingTransparent(host, s, n - 1);
      StepRefinesIsa(host, RunSteps(host, s, n - 1).state);
    }
  }

  /** In particular they do not depend on the starting cache, predictor, queue or statistics. */
  lemma TimingIrrelevant(host: Host, a: Arch, t: Timing, u: Timing, n: nat)
    requires Valid(a)
    ensures var r, q := RunSteps(host, State(a, t), n), RunSteps(host, State(a, u), n);
            r.state.arch == q.state.arch && r.last == q.last
  {
    hide RunSteps, IsaRun;
    TimingTransparent(host, State(a, t), n);
    TimingTransparent(host, State(a, u), n);
  }

  // ---- The clocks of one step ----

  /** A flush is a mispredicted branch or a jalr; branches do not access memory and never fail. */
  lemma FlushMeaning(host: Host, i: Instr, v: Operands, oldPc: bv32, pcPlus4: bv32, predicted: bool, input: seq<bv32>)
    ensures var e := ExecuteInstr(host, i, v, oldPc, pcPlus4, predicted, input); var taken := BranchTaken(i, v);
            && (e.Executed? ==> (e.out.flush <==> (taken.Some? && predicted != taken.value) || (i.I? && i.i == Jalr)))
            && (e.Executed? && (e.out.maIn.Some? || e.out.end) ==> taken.None? && !(i.I? && i.i == Jalr))
            && (taken.Some? ==> e.Executed? && !(i.I? && i.i == Jalr))
  {
    hide Alu, AluImm, IntCompare, ShiftOverflows, ImmShiftOverflows, FloatOp, FloatUnary, FloatTest, FloatCompare, FloatZero, FloatLess, FromInteger, Plus, Address;
  }

  /** Latency booked with the cache statistics: a hit hides one extra clock, a miss 89. */
  function Booked(c: CacheStat): nat { c.hits + 89 * c.misses }

  ghost predicate StepAccounts(s: State, r: StepResult)
    requires Live(s.timing.queue)
  {
    var mispredicted := r.state.timing.bStat.Mispredicted() - s.timing.bStat.Mispredicted();
    && Live(r.state.timing.queue)
    && 0 <= mispredicted <= 1
    && (r.log.completed ==>
          var base := Max(r.log.exCycles, 1) + r.log.stalls + 2 * (mispredicted + if r.log.jalr then 1 else 0);
          && base <= r.cycles
          && r.cycles + Uncharged(r.state.timing.queue) + Booked(s.timing.cStat)
             <= base + Uncharged(s.timing.queue) + Booked(r.state.timing.cStat))
    && (!r.log.completed ==>
          && r.cycles == 0 && r.log.stalls == 0 && !r.log.jalr && mispredicted == 0
          && r.state.timing.queue == s.timing.queue && r.state.timing.cStat == s.timing.cStat)
  }

  lemma AfterExecuteAccounts(s: State, i: Instr, out: ExecuteOutput, log: Log)
    requires Valid(s.arch) && Live(s.timing.queue) && !log.completed && log.stalls == 0 && !log.jalr
    ensures var r := AfterExecute(s, i, out, log);
            && Live(r.state.timing.queue) && r.state.timing.bStat == s.timing.bStat && r.state.timing.table == s.timing.table
            && (r.log.completed ==>
                  var base := Max(r.log.exCycles, 1) + r.log.stalls + if out.flush then 2 else 0;
                  && r.log.jalr == (i.I? && i.i == Jalr) && base <= r.cycles
                  && r.cycles + Uncharged(r.state.timing.queue) + Booked(s.timing.cStat)
                     <= base + Uncharged(s.timing.queue) + Booked(r.state.timing.cStat))
            && (!r.log.completed ==> r.cycles == 0 && r.log.stalls == 0 && !r.log.jalr && out.maIn.Some?
                                     && r.state.timing.queue == s.timing.queue && r.state.timing.cStat == s.timing.cStat)
  {
    hide Perform, Finish, Live, Cache.Hits, Cache.After, AccessOf, UseBram, Reloaded;
    if out.maIn.None? {
      FinishAccounts(s, i, out, 1, out.wbIn, NoSpy, log);
    } else {
      var ma := out.maIn.value;
      var p := Perform(s.arch.mem, AccessOf(ma));
      AccessedValid(s, ma);
      FinishAccounts(Accessed(s, ma), i, out, MaCost(s.timing.lines, ma.addr), Reloaded(ma, p.reply), p.spied, AccessLog(log, ma));
    }
  }

  lemma FinishAccounts(s: State, i: Instr, out: ExecuteOutput, c: nat, wb: Option<WbInput>, spy: SpyHit, log: Log)
    requires Valid(s.arch) && Live(s.timing.queue) && c >= 1
    ensures var r := Finish(s, i, out, c, wb, spy, log); var base := Max(out.cycles, 1) + r.log.stalls + if out.flush then 2 else 0;
            && r.log.completed && r.log.exCycles == out.cycles && r.log.jalr == (i.I? && i.i == Jalr)
            && Live(r.state.timing.queue) && r.state.timing == s.timing.(queue := r.state.timing.queue)
            && base <= r.cycles && r.cycles + Uncharged(r.state.timing.queue) <= base + Uncharged(s.timing.queue) + (c - 1)
  {
    hide SetReg, Advance, Live, WriteRegister, ReadyStage;
    AdvanceCost(s.timing.queue, i, EntryOf(out, c, ReadyStage(out), wb), out.flush);
  }

  lemma DecodedAccounts(host: Host, s: State, oldPc: bv32, i: Instr)
    requires Valid(s.arch) && Live(s.timing.queue)
    ensures StepAccounts(s, AfterDecode(host, s, oldPc, i))
  {
    hide ExecuteInstr, RegFetch, AfterExecute, TableAfter, InputAfter, OutputAfter, BranchTaken, Live, Booked, BP.Predict;
    var v, ex := RegFetch(i, s.arch.regs, s.arch.fregs), ExecuteAt(host, s, oldPc, i);
    FlushMeaning(host, i, v, oldPc, s.arch.pc, BP.Predict(s.timing.table, s.arch.pc as int), s.arch.input);
    if ex.Executed? && !ex.out.end {
      AfterExecuteAccounts(Resolved(s, i, v, ex.out.newPc), i, ex.out, BranchLog(s.arch.pc, BranchTaken(i, v)));
    }
  }

  lemma StepAccounted(host: Host, s: State)
    requires Valid(s.arch) && Live(s.timing.queue)
    ensures StepAccounts(s, CpuStep(host, s))
  {
    hide AfterDecode, Fetch, Decode.Decode, Live, Booked, Plus;
    match Fetch(s.arch.mem, s.arch.pc as int)
    case NoWord(_) =>
    case Word(bin) =>
      match Decode.Decode(bin)
      case Ok(i) => DecodedAccounts(host, s.(arch := s.arch.(pc := Plus(s.arch.pc, 4))), s.arch.pc, i);
      case _ =>
  }

  /** Clocks that are certain: execute clocks, bubbles, and two per flush. */
  function Base(r: Run): nat {
    r.history.exSum + r.history.stalls + 2 * (r.state.timing.bStat.Mispredicted() + r.history.jalrs)
  }

  ghost predicate Balanced(r: Run) {
    && Live(r.state.timing.queue)
    && r.history.completed <= r.history.exSum
    && Base(r) <= r.clocks
    && r.clocks + Uncharged(r.state.timing.queue) <= Base(r) + Booked(r.state.timing.cStat)
  }

  lemma {:induction false} RunBalanced(host: Host, s: State, n: nat)
    requires Valid(s.arch) && s.timing == START_TIMING
    ensures Balanced(RunSteps(host, s, n))
  {
    hide CpuStep, Live, Booked, Valid, START_TIMING;
    if n == 0 {
      StartIs();
      FreshBalanced(RunSteps(host, s, 0));
    } else {
      RunBalanced(host, s, n - 1);
      var p := RunSteps(host, s, n - 1);
      if !p.last.Fail? {
        StepAccounted(host, p.state);
      }
    }
  }

  lemma FreshBalanced(r: Run)
    requires Live(r.state.timing.queue) && Uncharged(r.state.timing.queue) == 0
    requires r.clocks == 0 && r.history.completed == 0 && Base(r) == 0
    ensures Balanced(r)
  {
    hide Live, Uncharged, Base, Booked;
  }

  lemma StartIs()
    ensures START_TIMING.queue == EMPTY && Live(EMPTY) && Uncharged(EMPTY) == 0
    ensures START_TIMING.cStat == CacheStat(0, 0) && START_TIMING.bStat == BP.BranchStat(0, 0, 0, 0)
  {
    hide Cache.Empty, BP.Fresh;
  }

  /** Main result: clock conservation. The clocks of every run of a fresh CPU lie between the
      certain ones (one per completed instruction at least, one per stall, two per mispredicted
      branch or jalr) and these plus one per cache hit and 89 per miss: every memory latency is
      charged at most once. */
  lemma ClockConservation(host: Host, s: State, n: nat)
    requires Valid(s.arch) && s.timing == START_TIMING
    ensures var r := RunSteps(host, s, n); var h, t := r.history, r.state.timing;
            var flushes := t.bStat.Mispredicted() + h.jalrs;
            && h.completed + h.stalls + 2 * flushes <= h.exSum + h.stalls + 2 * flushes <= r.clocks
            && r.clocks <= h.exSum + h.stalls + 2 * flushes + t.cStat.hits + 89 * t.cStat.misses
  {
    hide RunSteps;
    RunBalanced(host, s, n);
  }

  // ---- Histories determine the components ----

  /** What a step does to memory, predictor and cache is what its log entries do. */
  ghost predicate StepLogged(s: State, r: StepResult)
    requires Valid(s.arch)
  {
    && r.state.arch.mem == (if r.log.access.Some? then Perform(s.arch.mem, r.log.access.value).mem else s.arch.mem)
    && BP.State(r.state.timing.table, r.state.timing.bStat)
       == (var b := BP.State(s.timing.table, s.timing.bStat);
           if r.log.branch.Some? then BP.Step(b, r.log.branch.value) else b)
    && r.state.timing.lines == (if r.log.cached.Some? then Cache.After(s.timing.lines, r.log.cached.value) else s.timing.lines)
  }

  lemma FinishLogged(s: State, i: Instr, out: ExecuteOutput, maCycles: nat, wb: Option<WbInput>, spy: SpyHit, log: Log)
    requires Valid(s.arch)
    ensures var r := Finish(s, i, out, maCycles, wb, spy, log); var t := r.state.timing;
            && r.log.access == log.access && r.log.branch == log.branch && r.log.cached == log.cached
            && r.state.arch.mem == s.arch.mem && t.lines == s.timing.lines && t.table == s.timing.table && t.bStat == s.timing.bStat
  {
    hide SetReg, Advance, EntryOf, ReadyStage;
  }

  lemma AfterExecuteLogged(s: State, i: Instr, out: ExecuteOutput, log: Log)
    requires Valid(s.arch) && log.access.None? && log.cached.None?
    ensures var r := AfterExecute(s, i, out, log);
            && r.log.branch == log.branch && r.state.timing.table == s.timing.table && r.state.timing.bStat == s.timing.bStat
            && r.state.arch.mem == (if r.log.access.Some? then Perform(s.arch.mem, r.log.access.value).mem else s.arch.mem)
            && r.state.timing.lines == (if r.log.cached.Some? then Cache.After(s.timing.lines, r.log.cached.value) else s.timing.lines)
  {
    hide Perform, Finish, AccessOf, UseBram, MaCost, CStatAfter, Reloaded, Cache.After;
    if out.maIn.None? {
      FinishLogged(s, i, out, 1, out.wbIn, NoSpy, log);
    } else {
      var ma := out.maIn.value;
      var p := Perform(s.arch.mem, AccessOf(ma));
      FailedChangesNothing(s.arch.mem, AccessOf(ma));
      AccessedValid(s, ma);
      FinishLogged(Accessed(s, ma), i, out, MaCost(s.timing.lines, ma.addr), Reloaded(ma, p.reply), p.spied, AccessLog(log, ma));
    }
  }

  lemma DecodedLogged(host: Host, s: State, oldPc: bv32, i: Instr)
    requires Valid(s.arch)
    ensures StepLogged(s, AfterDecode(host, s, oldPc, i))
  {
    hide ExecuteInstr, RegFetch, AfterExecute, BranchTaken, Perform, Cache.After, BP.Step, Resolved, BranchLog;
    var v, ex := RegFetch(i, s.arch.regs, s.arch.fregs), ExecuteAt(host, s, oldPc, i);
    if ex.Executed? && !ex.out.end {
      ResolvedLogged(s, i, v, ex.out.newPc);
      AfterExecuteLogged(Resolved(s, i, v, ex.out.newPc), i, ex.out, BranchLog(s.arch.pc, BranchTaken(i, v)));
    }
  }

  lemma ResolvedLogged(s: State, i: Instr, v: Operands, newPc: Option<bv32>)
    ensures var m, log := Resolved(s, i, v, newPc), BranchLog(s.arch.pc, BranchTaken(i, v)); var b := BP.State(s.timing.table, s.timing.bStat);
            && m.arch.mem == s.arch.mem && m.arch.regs == s.arch.regs && m.arch.fregs == s.arch.fregs && m.timing.lines == s.timing.lines
            && log.access.None? && log.cached.None?
            && BP.State(m.timing.table, m.timing.bStat) == if log.branch.Some? then BP.Step(b, log.branch.value) else b
  {
    hide InputAfter, OutputAfter, BranchTaken, BP.Predict, BP.Update, BP.Step;
    var taken := BranchTaken(i, v);
    if taken.Some? { BranchStepIs(s.timing.table, s.timing.bStat, s.arch.pc as int, taken.value); }
  }

  lemma BranchStepIs(t: BP.Table, b: BP.BranchStat, addr: nat, taken: bool)
    ensures BP.Step(BP.State(t, b), BP.Branch(addr, taken)) == BP.State(BP.Update(t, addr, taken), b.Count(BP.Predict(t, addr), taken))
  {
    hide BP.Predict, BP.Update;
  }

  lemma StepIsLogged(host: Host, s: State)
    requires Valid(s.arch)
    ensures StepLogged(s, CpuStep(host, s))
  {
    hide AfterDecode, Fetch, Decode.Decode, Plus, Perform, BP.Step, Cache.After;
    match Fetch(s.arch.mem, s.arch.pc as int)
    case NoWord(_) =>
    case Word(bin) =>
      match Decode.Decode(bin)
      case Ok(i) => DecodedLogged(host, s.(arch := s.arch.(pc := Plus(s.arch.pc, 4))), s.arch.pc, i);
      case _ =>
  }

  lemma MemoryRunAppend(m: Mem, h: seq<Access>, x: Option<Access>)
    requires WellFormed(m)
    ensures AfterAccesses(m, Append(h, x)) == if x.Some? then Perform(AfterAccesses(m, h), x.value).mem else AfterAccesses(m, h)
  {
    hide Perform;
    if x.Some? { assert (h + [x.value])[..|h|] == h; }
  }

  lemma BranchRunAppend(b: BP.State, h: seq<BP.Branch>, x: Option<BP.Branch>)
    ensures BP.Run(b, Append(h, x)) == if x.Some? then BP.Step(BP.Run(b, h), x.value) else BP.Run(b, h)
  {
    hide BP.Step;
    if x.Some? { assert (h + [x.value])[..|h|] == h; }
  }

  lemma CacheRunAppend(c: Cache.Lines, h: seq<Cache.Addr>, x: Option<Cache.Addr>)
    ensures Cache.Run(c, Append(h, x)) == if x.Some? then Cache.After(Cache.Run(c, h), x.value) else Cache.Run(c, h)
  {
    hide Cache.After;
    if x.Some? { assert (h + [x.value])[..|h|] == h; }
  }

  /** In every reachable state, memory, predictor and cache are those that the run's accesses and
      branches produce. */
  lemma {:induction false} RunIsLogged(host: Host, s: State, n: nat)
    requires Valid(s.arch)
    ensures var r := RunSteps(host, s, n); var h := r.history;
            && r.state.arch.mem == AfterAccesses(s.arch.mem, h.accesses)
            && BP.State(r.state.timing.table, r.state.timing.bStat) == BP.Run(BP.State(s.timing.table, s.timing.bStat), h.branches)
            && r.state.timing.lines == Cache.Run(s.timing.lines, h.cached)
  {
    hide CpuStep, Perform, BP.Step, Cache.After, AfterAccesses, BP.Run, Cache.Run, Append;
    if n == 0 {
      EmptyRuns(s);
    } else {
      RunIsLogged(host, s, n - 1);
      var p := RunSteps(host, s, n - 1);
      if !p.last.Fail? {
        var log := CpuStep(host, p.state).log;
        StepIsLogged(host, p.state);
        MemoryRunAppend(s.arch.mem, p.history.accesses, log.access);
        BranchRunAppend(BP.State(s.timing.table, s.timing.bStat), p.history.branches, log.branch);
        CacheRunAppend(s.timing.lines, p.history.cached, log.cached);
      }
    }
  }

  lemma EmptyRuns(s: State)
    requires Valid(s.arch)
    ensures AfterAccesses(s.arch.mem, []) == s.arch.mem
    ensures BP.Run(BP.State(s.timing.table, s.timing.bStat), []) == BP.State(s.timing.table, s.timing.bStat)
    ensures Cache.Run(s.timing.lines, []) == s.timing.lines
  {
  }

  /** Main result: in every reachable state of a fresh CPU the statistics keep the predictor's
      bounds: mispredictions are at most twice the untaken branches, and at most twice the taken
      ones plus 64. */
  lemma ReachableMispredictions(host: Host, s: State, n: nat)
    requires Valid(s.arch) && s.timing == START_TIMING
    ensures var b := RunSteps(host, s, n).state.timing.bStat;
            b.Mispredicted() <= 2 * b.Untaken() && b.Mispredicted() <= 2 * b.Taken() + 64
  {
    hide RunSteps, BP.Run;
    RunIsLogged(host, s, n);
    BP.MispredictionBound(BP.NUM_COUNTERS, RunSteps(host, s, n).history.branches);
  }

  /** Main result: in every reachable state every word of the text is the loaded one, so an aligned
      fetch returns the original instruction; and registers 0 read zero. */
  lemma ReachableText(host: Host, s: State, n: nat, pc: nat)
    requires Valid(s.arch) && pc % 4 == 0
    ensures var a := RunSteps(host, s, n).state.arch;
            && Fetch(a.mem, pc) == Fetch(s.arch.mem, pc)
            && GetReg(a.regs, 0) == 0 && GetReg(a.fregs, 0) == 0
  {
    hide RunSteps, AfterAccesses, Fetch;
    RunIsLogged(host, s, n);
    TextIsProtected(s.arch.mem, RunSteps(host, s, n).history.accesses, pc);
    RegIndex(0);
  }

  /** The load of a class: `lw` or `flw`. */
  function LoadInstr(kind: Class, rd: RegId, rs1: RegId, imm: bv32): Instr {
    if kind == Int then I(Lw, rd, rs1, imm) else F(Flw(rd, rs1, imm))
  }

  function RegsOf(kind: Class, a: Arch): seq<bv32> { if kind == Int then a.regs else a.fregs }

  lemma LoadStep(host: Host, a: Arch, bin: bv32, kind: Class, rd: RegId, rs1: RegId, imm: bv32)
    requires Valid(a) && Fetch(a.mem, a.pc as int) == Word(bin) && Decode.Decode(bin) == Ok(LoadInstr(kind, rd, rs1, imm))
    ensures IsaStep(host, a) == LoadWord(a.(pc := Plus(a.pc, 4)), kind, Address(GetReg(a.regs, rs1), imm), rd)
  {
    hide Decode.Decode, Fetch, Plus, Address, LoadWord;
  }

  /** Main result: in every reachable state a load of either class succeeds exactly when the address
      is a data word whose last store (or first load) was of that class, and then the destination
      gets the last value stored there in the run, or the initial bytes; register 0 stays zero. */
  lemma ReachableLoad(host: Host, s: State, n: nat, bin: bv32, kind: Class, rd: RegId, rs1: RegId, imm: bv32)
    requires Valid(s.arch) && !RunSteps(host, s, n).last.Fail?
    requires var a := RunSteps(host, s, n).state.arch; Fetch(a.mem, a.pc as int) == Word(bin)
    requires Decode.Decode(bin) == Ok(LoadInstr(kind, rd, rs1, imm))
    ensures var r, q := RunSteps(host, s, n), RunSteps(host, s, n + 1);
            var addr := Address(GetReg(r.state.arch.regs, rs1), imm);
            if LoadAllowed(s.arch.mem, r.history.accesses, kind, addr)
            then && !q.last.Fail?
                 && GetReg(RegsOf(kind, q.state.arch), rd) == (if rd == 0 then 0 else LastValue(s.arch.mem, r.history.accesses, addr))
            else q.last.Fail?
  {
    hide CpuStep, IsaStep, Decode.Decode, Fetch, Plus, AfterAccesses, Perform, LoadAllowed, LastValue, Address;
    var r := RunSteps(host, s, n);
    var a := r.state.arch;
    RunIsLogged(host, s, n);
    StepRefinesIsa(host, r.state);
    var addr := Address(GetReg(a.regs, rs1), imm);
    AccessAfterHistory(s.arch.mem, r.history.accesses, Load(kind, addr));
    LoadStep(host, a, bin, kind, rd, rs1, imm);
    RegIndex(rd);
  }

  // ---- The cache over runs ----

  /** Main result: in every reachable state of a fresh CPU, an access hits exactly when the latest
      cached access through its line was to the same block, or there was none and the tag is 0. */
  lemma ReachableHit(host: Host, s: State, n: nat, addr: Cache.Addr)
    requires Valid(s.arch) && s.timing == START_TIMING
    ensures var r := RunSteps(host, s, n); var lines := Cache.CACHE_NUM_LINES;
            var last := Cache.LastBlock(r.history.cached, Cache.Line(addr, lines), lines);
            Cache.Hits(r.state.timing.lines, addr) <==> if last.Some? then last.value == Cache.Block(addr) else Cache.Tag(addr, lines) == 0
  {
    hide RunSteps, Cache.Run, Cache.Hits;
    RunIsLogged(host, s, n);
    Cache.HitsLatestBlock(Cache.CACHE_NUM_LINES, RunSteps(host, s, n).history.cached, addr);
  }

  // ---- Type soundness of runs ----

  /** The access of a step, if any, is a load or a store, and it worked unless the step failed. */
  ghost predicate AccessWorked(m: Mem, r: StepResult)
    requires WellFormed(m)
  {
    r.log.access.Some? ==> !r.log.access.value.Peek? && (!r.outcome.Fail? ==> !Perform(m, r.log.access.value).reply.Failed?)
  }

  lemma StepWorked(host: Host, s: State)
    requires Valid(s.arch)
    ensures AccessWorked(s.arch.mem, CpuStep(host, s))
  {
    hide RegFetch, ExecuteInstr, BranchTaken, BP.Predict, TableAfter, StatAfter, InputAfter, OutputAfter, Fetch, Decode.Decode, Plus;
    hide Perform, Advance, EntryOf, ReadyStage, SetReg, UseBram, MaCost, CStatAfter, LoadedInto, LinesAfter;
  }

  /** As long as a run has not failed, every access it made succeeded. */
  lemma {:induction false} RunAccessesSucceed(host: Host, s: State, n: nat, i: nat)
    requires Valid(s.arch) && !RunSteps(host, s, n).last.Fail? && i < |RunSteps(host, s, n).history.accesses|
    ensures var h := RunSteps(host, s, n).history.accesses; !h[i].Peek? && Succeeds(s.arch.mem, h, i)
  {
    hide CpuStep, Perform, AfterAccesses;
    var p := RunSteps(host, s, n - 1);
    var before := p.history.accesses;
    var h := RunSteps(host, s, n).history.accesses;
    assert h[..|before|] == before;
    if i < |before| {
      RunAccessesSucceed(host, s, n - 1, i);
      assert h[..i] == before[..i];
    } else {
      StepWorked(host, p.state);
      RunIsLogged(host, s, n - 1);
      assert h[..i] == before;
    }
  }

  /** Access j loads the word of access i, with no store to it in between. */
  ghost predicate LoadsAfter(h: seq<Access>, i: nat, j: nat) {
    i < j < |h| && h[j].Load? && h[i].addr == h[j].addr && forall k :: i < k < j ==> !(h[k].Store? && h[k].addr == h[i].addr)
  }

  lemma LoadClass(m: Mem, h: seq<Access>, i: nat, j: nat)
    requires WellFormed(m) && LoadsAfter(h, i, j) && !h[i].Peek? && Succeeds(m, h, i) && Succeeds(m, h, j)
    ensures h[i].kind == h[j].kind
  {
    hide Succeeds;
    OneClassBetweenStores(m, h, i, j);
  }

  /** Main result: in every run, the loads of a word between two stores to it are all of one class,
      and after a store they are of the store's class. */
  lemma ReachableOneClass(host: Host, s: State, n: nat, i: nat, j: nat)
    requires Valid(s.arch) && !RunSteps(host, s, n).last.Fail?
    requires LoadsAfter(RunSteps(host, s, n).history.accesses, i, j)
    ensures var h := RunSteps(host, s, n).history.accesses; !h[i].Peek? && h[i].kind == h[j].kind
  {
    hide RunSteps, Succeeds;
    RunAccessesSucceed(host, s, n, i);
    RunAccessesSucceed(host, s, n, j);
    LoadClass(s.arch.mem, RunSteps(host, s, n).history.accesses, i, j);
  }
}
