/** Run control (core_sim/src/sim.rs): execution modes, breakpoints, the sticky fatal error, and
    the cycle and clock counters. The modes that loop until something happens get a number of
    steps to try; a call that stops by itself does not depend on it (LimitIrrelevant). */
module Sim {
  import opened Wrappers
  import opened Instr
  import opened Memory
  import opened FpuOps
  import opened Isa
  import opened Stages
  import opened Runs
  import opened SpySteps
  import Boot
  import Cpu
  import Pipeline
  import Passages
  import Decode

  datatype Mode = RunMode | SkipUntil(pc: nat) | RunStep(count: nat)
  datatype Options = Options(mode: Mode, breakpoints: set<nat>)

  datatype Reason = CannotRestart | Failed | Reached(pc: nat) | StepEnded | BreakPoint(pc: nat) | Spied(hit: SpyHit)
  datatype Flow = Broken(reason: Reason) | Exited | OutOfFuel

  datatype SimState = SimState(cpu: State, clocks: nat, cycle: nat, fatal: Option<Error>)

  /** The result of a call, with the program counters of the instructions it started. */
  datatype CallResult = CallResult(state: SimState, flow: Flow, started: seq<nat>)

  function Pc(s: SimState): nat { s.cpu.arch.pc as int }

  /** The part of `execute!` after the breakpoint test. A failing instruction is not counted. */
  function Counted(s: SimState, r: StepResult): SimState {
    if r.outcome.Fail? then s.(cpu := r.state, fatal := Some(r.outcome.error))
    else SimState(r.state, s.clocks + r.cycles, s.cycle + 1, s.fatal)
  }

  /** How an instruction ends the call, if it does. */
  function Ending(o: Outcome): Option<Flow> {
    match o
    case Continue => None
    case Break(hit) => Some(Broken(Spied(hit)))
    case Exit => Some(Exited)
    case Fail(_) => Some(Broken(Reason.Failed))
  }

  /** The loop of `single_cycle`, `left` instructions at most; `entering` before the first one. */
  function Loop(host: Host, s: SimState, entering: bool, opt: Options, left: nat): (c: CallResult)
    requires Valid(s.cpu.arch)
    ensures Valid(c.state.cpu.arch)
    decreases left
  {
    if opt.mode.SkipUntil? && !entering && opt.mode.pc == Pc(s) then CallResult(s, Broken(Reached(Pc(s))), [])
    else if left == 0 then CallResult(s, if opt.mode.RunStep? then Broken(StepEnded) else OutOfFuel, [])
    else if !entering && Pc(s) in opt.breakpoints then CallResult(s, Broken(BreakPoint(Pc(s))), [])
    else
      StepValid(host, s.cpu);
      var r := CpuStep(host, s.cpu);
      var s' := Counted(s, r);
      if Ending(r.outcome).Some? then CallResult(s', Ending(r.outcome).value, [Pc(s)])
      else
        var rest := Loop(host, s', false, opt, left - 1);
        CallResult(rest.state, rest.flow, [Pc(s)] + rest.started)
  }

  function Limit(opt: Options, fuel: nat): nat { if opt.mode.RunStep? then opt.mode.count else fuel }

  /** `single_cycle`. */
  function Call(host: Host, s: SimState, opt: Options, fuel: nat): (c: CallResult)
    requires Valid(s.cpu.arch)
    ensures Valid(c.state.cpu.arch)
  {
    if s.fatal.Some? then CallResult(s, Broken(CannotRestart), [])
    else Loop(host, s, true, opt, Limit(opt, fuel))
  }

  class Simulator {
    const cpu: Cpu.Cpu
    var elapsedClocks: nat
    var cycle: nat
    var fatalError: Option<Error>

    constructor (image: seq<bv8>, input: seq<bv32>, output: seq<bv8>)
      requires Boot.Bootable(image)
      ensures cpu.Ready() && Value() == SimState(Boot.Start(image, input, output), 0, 0, None)
      ensures fresh({cpu, cpu.memory, cpu.cache, cpu.predictor}) && fresh(cpu.regFile.inner) && fresh(cpu.regFile.innerF)
    {
      cpu := new Cpu.Cpu(image, input, output);
      elapsedClocks, cycle, fatalError := 0, 0, None;
    }

    ghost function Value(): (s: SimState)
      reads this, cpu, cpu.regFile, cpu.regFile.inner, cpu.regFile.innerF, cpu.memory, cpu.cache, cpu.predictor
      requires cpu.Ready()
      ensures Valid(s.cpu.arch)
    {
      SimState(cpu.Value(), elapsedClocks, cycle, fatalError)
    }

    /** One instruction with its bookkeeping. */
    method ExecuteOne(host: Host) returns (ending: Option<Flow>)
      requires cpu.Ready()
      modifies this, cpu, cpu.memory, cpu.cache, cpu.predictor, cpu.regFile.inner, cpu.regFile.innerF
      ensures cpu.Ready()
      ensures var r := CpuStep(host, old(Value()).cpu);
              Value() == Counted(old(Value()), r) && ending == Ending(r.outcome)
    {
      hide CpuStep;
      var outcome, cycles := cpu.CycleOneFull(host);
      if outcome.Fail? {
        fatalError := Some(outcome.error);
      } else {
        elapsedClocks := elapsedClocks + cycles;
        cycle := cycle + 1;
      }
      ending := Ending(outcome);
    }

    method SingleCycle(host: Host, opt: Options, fuel: nat) returns (flow: Flow)
      requires cpu.Ready()
      modifies this, cpu, cpu.memory, cpu.cache, cpu.predictor, cpu.regFile.inner, cpu.regFile.innerF
      ensures cpu.Ready()
      ensures var c := Call(host, old(Value()), opt, fuel); Value() == c.state && flow == c.flow
    {
      hide CpuStep, Counted, Ending;
      if fatalError.Some? {
        return Broken(CannotRestart);
      }
      ghost var c := Call(host, Value(), opt, fuel);
      var entering, left := true, Limit(opt, fuel);
      while true
        invariant cpu.Ready()
        invariant var l := Loop(host, Value(), entering, opt, left); l.state == c.state && l.flow == c.flow
        decreases left
      {
        if opt.mode.SkipUntil? && !entering && opt.mode.pc == cpu.pc as int {
          return Broken(Reached(cpu.pc as int));
        }
        if left == 0 {
          return if opt.mode.RunStep? then Broken(StepEnded) else OutOfFuel;
        }
        if !entering && cpu.pc as int in opt.breakpoints {
          return Broken(BreakPoint(cpu.pc as int));
        }
        var ending := ExecuteOne(host);
        if ending.Some? {
          return ending.value;
        }
        entering, left := false, left - 1;
      }
    }
  }

  // ---- Breakpoints ----

  /** From index `from` on, no instruction started at a breakpoint. */
  ghost predicate ClearFrom(started: seq<nat>, from: nat, breakpoints: set<nat>) {
    forall i :: from <= i < |started| ==> started[i] !in breakpoints
  }

  /** Main result: only the first instruction of a call may start at a breakpoint. */
  lemma {:induction false} OnlyFirstAtBreakpoint(host: Host, s: SimState, entering: bool, opt: Options, left: nat)
    requires Valid(s.cpu.arch)
    ensures ClearFrom(Loop(host, s, entering, opt, left).started, if entering then 1 else 0, opt.breakpoints)
    decreases left
  {
    hide CpuStep, Ending;
    if left > 0 {
      StepValid(host, s.cpu);
      OnlyFirstAtBreakpoint(host, Counted(s, CpuStep(host, s.cpu)), false, opt, left - 1);
    }
  }

  // ---- Where a call ends ----

  /** The state after k instructions, whatever they do. */
  function After(host: Host, s: SimState, k: nat): (r: SimState)
    requires Valid(s.cpu.arch)
    ensures Valid(r.cpu.arch)
  {
    if k == 0 then s
    else
      var p := After(host, s, k - 1);
      StepValid(host, p.cpu);
      Counted(p, CpuStep(host, p.cpu))
  }

  /** The outcome of instruction k, counted from 1. */
  function OutcomeOf(host: Host, s: SimState, k: nat): Outcome
    requires Valid(s.cpu.arch) && k > 0
  {
    CpuStep(host, After(host, s, k - 1).cpu).outcome
  }

  /** Why a call would end after k instructions, if it would: an instruction that does not continue,
      the target, the limit, or a breakpoint. Neither the target nor a breakpoint counts on entry. */
  ghost function StopAfter(host: Host, s: SimState, opt: Options, limit: nat, k: nat): Option<Flow>
    requires Valid(s.cpu.arch)
  {
    var pc := Pc(After(host, s, k));
    if k > 0 && OutcomeOf(host, s, k).Break? then Some(Broken(Spied(OutcomeOf(host, s, k).spy)))
    else if k > 0 && OutcomeOf(host, s, k).Exit? then Some(Exited)
    else if k > 0 && OutcomeOf(host, s, k).Fail? then Some(Broken(Reason.Failed))
    else if k > 0 && opt.mode == SkipUntil(pc) then Some(Broken(Reached(pc)))
    else if k == limit then Some(if opt.mode.RunStep? then Broken(StepEnded) else OutOfFuel)
    else if k > 0 && pc in opt.breakpoints then Some(Broken(BreakPoint(pc)))
    else None
  }

  /** Nothing ends the call before k instructions. */
  ghost predicate GoesOn(host: Host, s: SimState, opt: Options, limit: nat, from: nat, k: nat)
    requires Valid(s.cpu.arch)
  {
    forall i :: from <= i < k ==> StopAfter(host, s, opt, limit, i) == None
  }

  ghost predicate StartedAt(host: Host, s: SimState, started: seq<nat>, from: nat)
    requires Valid(s.cpu.arch)
  {
    forall i :: 0 <= i < |started| ==> started[i] == Pc(After(host, s, from + i))
  }

  /** One turn of the loop, by the reasons to end. */
  lemma LoopTurn(host: Host, s: SimState, opt: Options, limit: nat, j: nat)
    requires Valid(s.cpu.arch) && j <= limit && (j > 0 ==> OutcomeOf(host, s, j) == Continue)
    ensures var t := After(host, s, j); var c := Loop(host, t, j == 0, opt, limit - j); var stop := StopAfter(host, s, opt, limit, j);
            && (stop.Some? ==> c == CallResult(t, stop.value, []))
            && (stop.None? ==>
                  && j < limit
                  && var t', next := After(host, s, j + 1), StopAfter(host, s, opt, limit, j + 1);
                     if OutcomeOf(host, s, j + 1) == Continue
                     then var rest := Loop(host, t', false, opt, limit - (j + 1)); c == CallResult(rest.state, rest.flow, [Pc(t)] + rest.started)
                     else next.Some? && c == CallResult(t', next.value, [Pc(t)]))
  {
    hide CpuStep, Counted;
    var t := After(host, s, j);
    StepValid(host, t.cpu);
    assert After(host, s, j + 1) == Counted(t, CpuStep(host, t.cpu));
  }

  lemma {:induction false} LoopStops(host: Host, s: SimState, opt: Options, limit: nat, j: nat)
    requires Valid(s.cpu.arch) && j <= limit && (j > 0 ==> OutcomeOf(host, s, j) == Continue)
    ensures var c := Loop(host, After(host, s, j), j == 0, opt, limit - j); var k := j + |c.started|;
            && c.state == After(host, s, k) && StopAfter(host, s, opt, limit, k) == Some(c.flow)
            && GoesOn(host, s, opt, limit, j, k) && StartedAt(host, s, c.started, j)
    decreases limit - j
  {
    hide Loop, After, OutcomeOf, StopAfter;
    LoopTurn(host, s, opt, limit, j);
    if StopAfter(host, s, opt, limit, j).None? && OutcomeOf(host, s, j + 1) == Continue {
      LoopStops(host, s, opt, limit, j + 1);
      var rest := Loop(host, After(host, s, j + 1), false, opt, limit - (j + 1)).started;
      ShiftStarted(host, s, [Pc(After(host, s, j))] + rest, rest, j);
    }
  }

  lemma ShiftStarted(host: Host, s: SimState, started: seq<nat>, rest: seq<nat>, j: nat)
    requires Valid(s.cpu.arch) && started == [Pc(After(host, s, j))] + rest && StartedAt(host, s, rest, j + 1)
    ensures StartedAt(host, s, started, j)
  {
    hide After;
    forall i | 0 <= i < |started|
      ensures started[i] == Pc(After(host, s, j + i))
    {
      if i > 0 { assert rest[i - 1] == Pc(After(host, s, j + 1 + (i - 1))); }
    }
  }

  /** Main result: a call ends after exactly the first number of instructions at which there is a
      reason to end, with that reason, in the state after so many instructions. */
  lemma CallEndsAtFirstStop(host: Host, s: SimState, opt: Options, fuel: nat)
    requires Valid(s.cpu.arch) && s.fatal.None?
    ensures var c := Call(host, s, opt, fuel); var k := |c.started|;
            && c.state == After(host, s, k) && StopAfter(host, s, opt, Limit(opt, fuel), k) == Some(c.flow)
            && GoesOn(host, s, opt, Limit(opt, fuel), 0, k) && StartedAt(host, s, c.started, 0)
  {
    hide Loop, After, StopAfter, GoesOn, StartedAt, Limit, CpuStep;
    AfterNone(host, s);
    LoopStops(host, s, opt, Limit(opt, fuel), 0);
  }

  lemma AfterNone(host: Host, s: SimState)
    requires Valid(s.cpu.arch)
    ensures After(host, s, 0) == s
  {
    hide CpuStep;
  }

  /** In particular, a count at which nothing ended the call before and something ends it now is the
      count at which it ends. */
  lemma CallEndsAt(host: Host, s: SimState, opt: Options, fuel: nat, k: nat)
    requires Valid(s.cpu.arch) && s.fatal.None?
    requires GoesOn(host, s, opt, Limit(opt, fuel), 0, k) && StopAfter(host, s, opt, Limit(opt, fuel), k).Some?
    ensures var c := Call(host, s, opt, fuel);
            |c.started| == k && Some(c.flow) == StopAfter(host, s, opt, Limit(opt, fuel), k) && c.state == After(host, s, k)
  {
    hide Loop, StopAfter, Call;
    CallEndsAtFirstStop(host, s, opt, fuel);
  }

  /** Running until an address ends there, not before and not after it: if the first k instructions
      continue and k is the first count with the target as program counter, no breakpoint in between
      and the limit not in the way, the call ends after exactly these. */
  lemma SkipUntilReaches(host: Host, s: SimState, target: nat, bps: set<nat>, fuel: nat, k: nat)
    requires Valid(s.cpu.arch) && s.fatal.None? && 1 <= k <= fuel
    requires forall i :: 1 <= i <= k ==> OutcomeOf(host, s, i) == Continue
    requires forall i :: 1 <= i < k ==> Pc(After(host, s, i)) != target && Pc(After(host, s, i)) !in bps
    requires Pc(After(host, s, k)) == target
    ensures var c := Call(host, s, Options(SkipUntil(target), bps), fuel);
            |c.started| == k && c.flow == Broken(Reached(target)) && c.state == After(host, s, k)
  {
    hide After, OutcomeOf, Call, Pc;
    CallEndsAt(host, s, Options(SkipUntil(target), bps), fuel, k);
  }

  /** What the reasons say: a target or breakpoint is the final program counter, and the target is
      not started from again; counted steps were all taken. */
  lemma FlowMeaning(host: Host, s: SimState, opt: Options, fuel: nat)
    requires Valid(s.cpu.arch) && s.fatal.None?
    ensures var c := Call(host, s, opt, fuel);
            && (c.flow.Broken? && c.flow.reason.Reached? ==> opt.mode == SkipUntil(c.flow.reason.pc) && c.flow.reason.pc == Pc(c.state))
            && (c.flow.Broken? && c.flow.reason.BreakPoint? ==> c.flow.reason.pc in opt.breakpoints && c.flow.reason.pc == Pc(c.state))
            && (c.flow == Broken(StepEnded) ==> opt.mode == RunStep(|c.started|))
            && (opt.mode.SkipUntil? ==> forall i :: 1 <= i < |c.started| ==> c.started[i] != opt.mode.pc)
            && c.flow != Broken(CannotRestart)
  {
    hide After, OutcomeOf, Call, Pc;
    CallEndsAtFirstStop(host, s, opt, fuel);
    var c := Call(host, s, opt, fuel);
    if opt.mode.SkipUntil? {
      forall i | 1 <= i < |c.started|
        ensures c.started[i] != opt.mode.pc
      {
        assert StopAfter(host, s, opt, Limit(opt, fuel), i) == None;
        assert c.started[i] == Pc(After(host, s, 0 + i));
      }
    }
  }

  // ---- Step m, then step n ----

  /** Stopping after m instructions and going on without re-entering changes nothing. */
  lemma {:induction false} LoopSplits(host: Host, s: SimState, entering: bool, opt: Options, m: nat, n: nat)
    requires Valid(s.cpu.arch) && opt.mode.RunStep?
    requires Loop(host, s, entering, opt, m).flow == Broken(StepEnded)
    ensures var a := Loop(host, s, entering, opt, m);
            var b := Loop(host, a.state, entering && m == 0, opt, n);
            var c := Loop(host, s, entering, opt, m + n);
            c.state == b.state && c.flow == b.flow
    decreases m
  {
    hide CpuStep;
    if m > 0 {
      StepValid(host, s.cpu);
      LoopSplits(host, Counted(s, CpuStep(host, s.cpu)), false, opt, m - 1, n);
    }
  }

  /** The loop looks at the number of steps left, not at the number asked for. */
  lemma {:induction false} CountIrrelevant(host: Host, s: SimState, entering: bool, bps: set<nat>, m: nat, n: nat, left: nat)
    requires Valid(s.cpu.arch)
    ensures Loop(host, s, entering, Options(RunStep(m), bps), left) == Loop(host, s, entering, Options(RunStep(n), bps), left)
    decreases left
  {
    hide CpuStep;
    if left > 0 {
      StepValid(host, s.cpu);
      CountIrrelevant(host, Counted(s, CpuStep(host, s.cpu)), false, bps, m, n, left - 1);
    }
  }

  /** A call that stops by itself within its limit does not depend on it. */
  lemma {:induction false} LimitIrrelevant(host: Host, s: SimState, entering: bool, opt: Options, left: nat, more: nat)
    requires Valid(s.cpu.arch) && !opt.mode.RunStep?
    requires Loop(host, s, entering, opt, left).flow != OutOfFuel
    ensures Loop(host, s, entering, opt, left + more) == Loop(host, s, entering, opt, left)
    decreases left
  {
    hide CpuStep;
    if left > 0 {
      StepValid(host, s.cpu);
      var s' := Counted(s, CpuStep(host, s.cpu));
      if Loop(host, s', false, opt, left - 1).flow != OutOfFuel { LimitIrrelevant(host, s', false, opt, left - 1, more); }
    }
  }

  /** The cycle counter never goes down, and a fatal error stays. */
  lemma {:induction false} LoopProgress(host: Host, s: SimState, entering: bool, opt: Options, left: nat)
    requires Valid(s.cpu.arch)
    ensures var t := Loop(host, s, entering, opt, left).state; t.cycle >= s.cycle && (s.fatal.Some? ==> t.fatal.Some?)
    decreases left
  {
    hide CpuStep;
    if left > 0 {
      StepValid(host, s.cpu);
      LoopProgress(host, Counted(s, CpuStep(host, s.cpu)), false, opt, left - 1);
    }
  }

  /** Main result: if stepping m instructions runs to its end, stepping n more in a second call gives
      the same state and flow as stepping m+n in one call, exactly when one of the two counts is zero
      or the boundary is not a breakpoint. */
  lemma StepsCompose(host: Host, s: SimState, bps: set<nat>, m: nat, n: nat, fuel: nat)
    requires Valid(s.cpu.arch) && s.fatal.None?
    requires Call(host, s, Options(RunStep(m), bps), fuel).flow == Broken(StepEnded)
    ensures var a := Call(host, s, Options(RunStep(m), bps), fuel);
            var b := Call(host, a.state, Options(RunStep(n), bps), fuel);
            var c := Call(host, s, Options(RunStep(m + n), bps), fuel);
            c.state == b.state && c.flow == b.flow <==> m == 0 || n == 0 || Pc(a.state) !in bps
  {
    hide CpuStep;
    var a := Call(host, s, Options(RunStep(m), bps), fuel);
    var o := Options(RunStep(n), bps);
    CountIrrelevant(host, s, true, bps, n, m, m);
    CountIrrelevant(host, s, true, bps, n, m + n, m + n);
    LoopSplits(host, s, true, o, m, n);
    StepEndedIsHealthy(host, s, true, Options(RunStep(m), bps), m);
    if m > 0 && n > 0 && Pc(a.state) in bps {
      EnteringMoves(host, a.state, o, n);
    }
  }

  lemma {:induction false} StepEndedIsHealthy(host: Host, s: SimState, entering: bool, opt: Options, left: nat)
    requires Valid(s.cpu.arch) && s.fatal.None?
    requires Loop(host, s, entering, opt, left).flow == Broken(StepEnded)
    ensures Loop(host, s, entering, opt, left).state.fatal.None?
    decreases left
  {
    hide CpuStep;
    if left > 0 {
      StepValid(host, s.cpu);
      StepEndedIsHealthy(host, Counted(s, CpuStep(host, s.cpu)), false, opt, left - 1);
    }
  }

  /** A call that enters at a breakpoint executes it: the state is not the one it started from. */
  lemma EnteringMoves(host: Host, s: SimState, opt: Options, left: nat)
    requires Valid(s.cpu.arch) && s.fatal.None? && left > 0
    ensures Loop(host, s, true, opt, left).state != s
  {
    hide CpuStep;
    StepValid(host, s.cpu);
    LoopProgress(host, Counted(s, CpuStep(host, s.cpu)), false, opt, left - 1);
  }

  // ---- Sessions ----

  /** What a user does between looking at the simulator: run it, or edit its memory watches. */
  datatype Request =
    | RunCall(opt: Options, fuel: nat)
    | Watch(read: bool, write: bool, u: SpyUnit)
    | Unwatch(read: bool, write: bool, u: SpyUnit)

  /** Any number of requests, one after the other. */
  function Session(host: Host, s: SimState, calls: seq<Request>): (r: SimState)
    requires Valid(s.cpu.arch)
    ensures Valid(r.cpu.arch)
  {
    if calls == [] then s
    else
      var before := Session(host, s, calls[..|calls| - 1]);
      match calls[|calls| - 1]
      case RunCall(opt, fuel) => Call(host, before, opt, fuel).state
      case edit => before.(cpu := WithSpies(before.cpu, Edited(before.cpu.arch.mem.spies, edit)))
  }

  function Edited(spies: Spies, edit: Request): Spies {
    match edit
    case RunCall(_, _) => spies
    case Watch(read, write, u) => Watching(spies, read, write, u)
    case Unwatch(read, write, u) => Unwatching(spies, read, write, u.addr)
  }

  /** Reference: the watches after a session depend on its edits only. */
  function SpiesAfter(spies: Spies, calls: seq<Request>): Spies {
    if calls == [] then spies else Edited(SpiesAfter(spies, calls[..|calls| - 1]), calls[|calls| - 1])
  }

  /** Main result: after a failure, further requests change the watches and nothing else. */
  lemma {:induction false} FailureIsFinal(host: Host, s: SimState, calls: seq<Request>)
    requires Valid(s.cpu.arch) && s.fatal.Some?
    ensures Session(host, s, calls) == s.(cpu := WithSpies(s.cpu, SpiesAfter(s.cpu.arch.mem.spies, calls)))
  {
    hide Loop, Watching, Unwatching;
    if calls != [] { FailureIsFinal(host, s, calls[..|calls| - 1]); }
  }

  /** The state after k instructions of one uninterrupted run, but for the watches. */
  ghost predicate AtStep(host: Host, start: State, s: SimState, k: nat, spies: Spies)
    requires Valid(start.arch)
  {
    var r := RunSteps(host, start, k);
    && s.cpu == WithSpies(r.state, spies) && s.clocks == r.clocks
    && (s.fatal.Some? <==> r.last.Fail?)
    && s.cycle + (if s.fatal.Some? then 1 else 0) == k
  }

  lemma {:induction false} LoopIsRun(host: Host, start: State, s: SimState, entering: bool, opt: Options, left: nat, k: nat, spies: Spies)
    requires Valid(start.arch) && Valid(s.cpu.arch) && AtStep(host, start, s, k, spies) && s.fatal.None?
    ensures var c := Loop(host, s, entering, opt, left); AtStep(host, start, c.state, k + |c.started|, spies)
    decreases left
  {
    hide CpuStep, Extend;
    if left > 0 {
      StepValid(host, s.cpu);
      var r := CpuStep(host, s.cpu);
      var s' := Counted(s, r);
      assert AtStep(host, start, s', k + 1, spies) by { NextStep(host, start, s, k, spies); }
      if !r.outcome.Fail? { LoopIsRun(host, start, s', false, opt, left - 1, k + 1, spies); }
    }
  }

  /** A failing instruction takes no clocks. */
  lemma FailureIsFree(host: Host, s: State)
    requires Valid(s.arch)
    ensures var r := CpuStep(host, s); r.outcome.Fail? ==> r.cycles == 0
  {
    hide RegFetch, ExecuteInstr, Pipeline.Advance, Perform, Fetch, Decode.Decode, Plus;
  }

  lemma NextStep(host: Host, start: State, s: SimState, k: nat, spies: Spies)
    requires Valid(start.arch) && Valid(s.cpu.arch) && AtStep(host, start, s, k, spies) && s.fatal.None?
    ensures AtStep(host, start, Counted(s, CpuStep(host, s.cpu)), k + 1, spies)
  {
    hide CpuStep, Extend;
    FailureIsFree(host, s.cpu);
    var p := RunSteps(host, start, k);
    StepWithSpies(host, p.state, spies);
    assert RunSteps(host, start, k + 1) == var r := CpuStep(host, p.state); Run(r.state, r.outcome, p.clocks + r.cycles, Extend(p.history, r.log));
  }

  /** Main result: whatever the modes, breakpoints and limits of its calls, and whatever watches are
      set and removed between them, a session leaves the simulator in a state of the one
      uninterrupted run, with that run's clocks and with the watches that its edits give. */
  lemma {:induction false} SessionIsRun(host: Host, start: State, calls: seq<Request>) returns (k: nat)
    requires Valid(start.arch)
    ensures AtStep(host, start, Session(host, SimState(start, 0, 0, None), calls), k, SpiesAfter(start.arch.mem.spies, calls))
  {
    hide Loop, RunSteps, Watching, Unwatching;
    if calls == [] {
      k := 0;
      NoSteps(host, start);
    } else {
      var before := Session(host, SimState(start, 0, 0, None), calls[..|calls| - 1]);
      var spies, last := SpiesAfter(start.arch.mem.spies, calls[..|calls| - 1]), calls[|calls| - 1];
      k := SessionIsRun(host, start, calls[..|calls| - 1]);
      if last.RunCall? && before.fatal.None? {
        LoopIsRun(host, start, before, true, last.opt, Limit(last.opt, last.fuel), k, spies);
        k := k + |Loop(host, before, true, last.opt, Limit(last.opt, last.fuel)).started|;
      }
    }
  }

  lemma NoSteps(host: Host, start: State)
    requires Valid(start.arch)
    ensures AtStep(host, start, SimState(start, 0, 0, None), 0, start.arch.mem.spies)
  {
  }

  /** The elapsed clocks of every session of a booted simulator are conserved. */
  lemma SessionClocks(host: Host, image: seq<bv8>, input: seq<bv32>, output: seq<bv8>, calls: seq<Request>) returns (k: nat)
    requires Boot.Bootable(image)
    ensures Valid(Boot.StartArch(image, input, output))
    ensures var start := Boot.Start(image, input, output);
            var s := Session(host, SimState(start, 0, 0, None), calls); var t, h := s.cpu.timing, RunSteps(host, start, k).history;
            var flushes := t.bStat.Mispredicted() + h.jalrs;
            && AtStep(host, start, s, k, SpiesAfter(NO_SPIES, calls))
            && h.completed + h.stalls + 2 * flushes <= s.clocks
            && s.clocks <= h.exSum + h.stalls + 2 * flushes + t.cStat.hits + 89 * t.cStat.misses
            && 2 * t.cStat.hits + 90 * t.cStat.misses <= s.clocks + Pipeline.MaCycles(t.queue[0])
  {
    hide RunSteps, Session, Boot.TextBegin, Boot.TextEnd, Boot.StartRegs, Boot.StartFregs, SpiesAfter;
    Boot.StartValid(image, input, output);
    var start := Boot.Start(image, input, output);
    k := SessionIsRun(host, start, calls);
    ClockConservation(host, start, k);
    Passages.LatencyIsCharged(host, start, k);
  }

  /** Whatever was requested, an aligned fetch inside the loaded text returns the word of the image. */
  lemma SessionText(host: Host, image: seq<bv8>, input: seq<bv32>, output: seq<bv8>, calls: seq<Request>, pc: nat)
    requires Boot.Bootable(image) && Boot.TextBegin(image) <= pc < Boot.TextEnd(image) && pc % 4 == 0 && pc + 4 <= |image| - 8
    ensures Valid(Boot.StartArch(image, input, output))
    ensures var s := Session(host, SimState(Boot.Start(image, input, output), 0, 0, None), calls);
            Fetch(s.cpu.arch.mem, pc) == Word(FromLe(image[8 + pc..12 + pc]))
  {
    hide RunSteps, Session, Boot.StartMem, Boot.TextBegin, Boot.TextEnd, SpiesAfter, RawWord, FromLe;
    Boot.StartValid(image, input, output);
    var start := Boot.Start(image, input, output);
    var k := SessionIsRun(host, start, calls);
    ReachableText(host, start, k, pc);
    Boot.StartText(image, pc);
  }

  /** Nothing outside the text can ever be executed: whatever was requested, a fetch there fails. */
  lemma SessionOutside(host: Host, image: seq<bv8>, input: seq<bv32>, output: seq<bv8>, calls: seq<Request>, pc: nat)
    requires Boot.Bootable(image) && !(Boot.TextBegin(image) <= pc < Boot.TextEnd(image))
    ensures Valid(Boot.StartArch(image, input, output))
    ensures var s := Session(host, SimState(Boot.Start(image, input, output), 0, 0, None), calls);
            Fetch(s.cpu.arch.mem, pc) == NoWord(PcOutOfBounds(pc))
  {
    hide RunSteps, Session, Boot.TextBegin, Boot.TextEnd, SpiesAfter, AfterAccesses;
    Boot.StartValid(image, input, output);
    var start := Boot.Start(image, input, output);
    var k := SessionIsRun(host, start, calls);
    RunIsLogged(host, start, k);
  }
}
