/** What a completed step puts into the pipeline queue, spelled out with the numbers of the timing
    model: destinations, the delay of a result, execute clocks, memory clocks and stalls. */
module Passages {
  import opened Wrappers
  import opened Instr
  import opened Types
  import opened Memory
  import opened FpuOps
  import opened Isa
  import opened Pipeline
  import opened Stages
  import opened Runs
  import BP = BranchPredictor
  import Cache
  import Decode

  // ---- The sources of an instruction ----

  /** Replacing integer register r never changes the operands. */
  ghost predicate Independent(i: Instr, r: RegId) {
    forall regs: seq<bv32>, fregs: seq<bv32>, v: bv32 ::
      |regs| == 32 && |fregs| == 32 ==> RegFetch(i, Replaced(regs, r, v), fregs) == RegFetch(i, regs, fregs)
  }

  ghost predicate IndependentF(i: Instr, r: RegId) {
    forall regs: seq<bv32>, fregs: seq<bv32>, v: bv32 ::
      |regs| == 32 && |fregs| == 32 ==> RegFetch(i, regs, Replaced(fregs, r, v)) == RegFetch(i, regs, fregs)
  }

  /** A register replaced, also register 0. */
  ghost function Replaced(regs: seq<bv32>, r: RegId, v: bv32): (s: seq<bv32>)
    requires |regs| == 32
    ensures |s| == 32
  {
    RegIndex(r);
    regs[r as int := v]
  }

  lemma ReplacedAt(regs: seq<bv32>, r: RegId, v: bv32, id: RegId)
    requires |regs| == 32
    ensures GetReg(Replaced(regs, r, v), id) == if id == r then v else GetReg(regs, id)
  {
    RegIndex(r);
    RegIndex(id);
    SameIndex(r, id);
  }

  lemma SameIndex(r: RegId, id: RegId)
    ensures r as int == id as int <==> r == id
  {
  }

  lemma ReplacedAll(regs: seq<bv32>, r: RegId, v: bv32)
    requires |regs| == 32
    ensures forall id: RegId :: GetReg(Replaced(regs, r, v), id) == if id == r then v else GetReg(regs, id)
  {
    forall id: RegId
      ensures GetReg(Replaced(regs, r, v), id) == if id == r then v else GetReg(regs, id)
    {
      ReplacedAt(regs, r, v, id);
    }
  }

  ghost function Zeros(): (s: seq<bv32>)
    ensures |s| == 32
  {
    seq(32, _ => 0)
  }

  lemma ZeroRegs()
    ensures forall id: RegId :: GetReg(Zeros(), id) == 0
  {
    forall id: RegId
      ensures GetReg(Zeros(), id) == 0
    {
      RegIndex(id);
    }
  }

  /** The registers that the stall logic looks at are exactly those an instruction depends on. */
  lemma ReadsMeaning(i: Instr, r: RegId)
    ensures Reads(i, r) <==> !Independent(i, r)
  {
    hide RegFetch, Reads, Replaced;
    if Reads(i, r) {
      ReadMatters(i, r);
    } else {
      forall regs: seq<bv32>, fregs: seq<bv32>, v: bv32 | |regs| == 32 && |fregs| == 32
        ensures RegFetch(i, Replaced(regs, r, v), fregs) == RegFetch(i, regs, fregs)
      {
        Unread(i, r, regs, fregs, v);
      }
    }
  }

  lemma ReadMatters(i: Instr, r: RegId)
    requires Reads(i, r)
    ensures RegFetch(i, Replaced(Zeros(), r, 1), Zeros()) != RegFetch(i, Zeros(), Zeros())
  {
    hide GetReg, Replaced, Zeros;
    ZeroRegs();
    ReplacedAll(Zeros(), r, 1);
  }

  lemma Unread(i: Instr, r: RegId, regs: seq<bv32>, fregs: seq<bv32>, v: bv32)
    requires |regs| == 32 && |fregs| == 32 && !Reads(i, r)
    ensures RegFetch(i, Replaced(regs, r, v), fregs) == RegFetch(i, regs, fregs)
  {
    hide GetReg, Replaced;
    ReplacedAll(regs, r, v);
  }

  lemma ReadsFloatMeaning(i: Instr, r: RegId)
    ensures ReadsFloat(i, r) <==> !IndependentF(i, r)
  {
    hide RegFetch, ReadsFloat, Replaced;
    if ReadsFloat(i, r) {
      ReadMattersF(i, r);
    } else {
      forall regs: seq<bv32>, fregs: seq<bv32>, v: bv32 | |regs| == 32 && |fregs| == 32
        ensures RegFetch(i, regs, Replaced(fregs, r, v)) == RegFetch(i, regs, fregs)
      {
        UnreadF(i, r, regs, fregs, v);
      }
    }
  }

  lemma ReadMattersF(i: Instr, r: RegId)
    requires ReadsFloat(i, r)
    ensures RegFetch(i, Zeros(), Replaced(Zeros(), r, 1)) != RegFetch(i, Zeros(), Zeros())
  {
    hide RegFetchF, GetReg, Replaced, Zeros;
    FloatReadMatters(i.f, r);
  }

  lemma FloatReadMatters(f: FInstr, r: RegId)
    requires ReadsFloat(F(f), r)
    ensures RegFetchF(f, Zeros(), Replaced(Zeros(), r, 1)) != RegFetchF(f, Zeros(), Zeros())
  {
    hide GetReg, Replaced, Zeros;
    ZeroRegs();
    ReplacedAll(Zeros(), r, 1);
  }

  lemma UnreadF(i: Instr, r: RegId, regs: seq<bv32>, fregs: seq<bv32>, v: bv32)
    requires |regs| == 32 && |fregs| == 32 && !ReadsFloat(i, r)
    ensures RegFetch(i, regs, Replaced(fregs, r, v)) == RegFetch(i, regs, fregs)
  {
    hide GetReg, Replaced, RegFetchF;
    if i.F? { UnreadFloat(i.f, r, regs, fregs, v); }
  }

  lemma UnreadFloat(f: FInstr, r: RegId, regs: seq<bv32>, fregs: seq<bv32>, v: bv32)
    requires |regs| == 32 && |fregs| == 32 && !ReadsFloat(F(f), r)
    ensures RegFetchF(f, regs, Replaced(fregs, r, v)) == RegFetchF(f, regs, fregs)
  {
    hide GetReg, Replaced;
    ReplacedAll(fregs, r, v);
  }

  // ---- The result of an instruction ----

  /** The integer register an instruction writes. */
  function IntDest(i: Instr): Option<RegId> {
    match i
    case R(_, rd, _, _) => Some(rd)
    case I(_, rd, _, _) => Some(rd)
    case Jal(rd, _) => Some(rd)
    case IO(Inw(rd)) => Some(rd)
    case F(Flt(rd, _, _)) => Some(rd)
    case F(Y(_, rd, _)) => Some(rd)
    case _ => None
  }

  function FloatDest(i: Instr): Option<RegId> {
    match i
    case IO(Finw(rd)) => Some(rd)
    case F(E(_, rd, _, _)) => Some(rd)
    case F(H(_, rd, _)) => Some(rd)
    case F(Fitof(rd, _)) => Some(rd)
    case F(Flw(rd, _, _)) => Some(rd)
    case _ => None
  }

  /** Words of on-chip memory: the first 16384 and the last 256. */
  predicate OnChip(word: nat) { word < 16384 || word >= 249744 }

  predicate IsLoad(i: Instr) { (i.I? && i.i == Lw) || (i.F? && i.f.Flw?) }
  predicate IsStore(i: Instr) { i.Sw? || (i.F? && i.f.Fsw?) }

  /** How long the next instruction waits for a result: two clocks for a load from on-chip memory,
      one for any other load and for the floating-point unit, none otherwise. */
  function Delay(i: Instr, word: Option<nat>): nat {
    if IsLoad(i) then if word.Some? && OnChip(word.value) then 2 else 1
    else if i.F? && (i.f.E? || i.f.H? || i.f.Fitof? || i.f.Y?) then 1
    else 0
  }

  /** The execute clocks of an instruction. */
  function ExecuteClocks(i: Instr): nat {
    match i
    case I(_, _, _, _) => 0
    case F(E(Fadd, _, _, _)) => 5
    case F(E(Fsub, _, _, _)) => 5
    case F(E(Fmul, _, _, _)) => 2
    case F(E(Fdiv, _, _, _)) => 11
    case F(H(Fsqrt, _, _)) => 8
    case F(H(Ffloor, _, _)) => 8
    case F(Fitof(_, _)) => 4
    case F(Y(Fftoi, _, _)) => 2
    case F(Flw(_, _, _)) => 0
    case _ => 1
  }

  /** Instruction j has a source that instruction i writes. */
  predicate Uses(j: Instr, i: Instr) {
    || (IntDest(i).Some? && Reads(j, IntDest(i).value))
    || (FloatDest(i).Some? && ReadsFloat(j, FloatDest(i).value))
  }

  /** The queue entry of an instruction, as far as later instructions see it. */
  ghost predicate Describes(e: Entry, i: Instr, word: Option<nat>) {
    && e.writeBack == IntDest(i) && e.floatWriteBack == FloatDest(i)
    && e.ready.Some? && Depth(e.ready.value) == Delay(i, word)
    && e.exCycles == ExecuteClocks(i)
  }

  /** What is written back in the end. */
  function Written(out: ExecuteOutput, loaded: bv32): Option<WbInput> {
    if out.maIn.None? then out.wbIn else LoadedInto(out.maIn.value, loaded)
  }

  function AccessedWord(out: ExecuteOutput): Option<nat> { if out.maIn.Some? then Some(out.maIn.value.addr) else None }

  /** What the queue entry of an instruction says, and when it flushes or accesses memory. */
  ghost predicate Entered(i: Instr, out: ExecuteOutput, c: nat, loaded: bv32) {
    && Describes(EntryOf(out, c, ReadyStage(out), Written(out, loaded)), i, AccessedWord(out))
    && (out.maIn.Some? <==> IsLoad(i) || IsStore(i))
    && (out.maIn.Some? ==> out.maIn.value.MaLoad? == IsLoad(i))
    && (out.flush ==> Delay(i, AccessedWord(out)) == 0 && out.maIn.None?)
  }

  lemma EntryDescribes(host: Host, i: Instr, v: Operands, oldPc: bv32, pcPlus4: bv32, predicted: bool, input: seq<bv32>, out: ExecuteOutput, c: nat, loaded: bv32)
    requires ExecuteInstr(host, i, v, oldPc, pcPlus4, predicted, input) == Executed(out) && !out.end
    ensures Entered(i, out, c, loaded)
  {
    hide Alu, AluImm, IntCompare, ShiftOverflows, ImmShiftOverflows, ExecuteF, Plus, Address;
    if i.F? { FloatEntry(host, i.f, v, oldPc, predicted, c, loaded); }
  }

  lemma FloatEntry(host: Host, f: FInstr, v: Operands, oldPc: bv32, predicted: bool, c: nat, loaded: bv32)
    ensures Entered(F(f), ExecuteF(host, f, v, oldPc, predicted), c, loaded)
  {
    hide FloatOp, FloatUnary, FloatTest, FloatCompare, FloatZero, FloatLess, FromInteger, Plus, Address;
  }

  // ---- The queue after an instruction ----

  /** The youngest two slots after a passage, and a lower bound of its clocks: the first push pays
      for the latency that was waiting. */
  lemma AdvanceShape(p: Queue, i: Instr, e: Entry, flush: bool)
    ensures var a := Advance(p, i, e, flush);
            && a.stalls == StallCycles(p, i) && MaCycles(p[0]) <= a.cycles
            && (if flush then a.queue[0].None? && a.queue[1].None?
                else a.queue[0] == Some(e) && a.queue[1] == if a.stalls > 0 then None else p[0])
  {
    hide StallCycles;
    var k := StallCycles(p, i);
    BubblesShape(p, k);
    BubblesShape(Push(PushBubbles(p, k), Some(e)), 2);
  }

  lemma {:induction false} BubblesShape(p: Queue, k: nat)
    ensures k > 0 ==> PushBubbles(p, k)[0].None? && MaCycles(p[0]) <= BubbleCycles(p, k)
    ensures k > 1 ==> PushBubbles(p, k)[1].None?
  {
    if k > 1 { BubblesShape(p, k - 1); }
  }

  /** The clocks of the memory stage, with the cache's lines as they are. */
  ghost function MemoryClocks(lines: Cache.Lines, word: Option<nat>): nat
    requires word.Some? ==> word.value < 0x1_0000_0000
  {
    if word.None? || OnChip(word.value) then 1 else if Cache.Hits(lines, word.value) then 2 else 90
  }

  /** The cache statistics after an access. */
  ghost function Counted(c: CacheStat, lines: Cache.Lines, word: Option<nat>): CacheStat
    requires word.Some? ==> word.value < 0x1_0000_0000
  {
    if word.None? || OnChip(word.value) then c
    else if Cache.Hits(lines, word.value) then CacheStat(c.hits + 1, c.misses) else CacheStat(c.hits, c.misses + 1)
  }

  function LoggedWord(log: Log): Option<nat> { if log.access.Some? then Some(log.access.value.addr) else None }

  /** What a completed step of instruction i does to the timing state. */
  ghost predicate Passes(t: Timing, r: StepResult, i: Instr) {
    var word := LoggedWord(r.log);
    var q, q' := t.queue, r.state.timing.queue;
    && r.log.instr == Some(i) && r.log.exCycles == ExecuteClocks(i) && r.log.stalls == StallCycles(q, i)
    && (word.Some? ==> word.value < 0x1_0000_0000)
    && (word.Some? <==> IsLoad(i) || IsStore(i))
    && r.log.cached == (if word.Some? && !OnChip(word.value) then word else None)
    && MaCycles(q[0]) <= r.cycles
    && r.state.timing.cStat == Counted(t.cStat, t.lines, word)
    && (if r.log.flush then q'[0].None? && q'[1].None? && Delay(i, word) == 0 && word.None?
        else
          && q'[0].Some? && Describes(q'[0].value, i, word) && q'[0].value.maCycles == MemoryClocks(t.lines, word)
          && q'[1] == if r.log.stalls > 0 then None else q[0])
  }

  lemma BramIsOnChip(addr: nat)
    ensures UseBram(addr) <==> OnChip(addr)
  {
  }

  lemma AccessAddr(ma: MaInput)
    ensures AccessOf(ma).addr == ma.addr && (AccessOf(ma).Store? <==> ma.MaStore?)
  {
  }

  lemma FinishPasses(s: State, i: Instr, out: ExecuteOutput, c: nat, loaded: bv32, spy: SpyHit, log: Log)
    requires Valid(s.arch) && Entered(i, out, c, loaded)
    ensures var r := Finish(s, i, out, c, Written(out, loaded), spy, log); var q, q' := s.timing.queue, r.state.timing.queue;
            && r.log == log.(instr := Some(i), completed := true, exCycles := ExecuteClocks(i), stalls := StallCycles(q, i), jalr := r.log.jalr, flush := out.flush)
            && MaCycles(q[0]) <= r.cycles && r.state.timing == s.timing.(queue := q')
            && (if out.flush then q'[0].None? && q'[1].None?
                else
                  && q'[0].Some? && Describes(q'[0].value, i, AccessedWord(out)) && q'[0].value.maCycles == c
                  && q'[1] == if r.log.stalls > 0 then None else q[0])
  {
    hide Advance, SetReg, ReadyStage, StallCycles, IntDest, FloatDest, Delay, ExecuteClocks, WriteRegister, Written;
    AdvanceShape(s.timing.queue, i, EntryOf(out, c, ReadyStage(out), Written(out, loaded)), out.flush);
  }

  lemma PlainPasses(s: State, i: Instr, out: ExecuteOutput, log: Log)
    requires Valid(s.arch) && log.access.None? && log.cached.None? && out.maIn.None? && Entered(i, out, 1, 0)
    ensures Passes(s.timing, AfterExecute(s, i, out, log), i)
  {
    hide Finish, StallCycles, IntDest, FloatDest, Delay, ExecuteClocks, Describes, EntryOf, ReadyStage, IsLoad, IsStore;
    FinishPasses(s, i, out, 1, 0, NoSpy, log);
  }

  lemma AccessPasses(s: State, i: Instr, out: ExecuteOutput, log: Log, loaded: bv32)
    requires Valid(s.arch) && !log.completed && out.maIn.Some? && AfterExecute(s, i, out, log).log.completed
    requires Entered(i, out, MaCost(s.timing.lines, out.maIn.value.addr), loaded)
    requires var p := Perform(s.arch.mem, AccessOf(out.maIn.value)); p.reply.Loaded? ==> p.reply.typed.value == loaded
    ensures Passes(s.timing, AfterExecute(s, i, out, log), i)
  {
    hide AfterExecute, Perform, Finish, Cache.Hits, Cache.After, StallCycles, IntDest, FloatDest, Delay, ExecuteClocks, Describes;
    hide UseBram, OnChip, EntryOf, ReadyStage, IsLoad, IsStore, AccessOf;
    var ma := out.maIn.value;
    AccessWorked(s, i, out, log);
    BramIsOnChip(ma.addr);
    AccessAddr(ma);
    var p := Perform(s.arch.mem, AccessOf(ma));
    PerformReplies(s.arch.mem, AccessOf(ma));
    assert Reloaded(ma, p.reply) == Written(out, loaded);
    FinishPasses(Accessed(s, ma), i, out, MaCost(s.timing.lines, ma.addr), loaded, p.spied, AccessLog(log, ma));
  }

  lemma AccessWorked(s: State, i: Instr, out: ExecuteOutput, log: Log)
    requires Valid(s.arch) && !log.completed && out.maIn.Some? && AfterExecute(s, i, out, log).log.completed
    ensures var ma := out.maIn.value; var p := Perform(s.arch.mem, AccessOf(ma));
            && !p.reply.Failed? && Valid(Accessed(s, ma).arch)
            && AfterExecute(s, i, out, log) ==
               Finish(Accessed(s, ma), i, out, MaCost(s.timing.lines, ma.addr), Reloaded(ma, p.reply), p.spied, AccessLog(log, ma))
  {
    hide Perform, Finish, MaCost, Accessed, Reloaded, LinesAfter, AccessOf, UseBram;
    AccessedValid(s, out.maIn.value);
  }

  lemma DecodedPasses(host: Host, s: State, oldPc: bv32, i: Instr)
    requires Valid(s.arch) && AfterDecode(host, s, oldPc, i).log.completed
    ensures Passes(s.timing, AfterDecode(host, s, oldPc, i), i)
  {
    hide ExecuteInstr, RegFetch, AfterExecute, InputAfter, OutputAfter, BranchTaken, BP.Predict, TableAfter, StatAfter, Entered, MaCost, Perform, Passes;
    var v, ex := RegFetch(i, s.arch.regs, s.arch.fregs), ExecuteAt(host, s, oldPc, i);
    assert ex.Executed? && !ex.out.end;
    var predicted := BP.Predict(s.timing.table, s.arch.pc as int);
    var m, log := Resolved(s, i, v, ex.out.newPc), BranchLog(s.arch.pc, BranchTaken(i, v));
    if ex.out.maIn.None? {
      EntryDescribes(host, i, v, oldPc, s.arch.pc, predicted, s.arch.input, ex.out, 1, 0);
      PlainPasses(m, i, ex.out, log);
    } else {
      var ma := ex.out.maIn.value;
      var reply := Perform(s.arch.mem, AccessOf(ma)).reply;
      var loaded := if reply.Loaded? then reply.typed.value else 0;
      EntryDescribes(host, i, v, oldPc, s.arch.pc, predicted, s.arch.input, ex.out, MaCost(s.timing.lines, ma.addr), loaded);
      AccessPasses(m, i, ex.out, log, loaded);
    }
    SameTiming(s.timing, m.timing, AfterDecode(host, s, oldPc, i), i);
  }

  lemma SameTiming(t: Timing, u: Timing, r: StepResult, i: Instr)
    requires Passes(u, r, i) && u.queue == t.queue && u.lines == t.lines && u.cStat == t.cStat
    ensures Passes(t, r, i)
  {
    hide Describes, StallCycles, Delay, ExecuteClocks, IsLoad, IsStore, OnChip;
  }

  /** Every completed step: what it pushes, what it costs at least and what it counts. */
  lemma StepPasses(host: Host, s: State) returns (i: Instr)
    requires Valid(s.arch) && CpuStep(host, s).log.completed
    ensures Passes(s.timing, CpuStep(host, s), i)
  {
    hide AfterDecode, Fetch, Decode.Decode, Plus, Passes;
    var fetched := Fetch(s.arch.mem, s.arch.pc as int);
    assert fetched.Word? && Decode.Decode(fetched.bin).Ok?;
    i := Decode.Decode(fetched.bin).instr;
    DecodedPasses(host, s.(arch := s.arch.(pc := Plus(s.arch.pc, 4))), s.arch.pc, i);
  }

  // ---- Whole runs ----

  /** How long instruction j waits right behind a completed one. */
  function Need(p: Passed, j: Instr): nat { if Uses(j, p.instr) then Delay(p.instr, p.word) else 0 }

  /** The stalls of instruction k of a run: it waits for the one before it, and one clock less for
      the one before that, unless bubbles already separate them. */
  function ExpectedStalls(p: seq<Passed>, k: nat): nat
    requires k < |p|
  {
    Max(if k >= 1 then Need(p[k - 1], p[k].instr) else 0,
        if k >= 2 && p[k - 1].stalls == 0 && !p[k - 1].flush && Need(p[k - 2], p[k].instr) > 0 then Need(p[k - 2], p[k].instr) - 1 else 0)
  }

  /** The youngest two slots agree with the last two completed instructions. */
  ghost predicate QueueMatches(q: Queue, p: seq<Passed>) {
    var n := |p|;
    forall j: Instr ::
      && StallWithEx(q[0], j) == (if n >= 1 then Need(p[n - 1], j) else 0)
      && StallWithMa(q[1], j) == (if n >= 2 && p[n - 1].stalls == 0 && !p[n - 1].flush && Need(p[n - 2], j) > 0 then Need(p[n - 2], j) - 1 else 0)
  }

  lemma DescribedWait(e: Entry, i: Instr, word: Option<nat>, j: Instr)
    requires Describes(e, i, word)
    ensures StallWithEx(Some(e), j) == if Uses(j, i) then Delay(i, word) else 0
  {
    hide Reads, ReadsFloat, IntDest, FloatDest, Delay;
  }

  /** One slot further down, the wait is one clock shorter. */
  lemma WaitShrinks(slot: Option<Entry>, j: Instr)
    ensures StallWithMa(slot, j) == if StallWithEx(slot, j) > 0 then StallWithEx(slot, j) - 1 else 0
  {
    hide Hazard;
  }

  lemma PassedMatches(t: Timing, r: StepResult, i: Instr, p: seq<Passed>)
    requires Passes(t, r, i) && QueueMatches(t.queue, p) && r.log.completed
    ensures QueueMatches(r.state.timing.queue, p + [PassedBy(r.log).value])
  {
    hide StallCycles, Describes, Delay, ExecuteClocks, Uses, StallWithEx, StallWithMa, IsLoad, IsStore, OnChip, Cache.Hits;
    var q, q', entry := t.queue, r.state.timing.queue, PassedBy(r.log).value;
    forall j: Instr
      ensures StallWithEx(q'[0], j) == Need(entry, j)
      ensures StallWithMa(q'[1], j) == (if |p| >= 1 && entry.stalls == 0 && !entry.flush && Need(p[|p| - 1], j) > 0 then Need(p[|p| - 1], j) - 1 else 0)
    {
      NoWait(j);
      if !r.log.flush {
        DescribedWait(q'[0].value, i, LoggedWord(r.log), j);
        WaitShrinks(q[0], j);
      }
    }
  }

  lemma NoWait(j: Instr)
    ensures StallWithEx(None, j) == 0 && StallWithMa(None, j) == 0
  {
  }

  /** The run so far: the queue, and the stalls and execute clocks of every completed instruction. */
  ghost predicate Accounted(q: Queue, p: seq<Passed>) {
    && QueueMatches(q, p)
    && forall k :: 0 <= k < |p| ==> p[k].stalls == ExpectedStalls(p, k) && p[k].exCycles == ExecuteClocks(p[k].instr)
  }

  lemma AccountedNext(t: Timing, r: StepResult, i: Instr, p: seq<Passed>)
    requires Passes(t, r, i) && Accounted(t.queue, p) && r.log.completed
    ensures Accounted(r.state.timing.queue, p + [PassedBy(r.log).value])
  {
    hide Describes, Delay, ExecuteClocks, Uses, StallWithEx, StallWithMa, IsLoad, IsStore, OnChip, Cache.Hits, Need, QueueMatches;
    var e := p + [PassedBy(r.log).value];
    PassedMatches(t, r, i, p);
    NextStalls(t, r, i, p);
    forall k | 0 <= k < |e|
      ensures e[k].stalls == ExpectedStalls(e, k) && e[k].exCycles == ExecuteClocks(e[k].instr)
    {
      if k < |p| { assert e[k] == p[k] && ExpectedStalls(e, k) == ExpectedStalls(p, k); }
    }
  }

  lemma NextStalls(t: Timing, r: StepResult, i: Instr, p: seq<Passed>)
    requires Passes(t, r, i) && QueueMatches(t.queue, p) && r.log.completed
    ensures var e := p + [PassedBy(r.log).value]; e[|p|].stalls == ExpectedStalls(e, |p|) && e[|p|].exCycles == ExecuteClocks(e[|p|].instr)
  {
    hide Describes, Delay, ExecuteClocks, Uses, StallWithEx, StallWithMa, IsLoad, IsStore, OnChip, Cache.Hits, Need;
  }

  lemma FreshMatches()
    ensures Accounted(START_TIMING.queue, [])
  {
    hide Cache.Empty, BP.Fresh;
    forall j: Instr
      ensures StallWithEx(EMPTY[0], j) == 0 && StallWithMa(EMPTY[1], j) == 0
    {
      NoWait(j);
    }
  }

  lemma {:induction false} RunAccounted(host: Host, s: State, n: nat)
    requires Valid(s.arch) && s.timing == START_TIMING
    ensures var r := RunSteps(host, s, n); Accounted(r.state.timing.queue, r.history.passed)
  {
    hide CpuStep, Accounted, Passes, Live;
    if n == 0 {
      FreshMatches();
    } else {
      RunAccounted(host, s, n - 1);
      var p := RunSteps(host, s, n - 1);
      if !p.last.Fail? {
        RunBalanced(host, s, n - 1);
        StepAccounted(host, p.state);
        var r := CpuStep(host, p.state);
        if r.log.completed {
          var i := StepPasses(host, p.state);
          LoggedInstr(p.state.timing, r, i);
          AccountedNext(p.state.timing, r, i, p.history.passed);
        }
      }
    }
  }

  lemma LoggedInstr(t: Timing, r: StepResult, i: Instr)
    requires Passes(t, r, i)
    ensures r.log.instr == Some(i)
  {
  }

  /** Main result: in every run of a fresh CPU, each completed instruction stalls exactly as long as
      its two predecessors make it: two clocks behind a load from on-chip memory whose result it
      uses, one behind any other load or the floating-point unit, and one less at distance two. */
  lemma StallsExact(host: Host, s: State, n: nat, k: nat)
    requires Valid(s.arch) && s.timing == START_TIMING && k < |RunSteps(host, s, n).history.passed|
    ensures var p := RunSteps(host, s, n).history.passed;
            p[k].stalls == ExpectedStalls(p, k) && p[k].exCycles == ExecuteClocks(p[k].instr)
  {
    hide RunSteps, ExpectedStalls, ExecuteClocks, QueueMatches;
    RunAccounted(host, s, n);
  }

  // ---- Sums over the completed instructions ----

  function Sum(p: seq<Passed>, f: Passed -> nat): nat {
    if p == [] then 0 else Sum(p[..|p| - 1], f) + f(p[|p| - 1])
  }

  lemma SumAppend(p: seq<Passed>, x: Passed, f: Passed -> nat)
    ensures Sum(p + [x], f) == Sum(p, f) + f(x)
  {
    assert (p + [x])[..|p|] == p;
  }

  /** At least one clock each. */
  function ClocksOf(p: Passed): nat { Max(ExecuteClocks(p.instr), 1) }
  function StallsOf(p: Passed): nat { p.stalls }

  lemma CompletedIsPassed(host: Host, s: State)
    requires Valid(s.arch)
    ensures var log := CpuStep(host, s).log; (log.completed <==> log.instr.Some?) && (!log.completed ==> log.stalls == 0)
  {
    hide RegFetch, ExecuteInstr, BranchTaken, BP.Predict, TableAfter, StatAfter, InputAfter, OutputAfter, Fetch, Decode.Decode, Plus;
    hide Perform, Advance, EntryOf, ReadyStage, SetReg, UseBram, MaCost, CStatAfter, LoadedInto, LinesAfter;
  }

  /** The sums of the clock law are those over the completed instructions. */
  lemma {:induction false} RunSums(host: Host, s: State, n: nat)
    requires Valid(s.arch)
    ensures var h := RunSteps(host, s, n).history;
            h.completed == |h.passed| && h.exSum == Sum(h.passed, ClocksOf) && h.stalls == Sum(h.passed, StallsOf)
  {
    hide CpuStep, ExecuteClocks, Passes;
    if n > 0 {
      RunSums(host, s, n - 1);
      var p := RunSteps(host, s, n - 1);
      if !p.last.Fail? {
        var r := CpuStep(host, p.state);
        CompletedIsPassed(host, p.state);
        if r.log.completed {
          var i := StepPasses(host, p.state);
          LoggedClocks(p.state.timing, r, i);
          SumAppend(p.history.passed, PassedBy(r.log).value, ClocksOf);
          SumAppend(p.history.passed, PassedBy(r.log).value, StallsOf);
        }
      }
    }
  }

  lemma LoggedClocks(t: Timing, r: StepResult, i: Instr)
    requires Passes(t, r, i)
    ensures r.log.instr == Some(i) && r.log.exCycles == ExecuteClocks(i)
  {
  }

  // ---- Memory latency ----

  /** The memory clocks behind the cache statistics: 2 for a hit, 90 for a miss. */
  function Latencies(c: CacheStat): nat { 2 * c.hits + 90 * c.misses }

  lemma StepCharges(t: Timing, r: StepResult, i: Instr)
    requires Passes(t, r, i)
    ensures Latencies(r.state.timing.cStat) + MaCycles(t.queue[0]) <= Latencies(t.cStat) + r.cycles + MaCycles(r.state.timing.queue[0])
  {
    hide Describes, Delay, ExecuteClocks, StallCycles, IsLoad, IsStore, OnChip, Cache.Hits;
  }

  /** Main result: in every run of a fresh CPU every memory latency is charged at least once, except
      that of the youngest instruction, which the next push will charge. */
  lemma {:induction false} LatencyIsCharged(host: Host, s: State, n: nat)
    requires Valid(s.arch) && s.timing == START_TIMING
    ensures var r := RunSteps(host, s, n);
            2 * r.state.timing.cStat.hits + 90 * r.state.timing.cStat.misses <= r.clocks + MaCycles(r.state.timing.queue[0])
  {
    hide CpuStep, Passes, Live, Cache.Empty, BP.Fresh;
    if n > 0 {
      LatencyIsCharged(host, s, n - 1);
      var p := RunSteps(host, s, n - 1);
      if !p.last.Fail? {
        RunBalanced(host, s, n - 1);
        StepAccounted(host, p.state);
        var r := CpuStep(host, p.state);
        if r.log.completed {
          var i := StepPasses(host, p.state);
          StepCharges(p.state.timing, r, i);
        }
      }
    }
  }

  /** Every access off the chip goes through the cache, failed ones included, and no other. */
  lemma StepCached(host: Host, s: State)
    requires Valid(s.arch)
    ensures var log := CpuStep(host, s).log;
            log.cached == if log.access.Some? && !OnChip(log.access.value.addr) then Some(log.access.value.addr) else None
  {
    hide RegFetch, ExecuteInstr, AfterExecute, BranchTaken, BP.Predict, TableAfter, StatAfter, InputAfter, OutputAfter, Fetch, Decode.Decode, Plus, OnChip;
    forall m: State, i: Instr, out: ExecuteOutput, log: Log | Valid(m.arch) && log.access.None? && log.cached.None?
      ensures CachedAccess(AfterExecute(m, i, out, log).log)
    {
      AfterExecuteCached(m, i, out, log);
    }
  }

  ghost predicate CachedAccess(log: Log) {
    log.cached == if log.access.Some? && !OnChip(log.access.value.addr) then Some(log.access.value.addr) else None
  }

  lemma AfterExecuteCached(s: State, i: Instr, out: ExecuteOutput, log: Log)
    requires Valid(s.arch) && log.access.None? && log.cached.None?
    ensures CachedAccess(AfterExecute(s, i, out, log).log)
  {
    hide Perform, Finish, MaCost, Accessed, Reloaded, LinesAfter, UseBram, OnChip, AccessOf;
    if out.maIn.None? {
      FinishLogged(s, i, out, 1, out.wbIn, NoSpy, log);
    } else {
      var ma := out.maIn.value;
      BramIsOnChip(ma.addr);
      AccessAddr(ma);
      var p := Perform(s.arch.mem, AccessOf(ma));
      AccessedValid(s, ma);
      FinishLogged(Accessed(s, ma), i, out, MaCost(s.timing.lines, ma.addr), Reloaded(ma, p.reply), p.spied, AccessLog(log, ma));
    }
  }

  function OffChip(h: seq<Access>): seq<nat> {
    if h == [] then []
    else OffChip(h[..|h| - 1]) + if OnChip(h[|h| - 1].addr) then [] else [h[|h| - 1].addr]
  }

  lemma {:induction false} RunCached(host: Host, s: State, n: nat)
    requires Valid(s.arch)
    ensures var h := RunSteps(host, s, n).history; h.cached == OffChip(h.accesses)
  {
    hide CpuStep, OnChip;
    if n > 0 {
      RunCached(host, s, n - 1);
      var p := RunSteps(host, s, n - 1);
      if !p.last.Fail? {
        StepCached(host, p.state);
        var x := CpuStep(host, p.state).log.access;
        if x.Some? { assert (p.history.accesses + [x.value])[..|p.history.accesses|] == p.history.accesses; }
      }
    }
  }

  /** The last word accessed through the cache line of a word: four words a block, 16384 lines. */
  function LastThrough(h: seq<nat>, word: nat): Option<nat> {
    if h == [] then None
    else if h[|h| - 1] / 4 % 16384 == word / 4 % 16384 then Some(h[|h| - 1])
    else LastThrough(h[..|h| - 1], word)
  }

  /** The memory clocks of a word after a history of accesses, by the numbers. */
  function ClocksFor(h: seq<nat>, word: nat): nat {
    if word < 16384 || word >= 249744 then 1
    else if LastThrough(h, word).Some? then if LastThrough(h, word).value / 4 == word / 4 then 2 else 90
    else if word < 65536 then 2
    else 90
  }

  lemma {:induction false} LastThroughIs(h: seq<Cache.Addr>, word: Cache.Addr)
    ensures Cache.LastBlock(h, Cache.Line(word, 16384), 16384) ==
            if LastThrough(h, word).Some? then Some(LastThrough(h, word).value / 4) else None
  {
    if h != [] { LastThroughIs(h[..|h| - 1], word); }
  }

  lemma TagZero(word: Cache.Addr)
    ensures Cache.Tag(word, 16384) == 0 <==> word < 65536
  {
  }

  /** Main result: in every reachable state of a fresh CPU, the memory stage of the next access takes
      the clocks that the run's accesses imply. */
  lemma ReachableLatency(host: Host, s: State, n: nat)
    requires Valid(s.arch) && s.timing == START_TIMING && !RunSteps(host, s, n).last.Fail?
    requires var log := CpuStep(host, RunSteps(host, s, n).state).log; log.completed && log.access.Some?
    ensures var r, q := RunSteps(host, s, n), RunSteps(host, s, n + 1).state.timing.queue;
            && q[0].Some?
            && q[0].value.maCycles == ClocksFor(OffChip(r.history.accesses), CpuStep(host, r.state).log.access.value.addr)
  {
    hide CpuStep, OnChip, OffChip, LastThrough, Cache.Hits, Cache.Tag, Cache.Line, Cache.Block, Cache.LastBlock, Cache.Empty, BP.Fresh, Describes;
    var r := RunSteps(host, s, n);
    var step := CpuStep(host, r.state);
    var i := StepPasses(host, r.state);
    RunCached(host, s, n);
    var word := step.log.access.value.addr;
    ReachableHit(host, s, n, word);
    LastThroughIs(r.history.cached, word);
    TagZero(word);
    OnChipIs(word);
    BlockIs(word);
  }

  lemma OnChipIs(word: nat)
    ensures OnChip(word) <==> word < 16384 || word >= 249744
  {
  }

  lemma BlockIs(word: Cache.Addr)
    ensures Cache.Block(word) == word / 4
  {
  }
}
