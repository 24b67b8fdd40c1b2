/** The five-slot pipeline queue of the timing model: hazards, stall bubbles and the clocks charged
    when something is pushed (core_sim/src/cpu.rs, calc_stall_cycles and
    push_instr_to_pipeline_and_get_cycles). */
module Pipeline {
  import opened Wrappers
  import opened Instr

  datatype Stage = InstrFetch | InstrDecode | Execute | MemoryAccess | WriteBack

  datatype Entry = Entry(exCycles: nat, maCycles: nat, ready: Option<Stage>, writeBack: Option<RegId>, floatWriteBack: Option<RegId>)

  /** The queue, youngest instruction first; None is a bubble. */
  type Queue = p: seq<Option<Entry>> | |p| == 5 witness [None, None, None, None, None]

  const EMPTY: Queue := [None, None, None, None, None]

  /** `regid_is_included_in_srcs`. */
  predicate Reads(instr: Instr, r: RegId) {
    match instr
    case R(_, _, rs1, rs2) => rs1 == r || rs2 == r
    case I(_, _, rs1, _) => rs1 == r
    case Sw(rs1, rs2, _) => rs1 == r || rs2 == r
    case B(_, rs1, rs2, _) => rs1 == r || rs2 == r
    case IO(Outb(rs)) => rs == r
    case F(Fitof(_, rs1)) => rs1 == r
    case F(Flw(_, rs1, _)) => rs1 == r
    case F(Fsw(_, rs1, _)) => rs1 == r
    case _ => false
  }

  /** `fregid_is_included_in_srcs`. */
  predicate ReadsFloat(instr: Instr, r: RegId) {
    match instr
    case F(E(_, _, frs1, frs2)) => frs1 == r || frs2 == r
    case F(H(_, _, frs1)) => frs1 == r
    case F(Flt(_, frs1, frs2)) => frs1 == r || frs2 == r
    case F(Y(_, _, frs1)) => frs1 == r
    case F(W(_, frs1, frs2, _)) => frs1 == r || frs2 == r
    case F(V(_, frs1, _)) => frs1 == r
    case F(Fsw(frs2, _, _)) => frs2 == r
    case _ => false
  }

  predicate Hazard(e: Entry, instr: Instr) {
    || (e.writeBack.Some? && Reads(instr, e.writeBack.value))
    || (e.floatWriteBack.Some? && ReadsFloat(instr, e.floatWriteBack.value))
  }

  /** Stalls forced by the instruction in the execute slot. */
  function StallWithEx(slot: Option<Entry>, instr: Instr): nat {
    if slot.Some? && slot.value.ready.Some? && Hazard(slot.value, instr) then
      match slot.value.ready.value
      case WriteBack => 2
      case MemoryAccess => 1
      case _ => 0
    else 0
  }

  /** Stalls forced by the instruction in the memory slot. */
  function StallWithMa(slot: Option<Entry>, instr: Instr): nat {
    if slot.Some? && slot.value.ready == Some(WriteBack) && Hazard(slot.value, instr) then 1 else 0
  }

  function Max(a: nat, b: nat): nat { if a < b then b else a }

  /** `calc_stall_cycles`. */
  function StallCycles(p: Queue, instr: Instr): nat {
    Max(StallWithEx(p[0], instr), StallWithMa(p[1], instr))
  }

  function ExCycles(x: Option<Entry>): nat { if x.Some? then x.value.exCycles else 1 }
  function MaCycles(x: Option<Entry>): nat { if x.Some? then x.value.maCycles else 1 }

  /** `push_instr_to_pipeline_and_get_cycles`: the new queue and the clocks charged. */
  function Push(p: Queue, x: Option<Entry>): Queue { [x] + p[..4] }
  function PushCycles(p: Queue, x: Option<Entry>): nat { Max(ExCycles(x), MaCycles(p[0])) }

  function PushBubbles(p: Queue, k: nat): Queue { if k == 0 then p else Push(PushBubbles(p, k - 1), None) }
  function BubbleCycles(p: Queue, k: nat): nat {
    if k == 0 then 0 else BubbleCycles(p, k - 1) + PushCycles(PushBubbles(p, k - 1), None)
  }

  /** Main result: the stall count is the least sufficient one. After k bubbles the remaining count
      is the old one less k, for every queue and every instruction. */
  lemma StallsAfterBubbles(p: Queue, instr: Instr, k: nat)
    ensures StallCycles(PushBubbles(p, k), instr) == if k <= StallCycles(p, instr) then StallCycles(p, instr) - k else 0
  {
    hide Hazard;
  }

  /** Bubbles until a result of the given stage, `slot` places down the queue, can be forwarded. */
  function Wait(x: Option<Entry>, slot: nat, instr: Instr): nat {
    if x.Some? && x.value.ready.Some? && Hazard(x.value, instr) && Depth(x.value.ready.value) > slot
    then Depth(x.value.ready.value) - slot
    else 0
  }

  /** The first slot from which a result is forwarded. */
  function Depth(s: Stage): nat { match s case MemoryAccess => 1 case WriteBack => 2 case _ => 0 }

  /** Main result: the stall count is the longest wait for any operand still in the queue. */
  lemma StallsAreLongestWait(p: Queue, instr: Instr) returns (slot: nat)
    ensures forall j :: 0 <= j < 5 ==> Wait(p[j], j, instr) <= StallCycles(p, instr)
    ensures slot < 5 && Wait(p[slot], slot, instr) == StallCycles(p, instr)
  {
    hide Hazard;
    slot := if StallWithEx(p[0], instr) >= StallWithMa(p[1], instr) then 0 else 1;
  }

  // ---- One instruction's passage ----

  datatype Passage = Passage(queue: Queue, cycles: nat, stalls: nat)

  /** Stall bubbles, the instruction itself, and two more bubbles on a flush. */
  function Advance(p: Queue, instr: Instr, e: Entry, flush: bool): Passage {
    var k := StallCycles(p, instr);
    var q := PushBubbles(p, k);
    var q' := Push(q, Some(e));
    var c := BubbleCycles(p, k) + PushCycles(q, Some(e));
    if flush then Passage(PushBubbles(q', 2), c + BubbleCycles(q', 2), k) else Passage(q', c, k)
  }

  /** Every memory latency in flight is at least one clock. */
  predicate Live(p: Queue) { forall i :: 0 <= i < 5 ==> MaCycles(p[i]) >= 1 }

  /** Latency of the youngest instruction that no push has charged yet. */
  function Uncharged(p: Queue): nat
    requires Live(p)
  {
    MaCycles(p[0]) - 1
  }

  /** A push costs at least its own execute cycles, and at most these plus what was uncharged. */
  lemma PushCost(p: Queue, x: Option<Entry>)
    requires Live(p) && MaCycles(x) >= 1
    ensures Live(Push(p, x)) && Uncharged(Push(p, x)) == MaCycles(x) - 1
    ensures Max(ExCycles(x), 1) <= PushCycles(p, x) <= Max(ExCycles(x), 1) + Uncharged(p)
  {
  }

  lemma {:induction false} BubblesCost(p: Queue, k: nat)
    requires Live(p)
    ensures Live(PushBubbles(p, k))
    ensures k <= BubbleCycles(p, k)
    ensures BubbleCycles(p, k) + Uncharged(PushBubbles(p, k)) <= k + Uncharged(p)
  {
    hide Live;
    if k > 0 {
      BubblesCost(p, k - 1);
      PushCost(PushBubbles(p, k - 1), None);
    }
  }

  /** The clocks of one instruction, with each latency charged at most once. */
  lemma AdvanceCost(p: Queue, instr: Instr, e: Entry, flush: bool)
    requires Live(p) && e.maCycles >= 1
    ensures var a := Advance(p, instr, e, flush);
            var base := Max(e.exCycles, 1) + a.stalls + if flush then 2 else 0;
            && Live(a.queue) && base <= a.cycles
            && a.cycles + Uncharged(a.queue) <= base + Uncharged(p) + (e.maCycles - 1)
  {
    hide Live, StallCycles, PushCycles;
    var k := StallCycles(p, instr);
    BubblesCost(p, k);
    PushCost(PushBubbles(p, k), Some(e));
    if flush { BubblesCost(Push(PushBubbles(p, k), Some(e)), 2); }
  }
}
