# Verified model of the core simulator and its FPU emulator

The repository simulates a small RISC-V-like core in Rust (`core_sim`) and emulates its
floating-point unit bit by bit in C (`fpu/impl`). This project models both in Dafny and proves what
they are for: exactly where the hand-made float arithmetic is as accurate as intended, that the timing model
never disturbs the program being simulated and accounts for every clock, that typed memory is sound
over whole runs, that decoding inverts encoding, and that run control composes.

`dafny verify dfyconfig.toml` checks everything.

## How it is organised

* **Floating point** (`FpuLib`, `Floats`, `FMul`, `Criterion`, `Convert`, `IntToFloat`, `FFloor`,
  `Approximation`). Words are integers below 2^32. A finite float is worth an integer number of units
  of 2^-149 (`Floats.Units`), so every statement about accuracy is one about integers.
* **Instructions** (`Bin`, `Instr`, `Decode`; `Decode2nd` for the second instruction set), and what
  32-bit words and their operations mean as integers (`BitVectors`).
* **State of the machine** (`Memory` with the runtime types, `RegFile`, `BranchPredictor`, `Cache`,
  `Pipeline`): classes whose methods update fields in place, each proved against a function on values,
  and the laws of those functions over every history.
* **The CPU**. `Isa` is a plain interpreter with no timing state; `Meaning` and `StepMeaning` say what
  it does to the integers in the registers, instruction by instruction. `Stages` is one step of the
  simulator on values, stage by stage. `Cpu` is the object whose `CycleOneFull` performs that step in
  place, with the stall loop. `Boot` is the state after loading an image. `Runs` lifts everything to
  runs of any length; `Passages` gives the stalls and latencies of a run by the numbers, and
  `Reachable` the meaning of its steps and the cost of its branches. `SpySteps` shows that memory
  watches disturb nothing.
* **Run control** (`Sim`): modes, breakpoints, the sticky fatal error, and sessions of any number of
  calls with edits of the memory watches between them.

## What the code does, where one might expect otherwise

* `fmul` with a zero operand keeps the exponent, so the product with zero is zero exactly when the
  other operand is below `0x3FFFFFFF` in magnitude (`FMul.ZeroOperand`). It flushes overflow to zero,
  which is what limits monotonicity; `FMul.FMulMonotone` gives the exact condition, and
  `FMul.FMulOverflowShrinks` an input.
* `fmul` does not meet the bound of its own test everywhere: where the exponent fields add up to 127
  and the sum does not carry, it returns zero although the product may round to 2^-126. For every
  rounded product that the test looks at, `Criterion.FMulMeetsCriterion` shows that this is the only
  exception, and `Criterion.CriterionFails` gives an input.
* `fcvtws` returns 0 from 2^31 on (`Convert.FCvtWSRounds` is an if-and-only-if), so the round trip of
  conversions holds exactly below 2^31-64 (`IntToFloat.RoundTripFixpoint`).
* `Sra` is a logical shift: it is the arithmetic one exactly on words without a sign bit and for
  shifts by zero (`Isa.SraIsArithmetic`).
* I-type instructions carry 0 execute cycles; the model follows. A queue slot therefore costs `max(ex_cycles, 1)` at least, as in `Runs.ClockConservation`.
* `Slti` exists as an instruction but is never decoded; it is the one instruction excluded from the
  encoder besides out-of-range immediates, and `Decode.DecodeInRange` shows that nothing else is.
* A second call that starts on a breakpoint executes it, so stepping m and then n instructions equals
  stepping m+n exactly when the boundary is no breakpoint or a count is zero (`Sim.StepsCompose`).

## Model

| member | source | states |
|---|---|---|
| FpuLib.SliceField | fpu/impl/fpulib.c:4-6 | the two shifts of `slice`, high bits lost, cut out exactly the bit field from `right` to `left` |
| Floats.MkFloatFields | fpu/impl/fpulib.c:9-11 | `mkfloat` on in-range parts has these parts as its sign, exponent and mantissa fields |
| Floats.KeyOrder | fpu/impl/ffloor.c:19 | comparing encodings is comparing values, for all finite floats |
| Floats.UnitsInjective | fpu/impl/fpulib.c:9-11 | a nonzero value has one encoding |
| FMul.SumRange | fpu/impl/fmul.c:29-33 | the sum `mm` computed with 32-bit wrap-around is the true sum and fits in 26 bits, for all inputs |
| FMul.Closed | fpu/impl/fmul.c:16-54 | fields of the result for every pair of words: sign rule, exponent with carry and flush, mantissa |
| FMul.KeptError | fpu/impl/fmul.c:22-51 | with the low product and two fractions dropped, the kept significand is within one unit of the exact product and within a 2^-23 part of it |
| FMul.FMulAccurate | fpu/impl/fmul.c:16-54 | for normal operands and a normal result exponent: right sign and exponent, error at most one unit in the last place and at most a 2^-23 part of the exact product |
| Criterion.FMulMeetsCriterion | fpu/test/fmul.c:41-46 | the test's bound with its own guard: for all normal operands and every correctly rounded product with exponent field 1 to 253, the difference is below a 2^-22 part of it or below 2^-126, if and only if the operands' exponent fields do not add up to 127 without a carry |
| Criterion.CriterionFails | fpu/test/fmul.c:41-46 | an input on which it fails: zero is returned for a product that rounds to 2^-126 |
| Criterion.SmallExponents | fpu/test/fmul.c:43-45 | a product whose exponent fields add up to less than 127 rounds to a subnormal, which the guard leaves out |
| Criterion.RelativeHalfUnit | fpu/test/fmul.c:39 | a correctly rounded product is off by at most a 2^-24 part of itself, also at the smallest normal |
| FMul.FMulMonotone | fpu/impl/fmul.c:20-51 | growing one operand never shrinks the result, if and only if the larger product does not overflow or the smaller one is flushed too |
| FMul.FMulOverflowShrinks | fpu/impl/fmul.c:20-51 | an input on which it fails: 2^127 times 4.0 is less than 2^127 times 1.0 |
| FMul.FMulMonotoneInRange | fpu/impl/fmul.c:20-51 | monotone in both operands as long as the exponent fields add up to at most 381 |
| FMul.FMulCommutes | fpu/impl/fmul.c:29-37 | commutative bit for bit, for all words |
| FMul.ZeroOperand | fpu/impl/fmul.c:38-51 | zero annihilates exactly the operands below `0x3FFFFFFF` in magnitude |
| Convert.ConvertIntToFloat | fpu/impl/fcvtsw.c:11-48 | the downward search for the leading one, and what follows it, compute `FCvtSW` for every 32-bit integer |
| Convert.FCvtWSIs | fpu/impl/fcvtws.c:40-47 | the two's complement step negates the rounded magnitude, and nothing overflows |
| Convert.FCvtWSRounds | fpu/impl/fcvtws.c:14-47 | `fcvtws` rounds half away from zero exactly when the exponent field is at most 157, and is 0 above |
| IntToFloat.FCvtSWIs | fpu/impl/fcvtsw.c:18-45 | sign, exponent and value after rounding, with the carry into the exponent, for every nonzero integer |
| IntToFloat.FCvtSWNearest | fpu/impl/fcvtsw.c:18-45 | no finite float is nearer to n, and ties go away from zero, for all 32-bit n |
| IntToFloat.FCvtSWExact | fpu/impl/fcvtsw.c:27-45 | an integer that is the value of some float is converted to that value |
| IntToFloat.FCvtSWExactSmall | fpu/impl/fcvtsw.c:27-45 | exact up to 2^24 |
| IntToFloat.ExpBound | fpu/impl/fcvtsw.c:35-41 | the result stays in the range of `fcvtws` exactly below 2^31-64 |
| IntToFloat.RoundTripSmall | fpu/impl/fcvtws.c:14-47 | converting to float and back is the identity up to 2^24 |
| IntToFloat.RoundTripFixpoint | fpu/impl/fcvtsw.c:27-45 | a second round trip changes no bit, if and only if n is below 2^31-64 in magnitude |
| FFloor.InnerExact | fpu/impl/ffloor.c:17-18 | the inner `fcvtsw` is exact on every result of the inner `fcvtws` |
| FFloor.FFloorIsFloor | fpu/impl/ffloor.c:8-24 | the result is the mathematical floor of every finite float |
| FFloor.FaithfulExists | fpu/impl/ffloor.c:22 | there is a narrowing that keeps every value which is a float |
| Approximation.SegmentRange | fpu/impl/fdiv.c:26-27 | the segment index holds the divisor's mantissa |
| Approximation.ReciprocalLine | fpu/impl/fdiv.c:25-35 | over the reals, the divisor lies in its segment and the line times the divisor is within 2^-23 of one, for all mantissas |
| Approximation.SegmentBits | fpu/impl/fsqrt.c:23-29 | the flipped-parity index: parity bit of the exponent, then the top nine mantissa bits |
| Approximation.WrappedExp | fpu/impl/fsqrt.c:52-61 | unsigned wrapped halving and `mkfloat` give floor((e+127)/2), also below 127 |
| Approximation.SpecialExp | fpu/impl/fsqrt.c:53-54 | zeros, subnormals, infinities and NaNs get exponent field 0, with their own sign |
| Approximation.SqrtReduction | fpu/impl/fsqrt.c:23-61 | reduction is exact (mn times 4^(ey-127) is x) and mn lies in the segment of its index, for all positive normal inputs |
| Decode.DecodeEncode | core_sim/src/decode_instr.rs:13-324 | decoding inverts the encoder for every instruction, all registers and all in-range immediates |
| Decode.DecodeInRange | core_sim/src/decode_instr.rs:13-324 | every word that decodes gives an instruction of the encoder's domain |
| Decode2nd.DecodeEncode | core_sim/src/decode_instr_2nd.rs:13-343 | the same for the second instruction set: 64 registers, offsets that are multiples of four, six-bit compare immediates |
| Decode2nd.DecodeInRange | core_sim/src/decode_instr_2nd.rs:13-343 | every word that decodes gives an instruction of that encoder's domain |
| Decode2nd.Imm24 | core_sim/src/decode_instr_2nd.rs:335-343 | `compose_6` puts the five scattered pieces of a jump offset together again |
| Types.TyIsPartialOrder | core_sim/src/ty.rs:31-55 | the comparison is a partial order: `Unknown` is below everything, `I32OrUsize` below `I32` and `Usize`, and nothing else is comparable |
| Memory.FromLeMeaning | core_sim/src/memory.rs:185-189 | four bytes are read as a number, least significant first |
| Memory.LittleEndian | core_sim/src/memory.rs:217-261 | reading back the four bytes of a stored word gives the word |
| Memory.Memory.constructor | core_sim/src/memory.rs:117-129 | fresh memory: filler bytes, unknown types, no text, no spies |
| Memory.Memory.InitFromSlice | core_sim/src/memory.rs:130-134 | the image replaces a prefix, and the text range is set; an image that does not fit is refused |
| Memory.Memory.AddSpy | core_sim/src/memory.rs:135-142 | watches an address for reads, writes or both; a new watch replaces the old one |
| Memory.Memory.RemoveSpy | core_sim/src/memory.rs:143-150 | stops watching an address for reads, writes or both, and keeps all other watches |
| Memory.Memory.Get | core_sim/src/memory.rs:191-232 | bounds check, type unification with refinement in place, spy and value, as the function on values |
| Memory.Memory.GetFromPc | core_sim/src/memory.rs:217-224 | instruction fetch: only from the text, errors as the function on values |
| Memory.Memory.Set | core_sim/src/memory.rs:234-261 | bounds check with write protection, new bytes, type and spy, as the function on values |
| Memory.PerformWellFormed | core_sim/src/memory.rs:80-113 | an access keeps the memory well formed, its size, text range and spies |
| Memory.HistoryWord | core_sim/src/memory.rs:191-261 | after every history of accesses, bytes and type of a word are those a last-store reference gives |
| Memory.AccessAfterHistory | core_sim/src/memory.rs:191-261 | after every history, a load succeeds exactly on data words (inside the memory, outside the text) of the class of the last store (or first load) and returns the last value stored or the initial bytes; a store succeeds exactly on data words |
| Memory.SpyAfterHistory | core_sim/src/memory.rs:151-183 | after every history, exactly the watched accesses that work are reported, with their watch, and stores with the last value stored there and the new one |
| Memory.OneClassBetweenStores | core_sim/src/memory.rs:191-261 | between two stores to a word all successful loads are of one class, the store's class after a store |
| Memory.LoadsRefineTypes | core_sim/src/memory.rs:191-232 | loads change no byte and only move types upward |
| Memory.TextIsProtected | core_sim/src/memory.rs:80-89 | after every history, a fetch returns what it returned at the start |
| RegFile.RegFile.constructor | core_sim/src/reg_file.rs:34-45 | all registers zero |
| RegFile.RegFile.Get | core_sim/src/reg_file.rs:46-50 | the register's value |
| RegFile.RegFile.GetF | core_sim/src/reg_file.rs:51-55 | the register's value |
| RegFile.RegFile.Set | core_sim/src/reg_file.rs:62-73 | writes one register, keeps all others, ignores register 0, which stays zero |
| RegFile.RegFile.SetF | core_sim/src/reg_file.rs:74-80 | the same for floating-point registers |
| RegFile.RegFile.SetSp | core_sim/src/reg_file.rs:56-58 | writes register 2 only |
| RegFile.RegFile.SetHp | core_sim/src/reg_file.rs:59-61 | writes register 4 only |
| BranchPredictor.BranchPredictor.PredictAt | core_sim/src/branch_predictor.rs:42-47 | the prediction of the slot that the address shares |
| BranchPredictor.BranchPredictor.UpdateState | core_sim/src/branch_predictor.rs:48-55 | one saturating step in that slot, all others kept |
| BranchPredictor.PredictsByLevel | core_sim/src/branch_predictor.rs:11-55 | after every history, an address is predicted taken exactly when a counter from 0 to 3, started at 2 and moved by the branches that share its slot, is at least 2 |
| BranchPredictor.StatisticsCount | core_sim/src/cpu.rs:346-358 | the statistics count the taken branches, the others, and those that went against their counter |
| BranchPredictor.StepPaid | core_sim/src/branch_predictor.rs:11-55 | every branch keeps the potential: mispredictions are paid for by outcomes and counters, summed over slots |
| BranchPredictor.MispredictionBound | core_sim/src/branch_predictor.rs:11-55 | for every branch sequence and any aliasing, mispredictions are at most twice the untaken branches, and at most twice the taken ones plus the number of slots |
| BranchPredictor.FirstBoundTight | core_sim/src/branch_predictor.rs:11-55 | an alternating branch reaches the first bound |
| BranchPredictor.SecondBoundTight | core_sim/src/branch_predictor.rs:11-55 | one untaken branch per slot reaches the additive term |
| Cache.Cache.AccessCache | core_sim/src/cache.rs:13-22 | hit or miss, and the line's tag after it, as the function on values |
| Cache.StoredTag | core_sim/src/cache.rs:7-22 | after every history a line holds the tag of the last block accessed through it |
| Cache.HitsLatestBlock | core_sim/src/cache.rs:7-22 | after every history an access hits exactly when the latest access through its line was to the same block, or there was none and the tag is 0 |
| Pipeline.StallsAfterBubbles | core_sim/src/cpu.rs:1215-1398 | after k bubbles the stall count is the old one less k, down to 0, for every instruction and queue |
| Pipeline.StallsAreLongestWait | core_sim/src/cpu.rs:1215-1398 | the stall count is the longest time that any operand in the five slots still needs |
| Pipeline.PushCost | core_sim/src/cpu.rs:1401-1416 | a push costs its execute clocks at least, and at most these plus the latency of the youngest instruction, which it uses up |
| Pipeline.AdvanceCost | core_sim/src/cpu.rs:1492-1518 | the clocks of one instruction with its stall and flush bubbles, each memory latency charged at most once |
| Passages.ReadsMeaning | core_sim/src/cpu.rs:1216-1278 | the integer sources of an instruction are exactly the registers whose replacement can change its operands |
| Passages.ReadsFloatMeaning | core_sim/src/cpu.rs:1279-1343 | the same for its floating-point sources |
| Passages.StepPasses | core_sim/src/cpu.rs:1459-1518 | every completed step: its queue entry (destination, delay, execute and memory clocks), the two youngest slots, its statistics, and that it pays for the latency before it, all by the numbers |
| Passages.StallsExact | core_sim/src/cpu.rs:1345-1398 | in every run of a fresh CPU, each completed instruction stalls exactly as its two predecessors require: 2 behind a load from words below 16384 or from 249744 on, 1 behind another load or the floating-point unit, one less at distance two unless bubbles separate them, else 0; and its execute clocks |
| Passages.RunSums | core_sim/src/cpu.rs:1492-1518 | the sums of the clock law are those over the completed instructions, with the execute clocks of each |
| Passages.LatencyIsCharged | core_sim/src/cpu.rs:1401-1416 | in every run of a fresh CPU, 2 hits + 90 misses <= clocks + the latency of the youngest instruction |
| Passages.RunCached | core_sim/src/cpu.rs:1110-1185 | exactly the accesses to words from 16384 to 249743 go through the cache, failing ones included |
| Passages.ReachableLatency | core_sim/src/cpu.rs:1186-1198 | in every reachable state of a fresh CPU, an access takes 1 clock on the chip, else 2 or 90 by the last access through its line of 16384, four words a block |
| Meaning.AluMeaning | core_sim/src/cpu.rs:672-681 | sums and differences modulo 2^32, shifts as multiplication and division by powers of two, signed comparison, and, or and exclusive or bit by bit |
| Meaning.AluImmMeaning | core_sim/src/cpu.rs:702-712 | the operations with an immediate are those on registers |
| Meaning.CompareMeaning | core_sim/src/cpu.rs:756-760 | equality, and the comparison of two's complement values |
| Meaning.OffsetMeaning | core_sim/src/cpu.rs:715-725 | addresses and targets are base plus signed offset modulo 2^32 |
| Meaning.FloatOpMeaning | core_sim/src/cpu.rs:887-895 | products are those of `fmul`, sign injections keep the magnitude and take the sign |
| Meaning.UnaryMeaning | core_sim/src/cpu.rs:944-953 | halving is a product with 0.5, floor is `ffloor` |
| Meaning.ConvertMeaning | core_sim/src/cpu.rs:992-1020 | conversions of the two's complement values |
| Meaning.TestMeaning | core_sim/src/cpu.rs:1004-1009 | the tests on sign and magnitude, false on NaNs |
| Meaning.FiniteTests | core_sim/src/cpu.rs:973-1050 | on finite floats, comparisons and tests are those of the values |
| StepMeaning.IsaMeaning | core_sim/src/cpu.rs:647-1109 | what every instruction does to the integers in the registers: the result in its destination and no other register, the program counter, memory, input and output, and when it fails |
| Reachable.RunMeaning | core_sim/src/cpu.rs:1417-1519 | the same for every step of every run of the CPU |
| Reachable.ReachablePrediction | core_sim/src/branch_predictor.rs:42-55 | in every reachable state of a fresh CPU, predictions follow the counters of the run's branches, 64 slots |
| Reachable.ReachableFlush | core_sim/src/cpu.rs:771-785 | in every run of a fresh CPU, a step flushes exactly when it is a branch whose outcome, from the numbers in its registers, goes against its counter, or a jalr |
| Isa.SraIsArithmetic | core_sim/src/cpu.rs:679 | `Sra` is the arithmetic shift exactly on words without a sign bit and for shifts by zero |
| Isa.SraOfNegative | core_sim/src/cpu.rs:679 | an input on which it is not: -2 shifted by 1 |
| Stages.StepRefinesIsa | core_sim/src/cpu.rs:1417-1519 | one step through the stages has the architectural effect and outcome of the plain interpreter, failures and panics included |
| Cpu.Cpu.constructor | core_sim/src/cpu.rs:182-214 | a CPU loaded with an image is in the start state, all parts fresh |
| Cpu.Cpu.Load | core_sim/src/cpu.rs:186-213 | stack and heap registers, the constant one, and the image in memory |
| Cpu.Cpu.InstrFetch | core_sim/src/cpu.rs:469-479 | fetches the word and moves past it only on success |
| Cpu.Cpu.AddMemSpy | core_sim/src/cpu.rs:1542-1544 | sets watches and changes nothing else of the machine |
| Cpu.Cpu.RemoveMemSpy | core_sim/src/cpu.rs:1546-1548 | removes watches and changes nothing else of the machine |
| Cpu.Cpu.RegFetchStage | core_sim/src/cpu.rs:486-646 | the reads through the register file give the operands of every format |
| Cpu.Cpu.RegFetchFloat | core_sim/src/cpu.rs:558-636 | the same for the floating-point formats, which read registers of both kinds |
| Cpu.Cpu.ResolveBranch | core_sim/src/cpu.rs:771-785 | predicts with the old table, trains, counts, and flushes on a wrong prediction |
| Cpu.Cpu.ExecuteFloat | core_sim/src/cpu.rs:877-1101 | results, clocks and branch effects of the floating-point formats |
| Cpu.Cpu.Execute | core_sim/src/cpu.rs:647-1109 | result or failure of every instruction, and its effects on predictor, statistics, input and output |
| Cpu.Cpu.ExecuteStage | core_sim/src/cpu.rs:1438-1463 | register fetch, `execute` and the jump it may take; nothing changes when it fails or ends the run |
| Cpu.Cpu.AccessMemory | core_sim/src/cpu.rs:1110-1206 | memory, cache, clocks, and statistics that a failing access does not touch |
| Cpu.Cpu.WriteBackStage | core_sim/src/cpu.rs:1207-1214 | writes one register and nothing else of the machine |
| Cpu.Cpu.PushInstr | core_sim/src/cpu.rs:1401-1416 | the new queue, of length five, and the clocks charged |
| Cpu.Cpu.AdvancePipeline | core_sim/src/cpu.rs:1492-1518 | the stall loop, the instruction and the flush bubbles give the passage specified on values |
| Cpu.Cpu.CycleOneFull | core_sim/src/cpu.rs:1417-1519 | the whole machine, the outcome and the clocks after a step in place are those of the step on values |
| Runs.TimingTransparent | core_sim/src/cpu.rs:1417-1519 | for every run, program counter, registers, memory bytes and types, I/O and outcome equal those of the plain interpreter |
| Runs.TimingIrrelevant | core_sim/src/cpu.rs:1417-1519 | they are the same for any starting cache, predictor, queue and statistics |
| Runs.FlushMeaning | core_sim/src/cpu.rs:647-1109 | an instruction flushes exactly when it is a mispredicted branch or a jalr |
| Runs.StepAccounted | core_sim/src/cpu.rs:1459-1518 | one step's clocks against its execute clocks, bubbles, flushes, hits and misses |
| Runs.ClockConservation | core_sim/src/cpu.rs:1401-1519 | for every run from a fresh CPU, n+S+2F <= sum of max(ex_cycles,1)+S+2F <= clocks <= that sum + hits + 89 misses |
| Runs.RunIsLogged | core_sim/src/cpu.rs:1417-1519 | in every reachable state memory, predictor with its counters, and cache are what the run's accesses and branches produce |
| Runs.ReachableMispredictions | core_sim/src/cpu.rs:346-358 | in every reachable state, mispredictions are at most twice the untaken branches and at most twice the taken ones plus 64 |
| Runs.ReachableText | core_sim/src/cpu.rs:469-479 | in every reachable state an aligned fetch returns the original word, and x0 and f0 read zero |
| Runs.ReachableLoad | core_sim/src/cpu.rs:1110-1206 | in every reachable state a load of either class, `lw` or `flw`, succeeds exactly when its class agrees with the run's history, and gets the last value stored or the initial bytes; register 0 stays zero |
| Runs.ReachableHit | core_sim/src/cache.rs:7-22 | in every reachable state of a fresh CPU an access hits exactly when the latest cached access through its line was to the same block, or there was none and the tag is 0 |
| SpySteps.StepWithSpies | core_sim/src/cpu.rs:1417-1519 | a step with other memory watches gives the same machine, clocks and accounting, and differs in a break at most |
| Runs.RunAccessesSucceed | core_sim/src/cpu.rs:1460-1463 | every access of a run that has not failed succeeded |
| Runs.ReachableOneClass | core_sim/src/memory.rs:191-261 | in every run, loads of a word between two stores are of one class, the store's class after a store |
| Boot.StartMemWellFormed | core_sim/src/cpu.rs:182-214 | a loaded memory is well formed |
| Boot.StartValid | core_sim/src/cpu.rs:182-214 | a loaded machine is in a valid state |
| Boot.StartValues | core_sim/src/cpu.rs:184-209 | after loading, register 2 reads 249999, register 4 the data and text length in words, f1 1.0, all others 0, and the program counter is four times the data length |
| Boot.StartLayout | core_sim/src/cpu.rs:208-213 | a memory of 1000000 bytes with the text where the header says |
| Boot.HeaderLengths | core_sim/src/cpu.rs:215-227 | the header's lengths are little-endian numbers |
| Boot.StartText | core_sim/src/cpu.rs:210-213 | right after loading, a fetch in the text reads the image past its header |
| Sim.Simulator.constructor | core_sim/src/sim.rs:42-62 | a booted CPU, no clocks, no cycles, no error |
| Sim.Simulator.ExecuteOne | core_sim/src/sim.rs:252-275 | one instruction: clocks and cycle only on success, the error kept on failure, and whether the call ends |
| Sim.Simulator.SingleCycle | core_sim/src/sim.rs:231-309 | the loops of all modes end in the state and with the flow specified on values |
| Sim.OnlyFirstAtBreakpoint | core_sim/src/sim.rs:241-251 | only the first instruction of a call may start at a breakpoint |
| Sim.CallEndsAtFirstStop | core_sim/src/sim.rs:231-309 | a call ends after the first number of instructions at which there is a reason (an instruction that does not continue, the target, the limit, a breakpoint), with that reason, having started at the program counters in between |
| Sim.CallEndsAt | core_sim/src/sim.rs:231-309 | conversely, a first reason is where it ends |
| Sim.SkipUntilReaches | core_sim/src/sim.rs:292-297 | running until an address ends at its first visit, neither before nor after |
| Sim.FlowMeaning | core_sim/src/sim.rs:231-309 | a reported target or breakpoint is the mode's target or a breakpoint, and the final program counter; the target is not started from again; a counted step took all its instructions |
| Sim.StepsCompose | core_sim/src/sim.rs:302-307 | after a complete step of m, a step of n gives the state, clocks, cycles and flow of a step of m+n, if and only if a count is zero or the boundary is no breakpoint |
| Sim.LimitIrrelevant | core_sim/src/sim.rs:292-301 | a run that stops by itself does not depend on the step limit of the model |
| Sim.FailureIsFinal | core_sim/src/sim.rs:237-239 | after a failure no sequence of calls and edits changes anything but the watches that are edited |
| Sim.FailureIsFree | core_sim/src/sim.rs:252-266 | a failing instruction takes no clocks |
| Sim.SessionIsRun | core_sim/src/sim.rs:231-309 | whatever the modes, breakpoints and limits of its calls and the watches set or removed between them, a session leaves the simulator in a state of the one uninterrupted run, with its clocks and count and the watches its edits give |
| Sim.SessionClocks | core_sim/src/sim.rs:262-265 | the elapsed clocks of every session of a booted simulator obey the clock law, upper and lower bounds |
| Sim.SessionOutside | core_sim/src/memory.rs:217-224 | after every session, a fetch outside the text fails |
| Sim.SessionText | core_sim/src/memory.rs:217-224 | after every session, an aligned fetch in the text returns the word of the loaded image |

## Left out

- Accuracy of `fdiv` and `fsqrt` from end to end: it depends on the host's double and float rounding. The segments, the reciprocal line and the range reduction are proved.
- Host floating point: additions, subtractions, `fdiv`, `fsqrt`, `fsgnjx` and the narrowing in `ffloor` are unknown functions of the CPU model; comparisons are modelled on encodings.
- FFloor.FFloorIsFloor: takes the host's narrowing as a parameter that is exact on values which are floats; infinities and NaNs, which the code returns unchanged, are not claimed.
- FMul.FMulAccurate: normal operands and normal results only; `FMul.Closed` covers the fields of every other case.
- `fcvtsw` on -2^31, whose negation overflows in C, is read as wrapping.
- Rust panics become a failure outcome, so that a state exists afterwards; they include overflowing shifts, as in a build with overflow checks.
- CPU execution of the second instruction set: only its decoder is modelled.
- Sim.Simulator.SingleCycle: the modes that run until something happens take a step limit; `Sim.LimitIrrelevant` says when it does not matter. Watched values and the trace are not collected.
- Cpu.Cpu.constructor: images whose header or contents make the original panic are excluded.
- Instruction, register and memory-region statistics, and all display code.
- I/O is an input sequence of words and an output sequence of bytes; the readers in `core_sim/src/io.rs`, `core_sim/src/ppm.rs` and `core_sim/src/sld.rs` are not modelled.
- Debug symbols, disassembly, the command line, and the foreign-call binding.
- Vectors that the original mutates element by element (memory bytes and types, cache tags, predictor slots, the queue) are sequence-valued fields; only the register file is kept as arrays.
