# A verified model of WarpSim

WarpSim is an assembler and an interpreter for a small SIMT instruction set. A warp of 32 lanes has one
program counter; a divergence stack emulates 32 independent threads; a block scheduler steps the warps of a
block in turn and parks them at barriers; the assembler records in every guarded branch where its paths meet
again. This project models those parts in Dafny, the stateful ones as classes and loops over the same fields
and arrays, each proved against a specification function, and proves what the design promises of them.

The main results:

* **Lanes are threads.** Whatever reconvergence PCs a program records, resolving the stack moves no lane and
  every block is an interleaving of the scalar programs of all its lanes (`Refinement`, `WarpRuns`,
  `BlockRuns`).
* **Reconvergence.** The fixpoint over packed sets computes path post-dominance, selection by set size picks
  the immediate post-dominator, and on annotated programs the stack is nested and a divergent branch gets
  exactly its mask back, in every warp of every block (`PostDominators`, `ImmediatePostDominators`,
  `Annotation`, `Nesting`, `BlockRuns`).
* **When the annotation matters.** The instruction set document, in section 8.4, and
  python/tests/test_torture.py:103 say that results never depend on it. For kernels in which no lane accesses
  a word that another lane stores to, that holds if, and only if, no barrier is issued with a part of the warp
  waiting on the stack (`Independence`); `BarrierDependence` has a kernel that fails.
* **What each step does.** Every opcode, address, guard, branch, fault report, literal and operand is described
  by a statement that does not name the function computing it (`Arithmetic`, `Meaning`, `Issues`, `Literals`,
  `Syntax`), and so are the lanes, coordinates and order of a launch (`Geometry`, `LaunchOrder`).
* **The scheduler.** Barrier phases, fairness, progress and counter conservation hold in every run
  (`Scheduling`, `Device`, `Launch`), and for warps that do not read each other's writes the schedule does not
  matter at all (`ScheduleIndependence`).
* **Assembler and disassembler.** Disassembling any assembled program and assembling the text gives the
  program back (`ProgramRoundTrip`), and the objects that do the work compute exactly those functions
  (`Lexing`, `Assembler`).
* **The shipped reduction kernel** ends, and computes its golden model, for every input under the real scheduler
  (`ReduceKernel`, `ReduceProof`, `ReduceTermination`, `ReduceCounters`,
  `ReduceLaunch`).

Lane masks are sets of lanes below 32, words are integers with their 32-bit wrap-around written out, and
`bar.sync` ignores its guard, as the code does. `dafny verify dfyconfig.toml` checks the whole project.

## Model

| member | source | states |
|---|---|---|
| `Isa.DecodeInvertsEncode` | src/isa/instruction.cpp:84-186 | a word decodes to an instruction exactly when it is that instruction's encoding, for all instructions and words: the codec is a bijection between valid instructions and accepted words |
| `Isa.Unpack` | src/isa/instruction.cpp:149-186 | every field of an encoded word is read back by decode's shift and mask, so no field overlaps another |
| `Isa.BranchImmHalves` | include/warpsim/isa/instruction.hpp:38-52 | both 16-bit halves of a branch immediate are recovered from it |
| `Syntax.ValidMeaning` | src/isa/instruction.cpp:27-145 | which instructions can be encoded, mnemonic by mnemonic: the register counts, the fields each one takes, and zero in every other field |
| `Syntax.OpcodeByte` | include/warpsim/isa/opcode.hpp:13-60 | the opcode byte of a mnemonic is its place in the list of the 46 mnemonics, written out |
| `Syntax.MnemonicByte` | include/warpsim/isa/opcode.hpp:89-163 | the bytes 1 to 46 and no others have an opcode, and the mnemonic at each place of the list is looked up as the opcode with that byte |
| `Syntax.SpecialNumber` | include/warpsim/isa/opcode.hpp:165-207 | each special register name, in the written-out order, is looked up as its number |
| `Alu.DivRem` | src/core/alu.cpp:49-68 | signed quotient and remainder satisfy dividend = quotient * divisor + remainder with the remainder's sign and size of truncating division, outside the two special cases |
| `Alu.SraIsFloorDivision` | src/core/alu.cpp:70-79 | the arithmetic right shift is division by a power of two rounded down, for every operand and count |
| `Arithmetic.OnlyDestination` | src/core/alu.cpp:244-259 | an arithmetic instruction changes its destination and nothing else: a predicate for a comparison, a general register for every other |
| `Arithmetic.RingMeaning` | src/core/alu.cpp:159-164 | add, sub and mul leave the word whose signed value is the signed sum, difference or product of the operands, in order, modulo 2^32 |
| `Arithmetic.NegMeaning` | src/core/alu.cpp:173-190 | neg leaves the word whose signed value is the negated operand modulo 2^32, and mov its only source |
| `Arithmetic.DivisionMeaning` | src/core/alu.cpp:165-168 | div leaves the truncated signed quotient and rem what is left over, smaller than the divisor and with the dividend's sign; zero divisors and the one quotient that does not fit have their own results |
| `Arithmetic.BoundMeaning` | src/core/alu.cpp:169-172 | min and max leave the bound of the two signed operands that is one of them |
| `Arithmetic.BitwiseMeaning` | src/core/alu.cpp:175-182 | and, or, xor and not are the logical operations on every bit, and fneg flips the sign bit only |
| `Arithmetic.ShiftMeaning` | src/core/alu.cpp:183-188 | shl multiplies by two to the low five bits of the count modulo 2^32; shr divides the unsigned and sra the signed operand by it, rounding down |
| `Arithmetic.CompareMeaning` | src/core/alu.cpp:99-140 | each setp is its order on the signed values, or on floats with gt and ge as lt and le the other way round and ne as the negation of eq |
| `Arithmetic.FloatMeaning` | src/core/alu.cpp:191-203 | each float opcode hands its operands in order to its operation; the fused product adds the old destination |
| `Arithmetic.ConvertMeaning` | src/core/alu.cpp:205-210 | each conversion hands its only source to its own operation, and mov.sreg leaves the special register its source field names |
| `RegisterFiles.ExecuteAlu` | src/core/alu.cpp:244-259 | the in-place lane loop leaves executing lanes with the result of the instruction on their own registers, which the rows about `Arithmetic` describe opcode by opcode, and every other lane unchanged |
| `RegisterFiles.RegisterFile.Write` | include/warpsim/core/register_file.hpp:23-26 | writing one register of one lane changes that register only |
| `Memory.ByteMemory.Load` | src/core/memory.cpp:11-31 | misaligned and out-of-range reads fail with their own error, in that order; other reads return the little-endian word |
| `Memory.ByteMemory.Write` | src/core/memory.cpp:32-39 | a failed store changes nothing; a successful one replaces exactly the addressed word |
| `Memory.LoadAfterStore` | src/core/memory.cpp:23-39 | after a store the stored word is read back and every other load, including failing ones, is unaffected |
| `Memory.LoadAfterStoreTo` | src/core/memory.cpp:41-74 | the same across the three address spaces: a store to one space is invisible in the others |
| `Meaning.LoadMeaning` | src/core/warp.cpp:199-241 | a load of a lane reads from (source + immediate) modulo 2^32, in the space of its opcode, and puts the sum of the four bytes there, the lowest first, into its destination; a misaligned address is refused before one that is out of bounds |
| `Meaning.StoreMeaning` | src/core/warp.cpp:199-241 | a store of a lane replaces the four bytes at (source + immediate) modulo 2^32, in the space of its opcode, by those of its second source, and changes no other byte and no register |
| `Meaning.ParamMeaning` | src/core/warp.cpp:199-241 | ld.param reads the parameter whose ordinal is its immediate, whatever the registers hold |
| `Meaning.ObservedMeaning` | src/core/warp.cpp:199-225 | the access counters are shown exactly these addresses of the executing lanes, zero elsewhere, with the space and direction of the opcode |
| `Memory.BlockMemory.OnWarpAccess` | src/core/memory.cpp:76-85 | the counters advance by the cardinalities of the segments and bank sets of the access, and not at all for parameter loads |
| `StridedAccess.WavefrontBounds` | src/core/memory_analysis.cpp:69-82 | a shared access on some lane adds its conflict degree, which is between one and 32, to the wavefront counter |
| `MemoryAnalysis.DistinctSegments` | src/core/memory_analysis.cpp:13-29 | the array scan counts exactly the set of 128-byte segments of the executing lanes' addresses |
| `MemoryAnalysis.BankConflictDegree` | src/core/memory_analysis.cpp:31-53 | the bucket scan returns the largest number of distinct executing addresses in one bank |
| `StridedAccess.StridedConflicts` | src/core/memory_analysis.cpp:31-53 | for a full warp at any stride that does not wrap, the conflict degree is gcd(stride, 32) |
| `StridedAccess.StridedSegments` | src/core/memory_analysis.cpp:13-29 | for a full warp at an aligned base and stride 1 to 32 words, the segment count is the stride |
| `StridedAccess.DegreeBounds` | src/core/memory_analysis.cpp:31-53 | any conflict degree is at most the lane count and at least the distinct addresses divided by 32, rounded up |
| `Scatter.StoreOrder` | src/core/warp.cpp:221-241 | after a warp store each word holds the value of the highest executing lane for which (source + immediate) modulo 2^32 is its address, every other word is untouched, and after a fault this holds of exactly the lanes below the faulting one |
| `WarpSpec.PopIsLighter` | src/core/warp.cpp:51-91 | each pop makes the stack lighter when deferred entries weigh two and joins one: the measure by which resolution ends |
| `WarpSpec.ResolveIsLighter` | src/core/warp.cpp:69-91 | stack resolution ends for every state whatsoever, with no rule left to apply |
| `WarpSpec.SettleReady` | src/core/warp.cpp:112-124 | the settle loop ends for every state, and an issue happens inside the program and away from the top reconvergence PC |
| `Warps.Warp.SwitchTo` | src/core/warp.cpp:51-67 | the object's update is the specification's, with an entry that resumes at its reconvergence PC treated as a join |
| `Warps.Warp.ResolveStack` | src/core/warp.cpp:69-91 | the loop computes the resolved state and reports whether a path is left |
| `Warps.Warp.Retire` | src/core/warp.cpp:93-99 | the lanes leave the live mask, the active mask and every mask on the stack |
| `Warps.Warp.GuardMask` | src/core/warp.cpp:128-139 | the loop computes exactly the active lanes on which the guard holds |
| `Warps.Warp.MemoryAccess` | src/core/warp.cpp:199-243 | counters observe the access before any lane performs it; lanes access memory in lane order, each as the rows about `Meaning` describe; the first failure stops the sweep and is reported with its lane, PC and address |
| `Warps.Warp.Step` | src/core/warp.cpp:112-197 | one call of the object is one step of the warp specification: same result, warp, registers, memory and counters, on every branch and fault |
| `Meaning.GuardMeaning` | src/core/warp.cpp:128-139 | a guard asks for its predicate to be set, a negated one for it not to be, and without one every lane executes |
| `Meaning.ControlMeaning` | src/core/warp.cpp:141-184 | a lane on which the guard holds goes to the low half of a branch's immediate, and retires at an exit; any other lane, and every lane at a barrier, moves on to the next instruction |
| `Issues.IssueRecords` | src/core/warp.cpp:112-141 | whatever an issue does, it records its opcode and exactly the active lanes on which its guard holds |
| `Issues.BranchMeaning` | src/core/warp.cpp:141-167 | a branch that splits the active lanes runs the taken ones first; the others wait on top of the stack at the next PC, under the recorded reconvergence PC, and one divergence is counted; a branch that does not split them moves all of them and leaves the stack alone |
| `Issues.AccessFaultMeaning` | src/core/warp.cpp:226-241 | a memory instruction faults exactly when some executing lane's access is refused, and reports the lowest such lane with its own address and error, the PC, the warp and the row-major block number |
| `Issues.BarrierFaultMeaning` | src/core/warp.cpp:172-179 | a barrier parks the warp when all its live lanes are active; otherwise it faults without a lane and an address |
| `Refinement.SettleKeepsView` | src/core/warp.cpp:69-124 | stack resolution and the fall-off-the-end loop change no lane's logical PC or registers, whatever the recorded reconvergence PCs are |
| `Refinement.IssueIsRound` | src/core/warp.cpp:126-243 | every issue is one scalar step of each active lane in lane order on shared memory; an access fault is the fault of the first lane that faults; the only other fault is a barrier with a non-empty stack, and it happens exactly then |
| `Refinement.SeparatedFrom` | src/core/warp.cpp:101-110 | the masks on the stack are disjoint from the active mask and there are never more of them than lanes they hold |
| `Refinement.StackEmptyIffWhole` | src/core/warp.cpp:172-179 | the stack is empty exactly when every live lane is active |
| `WarpRuns.StepOutcome` | src/core/warp.cpp:112-197 | a step reports Finished exactly when every lane has retired, and then changes no lane; otherwise it is the issue of the settled state |
| `WarpRuns.StepKeepsInvariant` | src/core/warp.cpp:69-126 | every step, also a faulting one, keeps: live lanes are the disjoint union of the active mask and the non-empty stack masks, at most 31 entries wait, and every two reconvergence events were paid for by a divergence |
| `WarpRuns.EventsWhenWhole` | src/core/warp.cpp:51-91 | whenever a warp has all its lanes active again after any number of issues, each of its divergences has been followed by one or two counted reconvergences |
| `BlockRuns.BlockIsInterleaving` | src/core/device.cpp:42-102 | whatever reconvergence PCs the program records, and for any number of rounds, a block is an interleaving of single instructions of all lanes of all its warps on one memory, with the same registers and memory; when it faults, the faulting lane is the next to step in the memory the interleaving has reached |
| `Independence.Projection` | src/core/warp.cpp:112-243 | when no lane accesses a word another lane stores to, an interleaving gives every thread exactly its own solo run, registers and memory, barriers included |
| `Independence.ReconvergenceIndependence` | python/tests/test_torture.py:102-117 | for every kernel in which no lane accesses a word another lane stores to, barriers included: a warp that finishes under one annotation finishes under any other with the same registers and memory, the issue counts of both between the longest lane run and the sum of all, or else faults at a bar.sync issued with a non-empty stack |
| `Independence.SameResultIffWhole` | src/core/warp.cpp:172-179 | when the annotation matters: the other annotation gives the same result if, and only if, no bar.sync of its run is issued with a non-empty stack |
| `Independence.StoreFreeUndisturbed` | src/core/warp.cpp:199-243 | kernels without stores meet the condition whatever their lanes load |
| `Independence.QuietIndependence` | python/tests/test_torture.py:102-117 | without stores and barriers the annotation never matters |
| `BarrierDependence.BarrierDependsOnReconvergence` | src/core/warp.cpp:172-179 | the witness: when a whole warp diverges at a branch to a bar.sync that follows it, the barrier succeeds if, and only if, the recorded reconvergence PC is that of the barrier, and faults for every other value |
| `BarrierDependence.AnnotationsDiffer` | src/core/warp.cpp:172-179 | one concrete kernel and warp on which one annotation passes the barrier and another faults |
| `BlockSets.BlockSet.constructor` | src/asm/reconvergence.cpp:25-31 | a new packed set is empty or full, with no bit set past its size |
| `BlockSets.BlockSet.Insert` | src/asm/reconvergence.cpp:36 | setting a bit of a packed word adds exactly that member |
| `BlockSets.BlockSet.Erase` | src/asm/reconvergence.cpp:37 | clearing a bit removes exactly that member |
| `BlockSets.BlockSet.Intersect` | src/asm/reconvergence.cpp:38-42 | the word-wise and is set intersection |
| `BlockSets.BlockSet.Equals` | src/asm/reconvergence.cpp:43 | word-wise equality is equality of the sets |
| `BlockSets.BlockSet.Count` | src/asm/reconvergence.cpp:44-50 | the sum of population counts is the number of members |
| `ControlFlow.BuildCfg` | src/asm/reconvergence.cpp:69-123 | fails exactly at the first branch past the end; otherwise the blocks tile the program, begin exactly at PC 0, branch targets and after terminators, and are joined like their last instructions, whose edges are the moves of threads |
| `Meaning.EdgeIffMove` | src/asm/reconvergence.cpp:101-121 | the instruction graph has an edge from a PC to another, or to the end, exactly when for some registers, launch context and memory one instruction of a thread leads from the one to the other |
| `BlockPaths.TerminatorIsLast` | src/asm/reconvergence.cpp:58-60 | only the last instruction of a block is a branch or an exit |
| `BlockPaths.EntryIsLeader` | src/asm/reconvergence.cpp:78-88 | only the first instruction of a block is a branch target or follows a terminator |
| `BlockPaths.Project` | src/asm/reconvergence.cpp:101-121 | every instruction path to the exit visits, block by block, a path of the block graph |
| `BlockPaths.Lift` | src/asm/reconvergence.cpp:101-121 | every block path to the exit is walked by an instruction path that stays in its blocks |
| `BlockPaths.ReachesAgree` | src/asm/reconvergence.cpp:69-123 | an instruction reaches the end exactly when its block reaches the exit node |
| `PostDominators.FlowOf` | src/asm/reconvergence.cpp:136-142 | one evaluation of the packed sets is the intersection over the successors with the block added |
| `PostDominators.FlowStep` | src/asm/reconvergence.cpp:134-149 | one update keeps every post-dominator, only ever removes members, and makes the total size of the sets strictly smaller when it changes anything |
| `PostDominators.ComputePostDominators` | src/asm/reconvergence.cpp:127-151 | the fixpoint loop ends, and the set of a block holds exactly the nodes that every path from it to the virtual exit passes |
| `ImmediatePostDominators.SizeSelectsImmediate` | src/asm/reconvergence.cpp:153-162 | on a block that reaches the exit, comparing set sizes picks out exactly the immediate post-dominator |
| `ImmediatePostDominators.SizeSelectsBeginning` | src/asm/reconvergence.cpp:153-165 | on a block that cannot reach the exit, the same comparison picks out exactly the block where all paths begin: one that reaches the exit and that every other block post-dominates |
| `ImmediatePostDominators.ImmediatePostDominator` | src/asm/reconvergence.cpp:153-165 | returns the immediate post-dominator of a block that reaches the exit; for one that does not, the block where all paths begin if there is one, else the exit node; the exit node always when another block is stuck too |
| `Graphs.ImmediateUnique` | src/asm/reconvergence.cpp:153-165 | a node that reaches the exit has at most one immediate post-dominator |
| `Graphs.ImmediateExists` | src/asm/reconvergence.cpp:153-165 | a node that reaches the exit has an immediate post-dominator: the first strict one on any path |
| `Annotation.ImmediateLifts` | src/asm/reconvergence.cpp:176-188 | the first PC of a block's immediate post-dominator is the immediate post-dominator of its branch in the instruction graph |
| `Annotation.StuckBranch` | src/asm/reconvergence.cpp:163-165 | when a guarded branch cannot reach the exit, neither can its fall-through block, so the size test selects nothing |
| `Annotation.AnnotateReconvergence` | src/asm/reconvergence.cpp:169-191 | changes nothing on a branch out of range; otherwise changes only branch immediates, keeping targets: each guarded branch gets its unique immediate post-dominator PC in the graph of possible moves, or 0xFFFF when that is the exit or the exit is unreachable |
| `Annotation.AnnotationUnique` | src/asm/reconvergence.cpp:169-191 | a program has at most one annotation |
| `Annotation.AnnotationIdempotent` | src/asm/reconvergence.cpp:169-191 | annotating an annotated program changes nothing |
| `Nesting.OlderPostDominates` | src/core/warp.cpp:69-91 | in a nested stack every older reconvergence point post-dominates every younger one |
| `Nesting.MicroRunIsNested` | src/core/warp.cpp:69-197 | on an annotated program whose instructions all reach the end, every state of a warp is nested, whatever memory it finds at each micro-step: the invariant the code never checks |
| `BlockRuns.BlockIsNested` | src/core/device.cpp:42-102 | on such a program the stack of every warp is nested at the end of any number of rounds of any block, faulting ones included |
| `BlockRuns.WarpOfBlock` | src/core/device.cpp:42-102 | in every block each warp that does not fault goes from its initial state to its state in the block by micro-steps on some sequence of memories, so the results about such runs hold of it |
| `Nesting.MicroStepKeepsNested` | src/core/warp.cpp:69-197 | every single pop, retirement and issue keeps the nesting |
| `Nesting.StepIsMicroSteps` | src/core/warp.cpp:112-124 | a scheduling step is exactly the pops and retirements up to the first issue, and that issue |
| `Nesting.NoRetirementInside` | src/core/warp.cpp:93-99 | no lane retires, by exit or by falling off the end, while an entry with a real reconvergence PC is on top |
| `Nesting.MicroStepInside` | src/core/warp.cpp:69-197 | between a divergent branch and its final join no lane retires, the older entries stay, and the warp is not finished |
| `Nesting.BranchRestoresMask` | src/core/warp.cpp:152-167 | in any run of micro-steps, whatever other warps do to memory meanwhile, the first time the stack is back at the depth of a divergent branch the warp is at the recorded PC with exactly the mask that was split, the stack it had, and all its live lanes |
| `Scheduling.BlockOutcome` | src/core/device.cpp:25-108 | for any number of rounds of any block: the no-progress fault never occurs, every counter is the number of issues in the log of its class or lane count, warps that can run have had equal turns since the release, barrier phases hold, and at the end the completed barriers are the most any warp issued |
| `Scheduling.TurnPhased` | src/core/device.cpp:42-77 | every turn keeps: a running warp has issued as many barriers as completed, a parked one exactly one more, a finished one no more |
| `Scheduling.ReleasePhased` | src/core/device.cpp:78-96 | releasing the warps when all unfinished ones are parked starts the next phase |
| `Scheduling.BarrierOrders` | src/core/device.cpp:42-102 | what any warp issued before its k-th barrier precedes everything any warp issues after its own k-th barrier |
| `Scheduling.PassFair` | src/core/device.cpp:42-77 | after a pass every warp that can still run has issued the same number of instructions since the last release |
| `Scheduling.PassInOrder` | src/core/device.cpp:43-77 | the issues of a pass are by different warps, in the order of their numbers |
| `Scheduling.ProgressMade` | src/core/device.cpp:97-101 | a pass after which some unfinished warp is not parked began with a runnable warp: the no-progress fault is unreachable |
| `Scheduling.TallyKeepsBalance` | src/core/device.cpp:53-76 | counting an issue keeps: issues equal the four classes and the histogram, and the lane sum equals the weighted histogram |
| `Scheduling.LoggedStep` | src/core/device.cpp:53-76 | counting an issue keeps: control, barrier, memory and arithmetic counters, lane sum and histogram are those of the issues logged, by opcode and by number of lanes |
| `Scheduling.EventsBound` | src/core/device.cpp:103-106 | over a block the reconvergence events are at most twice the divergent branches |
| `Device.TakeTurn` | src/core/device.cpp:45-77 | one turn of a warp object changes that warp, the memory and the counters as the scheduler specification says, and no other warp |
| `Device.RunPass` | src/core/device.cpp:43-77 | the loop over the warp objects is one pass of the specification, and reports whether any warp could run |
| `Device.RunRound` | src/core/device.cpp:42-102 | a round ends the block, releases the barrier or goes on as specified; its no-progress branch is dead |
| `Geometry.BlockHoldsLanes` | src/core/device.cpp:28-41 | when lanes + 31 does not wrap, a block starts with (lanes + 31) / 32 warps, lane l of warp w is live exactly when 32 * w + l is below the lane count, and all are active at PC 0 with an empty stack |
| `Geometry.LaneHasOnePlace` | src/core/device.cpp:28-41 | every lane of the block is in one warp, at one place |
| `Geometry.LanesAddUp` | src/core/device.cpp:28-41 | the live lanes of the warps add up to the lanes of the block |
| `Geometry.WrappedBlockIsEmpty` | src/core/device.cpp:28-41 | when lanes + 31 wraps in 32 bits the block has no warp at all and completes without an issue |
| `Geometry.RegistersStartAtZero` | include/warpsim/core/register_file.hpp:14-43 | every thread starts with zero in each register and each predicate false |
| `Geometry.ThreadCoordinates` | include/warpsim/core/lane_context.hpp:14-48 | lane l of warp w sees coordinates inside the block shape that number it row by row as 32 * w + l, and in the other special registers the shapes, its block's coordinates, l and w |
| `Geometry.CoordinateHasLane` | include/warpsim/core/lane_context.hpp:20-31 | every coordinate inside the block shape is seen by the lane with that row-major number |
| `Device.CreateWarps` | src/core/device.cpp:28-41 | the loop creates the warp objects in these initial states: their number and their live lanes written out |
| `Device.ExecuteBlock` | src/core/device.cpp:25-108 | the whole loop over warp objects computes the specified run of the block: same end, memory and counters |
| `ScheduleIndependence.RunFollows` | src/core/device.cpp:42-102 | when no warp reads what another writes, at every point of the block every unfinished warp is in a state of its run alone, barriers counting as no-ops, and sees the memory it sees there |
| `ScheduleIndependence.BlockLikeAlone` | src/core/device.cpp:42-102 | such a block, when it completes, leaves every warp with the registers its run alone ends with |
| `ScheduleIndependence.BlockFinishesIffAlone` | src/core/device.cpp:42-102 | such a block completes if, and only if, every warp finishes alone |
| `ScheduleIndependence.StepAgrees` | src/core/warp.cpp:112-243 | a step whose accesses stay in an area has the same result, fault and warp on any two memories that agree where the area reads |
| `Launch.DecodeAll` | src/core/device.cpp:114-124 | all words decode to valid instructions that encode back to them, or the first bad word is reported |
| `Launch.LaunchKernel` | src/core/device.cpp:112-157 | decoding errors, the 32-bit empty-grid test, the first fault and the totals are those of the launch specification, and global memory is what its blocks leave |
| `Launch.LaunchConserves` | src/core/device.cpp:129-156 | over any launch that completes: issues equal the four classes and the histogram, the lane sum equals the weighted histogram, blocks equal rows times columns, lanes are that many times x * y modulo 2^32, warps that many times (lanes + 31) modulo 2^32 divided by 32, and reconvergence events are at most twice the divergences |
| `LaunchOrder.LaunchRunsBlocks` | src/core/device.cpp:129-156 | a launch that completes runs its blocks one after the other, row by row, each with its own coordinates, the launch's shapes and parameters, zeroed shared memory and the global memory its predecessor left; the memory totals are the sums over the blocks |
| `Lexing.Lexer.TakeWhile` | src/asm/lexer.cpp:90-96 | the scan takes the longest prefix whose characters satisfy the test |
| `Lexing.Lexer.ScanNumber` | src/asm/lexer.cpp:170-210 | the imperative scan accepts and rejects the same numbers, with the same token text and kind, as the specification |
| `Lexing.Lexer.Tokenize` | src/asm/lexer.cpp:36-71 | the position-advancing loop returns the specified tokens or fails with it |
| `Pieces.PieceLexed` | src/asm/lexer.cpp:98-210 | a well-formed token text followed by something that cannot continue it is tokenized as itself |
| `Pieces.RenderLexed` | src/asm/lexer.cpp:36-210 | text made of well spaced pieces is tokenized piece by piece |
| `Numerals.ValueOfNumeral` | src/asm/assembler.cpp:449-463 | reading a printed numeral in any radix gives the number back |
| `Literals.DigitMeaning` | src/asm/lexer.cpp:24-31 | the digits are the characters of 0123456789abcdef in either case, and the value of each is its position |
| `Literals.ValueIsPlaceValues` | src/asm/assembler.cpp:66-78 | the value of any digit text is the sum of its digits times the powers of the radix |
| `Literals.LiteralMeaning` | src/asm/assembler.cpp:449-463 | an integer token is read as n exactly when its text, decimal or hexadecimal after 0x and in any accepted spelling, denotes n by place values, and n fits in 32 bits |
| `Literals.LiteralRefused` | src/asm/assembler.cpp:449-463 | a literal is refused exactly when its text denotes no number or one that does not fit |
| `Literals.LiteralLexed` | src/asm/lexer.cpp:170-210 | a decimal literal, or a hexadecimal one after 0x or 0X, is one token that denotes the number of its digits |
| `Literals.PlainImmediate` | src/asm/assembler.cpp:409-447 | an integer immediate is the number it denotes, below 2^32 |
| `Literals.NegatedImmediate` | src/asm/assembler.cpp:409-447 | after a minus it is the word with that negative value, down to -2^31 and no further |
| `Literals.FloatImmediate` | src/asm/assembler.cpp:409-429 | a float immediate is taken by the listed opcodes only, and a minus changes its sign bit and no other |
| `Literals.OffsetMeaning` | src/asm/assembler.cpp:366-387 | an address offset is its number after a plus, the negated number modulo 2^32 after a minus, and the closing bracket must follow |
| `Literals.SizeMeaning` | src/asm/assembler.cpp:142-181 | the shared memory directive stores the number it is given, if the line ends there |
| `Literals.RegisterMeaning` | src/asm/assembler.cpp:465-483 | a register name is its prefix and its index by place values, without leading zeros and below the count |
| `Mnemonics.MnemonicRoundTrip` | include/warpsim/isa/opcode.hpp:89-163 | the table scan finds every opcode by its own mnemonic |
| `Mnemonics.SpecialRoundTrip` | include/warpsim/isa/opcode.hpp:179-207 | the table scan finds every special register by its own name |
| `Syntax.RegisterOperands` | src/asm/assembler.cpp:230-319 | of three register operands the first is the destination, the second the first source and the third the second source, for every opcode that takes three; a comparison has a predicate destination |
| `Syntax.ImmediateOperand` | src/asm/assembler.cpp:314-319 | what follows the second comma is otherwise read as an immediate in place of the second source |
| `Syntax.SourceOperand` | src/asm/assembler.cpp:321-326 | the opcodes with one source read a register or an immediate after the destination |
| `Syntax.SpecialOperand` | src/asm/assembler.cpp:339-349 | mov.sreg stores the number of the special register as its source |
| `Syntax.LoadOperands` | src/asm/assembler.cpp:366-387 | a load puts its first operand into the destination and takes base and offset from the second |
| `Syntax.StoreOperands` | src/asm/assembler.cpp:366-387 | a store takes base and offset from its first operand and its value from the second |
| `Syntax.ParamOperands` | src/asm/assembler.cpp:389-407 | ld.param stores the position of the declared parameter |
| `Syntax.GuardOperand` | src/asm/assembler.cpp:196-228 | @p asks for a predicate to hold and @!p for it not to hold |
| `OperandRoundTrip.RegisterReads` | src/asm/assembler.cpp:465-483 | every register index below the count is read back from its one spelling |
| `OperandRoundTrip.ImmediateReads` | src/asm/assembler.cpp:409-447 | every printed immediate, signed, hexadecimal or float, reads back as the same 32 bits |
| `OperandRoundTrip.AddressReads` | src/asm/assembler.cpp:366-387 | every printed address reads back as the same register and offset, for all 32-bit offsets |
| `OperandRoundTrip.StepReads` | src/asm/assembler.cpp:230-407 | every operand, parsed from its own tokens, restores exactly its fields |
| `InstructionRoundTrip.FilledIsWhole` | src/asm/assembler.cpp:230-262 | the fields read by the operands of a shape, with opcode and guard, are the whole of a valid instruction |
| `InstructionRoundTrip.FormatRenders` | src/asm/disassembler.cpp:120-173 | the printed text of a valid instruction is the text of its pieces, for every shape |
| `InstructionRoundTrip.InstructionReads` | src/asm/assembler.cpp:196-228 | every valid instruction reads back from its printed text as itself, a branch as the name of its target |
| `Assembling.AssembledPrintable` | src/asm/assembler.cpp:84-515 | every assembled program has distinct identifier names, a name for every branch target, parameter ordinals in range, at most 65535 valid words, and is its own annotation |
| `Assembling.ResolveGives` | src/asm/assembler.cpp:485-499 | resolution gives each pending branch the PC of a label and changes no other word |
| `ProgramRoundTrip.DisassembleRoundTrip` | src/asm/disassembler.cpp:176-210 | for every source text that assembles, disassembling succeeds and assembling the result gives the same entry, parameters, shared size and words, and the same names of its instructions |
| `ProgramRoundTrip.SecondRoundTrip` | src/asm/disassembler.cpp:176-210 | after one round trip the program does not change any more |
| `Assembler.Parser.ReadStep` | src/asm/assembler.cpp:277-407 | each operand method of the parser object reads what the grammar reads and advances past it |
| `Assembler.Parser.ReadStatement` | src/asm/assembler.cpp:184-228 | a statement updates labels, names, pending branches and words as the grammar says, or fails with it |
| `Assembler.Parser.ReadDirective` | src/asm/assembler.cpp:142-181 | the three directives and their error cases are those of the grammar |
| `Assembler.Parser.ResolveBranches` | src/asm/assembler.cpp:485-499 | the patch loop computes the resolved words or fails at an undefined label |
| `Assembler.Parser.Annotate` | src/asm/assembler.cpp:502-515 | decoding, annotating in place and encoding again yields the words of the unique annotation |
| `Assembler.AssembleText` | src/asm/assembler.cpp:526-532 | the tokenizer and parser objects together compute the specified assembly of any text, whose literals and operands mean what the rows about `Literals` and `Syntax` say |
| `Assembler.DisassembleProgram` | src/asm/disassembler.cpp:176-210 | the printing loops, with the label map they extend, compute the specified text or fail with it |
| `ReduceKernel.ThreadGood` | kernels/reduce.wisa:14-53 | every non-barrier instruction of every thread keeps its per-instruction assertion, never faults, and changes no shared word but the thread's own and no global word but the result, which only thread 0 writes after the last barrier |
| `ReduceKernel.RaceFree` | kernels/reduce.wisa:14-53 | the steps are race free: of two threads that have issued the same number of barriers neither ever accesses a word, shared or global, that the other stores to |
| `ReductionSums.HalvingKeepsSum` | kernels/reduce.wisa:29-40 | a halving step keeps the wrapped sum of the cells still in use |
| `ReductionSums.LastLevel` | python/warpsim/golden.py:34-41 | after eight halvings cell zero is the wrapped signed sum of the zero-padded block |
| `ReduceProof.TurnKeeps` | kernels/reduce.wisa:14-53 | under the real scheduler every turn of every warp keeps the invariant of all 256 threads and does not fault, barriers included |
| `ReduceProof.ReduceBlock` | kernels/reduce.wisa:14-53 | for every input and every number of rounds a block does not fault, and when it completes the result word is the golden block sum and no other global word has changed |
| `ReduceTermination.TurnCloser` | kernels/reduce.wisa:14-53 | the turn of a warp that can run brings it strictly closer to its end, counted in the instructions its threads still have to execute, and leaves the other warps as they are |
| `ReduceTermination.ReduceBlockEnds` | kernels/reduce.wisa:14-53 | for every input a block completes within a fixed number of rounds |
| `ReduceCounters.IssueConflictFree` | python/tests/test_reduce.py:36-44 | no issue of any warp counts a bank conflict |
| `ReduceCounters.ReduceBlockCounts` | python/tests/test_reduce.py:31-33 | for every input a block that completes has completed exactly nine barriers and counted no bank conflict |
| `ReduceLaunch.ReductionIsGolden` | python/warpsim/golden.py:34-41 | for every input a launch over all its blocks does not fault, completes when each block may take that many rounds, and then the partial sums in memory are those of the golden model, with nine barriers completed in every block and no bank conflict counted |
| `ReduceAnnotation.KernelWellAnnotated` | src/asm/reconvergence.cpp:169-191 | the reconvergence PCs of the kernel are the ones the analysis defines, so nesting and mask restoration apply to it |

## Left out

- IEEE 754 arithmetic, comparison and conversion: parameters on 32-bit patterns (`FloatOps`), because rounding is not the point of the interpreter's structure.
- Conversion between binary32 and text: a parameter (`FloatText`); the round trip assumes that the library's printing and reading are inverse on finite values and that the text is an optional minus sign and a decimal literal.
- Error message texts, line and column numbers: a failure of the tokenizer, parser or printer is a bare failure; a fault keeps its kind, block, warp, lane, PC and address.
- Termination of arbitrary kernels: `ExecuteBlock` and `LaunchKernel` take a number of scheduler rounds, and the results hold for every such number; that a kernel ends is proved for the reduction only.
- ReductionIsGolden: requires the input and result buffers to be aligned, in bounds and disjoint, and fewer than 2^31 elements, as the signed index arithmetic of the kernel does.
- BranchRestoresMask: requires fewer than 65535 instructions, because 0xFFFF is compared as an ordinary PC by the code, and that every instruction can reach the end of the program.
- ReconvergenceIndependence: excludes kernels in which lanes of one warp communicate through memory, whose order of side effects does depend on the annotation. The condition is on each lane's own run, as areas that its accesses stay in.
- Widths of the 64-bit and 32-bit launch counters: they are natural numbers here and do not wrap.
- Lane masks as machine words: the mask operations are set operations; only the block sets of the analysis are modelled bit by bit.
- The list of warps, token lists and successor lists are sequences held in local variables or fields; growth of vectors and moves are not modelled.
- The Python package (bindings, reports, bench, harness, statistics, bump allocator), the cost model in src/instr/timing.cpp, version strings and the result wrapper: plumbing or formatting.
- The matmul and vecadd kernels: their claims rest on a floating-point tolerance or are simpler than the reduction.
- The step from the text of kernels/reduce.wisa to `ReduceKernel.Code` is by reading: the instruction words are written out, and only their reconvergence halves are proved to be those of the annotation.
- The tables of `counters.md` derived from the counters, such as averages and ratios.
