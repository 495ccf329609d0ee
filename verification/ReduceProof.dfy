/** The reduction kernel under the block scheduler: it never faults, and when it ends its result is the sum. */
module ReduceProof {
  import opened Isa
  import opened Alu
  import opened Memory
  import opened WarpSpec
  import opened Threads
  import opened Refinement
  import opened WarpRuns
  import opened Scheduling
  import opened ReductionSums
  import opened ReduceKernel

  const WARPS: nat := 8

  /** What holds of the 32 threads of warp `w` after `a` barriers. */
  ghost predicate MachineInv(e: Env, w: nat, a: nat, threads: seq<Thread>, m: Store) {
    |threads| == WARP_SIZE && forall l: nat | l < WARP_SIZE :: ThreadInv(e, 32 * w + l, a, threads[l], m)
  }

  /** At most one entry waits, for the reconvergence point of the branch that is being executed. */
  ghost predicate StackOk(s: WarpState) {
    s.stack == [] ||
    (|s.stack| == 1 && s.active != {} &&
     var e := s.stack[0];
     || (e.reconvergence == STAGE && e.resume in {8, STAGE} && 8 <= s.pc <= STAGE)
     || (e.reconvergence == SKIP && e.resume in {18, SKIP} && 18 <= s.pc <= SKIP))
  }

  /** The threads of a parked warp have just passed a barrier. */
  ghost predicate JustReleased(threads: seq<Thread>) {
    forall l | 0 <= l < |threads| && threads[l].Running? :: threads[l].pc in {15, 25}
  }

  ghost function LaneThreads(s: WarpState): seq<Thread> { View(s, SIZE) }

  ghost predicate WarpInv(e: Env, b: Block, w: nat, m: Store)
    requires w < |b.warps| == |b.arrivals|
  {
    && MachineInv(e, w, b.arrivals[w], LaneThreads(b.warps[w]), m)
    && StackOk(b.warps[w]) && (b.warps[w].parked ==> JustReleased(LaneThreads(b.warps[w])))
  }

  /** Only the result word of global memory may differ from what it was. */
  ghost predicate Framed(e: Env, before: seq<u8>, m: Store) {
    |m.global| == |before|
    && forall x: u32 | x != e.partial + 4 * e.block :: LoadFrom(m, Global, x) == Load32(before, x)
  }

  ghost predicate MemoryInv(e: Env, phase: nat, before: seq<u8>, m: Store) {
    Sized(e, m) && (phase < 9 ==> InputIntact(e, m)) && Framed(e, before, m)
  }

  ghost predicate BlockInv(e: Env, b: Block, before: seq<u8>) {
    && Phased(b) && |b.warps| == WARPS
    && MemoryInv(e, b.phase, before, b.memory.store)
    && forall w: nat | w < WARPS :: WarpInv(e, b, w, b.memory.store)
  }

  /** The launch geometry: 256 lanes in a row, block `e.block` of the grid. */
  ghost predicate Launched(e: Env, base: LaunchContext) {
    base.ntid.x == BLOCK && base.ctaid.x == e.block
  }

  lemma PlacedIn(e: Env, base: LaunchContext, w: nat, l: nat)
    requires Launched(e, base) && w < WARPS && l < WARP_SIZE
    ensures Placed(e, 32 * w + l, l, base.(warpId := w))
  {
    var n := 32 * w + l;
    Quotient(n, 0x1_0000_0000, 0, n);
    Quotient(n, BLOCK, 0, n);
  }

  // ---- the word that a step reads from another thread ----

  /** Where another thread can be while a thread is in step `a`. */
  ghost predicate Near(a: nat, other: nat, thread: Thread) {
    || other == a
    || (other == a + 1 && (thread.Running? ==> thread.pc in {15, 25}))
    || (other <= a && thread.Retired?)
  }

  /** In step `a`, a cell at or above the stride holds what it held after the last step. */
  lemma NeighbourWord(e: Env, t: nat, a: nat, other: nat, thread: Thread, m: Store)
    requires 1 <= a <= 8 && Stride(a) <= t < BLOCK && ThreadInv(e, t, other, thread, m) && Near(a, other, thread)
    ensures LoadFrom(m, Shared, 4 * t) == Ok(ReduceKernel.After(e, a - 1)[t])
  {
    hide LoadFrom, StageRegs, StepRegs, TailRegs, ReduceKernel.After, Stride;
    AfterStays(e, a, t);
  }

  /** A warp that is not the running one is near it. */
  lemma NearWarp(b: Block, v: nat, a: nat, l: nat)
    requires Phased(b) && v < |b.warps| && a == b.phase && l < WARP_SIZE
    requires b.warps[v].parked ==> JustReleased(LaneThreads(b.warps[v]))
    ensures Near(a, b.arrivals[v], LaneThreads(b.warps[v])[l])
  {
    hide Invariant, PhasedLog, Barriers;
    assert PhaseOf(b.warps[v], b.arrivals[v], b.phase);
  }

  /** While warp `w` steps: its own threads, the other warps, and the memory. */
  ghost predicate RoundInv(e: Env, b: Block, w: nat, before: seq<u8>, threads: seq<Thread>, m: Store)
    requires w < |b.warps| == |b.arrivals|
  {
    && MachineInv(e, w, b.arrivals[w], threads, m)
    && (forall v: nat | v < |b.warps| && v != w :: MachineInv(e, v, b.arrivals[v], LaneThreads(b.warps[v]), m))
    && MemoryInv(e, b.phase, before, m)
  }

  /** The block in which warp `w` takes its turn. */
  ghost predicate Turning(e: Env, b: Block, w: nat) {
    && Phased(b) && |b.warps| == |b.arrivals| == WARPS && w < WARPS && b.arrivals[w] == b.phase
    && forall v: nat | v < WARPS && b.warps[v].parked :: JustReleased(LaneThreads(b.warps[v]))
  }

  lemma AboveHolds(e: Env, b: Block, w: nat, before: seq<u8>, threads: seq<Thread>, m: Store, l: nat)
    requires Turning(e, b, w) && RoundInv(e, b, w, before, threads, m) && l < WARP_SIZE && 1 <= b.phase <= 8
    ensures Above(e, 32 * w + l, b.phase, m)
  {
    hide ThreadInv, Phased, LoadFrom, Stride, ReduceKernel.After, MemoryInv, JustReleased, Near;
    var a := b.phase;
    var t := 32 * w + l + Stride(a);
    if t < BLOCK {
      var v, k := t / 32, t % 32;
      assert t == 32 * v + k && v < WARPS;
      if v == w {
        SameIsNear(a, threads[k]);
        NeighbourWord(e, t, a, a, threads[k], m);
      } else {
        NearWarp(b, v, a, k);
        assert MachineInv(e, v, b.arrivals[v], LaneThreads(b.warps[v]), m);
        NeighbourWord(e, t, a, b.arrivals[v], LaneThreads(b.warps[v])[k], m);
      }
    }
  }

  lemma SameIsNear(a: nat, thread: Thread)
    ensures Near(a, a, thread)
  {
  }

  // ---- one instruction of one warp ----

  /** A step of thread `t` does not disturb thread `other`. */
  lemma Undisturbed(e: Env, t: nat, a: nat, other: nat, c: nat, thread: Thread, m: Store, m1: Store)
    requires Kept(e, t, a, m, m1) && ThreadInv(e, other, c, thread, m) && other != t && t < BLOCK
    ensures ThreadInv(e, other, c, thread, m1)
  {
    hide LoadFrom, StageRegs, StepRegs, ReduceKernel.After;
  }

  lemma MemoryKept(e: Env, t: nat, a: nat, before: seq<u8>, m: Store, m1: Store)
    requires Kept(e, t, a, m, m1) && MemoryInv(e, a, before, m)
    ensures MemoryInv(e, a, before, m1)
  {
    hide LoadFrom, Load32;
  }

  /** One thread of the round steps. */
  lemma LaneGood(e: Env, base: LaunchContext, b: Block, w: nat, before: seq<u8>, threads: seq<Thread>, m: Store, k: nat, pc: nat)
    requires Turning(e, b, w) && Launched(e, base) && RoundInv(e, b, w, before, threads, m) && ValidProgram(Kernel())
    requires k < WARP_SIZE && pc < SIZE && pc != 14 && pc != 24 && threads[k].Running? && threads[k].pc == pc
    ensures var s := ThreadStep(Kernel(), base.(warpId := w), k, threads[k], m);
            s.Advanced? && RoundInv(e, b, w, before, threads[k := s.thread], s.store)
  {
    hide ThreadInv, Phased, ThreadStep, Kernel, Kept, MemoryInv, Above, JustReleased;
    var ctx := base.(warpId := w);
    var t, a := 32 * w + k, b.phase;
    PlacedIn(e, base, w, k);
    if 1 <= a <= 8 { AboveHolds(e, b, w, before, threads, m, k); }
    RoundMemory(e, a, before, m);
    ThreadGood(e, t, k, ctx, a, pc, threads[k].regs, m);
    var s := ThreadStep(Kernel(), ctx, k, threads[k], m);
    MemoryKept(e, t, a, before, m, s.store);
    forall l: nat | l < WARP_SIZE && l != k ensures ThreadInv(e, 32 * w + l, a, threads[l], s.store) {
      Undisturbed(e, t, a, 32 * w + l, a, threads[l], m, s.store);
    }
    forall v: nat | v < WARPS && v != w ensures MachineInv(e, v, b.arrivals[v], LaneThreads(b.warps[v]), s.store) {
      forall l: nat | l < WARP_SIZE ensures ThreadInv(e, 32 * v + l, b.arrivals[v], LaneThreads(b.warps[v])[l], s.store) {
        assert MachineInv(e, v, b.arrivals[v], LaneThreads(b.warps[v]), m);
        Undisturbed(e, t, a, 32 * v + l, b.arrivals[v], LaneThreads(b.warps[v])[l], m, s.store);
      }
    }
  }

  lemma RoundMemory(e: Env, a: nat, before: seq<u8>, m: Store)
    requires MemoryInv(e, a, before, m)
    ensures Sized(e, m) && (a == 0 ==> InputIntact(e, m))
  {
  }

  /** The threads of a mask, all at the same instruction, step one after the other. */
  lemma {:induction false} RoundGood(e: Env, base: LaunchContext, b: Block, w: nat, before: seq<u8>, mask: Mask, k: nat, pc: nat,
                                     threads: seq<Thread>, m: Store)
    requires Turning(e, b, w) && Launched(e, base) && RoundInv(e, b, w, before, threads, m) && ValidProgram(Kernel())
    requires k <= WARP_SIZE && pc < SIZE && pc != 14 && pc != 24
    requires forall l | l in mask && l >= k :: threads[l].Running? && threads[l].pc == pc
    ensures var r := Run(Kernel(), base.(warpId := w), Ascending(mask, k), Machine(threads, m));
            && r.Some? && RoundInv(e, b, w, before, r.value.threads, r.value.store)
            && forall l: nat | l < WARP_SIZE && (l < k || l !in mask) :: r.value.threads[l] == threads[l]
    decreases WARP_SIZE - k
  {
    hide ThreadInv, Phased, ThreadStep, Kernel, Kept, MemoryInv, Turning;
    TurningShape(e, b, w);
    if k < WARP_SIZE {
      if k in mask {
        LaneGood(e, base, b, w, before, threads, m, k, pc);
        KernelSize();
        var s := ThreadStep(Kernel(), base.(warpId := w), k, threads[k], m);
        RoundGood(e, base, b, w, before, mask, k + 1, pc, threads[k := s.thread], s.store);
        assert Ascending(mask, k)[1..] == Ascending(mask, k + 1);
      } else {
        RoundGood(e, base, b, w, before, mask, k + 1, pc, threads, m);
      }
    }
  }

  lemma TurningShape(e: Env, b: Block, w: nat)
    requires Turning(e, b, w)
    ensures w < |b.warps| == |b.arrivals| == WARPS
  {
  }

  lemma KernelSize()
    ensures |Kernel()| == SIZE
  {
  }

  // ---- the stack ----

  lemma PopStackOk(s: WarpState)
    requires Partition(s) && StackOk(s) && MustPop(s)
    ensures StackOk(PopTop(s))
  {
  }

  lemma {:induction false} ResolveStackOk(s: WarpState)
    requires Partition(s) && StackOk(s)
    ensures StackOk(Resolve(s)) && Partition(Resolve(s))
    decreases Weight(s.stack)
  {
    hide StackOk, Partition, PopTop;
    if MustPop(s) {
      PopStackOk(s);
      PopKeepsLanes(s);
      PopIsLighter(s);
      ResolveStackOk(PopTop(s));
    }
  }

  lemma {:induction false} SettleStackOk(s: WarpState, n: nat)
    requires Partition(s) && StackOk(s) && n == SIZE
    ensures StackOk(Settle(s, n))
    decreases Weight(s.stack), if s.active == {} then 0 else 1
  {
    hide Partition;
    ResolveStackOk(s);
    ResolveIsLighter(s);
    var r := Resolve(s);
    if r.active != {} && r.pc >= n {
      RetireKeepsWeight(r.stack, r.active);
      RetireKeepsPartition(r, r.active);
      SettleStackOk(Retire(r, r.active), n);
    }
  }

  /** At a barrier, and wherever no branch is being executed, the warp is whole. */
  lemma WholeWarp(s: WarpState)
    requires StackOk(s) && !MustPop(s) && !(8 <= s.pc < STAGE) && !(18 <= s.pc < SKIP)
    ensures s.stack == []
  {
  }

  // ---- instructions other than barriers ----

  /** The warp `r` is about to issue; its threads and the memory are as the invariant says. */
  ghost predicate Issuing(e: Env, base: LaunchContext, b: Block, w: nat, before: seq<u8>, r: WarpState, m: Store) {
    && Turning(e, b, w) && Launched(e, base) && Ready(Kernel(), r) && !MustPop(r) && StackOk(r) && !r.parked
    && |b.warps| == |b.arrivals| && w < |b.warps| && RoundInv(e, b, w, before, LaneThreads(r), m)
  }

  lemma ActiveThreads(r: WarpState, l: nat)
    requires Ready(Kernel(), r) && l in r.active
    ensures LaneThreads(r)[l] == Running(r.pc, r.lanes[l]) && l < WARP_SIZE && r.pc < SIZE
  {
    hide Kernel;
    KernelSize();
    ActiveThread(Kernel(), r, l);
  }

  lemma KernelView(s: WarpState)
    ensures View(s, |Kernel()|) == LaneThreads(s)
  {
    KernelSize();
  }

  /** No such instruction faults, and its round keeps the invariant. */
  lemma IssueRound(e: Env, base: LaunchContext, b: Block, w: nat, before: seq<u8>, r: WarpState, m: MemoryImage)
    requires Issuing(e, base, b, w, before, r, m.store) && r.pc != 14 && r.pc != 24
    ensures var step := Issue(Kernel(), base.(warpId := w), r, m);
            step.Stepped? && RoundInv(e, b, w, before, LaneThreads(step.warp), step.memory.store)
  {
    hide Turning, RoundInv, Issue, Kernel, Code, Launched, LaneThreads, StackOk, Run, Partition, ThreadStep;
    TurningShape(e, b, w);
    var ctx := base.(warpId := w);
    var step := Issue(Kernel(), ctx, r, m);
    KernelSize();
    KernelView(r);
    forall l | l in r.active ensures LaneThreads(r)[l] == Running(r.pc, r.lanes[l]) && l < WARP_SIZE { ActiveThreads(r, l); }
    ActivePc(r);
    IssueIsRound(Kernel(), ctx, r, m);
    NotBarrier(r.pc);
    NoFault(e, base, b, w, before, r, m, step);
    KernelView(step.warp);
    RoundGood(e, base, b, w, before, r.active, 0, r.pc, LaneThreads(r), m.store);
  }

  lemma ActivePc(r: WarpState)
    requires Ready(Kernel(), r)
    ensures r.pc < SIZE && |LaneThreads(r)| == WARP_SIZE
  {
    KernelSize();
  }

  lemma NotBarrier(pc: nat)
    requires pc < SIZE && pc != 14 && pc != 24
    ensures Kernel()[pc].op != BarSync
  {
  }

  lemma NoFault(e: Env, base: LaunchContext, b: Block, w: nat, before: seq<u8>, r: WarpState, m: MemoryImage, step: StepResult)
    requires Issuing(e, base, b, w, before, r, m.store) && r.pc < SIZE && r.pc != 14 && r.pc != 24
    requires IssueRefines(Kernel(), base.(warpId := w), r, m, step) && Kernel()[r.pc].op != BarSync
    ensures step.Stepped?
  {
    hide Turning, RoundInv, Kernel, Code, Launched, LaneThreads, StackOk, Run, Partition, ThreadStep;
    TurningShape(e, b, w);
    var ctx := base.(warpId := w);
    KernelView(r);
    ActivePc(r);
    forall l | l in r.active ensures LaneThreads(r)[l] == Running(r.pc, r.lanes[l]) && l < WARP_SIZE { ActiveThreads(r, l); }
    if step.Faulted? {
      var lane := step.fault.lane;
      var mask := r.active - FromLane(lane);
      RoundGood(e, base, b, w, before, mask, 0, r.pc, LaneThreads(r), m.store);
      InFromLane(lane);
      var mid := Run(Kernel(), ctx, Ascending(mask, 0), Machine(LaneThreads(r), m.store)).value;
      LaneGood(e, base, b, w, before, mid.threads, mid.store, lane, r.pc);
    }
  }

  lemma InFromLane(lane: nat)
    ensures lane < WARP_SIZE ==> lane in FromLane(lane)
  {
  }

  // ---- what an issue does to the stack ----

  lemma PlainStack(i: Instruction, r: WarpState, ctx: LaunchContext, m: MemoryImage)
    requires ValidProgram(Kernel()) && r.pc < SIZE && Kernel()[r.pc] == i && i.op != Bra && i.op != Exit && i.op != BarSync
    requires Issue(Kernel(), ctx, r, m).Stepped?
    ensures var s := Issue(Kernel(), ctx, r, m).warp;
            s.stack == r.stack && s.active == r.active && s.pc == NextPc(r.pc) && s.parked == r.parked
    ensures Issue(Kernel(), ctx, r, m).outcome == Issued
  {
    hide SweepFrom, Observe, AluBank, Exec, Code;
  }

  lemma BranchStackOk(e: Env, base: LaunchContext, b: Block, w: nat, before: seq<u8>, r: WarpState, m: MemoryImage)
    requires Issuing(e, base, b, w, before, r, m.store) && r.pc in {7, 17, 27} && r.stack == []
    ensures var step := Issue(Kernel(), base.(warpId := w), r, m);
            step.Stepped? && step.outcome == Issued && StackOk(step.warp) && !step.warp.parked
  {
    hide Kernel, Turning, RoundInv, Exec, Launched, Partition, Code;
    BranchCode(r.pc);
    KernelCode(r.pc);
    var i := Code(r.pc);
    var exec := Exec(i, r);
    if r.pc == 27 { UniformBranch(e, base, b, w, before, r, m.store); }
    ExecActive(i, r);
    NothingLeft(r.active, exec);
    SameLanes(i, r);
  }

  lemma ExecActive(i: Instruction, s: WarpState)
    requires Valid(i)
    ensures Exec(i, s) <= s.active
  {
  }

  lemma SameLanes(i: Instruction, s: WarpState)
    requires Valid(i)
    ensures forall x: Mask, op: Opcode :: Exec(i, s.(lastExec := x, lastOp := op)) == Exec(i, s)
  {
  }

  lemma KernelCode(pc: nat)
    requires pc < SIZE
    ensures |Kernel()| == SIZE && Kernel()[pc] == Code(pc)
  {
  }

  /** The loop branch is taken by all lanes or by none: they are in the same step. */
  lemma UniformBranch(e: Env, base: LaunchContext, b: Block, w: nat, before: seq<u8>, r: WarpState, m: Store)
    requires Issuing(e, base, b, w, before, r, m) && r.pc == 27
    ensures Valid(Code(r.pc)) && (Exec(Code(r.pc), r) == {} || Exec(Code(r.pc), r) == r.active)
  {
    hide Kernel, Launched, Partition, Word, Framed, InputIntact, LoadFrom, Phased, Sized, Stride;
    CodeValid(27);
    BranchCode(27);
    var a := b.arrivals[w];
    var first :| first in r.active;
    ActiveThreads(r, first);
    assert ThreadInv(e, 32 * w + first, a, LaneThreads(r)[first], m);
    forall l | l in r.active ensures r.lanes[l].preds[2] <==> Stride(a) > 0 {
      ActiveThreads(r, l);
      assert ThreadInv(e, 32 * w + l, a, LaneThreads(r)[l], m);
    }
    GuardByPred(r, Code(27), 2);
    if Stride(a) > 0 {
      assert Exec(Code(27), r) == r.active;
    } else {
      assert Exec(Code(27), r) == {};
    }
  }

  lemma GuardByPred(r: WarpState, i: Instruction, p: u8)
    requires Valid(i) && i.guard == Guard(true, false, p) && p < PREDICATE_REGISTERS
    ensures forall l | l in r.active :: l in Exec(i, r) <==> r.lanes[l].preds[p]
  {
  }

  lemma ExitStack(base: LaunchContext, w: nat, r: WarpState, m: MemoryImage)
    requires ValidProgram(Kernel()) && r.pc < SIZE && Kernel()[r.pc].op == Exit && r.stack == []
    ensures |Kernel()| == SIZE
    ensures var step := Issue(Kernel(), base.(warpId := w), r, m);
            step.Stepped? && step.outcome == Issued && step.warp.stack == [] && step.warp.parked == r.parked
  {
    hide Exec, Kernel, Code;
    KernelSize();
    ExecActive(Kernel()[r.pc], r);
  }

  lemma ExitCode(pc: nat)
    requires pc in {29, 36}
    ensures Code(pc).op == Exit
  {
  }

  /** An instruction that is not a barrier keeps the stack in order and the warp running. */
  lemma IssueStackOk(e: Env, base: LaunchContext, b: Block, w: nat, before: seq<u8>, r: WarpState, m: MemoryImage)
    requires Issuing(e, base, b, w, before, r, m.store) && r.pc != 14 && r.pc != 24
    requires Issue(Kernel(), base.(warpId := w), r, m).Stepped?
    ensures var step := Issue(Kernel(), base.(warpId := w), r, m);
            step.outcome == Issued && StackOk(step.warp) && !step.warp.parked
  {
    hide Kernel, Turning, RoundInv, Launched, Partition, Issue, Code;
    ActivePc(r);
    KernelCode(r.pc);
    if r.pc in {7, 17, 27} {
      WholeWarp(r);
      BranchStackOk(e, base, b, w, before, r, m);
    } else if r.pc in {29, 36} {
      WholeWarp(r);
      ExitCode(r.pc);
      ExitStack(base, w, r, m);
    } else {
      OtherCode(r.pc);
      PlainStack(Code(r.pc), r, base.(warpId := w), m);
    }
  }

  lemma OtherCode(pc: nat)
    requires pc < SIZE && pc !in {7, 14, 17, 24, 27, 29, 36}
    ensures Code(pc).op != Bra && Code(pc).op != Exit && Code(pc).op != BarSync
  {
  }

  // ---- barriers ----

  /** Passing a barrier begins the next step. */
  lemma BarrierThread(e: Env, t: nat, a: nat, pc: u16, r: Lane, m: Store)
    requires pc in {14, 24} && ThreadInv(e, t, a, Running(pc, r), m)
    ensures ThreadInv(e, t, a + 1, Running(pc + 1, r), m)
  {
    hide LoadFrom, ReduceKernel.After, Stride;
  }

  lemma NoneRetired(e: Env, t: nat, a: nat, pc: u16, r: Lane, m: Store)
    requires pc in {14, 24} && ThreadInv(e, t, a, Running(pc, r), m)
    ensures a <= 8
  {
  }

  lemma ViewActive(s: WarpState, l: nat)
    requires l in s.active && s.active == s.live && s.pc < SIZE
    ensures l < WARP_SIZE && LaneThreads(s)[l] == Running(s.pc, s.lanes[l])
  {
  }

  lemma BarrierThreads(e: Env, w: nat, a: nat, r: WarpState, s: WarpState, m: Store)
    requires r.pc in {14, 24} && r.active == r.live == s.live == s.active && r.active != {}
    requires s.pc == r.pc + 1 && s.lanes == r.lanes
    requires MachineInv(e, w, a, LaneThreads(r), m)
    ensures MachineInv(e, w, a + 1, LaneThreads(s), m) && JustReleased(LaneThreads(s))
  {
    hide LaneThreads, ThreadInv;
    var first :| first in r.active;
    ViewActive(r, first);
    assert ThreadInv(e, 32 * w + first, a, LaneThreads(r)[first], m);
    NoneRetired(e, 32 * w + first, a, r.pc, r.lanes[first], m);
    ThreadCount(s);
    forall l: nat | l < WARP_SIZE
      ensures LaneThreads(s)[l] == Running(r.pc + 1, r.lanes[l])
      ensures ThreadInv(e, 32 * w + l, a + 1, LaneThreads(s)[l], m)
    {
      LiveBefore(e, w, a, r, l, m);
      ViewActive(r, l);
      ViewActive(s, l);
      assert ThreadInv(e, 32 * w + l, a, LaneThreads(r)[l], m);
      BarrierThread(e, 32 * w + l, a, r.pc, r.lanes[l], m);
    }
  }

  lemma ThreadCount(s: WarpState)
    ensures |LaneThreads(s)| == WARP_SIZE
  {
  }

  lemma BarrierIssue(e: Env, base: LaunchContext, b: Block, w: nat, before: seq<u8>, r: WarpState, m: MemoryImage)
    requires Issuing(e, base, b, w, before, r, m.store) && r.pc in {14, 24}
    ensures var step := Issue(Kernel(), base.(warpId := w), r, m);
            && step.Stepped? && step.outcome == Barrier && step.memory == m
            && StackOk(step.warp) && JustReleased(LaneThreads(step.warp))
            && MachineInv(e, w, b.arrivals[w] + 1, LaneThreads(step.warp), m.store)
  {
    hide Kernel, Turning, Launched, Code, MachineInv, JustReleased, LaneThreads, Issue, Partition;
    WholeWarp(r);
    StackEmptyIffWhole(r);
    KernelCode(r.pc);
    BarrierCode(r.pc);
    BarrierStep(base.(warpId := w), r, m);
    BarrierThreads(e, w, b.arrivals[w], r, Issue(Kernel(), base.(warpId := w), r, m).warp, m.store);
  }

  /** Before the last barrier no thread has retired. */
  lemma LiveBefore(e: Env, w: nat, a: nat, r: WarpState, l: nat, m: Store)
    requires MachineInv(e, w, a, LaneThreads(r), m) && a <= 8 && l < WARP_SIZE && r.active == r.live
    ensures l in r.active
  {
    hide Regs, Word, ResultStored;
    assert ThreadInv(e, 32 * w + l, a, LaneThreads(r)[l], m);
  }

  lemma BarrierCode(pc: nat)
    requires pc in {14, 24}
    ensures Code(pc).op == BarSync
  {
  }

  lemma BarrierStep(ctx: LaunchContext, r: WarpState, m: MemoryImage)
    requires ValidProgram(Kernel()) && r.pc < SIZE && |Kernel()| == SIZE && Kernel()[r.pc].op == BarSync && r.active == r.live
    ensures var step := Issue(Kernel(), ctx, r, m);
            && step.Stepped? && step.outcome == Barrier && step.memory == m
            && step.warp.pc == r.pc + 1 && step.warp.live == r.live && step.warp.active == r.active
            && step.warp.stack == r.stack && step.warp.lanes == r.lanes && step.warp.parked
  {
    hide Kernel, Exec, Code;
  }

  // ---- a turn ----

  lemma TurnReady(e: Env, base: LaunchContext, b: Block, w: nat, before: seq<u8>)
    requires BlockInv(e, b, before) && w < WARPS && Runnable(b.warps[w])
    ensures |b.warps| == |b.arrivals| && Turning(e, b, w) && Invariant(b.warps[w])
    ensures RoundInv(e, b, w, before, LaneThreads(b.warps[w]), b.memory.store)
  {
    hide Invariant, PhasedLog, Barriers, MachineInv, MemoryInv, StackOk, JustReleased, LaneThreads;
    assert PhaseOf(b.warps[w], b.arrivals[w], b.phase);
    OtherWarps(e, b, w, before);
    OwnWarp(e, b, w, before);
    forall v: nat | v < WARPS && b.warps[v].parked ensures JustReleased(LaneThreads(b.warps[v])) {
      assert WarpInv(e, b, v, b.memory.store);
    }
  }

  /** The settled warp is ready to issue, or has no thread left. */
  lemma SettledWarp(e: Env, base: LaunchContext, b: Block, w: nat, before: seq<u8>)
    requires BlockInv(e, b, before) && Launched(e, base) && w < WARPS && Runnable(b.warps[w]) && ValidProgram(Kernel())
    ensures var s := b.warps[w]; var r := Settle(s, SIZE); var step := Step(Kernel(), base.(warpId := w), s, b.memory);
            && StackOk(r) && LaneThreads(r) == LaneThreads(s)
            && (step == Stepped(Finished, r, b.memory)
                || (Issuing(e, base, b, w, before, r, b.memory.store) && step == Issue(Kernel(), base.(warpId := w), r, b.memory)))
  {
    hide Kernel, Phased, ThreadInv, MemoryInv, Issue, StackOk, Turning, RoundInv, IssueRefines, AllRetired, Launched, Settle;
    TurnReady(e, base, b, w, before);
    var s := b.warps[w];
    var r := Settle(s, SIZE);
    KernelSize();
    KernelView(s);
    KernelView(r);
    assert WarpInv(e, b, w, b.memory.store);
    SettleStackOk(s, SIZE);
    SettleReady(s, SIZE);
    SettleKeepsParked(s, SIZE);
    StepOutcome(Kernel(), base.(warpId := w), s, b.memory);
  }

  /** The block after warp `w` has moved to `s`, the memory to `m`, and `w` has issued `a` barriers. */
  lemma Reassemble(e: Env, b: Block, w: nat, before: seq<u8>, s: WarpState, m: MemoryImage, b1: Block)
    requires Phased(b) && |b.warps| == WARPS && w < WARPS && Phased(b1)
    requires b1.warps == b.warps[w := s] && b1.memory == m && b1.phase == b.phase
    requires forall v: nat | v < WARPS && v != w :: b1.arrivals[v] == b.arrivals[v] && WarpInv(e, b, v, b.memory.store)
    requires forall v: nat | v < WARPS && v != w :: MachineInv(e, v, b.arrivals[v], LaneThreads(b.warps[v]), m.store)
    requires MachineInv(e, w, b1.arrivals[w], LaneThreads(s), m.store) && StackOk(s) && (s.parked ==> JustReleased(LaneThreads(s)))
    requires MemoryInv(e, b.phase, before, m.store)
    ensures BlockInv(e, b1, before)
  {
    hide MachineInv, StackOk, MemoryInv, JustReleased, Invariant, PhasedLog, PhaseOf, Barriers, LaneThreads;
    forall v: nat | v < WARPS ensures WarpInv(e, b1, v, m.store) {
      if v != w { assert WarpInv(e, b, v, b.memory.store); }
    }
  }

  lemma OtherWarps(e: Env, b: Block, w: nat, before: seq<u8>)
    requires BlockInv(e, b, before) && w < WARPS
    ensures |b.arrivals| == WARPS
    ensures forall v: nat | v < WARPS && v != w :: WarpInv(e, b, v, b.memory.store)
    ensures forall v: nat | v < WARPS && v != w :: MachineInv(e, v, b.arrivals[v], LaneThreads(b.warps[v]), b.memory.store)
    ensures MemoryInv(e, b.phase, before, b.memory.store)
  {
    hide MachineInv, StackOk, MemoryInv, JustReleased, Invariant, PhasedLog, PhaseOf, Barriers, LaneThreads;
    forall v: nat | v < WARPS && v != w
      ensures WarpInv(e, b, v, b.memory.store)
      ensures MachineInv(e, v, b.arrivals[v], LaneThreads(b.warps[v]), b.memory.store)
    {
      assert WarpInv(e, b, v, b.memory.store);
    }
  }

  /** No turn faults, and every turn keeps the invariant of the block. */
  lemma TurnKeeps(e: Env, base: LaunchContext, b: Block, w: nat, before: seq<u8>)
    requires BlockInv(e, b, before) && Launched(e, base) && w < WARPS && ValidProgram(Kernel())
    ensures Phased(b) && Turn(Kernel(), base, b, w).Going? && BlockInv(e, Turn(Kernel(), base, b, w).block, before)
  {
    hide Kernel, MachineInv, MemoryInv, StackOk, JustReleased, Phased, Issue, Step, Settle, Record, Launched, LaneThreads, Turning;
    BlockShape(e, b, before);
    TurnPhased(Kernel(), base, b, w);
    if Runnable(b.warps[w]) {
      var ctx := base.(warpId := w);
      var s := b.warps[w];
      var r := Settle(s, SIZE);
      SettledWarp(e, base, b, w, before);
      OtherWarps(e, b, w, before);
      OwnWarp(e, b, w, before);
      TurnStatus(b, w, ctx);
      var step := Step(Kernel(), ctx, s, b.memory);
      if step == Stepped(Finished, r, b.memory) {
        Reassemble(e, b, w, before, r, b.memory, Turn(Kernel(), base, b, w).block);
      } else if r.pc in {14, 24} {
        BarrierIssue(e, base, b, w, before, r, b.memory);
        RecordAll(b, w, Barrier, step.warp, b.memory);
        Reassemble(e, b, w, before, step.warp, b.memory, Turn(Kernel(), base, b, w).block);
      } else {
        IssueRound(e, base, b, w, before, r, b.memory);
        IssueStackOk(e, base, b, w, before, r, b.memory);
        RecordAll(b, w, Issued, step.warp, step.memory);
        Reassemble(e, b, w, before, step.warp, step.memory, Turn(Kernel(), base, b, w).block);
      }
    }
  }

  lemma BlockShape(e: Env, b: Block, before: seq<u8>)
    requires BlockInv(e, b, before)
    ensures Phased(b) && Scheduling.Shaped(b) && |b.warps| == |b.arrivals| == WARPS
  {
  }

  lemma OwnWarp(e: Env, b: Block, w: nat, before: seq<u8>)
    requires BlockInv(e, b, before) && w < WARPS
    ensures |b.arrivals| == WARPS && MachineInv(e, w, b.arrivals[w], LaneThreads(b.warps[w]), b.memory.store)
  {
    hide MachineInv, StackOk, MemoryInv, JustReleased, Invariant, PhasedLog, PhaseOf, Barriers, LaneThreads;
    assert WarpInv(e, b, w, b.memory.store);
  }

  lemma TurnStatus(b: Block, w: nat, ctx: LaunchContext)
    requires Phased(b) && w < |b.warps| && Runnable(b.warps[w]) && ValidProgram(Kernel())
    ensures StatusAfter(b.warps[w], Step(Kernel(), ctx, b.warps[w], b.memory))
  {
    hide Kernel, Step, Invariant, PhasedLog, PhaseOf, Barriers;
    assert Invariant(b.warps[w]);
    StepStatus(Kernel(), ctx, b.warps[w], b.memory);
  }

  lemma RecordAll(b: Block, w: nat, outcome: Outcome, s: WarpState, m: MemoryImage)
    requires Scheduling.Shaped(b) && w < |b.warps|
    ensures var b1 := Record(b, w, outcome, s, m);
            && b1.warps == b.warps[w := s] && b1.memory == m && b1.phase == b.phase && |b1.arrivals| == |b.arrivals|
            && b1.arrivals[w] == b.arrivals[w] + (if outcome == Barrier then 1 else 0)
            && forall v | 0 <= v < |b.arrivals| && v != w :: b1.arrivals[v] == b.arrivals[v]
  {
  }

  // ---- whole blocks ----

  lemma {:induction false} PassKeeps(e: Env, base: LaunchContext, b: Block, w: nat, before: seq<u8>)
    requires BlockInv(e, b, before) && Launched(e, base) && w <= WARPS && ValidProgram(Kernel())
    ensures Scheduling.Shaped(b) && |b.warps| == WARPS
    ensures Pass(Kernel(), base, b, w).Going? && BlockInv(e, Pass(Kernel(), base, b, w).block, before)
    decreases WARPS - w
  {
    hide Kernel, BlockInv, Turn, Launched;
    BlockShape(e, b, before);
    if w < WARPS {
      TurnKeeps(e, base, b, w, before);
      PassKeeps(e, base, Turn(Kernel(), base, b, w).block, w + 1, before);
    }
  }

  lemma ReleaseKeeps(e: Env, b: Block, before: seq<u8>)
    requires BlockInv(e, b, before) && AllParked(b) && !AllFinished(b)
    ensures Scheduling.Shaped(b) && BlockInv(e, Release(b), before)
  {
    hide MachineInv, Invariant, PhasedLog, PhaseOf, Barriers, Sized, InputIntact, Framed;
    BlockShape(e, b, before);
    ReleasePhased(b);
    var b1 := Release(b);
    forall w: nat | w < WARPS ensures WarpInv(e, b1, w, b1.memory.store) {
      assert WarpInv(e, b, w, b.memory.store);
      assert LaneThreads(b1.warps[w]) == LaneThreads(b.warps[w]);
    }
  }

  ghost predicate Outcome(e: Env, r: BlockResult, before: seq<u8>) {
    match r
    case Completed(b) => BlockInv(e, b, before) && ResultStored(e, b.memory.store)
    case OutOfFuel(b) => BlockInv(e, b, before)
    case BlockFault(_, _) => false
    case NoProgress(_) => false
  }

  lemma FinishedStored(e: Env, b: Block, before: seq<u8>)
    requires BlockInv(e, b, before) && AllFinished(b)
    ensures ResultStored(e, b.memory.store)
  {
    hide Phased, MemoryInv, StackOk, JustReleased, ResultStored, Regs, Word;
    BlockShape(e, b, before);
    assert WarpInv(e, b, 0, b.memory.store);
    assert b.warps[0].live == {};
    assert ThreadInv(e, 0, b.arrivals[0], LaneThreads(b.warps[0])[0], b.memory.store);
  }

  /** Whatever the fuel, no warp faults and every intermediate block satisfies the invariant; when the block
      completes, the result is stored. */
  lemma {:induction false} BlockOutcomeIs(e: Env, base: LaunchContext, b: Block, before: seq<u8>, fuel: nat)
    requires BlockInv(e, b, before) && Launched(e, base) && ValidProgram(Kernel())
    ensures Scheduling.Shaped(b) && Outcome(e, RunBlock(Kernel(), base, b, fuel), before)
    decreases fuel
  {
    hide Kernel, BlockInv, Pass, Release, Launched, AllFinished, AllParked, AnyRunnable, ResultStored;
    BlockShape(e, b, before);
    if fuel > 0 {
      PassKeeps(e, base, b, 0, before);
      var b1 := Pass(Kernel(), base, b, 0).block;
      if AllFinished(b1) {
        FinishedStored(e, b1, before);
      } else if AllParked(b1) {
        ReleaseKeeps(e, b1, before);
        BlockOutcomeIs(e, base, Release(b1), before, fuel - 1);
      } else {
        ProgressMade(Kernel(), base, b);
        BlockOutcomeIs(e, base, b1, before, fuel - 1);
      }
    }
  }

  // ---- the start ----

  lemma FirstWarps(lanes: u32)
    requires lanes == BLOCK
    ensures WarpCount(lanes) == WARPS
    ensures forall w: nat, l: nat | w < WARPS && l < WARP_SIZE :: l in LiveLanes(lanes, w)
  {
  }

  lemma FirstView(live: Mask, l: nat)
    requires l in live
    ensures l < WARP_SIZE && LaneThreads(InitialWarp(live))[l] == Running(0, ZeroLane())
  {
  }

  lemma FirstThreads(e: Env, w: nat, live: Mask, m: Store)
    requires w < WARPS && forall l: nat | l < WARP_SIZE :: l in live
    ensures MachineInv(e, w, 0, LaneThreads(InitialWarp(live)), m)
  {
    hide Word, LaneThreads, InitialWarp;
    ThreadCount(InitialWarp(live));
    forall l: nat | l < WARP_SIZE ensures ThreadInv(e, 32 * w + l, 0, LaneThreads(InitialWarp(live))[l], m) {
      FirstView(live, l);
      NothingStored(e, 32 * w + l, m);
    }
  }

  lemma NothingStored(e: Env, t: nat, m: Store)
    requires t < BLOCK
    ensures Word(e, t, 0, 0, m)
  {
  }

  lemma StartInv(e: Env, lanes: u32, m: MemoryImage, c: Counters)
    requires lanes == BLOCK && |c.histogram| == WARP_SIZE + 1
    requires Sized(e, m.store) && InputIntact(e, m.store)
    ensures BlockInv(e, InitialBlock(lanes, m, c), m.store.global)
  {
    hide MachineInv, Sized, InputIntact, Phased, LiveLanes, LaneThreads;
    FirstWarps(lanes);
    InitialBlockPhased(lanes, m, c);
    var b := InitialBlock(lanes, m, c);
    forall w: nat | w < WARPS ensures WarpInv(e, b, w, m.store) {
      FirstThreads(e, w, LiveLanes(lanes, w), m.store);
    }
  }

  /** For every input, and every block of the grid: a block of 256 lanes never faults, and when it completes
      the result word holds the wrapped sum of the block's part of the input, and no other word of global
      memory has changed. */
  lemma ReduceBlock(e: Env, base: LaunchContext, lanes: u32, m: MemoryImage, c: Counters, fuel: nat)
    requires lanes == BLOCK && |c.histogram| == WARP_SIZE + 1 && Launched(e, base)
    requires Sized(e, m.store) && InputIntact(e, m.store)
    ensures ValidProgram(Kernel())
    ensures e.partial + 4 * e.block < 0x1_0000_0000
    ensures match RunBlock(Kernel(), base, InitialBlock(lanes, m, c), fuel)
            case Completed(b) =>
              && LoadFrom(b.memory.store, Global, e.partial + 4 * e.block) == Ok(BlockSum(e.input, e.block))
              && Framed(e, m.store.global, b.memory.store)
            case OutOfFuel(_) => true
            case BlockFault(_, _) => false
            case NoProgress(_) => false
  {
    hide Kernel, RunBlock, Level, Cells, LoadFrom, InitialBlock, Framed, BlockSum, InputIntact, Launched;
    KernelValid();
    StartInv(e, lanes, m, c);
    BlockOutcomeIs(e, base, InitialBlock(lanes, m, c), m.store.global, fuel);
    LastLevel(e.input, e.block);
    CellsAre(e);
  }
}
