/** The reduction kernel ends: every issue brings some thread closer to the end of the program, so a block
    completes within a fixed number of rounds. */
module ReduceTermination {
  import opened Isa
  import opened Alu
  import opened Memory
  import opened WarpSpec
  import opened Threads
  import opened Refinement
  import opened WarpRuns
  import opened Scheduling
  import ReductionSums
  import opened ReduceKernel
  import opened ReduceProof
  import ReduceAnnotation

  /** The length of the kernel with its loop unrolled, counting each turn of the loop as 16 instructions. */
  const LENGTH: nat := 156

  /** Enough rounds for a block: every thread has at most `LENGTH` steps to take, and every warp has to finish. */
  const ROUNDS: nat := WARPS * (WARP_SIZE * LENGTH + 1)

  /** Where a thread that has issued `a` barriers is in the unrolled kernel. */
  function Position(a: nat, pc: nat): nat {
    if pc <= 15 then pc
    else if pc <= 24 then 16 * a + pc - 13
    else if pc <= 27 then 16 * a + pc - 25
    else pc + 119
  }

  /** How far a thread is from its end. */
  function Distance(a: nat, thread: Thread): (d: nat)
    ensures d <= LENGTH
  {
    if thread.Retired? || Position(a, thread.pc) >= LENGTH then 0 else LENGTH - Position(a, thread.pc)
  }

  // ---- one thread ----

  lemma NextOf(program: seq<Instruction>, ctx: LaunchContext, lane: nat, pc: u16, r: Lane, m: Store)
    requires ValidProgram(program) && lane < WARP_SIZE && pc < |program| < 0x1_0000
    ensures match ThreadStep(program, ctx, lane, Running(pc, r), m)
            case Advanced(Running(next, _), _) => next == pc + 1 || (program[pc].op == Bra && next == program[pc].Target())
            case _ => true
  {
    hide AluLane, AccessLane;
  }

  /** The registers of a thread say in which turn of the loop it can be. */
  lemma MovesOn(e: Env, t: nat, a: nat, pc: nat, r: Lane, next: nat, r1: Lane)
    requires Regs(e, t, a, pc, r) && Regs(e, t, a, next, r1) && pc != 14 && pc != 24
    requires next == pc + 1 || (pc == 7 && next == STAGE) || (pc == 17 && next == SKIP) || (pc == 27 && next == LOOP)
    ensures Position(a, pc) < Position(a, next) < LENGTH
  {
    hide StageRegs, ReduceKernel.After, ReductionSums.Stride;
  }

  lemma PositionInKernel(e: Env, t: nat, a: nat, pc: nat, r: Lane)
    requires Regs(e, t, a, pc, r)
    ensures Position(a, pc) < LENGTH
  {
    hide StageRegs, ReduceKernel.After, ReductionSums.Stride;
  }

  /** A step that is not a barrier brings its thread closer to its end. */
  lemma ThreadCloser(e: Env, t: nat, lane: nat, ctx: LaunchContext, a: nat, thread: Thread, m: Store)
    requires thread.Running? && thread.pc < SIZE && thread.pc != 14 && thread.pc != 24 && ThreadInv(e, t, a, thread, m)
    requires ValidProgram(Kernel()) && lane < WARP_SIZE
    requires var s := ThreadStep(Kernel(), ctx, lane, thread, m); s.Advanced? && ThreadInv(e, t, a, s.thread, s.store)
    ensures Distance(a, ThreadStep(Kernel(), ctx, lane, thread, m).thread) < Distance(a, thread)
  {
    hide Kernel, Code, ThreadStep, Regs, Word, ResultStored, LoadFrom, Position;
    KernelCode(thread.pc);
    NextOf(Kernel(), ctx, lane, thread.pc, thread.regs, m);
    PositionInKernel(e, t, a, thread.pc, thread.regs);
    var s := ThreadStep(Kernel(), ctx, lane, thread, m);
    if s.thread.Running? {
      if Code(thread.pc).op == Bra {
        ReduceAnnotation.OnlyBranches(thread.pc);
        BranchCode(thread.pc);
      }
      MovesOn(e, t, a, thread.pc, thread.regs, s.thread.pc, s.thread.regs);
    }
  }

  // ---- one warp ----

  /** No thread is further from its end than it was, and those of a mask are closer. */
  ghost predicate Closer(a: nat, threads: seq<Thread>, a1: nat, after: seq<Thread>, mask: Mask) {
    && |threads| == |after| == WARP_SIZE
    && (forall l | 0 <= l < WARP_SIZE :: Distance(a1, after[l]) <= Distance(a, threads[l]))
    && (forall l | l in mask && 0 <= l < WARP_SIZE :: Distance(a1, after[l]) < Distance(a, threads[l]))
  }

  lemma {:induction false} RoundCloser(e: Env, base: LaunchContext, b: Block, w: nat, before: seq<u8>, mask: Mask, k: nat, pc: nat,
                                       threads: seq<Thread>, m: Store)
    requires Turning(e, b, w) && Launched(e, base) && RoundInv(e, b, w, before, threads, m) && ValidProgram(Kernel())
    requires k <= WARP_SIZE && pc < SIZE && pc != 14 && pc != 24
    requires forall l | l in mask && l >= k :: threads[l].Running? && threads[l].pc == pc
    ensures var r := Run(Kernel(), base.(warpId := w), Ascending(mask, k), Machine(threads, m));
            r.Some? && Closer(b.phase, threads, b.phase, r.value.threads, set l | l in mask && l >= k)
    decreases WARP_SIZE - k
  {
    hide ThreadInv, Phased, ThreadStep, Kernel, Kept, MemoryInv, Turning, Distance;
    TurningShape(e, b, w);
    RoundThreads(e, b, w, before, threads, m);
    if k < WARP_SIZE {
      if k in mask {
        var ctx := base.(warpId := w);
        LaneGood(e, base, b, w, before, threads, m, k, pc);
        KernelSize();
        var s := ThreadStep(Kernel(), ctx, k, threads[k], m);
        RoundThreads(e, b, w, before, threads[k := s.thread], s.store);
        assert threads[k := s.thread][k] == s.thread;
        ThreadCloser(e, 32 * w + k, k, ctx, b.phase, threads[k], m);
        RoundCloser(e, base, b, w, before, mask, k + 1, pc, threads[k := s.thread], s.store);
        assert Ascending(mask, k)[1..] == Ascending(mask, k + 1);
      } else {
        RoundCloser(e, base, b, w, before, mask, k + 1, pc, threads, m);
      }
    }
  }

  lemma RoundThreads(e: Env, b: Block, w: nat, before: seq<u8>, threads: seq<Thread>, m: Store)
    requires Turning(e, b, w) && w < |b.warps| == |b.arrivals| && RoundInv(e, b, w, before, threads, m)
    ensures |threads| == WARP_SIZE && forall l: nat | l < WARP_SIZE :: ThreadInv(e, 32 * w + l, b.phase, threads[l], m)
  {
    hide ThreadInv, Phased, MemoryInv, JustReleased;
  }

  /** An instruction that is not a barrier brings the active threads closer. */
  lemma IssueCloser(e: Env, base: LaunchContext, b: Block, w: nat, before: seq<u8>, r: WarpState, m: MemoryImage)
    requires Issuing(e, base, b, w, before, r, m.store) && r.pc != 14 && r.pc != 24
    ensures var step := Issue(Kernel(), base.(warpId := w), r, m);
            step.Stepped? && Closer(b.phase, LaneThreads(r), b.phase, LaneThreads(step.warp), r.active)
  {
    hide Turning, RoundInv, Issue, Kernel, Code, Launched, LaneThreads, StackOk, Run, Partition, ThreadStep, Distance;
    var ctx := base.(warpId := w);
    var step := Issue(Kernel(), ctx, r, m);
    KernelSize();
    KernelView(r);
    forall l | l in r.active ensures LaneThreads(r)[l] == Running(r.pc, r.lanes[l]) && l < WARP_SIZE { ActiveThreads(r, l); }
    ActivePc(r);
    IssueIsRound(Kernel(), ctx, r, m);
    NotBarrier(r.pc);
    IssueRound(e, base, b, w, before, r, m);
    KernelView(step.warp);
    RoundCloser(e, base, b, w, before, r.active, 0, r.pc, LaneThreads(r), m.store);
  }

  lemma PastBarrier(a: nat, pc: u16, r: Lane)
    requires (pc == 14 && a == 0) || (pc == 24 && a <= 8)
    ensures Distance(a + 1, Running(pc + 1, r)) < Distance(a, Running(pc, r))
  {
  }

  /** So does a barrier, which all threads of the warp pass together. */
  lemma BarrierCloser(e: Env, base: LaunchContext, b: Block, w: nat, before: seq<u8>, r: WarpState, m: MemoryImage)
    requires Issuing(e, base, b, w, before, r, m.store) && r.pc in {14, 24}
    ensures var step := Issue(Kernel(), base.(warpId := w), r, m);
            step.Stepped? && Closer(b.phase, LaneThreads(r), b.phase + 1, LaneThreads(step.warp), r.active)
  {
    hide Kernel, Turning, Launched, Code, ThreadInv, JustReleased, LaneThreads, Issue, Partition, Distance, MemoryInv;
    var a := b.phase;
    WholeWarp(r);
    StackEmptyIffWhole(r);
    KernelCode(r.pc);
    BarrierCode(r.pc);
    BarrierStep(base.(warpId := w), r, m);
    var s := Issue(Kernel(), base.(warpId := w), r, m).warp;
    RoundThreads(e, b, w, before, LaneThreads(r), m.store);
    ThreadCount(s);
    var first :| first in r.active;
    ViewActive(r, first);
    AtBarrier(e, 32 * w + first, a, r.pc, r.lanes[first], m.store);
    forall l: nat | l < WARP_SIZE ensures Distance(a + 1, LaneThreads(s)[l]) < Distance(a, LaneThreads(r)[l]) {
      BarrierInv(e, b, w, before, r, m.store);
      LiveBefore(e, w, a, r, l, m.store);
      ViewActive(r, l);
      ViewActive(s, l);
      PastBarrier(a, r.pc, r.lanes[l]);
    }
  }

  lemma BarrierInv(e: Env, b: Block, w: nat, before: seq<u8>, r: WarpState, m: Store)
    requires Turning(e, b, w) && w < |b.warps| == |b.arrivals| && RoundInv(e, b, w, before, LaneThreads(r), m)
    ensures MachineInv(e, w, b.phase, LaneThreads(r), m)
  {
    hide MachineInv, Phased, MemoryInv, JustReleased, LaneThreads;
  }

  lemma AtBarrier(e: Env, t: nat, a: nat, pc: u16, r: Lane, m: Store)
    requires pc in {14, 24} && ThreadInv(e, t, a, Running(pc, r), m)
    ensures (pc == 14 && a == 0) || (pc == 24 && a <= 8)
  {
  }

  // ---- the warps of a block ----

  ghost function Distances(a: nat, threads: seq<Thread>): (d: seq<nat>)
    ensures |d| == |threads| && forall l | 0 <= l < |d| :: d[l] == Distance(a, threads[l])
  {
    seq(|threads|, l requires 0 <= l < |threads| => Distance(a, threads[l]))
  }

  /** The steps warp `w` may still take, and one for its end. */
  ghost function WarpDistance(b: Block, w: nat): nat
    requires w < |b.warps| == |b.arrivals|
  {
    Sum(Distances(b.arrivals[w], LaneThreads(b.warps[w]))) + (if b.warps[w].live == {} then 0 else 1)
  }

  ghost function WarpDistances(b: Block): (d: seq<nat>)
    requires |b.warps| == |b.arrivals|
    ensures |d| == |b.warps| && forall w | 0 <= w < |d| :: d[w] == WarpDistance(b, w)
  {
    seq(|b.warps|, w requires 0 <= w < |b.warps| => WarpDistance(b, w))
  }

  lemma {:induction false} SumBound(h: seq<nat>, c: nat)
    requires forall k | 0 <= k < |h| :: h[k] <= c
    ensures Sum(h) <= |h| * c
  {
    if h != [] { SumBound(h[..|h| - 1], c); }
  }

  lemma CloserSum(a: nat, threads: seq<Thread>, a1: nat, after: seq<Thread>, mask: Mask)
    requires Closer(a, threads, a1, after, mask) && mask != {}
    ensures Sum(Distances(a1, after)) < Sum(Distances(a, threads))
  {
    hide Distance, Sum;
    var l :| l in mask;
    assert Distances(a1, after)[l] < Distances(a, threads)[l];
    SumBelow(Distances(a1, after), Distances(a, threads));
  }

  /** A turn brings its warp closer, if it can run, and leaves the others as they are. */
  ghost predicate TurnTaken(b: Block, w: nat, b1: Block)
    requires w < |b.warps| == |b.arrivals|
  {
    && |b1.warps| == |b1.arrivals| == |b.warps|
    && (forall v | 0 <= v < |b.warps| && v != w :: b1.warps[v] == b.warps[v] && b1.arrivals[v] == b.arrivals[v])
    && (if Runnable(b.warps[w]) then WarpDistance(b1, w) < WarpDistance(b, w) else b1 == b)
  }

  lemma TurnCloser(e: Env, base: LaunchContext, b: Block, w: nat, before: seq<u8>)
    requires BlockInv(e, b, before) && Launched(e, base) && w < WARPS && ValidProgram(Kernel())
    ensures |b.warps| == |b.arrivals| == WARPS && Scheduling.Shaped(b)
    ensures Turn(Kernel(), base, b, w).Going? && TurnTaken(b, w, Turn(Kernel(), base, b, w).block)
  {
    hide Kernel, RoundInv, StackOk, Phased, Issue, Step, Settle, Record, Launched, LaneThreads, Turning, Closer, Distances, Sum, Partition;
    BlockShape(e, b, before);
    TurnKeeps(e, base, b, w, before);
    if Runnable(b.warps[w]) {
      var ctx, s := base.(warpId := w), b.warps[w];
      var r := Settle(s, SIZE);
      SettledWarp(e, base, b, w, before);
      TurnPhase(e, base, b, w, before);
      TurnStatus(b, w, ctx);
      var step := Step(Kernel(), ctx, s, b.memory);
      if step == Stepped(Finished, r, b.memory) {
      } else if r.pc in {14, 24} {
        BarrierIssue(e, base, b, w, before, r, b.memory);
        BarrierCloser(e, base, b, w, before, r, b.memory);
        CloserSum(b.phase, LaneThreads(r), b.phase + 1, LaneThreads(step.warp), r.active);
        RecordAll(b, w, Barrier, step.warp, b.memory);
      } else {
        IssueContinues(e, base, b, w, before, r, b.memory);
        IssueCloser(e, base, b, w, before, r, b.memory);
        CloserSum(b.phase, LaneThreads(r), b.phase, LaneThreads(step.warp), r.active);
        RecordAll(b, w, Issued, step.warp, step.memory);
      }
    }
  }

  lemma TurnPhase(e: Env, base: LaunchContext, b: Block, w: nat, before: seq<u8>)
    requires BlockInv(e, b, before) && w < WARPS && Runnable(b.warps[w])
    ensures w < |b.arrivals| && b.arrivals[w] == b.phase
  {
    hide Phased, RoundInv, LaneThreads, JustReleased, BlockInv, Invariant;
    TurnReady(e, base, b, w, before);
  }

  lemma IssueContinues(e: Env, base: LaunchContext, b: Block, w: nat, before: seq<u8>, r: WarpState, m: MemoryImage)
    requires Issuing(e, base, b, w, before, r, m.store) && r.pc != 14 && r.pc != 24
    ensures var step := Issue(Kernel(), base.(warpId := w), r, m); step.Stepped? && step.outcome == Issued
  {
    hide Kernel, Issuing, Issue;
    IssueRound(e, base, b, w, before, r, m);
    IssueStackOk(e, base, b, w, before, r, m);
  }

  // ---- passes ----

  /** No warp is further than it was, and those from `w` on that could run are closer. */
  ghost predicate PassTaken(b: Block, w: nat, b1: Block)
    requires |b.warps| == |b.arrivals|
  {
    && |b1.warps| == |b1.arrivals| == |b.warps|
    && (forall v | 0 <= v < |b.warps| :: WarpDistance(b1, v) <= WarpDistance(b, v))
    && (forall v | w <= v < |b.warps| && Runnable(b.warps[v]) :: WarpDistance(b1, v) < WarpDistance(b, v))
  }

  lemma SameDistance(b: Block, b1: Block, v: nat)
    requires v < |b.warps| == |b.arrivals| && v < |b1.warps| == |b1.arrivals|
    requires b1.warps[v] == b.warps[v] && b1.arrivals[v] == b.arrivals[v]
    ensures WarpDistance(b1, v) == WarpDistance(b, v)
  {
    hide Distances, LaneThreads, Sum;
  }

  lemma PassFrom(b: Block, w: nat, b1: Block, b2: Block)
    requires w < |b.warps| == |b.arrivals| && TurnTaken(b, w, b1) && PassTaken(b1, w + 1, b2)
    ensures PassTaken(b, w, b2)
  {
    hide WarpDistance, Runnable;
    forall v | 0 <= v < |b.warps| && v != w ensures WarpDistance(b1, v) == WarpDistance(b, v) { SameDistance(b, b1, v); }
  }

  lemma {:induction false} PassCloser(e: Env, base: LaunchContext, b: Block, w: nat, before: seq<u8>)
    requires BlockInv(e, b, before) && Launched(e, base) && w <= WARPS && ValidProgram(Kernel())
    ensures |b.warps| == |b.arrivals| == WARPS && Scheduling.Shaped(b)
    ensures Pass(Kernel(), base, b, w).Going? && PassTaken(b, w, Pass(Kernel(), base, b, w).block)
    decreases WARPS - w
  {
    hide Kernel, BlockInv, Turn, Launched, WarpDistance, TurnTaken, Runnable, Scheduling.Shaped;
    BlockShape(e, b, before);
    if w < WARPS {
      TurnCloser(e, base, b, w, before);
      TurnKeeps(e, base, b, w, before);
      var b1 := Turn(Kernel(), base, b, w).block;
      BlockShape(e, b1, before);
      PassCloser(e, base, b1, w + 1, before);
      PassFrom(b, w, b1, Pass(Kernel(), base, b1, w + 1).block);
    }
  }

  ghost function BlockDistance(b: Block): nat
    requires |b.warps| == |b.arrivals|
  {
    Sum(WarpDistances(b))
  }

  lemma PassSum(b: Block, b1: Block)
    requires |b.warps| == |b.arrivals| && PassTaken(b, 0, b1) && AnyRunnable(b)
    ensures BlockDistance(b1) < BlockDistance(b)
  {
    hide WarpDistance, Sum;
    var v :| 0 <= v < |b.warps| && Runnable(b.warps[v]);
    assert WarpDistances(b1)[v] < WarpDistances(b)[v];
    SumBelow(WarpDistances(b1), WarpDistances(b));
  }

  lemma ReleaseSum(b: Block)
    requires Scheduling.Shaped(b)
    ensures BlockDistance(Release(b)) == BlockDistance(b)
  {
    hide Sum, Distances, StackPc, WarpDistances;
    var b1 := Release(b);
    forall w | 0 <= w < |b.warps| ensures WarpDistance(b1, w) == WarpDistance(b, w) {
      assert LaneThreads(b1.warps[w]) == LaneThreads(b.warps[w]);
    }
    assert WarpDistances(b1) == WarpDistances(b);
  }

  /** After a round that does not end the block some warp can run. */
  lemma SomeRunnable(b: Block)
    requires Scheduling.Shaped(b) && !AllFinished(b)
    ensures AnyRunnable(if AllParked(b) then Release(b) else b)
  {
    if AllParked(b) {
      var w :| 0 <= w < |b.warps| && b.warps[w].live != {};
      assert Runnable(Release(b).warps[w]);
    }
  }

  /** A block with a warp that can run completes within as many rounds as its threads have steps to go. */
  lemma {:induction false} BlockEnds(e: Env, base: LaunchContext, b: Block, before: seq<u8>, fuel: nat)
    requires BlockInv(e, b, before) && Launched(e, base) && ValidProgram(Kernel())
    requires |b.warps| == |b.arrivals| && Scheduling.Shaped(b) && AnyRunnable(b) && fuel >= BlockDistance(b)
    ensures RunBlock(Kernel(), base, b, fuel).Completed?
    decreases fuel
  {
    hide Kernel, BlockInv, Pass, Release, Launched, AllFinished, AllParked, AnyRunnable, BlockDistance, PassTaken, Scheduling.Shaped;
    BlockShape(e, b, before);
    PassKeeps(e, base, b, 0, before);
    PassCloser(e, base, b, 0, before);
    var b1 := Pass(Kernel(), base, b, 0).block;
    BlockShape(e, b1, before);
    PassSum(b, b1);
    if AllFinished(b1) {
    } else {
      SomeRunnable(b1);
      if AllParked(b1) {
        ReleaseKeeps(e, b1, before);
        ReleaseSum(b1);
        BlockShape(e, Release(b1), before);
        BlockEnds(e, base, Release(b1), before, fuel - 1);
      } else {
        BlockEnds(e, base, b1, before, fuel - 1);
      }
    }
  }

  lemma FirstDistance(b: Block)
    requires |b.warps| == |b.arrivals| == WARPS
    ensures BlockDistance(b) <= ROUNDS
  {
    hide Sum, Distance, StackPc;
    forall w | 0 <= w < WARPS ensures WarpDistance(b, w) <= WARP_SIZE * LENGTH + 1 {
      SumBound(Distances(b.arrivals[w], LaneThreads(b.warps[w])), LENGTH);
    }
    SumBound(WarpDistances(b), WARP_SIZE * LENGTH + 1);
  }

  lemma FirstRunnable(lanes: u32, m: MemoryImage, c: Counters)
    requires lanes == ReductionSums.BLOCK && |c.histogram| == WARP_SIZE + 1
    ensures AnyRunnable(InitialBlock(lanes, m, c))
  {
    hide LiveLanes;
    FirstWarps(lanes);
    var b := InitialBlock(lanes, m, c);
    assert 0 in LiveLanes(lanes, 0);
    assert Runnable(b.warps[0]);
  }

  /** For every input a block of 256 lanes completes. */
  lemma ReduceBlockEnds(e: Env, base: LaunchContext, lanes: u32, m: MemoryImage, c: Counters, fuel: nat)
    requires lanes == ReductionSums.BLOCK && |c.histogram| == WARP_SIZE + 1 && Launched(e, base)
    requires Sized(e, m.store) && InputIntact(e, m.store) && fuel >= ROUNDS
    ensures ValidProgram(Kernel()) && RunBlock(Kernel(), base, InitialBlock(lanes, m, c), fuel).Completed?
  {
    hide Kernel, RunBlock, BlockInv, InitialBlock, Launched, Sized, InputIntact, BlockDistance, AnyRunnable;
    KernelValid();
    StartInv(e, lanes, m, c);
    var b := InitialBlock(lanes, m, c);
    BlockShape(e, b, m.store.global);
    FirstRunnable(lanes, m, c);
    FirstDistance(b);
    BlockEnds(e, base, b, m.store.global, fuel);
  }
}
