/** What the counters say of the reduction kernel: nine barriers a block, and no bank conflict. */
module ReduceCounters {
  import opened Isa
  import opened Alu
  import opened MemoryAnalysis
  import opened Memory
  import opened StridedAccess
  import opened WarpSpec
  import opened Refinement
  import opened Scheduling
  import opened ReductionSums
  import opened ReduceKernel
  import opened ReduceProof

  const BARRIERS: nat := 9

  // ---- bank conflicts ----

  lemma BankOfWord(word: nat, address: u32)
    requires address == 4 * word
    ensures Bank(address) == word % BANKS
  {
  }

  lemma ConsecutiveBanks(first: nat, l: nat, k: nat)
    requires l < BANKS && k < BANKS && (first + l) % BANKS == (first + k) % BANKS
    ensures l == k
  {
    var d := if l < k then k - l else l - k;
    var lower := if l < k then first + l else first + k;
    SameRemainder(lower, d);
  }

  lemma SameRemainder(x: nat, d: nat)
    requires d < BANKS && (x + d) % BANKS == x % BANKS
    ensures d == 0
  {
    var q := (x + d) / BANKS - x / BANKS;
    assert d == q * BANKS;
  }

  /** The threads of warp `w` before a shared access. */
  ghost predicate AtShared(e: Env, w: nat, a: nat, r: WarpState) {
    && r.pc in {13, 20, 21, 23, 31}
    && forall l | l in r.active :: l < WARP_SIZE && Regs(e, 32 * w + l, a, r.pc, r.lanes[l])
  }

  /** The executing lanes of a shared access go to different banks. */
  lemma DifferentBanks(e: Env, w: nat, a: nat, r: WarpState, exec: Mask, l: nat, k: nat)
    requires AtShared(e, w, a, r) && exec <= r.active && l in exec && k in exec && Valid(Code(r.pc))
    requires var v := AddressVector(Code(r.pc), exec, r.lanes); Bank(v[l]) == Bank(v[k])
    ensures l == k
  {
    hide Code, Regs, Valid, AddressOf, Bank, ReductionSums.Stride;
    var v := AddressVector(Code(r.pc), exec, r.lanes);
    SharedAccess(e, 32 * w + l, a, r.pc, r.lanes[l]);
    SharedAccess(e, 32 * w + k, a, r.pc, r.lanes[k]);
    if r.pc != 31 {
      var first := if r.pc == 21 then 32 * w + Stride(a) else 32 * w;
      BankOfWord(first + l, v[l]);
      BankOfWord(first + k, v[k]);
      ConsecutiveBanks(first, l, k);
    }
  }

  lemma SharedCount(e: Env, w: nat, a: nat, r: WarpState, exec: Mask, stats: MemoryStats)
    requires AtShared(e, w, a, r) && exec <= r.active && Valid(Code(r.pc))
    ensures Observe(Code(r.pc), exec, r.lanes, stats).sharedConflicted == stats.sharedConflicted
  {
    hide Code, Valid, AddressOf, Bank, AddressVector, AtShared, DegreeBelow;
    AtSharedLanes(e, w, a, r);
    var v := AddressVector(Code(r.pc), exec, r.lanes);
    forall l, k | l in exec && k in exec && Bank(v[l]) == Bank(v[k]) ensures l == k {
      DifferentBanks(e, w, a, r, exec, l, k);
    }
    NoConflict(v, exec, BANKS);
  }

  lemma AtSharedLanes(e: Env, w: nat, a: nat, r: WarpState)
    requires AtShared(e, w, a, r)
    ensures forall l | l in r.active :: l < WARP_SIZE
  {
  }

  lemma OtherCount(i: Instruction, exec: Mask, lanes: RegisterBank, stats: MemoryStats)
    requires Valid(i) && SpaceOf(i.op) != Shared && forall l | l in exec :: l < WARP_SIZE
    ensures Observe(i, exec, lanes, stats).sharedConflicted == stats.sharedConflicted
  {
    hide AddressVector, SpaceOf;
  }

  /** Only the access of a memory instruction changes the access counters. */
  lemma IssueStats(program: seq<Instruction>, ctx: LaunchContext, r: WarpState, m: MemoryImage)
    requires ValidProgram(program) && r.pc < |program|
    ensures var i := program[r.pc];
            Issue(program, ctx, r, m).memory.stats
            == if IsMemory(i.op) && !IsControl(i.op) then Observe(i, Exec(i, r), r.lanes, m.stats) else m.stats
  {
    hide SweepFrom, Observe, Exec, AluBank, Branch, Retire;
  }

  lemma AtSharedIs(e: Env, base: LaunchContext, b: Block, w: nat, before: seq<u8>, r: WarpState, m: Store)
    requires Issuing(e, base, b, w, before, r, m) && r.pc in {13, 20, 21, 23, 31}
    ensures AtShared(e, w, b.phase, r)
  {
    hide Turning, Launched, Kernel, StackOk, LaneThreads, Partition, Regs, Word, MemoryInv, ResultStored;
    TurningShape(e, b, w);
    PhaseIs(e, b, w);
    forall l | l in r.active ensures l < WARP_SIZE && Regs(e, 32 * w + l, b.phase, r.pc, r.lanes[l]) {
      ActiveThreads(r, l);
      assert ThreadInv(e, 32 * w + l, b.arrivals[w], LaneThreads(r)[l], m);
    }
  }

  lemma PhaseIs(e: Env, b: Block, w: nat)
    requires Turning(e, b, w)
    ensures w < |b.arrivals| && b.arrivals[w] == b.phase
  {
  }

  /** No issue counts a bank conflict. */
  lemma IssueConflictFree(e: Env, base: LaunchContext, b: Block, w: nat, before: seq<u8>, r: WarpState, m: MemoryImage)
    requires Issuing(e, base, b, w, before, r, m.store)
    ensures Issue(Kernel(), base.(warpId := w), r, m).memory.stats.sharedConflicted == m.stats.sharedConflicted
  {
    ActivePc(r);
    KernelCode(r.pc);
    CodeValid(r.pc);
    IssuingLanes(e, base, b, w, before, r, m.store);
    hide Issuing, Issue, Kernel, Code, Valid, Observe, Exec, IsMemory, SpaceOf, IsControl;
    IssueStats(Kernel(), base.(warpId := w), r, m);
    var i := Code(r.pc);
    if IsMemory(i.op) {
      MemoryCode(r.pc);
      ExecActive(i, r);
      if SpaceOf(i.op) == Shared {
        AtSharedIs(e, base, b, w, before, r, m.store);
        SharedCount(e, w, b.phase, r, Exec(i, r), m.stats);
      } else {
        OtherCount(i, Exec(i, r), r.lanes, m.stats);
      }
    }
  }

  lemma IssuingLanes(e: Env, base: LaunchContext, b: Block, w: nat, before: seq<u8>, r: WarpState, m: Store)
    requires Issuing(e, base, b, w, before, r, m)
    ensures ValidProgram(Kernel()) && forall l | l in r.active :: l < WARP_SIZE
  {
    hide Turning, RoundInv, Kernel, Launched, StackOk;
  }

  ghost predicate SameConflicts(b: Block, c: Block) {
    b.memory.stats.sharedConflicted == c.memory.stats.sharedConflicted
  }

  lemma TurnConflictFree(e: Env, base: LaunchContext, b: Block, w: nat, before: seq<u8>)
    requires BlockInv(e, b, before) && Launched(e, base) && w < WARPS && ValidProgram(Kernel())
    ensures Scheduling.Shaped(b) && w < |b.warps| && SameConflicts(Turn(Kernel(), base, b, w).block, b)
  {
    hide Kernel, RoundInv, StackOk, Phased, Issue, Step, Settle, Record, Launched, LaneThreads, Turning, Issuing;
    BlockShape(e, b, before);
    if Runnable(b.warps[w]) {
      var ctx, s := base.(warpId := w), b.warps[w];
      var r := Settle(s, SIZE);
      SettledWarp(e, base, b, w, before);
      var step := Step(Kernel(), ctx, s, b.memory);
      if step != Stepped(Finished, r, b.memory) {
        IssueConflictFree(e, base, b, w, before, r, b.memory);
      }
      if step.Stepped? && step.outcome != Finished {
        RecordAll(b, w, step.outcome, step.warp, step.memory);
      }
    }
  }

  lemma {:induction false} PassConflictFree(e: Env, base: LaunchContext, b: Block, w: nat, before: seq<u8>)
    requires BlockInv(e, b, before) && Launched(e, base) && w <= WARPS && ValidProgram(Kernel())
    ensures Scheduling.Shaped(b) && |b.warps| == WARPS && SameConflicts(Pass(Kernel(), base, b, w).block, b)
    decreases WARPS - w
  {
    hide Kernel, BlockInv, Turn, Launched, Scheduling.Shaped;
    BlockShape(e, b, before);
    if w < WARPS {
      TurnConflictFree(e, base, b, w, before);
      TurnKeeps(e, base, b, w, before);
      PassConflictFree(e, base, Turn(Kernel(), base, b, w).block, w + 1, before);
    }
  }

  lemma {:induction false} RunConflictFree(e: Env, base: LaunchContext, b: Block, before: seq<u8>, fuel: nat)
    requires BlockInv(e, b, before) && Launched(e, base) && ValidProgram(Kernel())
    ensures Scheduling.Shaped(b) && SameConflicts(RunBlock(Kernel(), base, b, fuel).block, b)
    decreases fuel
  {
    hide Kernel, BlockInv, Pass, Launched, AllFinished, AllParked, AnyRunnable, Scheduling.Shaped;
    BlockShape(e, b, before);
    if fuel > 0 {
      PassKeeps(e, base, b, 0, before);
      PassConflictFree(e, base, b, 0, before);
      var b1 := Pass(Kernel(), base, b, 0).block;
      if !AllFinished(b1) {
        if AllParked(b1) {
          ReleaseKeeps(e, b1, before);
          RunConflictFree(e, base, Release(b1), before, fuel - 1);
        } else if AnyRunnable(b) {
          RunConflictFree(e, base, b1, before, fuel - 1);
        }
      }
    }
  }

  // ---- barriers ----

  /** A finished warp has issued nine barriers. */
  lemma FinishedArrivals(e: Env, b: Block, w: nat, before: seq<u8>)
    requires BlockInv(e, b, before) && AllFinished(b) && w < WARPS
    ensures w < |b.arrivals| && b.arrivals[w] == BARRIERS
  {
    hide Phased, MemoryInv, StackOk, JustReleased, ResultStored, Regs, Word;
    BlockShape(e, b, before);
    assert WarpInv(e, b, w, b.memory.store);
    assert b.warps[w].live == {};
    assert ThreadInv(e, 32 * w, b.arrivals[w], LaneThreads(b.warps[w])[0], b.memory.store);
  }

  lemma FinishedBarriers(e: Env, b: Block, before: seq<u8>, c: Counters)
    requires BlockInv(e, b, before) && RunOutcome(Completed(b), c)
    ensures b.counters.completed == c.completed + BARRIERS
  {
    hide Phased, BlockInv, Balanced;
    BlockShape(e, b, before);
    if b.phase == 0 {
      FinishedArrivals(e, b, 0, before);
    } else {
      var w :| 0 <= w < |b.arrivals| && b.arrivals[w] == b.phase;
      FinishedArrivals(e, b, w, before);
    }
  }

  /** For every input, a block of the kernel that completes has completed nine barriers and counted no bank
      conflict. */
  lemma ReduceBlockCounts(e: Env, base: LaunchContext, lanes: u32, m: MemoryImage, c: Counters, fuel: nat)
    requires lanes == BLOCK && |c.histogram| == WARP_SIZE + 1 && Balanced(c) && Launched(e, base)
    requires Sized(e, m.store) && InputIntact(e, m.store)
    ensures ValidProgram(Kernel())
    ensures match RunBlock(Kernel(), base, InitialBlock(lanes, m, c), fuel)
            case Completed(b) =>
              && b.counters.completed == c.completed + BARRIERS && Balanced(b.counters)
              && b.memory.stats.sharedConflicted == m.stats.sharedConflicted
            case _ => true
  {
    hide Kernel, RunBlock, BlockInv, InitialBlock, Launched, Sized, InputIntact, Balanced, Phased, RunOutcome, ResultStored;
    KernelValid();
    StartInv(e, lanes, m, c);
    var b0 := InitialBlock(lanes, m, c);
    BlockOutcomeIs(e, base, b0, m.store.global, fuel);
    BlockOutcome(Kernel(), base, lanes, m, c, fuel);
    RunConflictFree(e, base, b0, m.store.global, fuel);
    StartMemory(lanes, m, c);
    match RunBlock(Kernel(), base, b0, fuel)
    case Completed(b) =>
      FinishedBarriers(e, b, m.store.global, c);
      OutcomeBalanced(b, c);
    case _ =>
  }

  lemma OutcomeBalanced(b: Block, c: Counters)
    requires RunOutcome(Completed(b), c)
    ensures Balanced(b.counters)
  {
  }

  lemma StartMemory(lanes: u32, m: MemoryImage, c: Counters)
    requires |c.histogram| == WARP_SIZE + 1
    ensures InitialBlock(lanes, m, c).memory == m
  {
  }
}
