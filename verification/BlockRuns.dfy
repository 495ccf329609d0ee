/** Warps in their block, where every warp finds the memory the others leave: what a block does is an
    interleaving of all its threads, the divergence stacks are nested, and branches restore their masks. */
module BlockRuns {
  import opened Isa
  import opened Alu
  import opened Memory
  import opened WarpSpec
  import opened Threads
  import opened Refinement
  import opened WarpRuns
  import opened Scheduling
  import opened Nesting

  // ---- all threads of a block on one memory ----

  datatype BlockMachine = BlockMachine(warps: seq<seq<Thread>>, store: Store)

  datatype Pick = Pick(warp: nat, lane: nat)

  ghost function ThreadsOf(b: Block, n: nat): (m: BlockMachine)
    ensures |m.warps| == |b.warps| && m.store == b.memory.store
    ensures forall w | 0 <= w < |b.warps| :: m.warps[w] == View(b.warps[w], n)
  {
    BlockMachine(seq(|b.warps|, w requires 0 <= w < |b.warps| => View(b.warps[w], n)), b.memory.store)
  }

  ghost predicate CanPick(program: seq<Instruction>, m: BlockMachine, p: Pick) {
    p.warp < |m.warps| && CanStep(program, m.warps[p.warp], p.lane)
  }

  ghost function PickStep(program: seq<Instruction>, base: LaunchContext, m: BlockMachine, p: Pick): ThreadResult
    requires ValidProgram(program) && CanPick(program, m, p)
  {
    ThreadStep(program, ContextOf(base, p.warp), p.lane, m.warps[p.warp][p.lane], m.store)
  }

  /** The machine after the picked threads take one step each, in that order; none if a picked thread is not
      running or faults. */
  ghost function RunPicks(program: seq<Instruction>, base: LaunchContext, picks: seq<Pick>, m: BlockMachine): Option<BlockMachine>
    requires ValidProgram(program)
  {
    if picks == [] then Some(m)
    else if !CanPick(program, m, picks[0]) then None
    else match PickStep(program, base, m, picks[0])
      case ThreadFault(_, _) => None
      case Advanced(t, store) =>
        RunPicks(program, base, picks[1..],
                 BlockMachine(m.warps[picks[0].warp := m.warps[picks[0].warp][picks[0].lane := t]], store))
  }

  lemma {:induction false} PicksAppend(program: seq<Instruction>, base: LaunchContext, first: seq<Pick>, second: seq<Pick>, m: BlockMachine)
    requires ValidProgram(program)
    ensures RunPicks(program, base, first + second, m) ==
            match RunPicks(program, base, first, m)
            case None => None
            case Some(mid) => RunPicks(program, base, second, mid)
  {
    hide ThreadStep;
    if first == [] {
      assert first + second == second;
    } else {
      assert (first + second)[0] == first[0] && (first + second)[1..] == first[1..] + second;
      if CanPick(program, m, first[0]) {
        match PickStep(program, base, m, first[0])
        case ThreadFault(_, _) =>
        case Advanced(t, store) =>
          PicksAppend(program, base, first[1..], second,
                      BlockMachine(m.warps[first[0].warp := m.warps[first[0].warp][first[0].lane := t]], store));
      }
    }
  }

  function OfWarp(w: nat, schedule: seq<nat>): (picks: seq<Pick>)
    ensures |picks| == |schedule| && forall j | 0 <= j < |picks| :: picks[j] == Pick(w, schedule[j])
  {
    seq(|schedule|, j requires 0 <= j < |schedule| => Pick(w, schedule[j]))
  }

  /** A run of the threads of one warp is a run of the block. */
  lemma {:induction false} WarpPicks(program: seq<Instruction>, base: LaunchContext, w: nat, schedule: seq<nat>, m: BlockMachine)
    requires ValidProgram(program) && w < |m.warps|
    ensures RunPicks(program, base, OfWarp(w, schedule), m) ==
            match Run(program, ContextOf(base, w), schedule, Machine(m.warps[w], m.store))
            case None => None
            case Some(after) => Some(BlockMachine(m.warps[w := after.threads], after.store))
  {
    hide ThreadStep, CanStep;
    if schedule == [] {
      assert m.warps[w := m.warps[w]] == m.warps;
    } else {
      assert OfWarp(w, schedule)[1..] == OfWarp(w, schedule[1..]);
      var l := schedule[0];
      if CanStep(program, m.warps[w], l) {
        CanStepLane(program, m.warps[w], l);
        match ThreadStep(program, ContextOf(base, w), l, m.warps[w][l], m.store)
        case ThreadFault(_, _) =>
        case Advanced(t, store) =>
          var next := BlockMachine(m.warps[w := m.warps[w][l := t]], store);
          WarpPicks(program, base, w, schedule[1..], next);
          var rest := Run(program, ContextOf(base, w), schedule[1..], Machine(next.warps[w], store));
          if rest.Some? { assert next.warps[w := rest.value.threads] == m.warps[w := rest.value.threads]; }
      }
    }
  }

  lemma CanStepLane(program: seq<Instruction>, threads: seq<Thread>, l: nat)
    requires CanStep(program, threads, l)
    ensures l < |threads| && l < WARP_SIZE && threads[l].Running? && threads[l].pc < |program|
  {
  }

  // ---- what a block does is an interleaving ----

  /** The picks lead to the memory in which the fault happens: an access fault is the next step of the thread
      it names, and a barrier fault is at a barrier which a thread of the warp has reached. */
  ghost predicate LeadsToFault(program: seq<Instruction>, base: LaunchContext, picks: seq<Pick>, m: BlockMachine, f: Fault, store: Store)
    requires ValidProgram(program)
  {
    match RunPicks(program, base, picks, m)
    case None => false
    case Some(at) =>
      && at.store == store
      && match f.kind
         case Access(e) =>
           CanPick(program, at, Pick(f.warp, f.lane)) && PickStep(program, base, at, Pick(f.warp, f.lane)) == ThreadFault(e, f.address)
         case DivergentBarrier =>
           exists l: nat :: CanPick(program, at, Pick(f.warp, l)) && program[at.warps[f.warp][l].pc].op == BarSync
  }

  lemma FaultWarp(program: seq<Instruction>, ctx: LaunchContext, s: WarpState, m: MemoryImage)
    requires ValidProgram(program) && s.pc < |program|
    ensures Issue(program, ctx, s, m).Faulted? ==> Issue(program, ctx, s, m).fault.warp == ctx.warpId
    ensures Issue(program, ctx, s, m).Faulted? && Issue(program, ctx, s, m).fault.kind == DivergentBarrier
            ==> Issue(program, ctx, s, m).memory == m
  {
    hide SweepFrom, Observe, AluBank, Exec, Branch, Retire;
  }

  /** A fault of a step, in terms of the threads of the warp. */
  lemma StepFault(program: seq<Instruction>, base: LaunchContext, b: Block, w: nat) returns (picks: seq<Pick>)
    requires ValidProgram(program) && w < |b.warps| && Invariant(b.warps[w])
    requires Step(program, ContextOf(base, w), b.warps[w], b.memory).Faulted?
    ensures var step := Step(program, ContextOf(base, w), b.warps[w], b.memory);
            step.fault.warp == w && LeadsToFault(program, base, picks, ThreadsOf(b, |program|), step.fault, step.memory.store)
  {
    hide Issue, View, AllRetired, Settle, ThreadStep, Ascending, Run;
    var ctx, s := ContextOf(base, w), b.warps[w];
    StepOutcome(program, ctx, s, b.memory);
    var r := Settle(s, |program|);
    FaultWarp(program, ctx, r, b.memory);
    var f := Step(program, ctx, s, b.memory).fault;
    var m := ThreadsOf(b, |program|);
    if f.kind == DivergentBarrier {
      picks := [];
      var l :| l in r.active;
      ActiveThread(program, r, l);
      assert CanPick(program, m, Pick(w, l));
    } else {
      var schedule := Ascending(r.active - FromLane(f.lane), 0);
      picks := OfWarp(w, schedule);
      WarpPicks(program, base, w, schedule, m);
    }
  }

  /** The part of the block that a finished or issuing step changes. */
  lemma StepPicks(program: seq<Instruction>, base: LaunchContext, b: Block, w: nat) returns (picks: seq<Pick>)
    requires ValidProgram(program) && w < |b.warps| && Invariant(b.warps[w])
    requires Step(program, ContextOf(base, w), b.warps[w], b.memory).Stepped?
    ensures var step := Step(program, ContextOf(base, w), b.warps[w], b.memory);
            RunPicks(program, base, picks, ThreadsOf(b, |program|))
            == Some(ThreadsOf(b.(warps := b.warps[w := step.warp], memory := step.memory), |program|))
  {
    hide Issue, View, AllRetired, Settle, ThreadStep, Ascending, Run, Step;
    var ctx, s := ContextOf(base, w), b.warps[w];
    var step := Step(program, ctx, s, b.memory);
    var m := ThreadsOf(b, |program|);
    var m1 := ThreadsOf(b.(warps := b.warps[w := step.warp], memory := step.memory), |program|);
    StepOutcome(program, ctx, s, b.memory);
    if step.outcome == Finished {
      picks := [];
      assert m1.warps == m.warps;
    } else {
      var schedule := Ascending(Settle(s, |program|).active, 0);
      picks := OfWarp(w, schedule);
      RunOneStep(program, ctx, s, b.memory);
      WarpPicks(program, base, w, schedule, m);
      assert m1.warps == m.warps[w := View(step.warp, |program|)];
    }
  }

  lemma SameThreadsOf(b: Block, c: Block, n: nat)
    requires b.warps == c.warps && b.memory == c.memory
    ensures ThreadsOf(b, n) == ThreadsOf(c, n)
  {
  }

  lemma WarpKept(b: Block, w: nat)
    requires Phased(b) && w < |b.warps|
    ensures Shaped(b) && Invariant(b.warps[w])
  {
  }

  /** The result of some turns, in terms of the threads of the block. */
  ghost predicate Interleaved(program: seq<Instruction>, base: LaunchContext, picks: seq<Pick>, b: Block, p: Progress)
    requires ValidProgram(program)
  {
    match p
    case Going(b1) => RunPicks(program, base, picks, ThreadsOf(b, |program|)) == Some(ThreadsOf(b1, |program|))
    case Failed(f, b1) => LeadsToFault(program, base, picks, ThreadsOf(b, |program|), f, b1.memory.store)
  }

  lemma TurnPicks(program: seq<Instruction>, base: LaunchContext, b: Block, w: nat) returns (picks: seq<Pick>)
    requires ValidProgram(program) && Phased(b) && w < |b.warps|
    ensures Interleaved(program, base, picks, b, Turn(program, base, b, w))
  {
    hide Step, Phased, Invariant, Record, LeadsToFault, ThreadsOf;
    WarpKept(b, w);
    picks := [];
    if Runnable(b.warps[w]) {
      match Step(program, ContextOf(base, w), b.warps[w], b.memory)
      case Faulted(_, _, _) => picks := StepFault(program, base, b, w);
      case Stepped(outcome, s, m) =>
        picks := StepPicks(program, base, b, w);
        if outcome != Finished {
          RecordParts(b, w, outcome, s, m);
          SameThreadsOf(Record(b, w, outcome, s, m), b.(warps := b.warps[w := s], memory := m), |program|);
        }
    }
  }

  /** Runs compose. */
  lemma InterleavedNext(program: seq<Instruction>, base: LaunchContext, first: seq<Pick>, second: seq<Pick>, b: Block, b1: Block, p: Progress)
    requires ValidProgram(program)
    requires Interleaved(program, base, first, b, Going(b1)) && Interleaved(program, base, second, b1, p)
    ensures Interleaved(program, base, first + second, b, p)
  {
    hide ThreadsOf, RunPicks;
    PicksAppend(program, base, first, second, ThreadsOf(b, |program|));
  }

  lemma {:induction false} PassPicks(program: seq<Instruction>, base: LaunchContext, b: Block, w: nat) returns (picks: seq<Pick>)
    requires ValidProgram(program) && Phased(b) && w <= |b.warps|
    ensures Shaped(b) && Interleaved(program, base, picks, b, Pass(program, base, b, w))
    decreases |b.warps| - w
  {
    hide Phased, Turn, LeadsToFault, ThreadsOf, Interleaved;
    PhasedHasLog(b);
    picks := [];
    NoPicks(program, base, b);
    if w < |b.warps| {
      TurnPhased(program, base, b, w);
      picks := TurnPicks(program, base, b, w);
      match Turn(program, base, b, w)
      case Failed(_, _) =>
      case Going(b1) =>
        var more := PassPicks(program, base, b1, w + 1);
        InterleavedNext(program, base, picks, more, b, b1, Pass(program, base, b1, w + 1));
        picks := picks + more;
    }
  }

  lemma NoPicks(program: seq<Instruction>, base: LaunchContext, b: Block)
    requires ValidProgram(program)
    ensures Interleaved(program, base, [], b, Going(b))
  {
  }

  ghost function ProgressOf(r: BlockResult): Progress {
    if r.BlockFault? then Failed(r.fault, r.block) else Going(r.block)
  }

  lemma ReleasePicks(program: seq<Instruction>, base: LaunchContext, b: Block)
    requires ValidProgram(program) && Shaped(b)
    ensures Interleaved(program, base, [], b, Going(Release(b)))
  {
    hide StackPc;
    forall w | 0 <= w < |b.warps| ensures View(Release(b).warps[w], |program|) == View(b.warps[w], |program|) { }
    assert ThreadsOf(Release(b), |program|).warps == ThreadsOf(b, |program|).warps;
  }

  /** A block is an interleaving of all its threads: for any recorded reconvergence PCs and any number of
      rounds, some order of executing one instruction of one thread at a time leads to the same registers of
      every lane of every warp and the same memory; and when the block faults, to the memory of the fault,
      where the faulting thread is the next to step. */
  lemma {:induction false} BlockIsInterleaving(program: seq<Instruction>, base: LaunchContext, b: Block, fuel: nat) returns (picks: seq<Pick>)
    requires ValidProgram(program) && Phased(b)
    ensures Shaped(b) && Interleaved(program, base, picks, b, ProgressOf(RunBlock(program, base, b, fuel)))
    decreases fuel
  {
    hide Phased, Pass, Release, Interleaved, AllFinished, AllParked, AnyRunnable;
    PhasedHasLog(b);
    picks := [];
    NoPicks(program, base, b);
    if fuel > 0 {
      PassPhased(program, base, b, 0);
      picks := PassPicks(program, base, b, 0);
      match Pass(program, base, b, 0)
      case Failed(_, _) =>
      case Going(b1) =>
        if !AllFinished(b1) {
          if AllParked(b1) {
            ReleasePhased(b1);
            PhasedHasLog(b1);
            ReleasePicks(program, base, b1);
            InterleavedNext(program, base, picks, [], b, b1, Going(Release(b1)));
            var more := BlockIsInterleaving(program, base, Release(b1), fuel - 1);
            InterleavedNext(program, base, picks + [], more, b, Release(b1), ProgressOf(RunBlock(program, base, Release(b1), fuel - 1)));
            picks := picks + [] + more;
          } else if AnyRunnable(b) {
            var more := BlockIsInterleaving(program, base, b1, fuel - 1);
            InterleavedNext(program, base, picks, more, b, b1, ProgressOf(RunBlock(program, base, b1, fuel - 1)));
            picks := picks + more;
          }
        }
    }
  }

  // ---- nesting in a block ----

  ghost predicate BlockNested(program: seq<Instruction>, b: Block) {
    forall w | 0 <= w < |b.warps| :: Nested(program, b.warps[w]) && Partition(b.warps[w])
  }

  lemma TurnNested(program: seq<Instruction>, base: LaunchContext, b: Block, w: nat)
    requires WellAnnotated(program) && ValidProgram(program) && Shaped(b) && BlockNested(program, b) && w < |b.warps|
    ensures BlockNested(program, Turn(program, base, b, w).block)
  {
    hide Step, WellAnnotated, Nested, Partition, Record;
    if Runnable(b.warps[w]) {
      StepKeepsNested(program, ContextOf(base, w), b.warps[w], b.memory);
      match Step(program, ContextOf(base, w), b.warps[w], b.memory)
      case Faulted(_, _, _) =>
      case Stepped(outcome, s, m) => if outcome != Finished { RecordParts(b, w, outcome, s, m); }
    }
  }

  lemma {:induction false} PassNested(program: seq<Instruction>, base: LaunchContext, b: Block, w: nat)
    requires WellAnnotated(program) && ValidProgram(program) && Shaped(b) && BlockNested(program, b) && w <= |b.warps|
    ensures BlockNested(program, Pass(program, base, b, w).block)
    decreases |b.warps| - w
  {
    hide Turn, WellAnnotated, BlockNested;
    if w < |b.warps| {
      TurnNested(program, base, b, w);
      match Turn(program, base, b, w)
      case Failed(_, _) =>
      case Going(b1) => PassNested(program, base, b1, w + 1);
    }
  }

  lemma ReleaseNested(program: seq<Instruction>, b: Block)
    requires Shaped(b) && BlockNested(program, b)
    ensures BlockNested(program, Release(b))
  {
    hide Nested, Partition;
    forall w | 0 <= w < |b.warps| ensures Nested(program, Release(b).warps[w]) && Partition(Release(b).warps[w]) {
      UnparkKeepsNested(program, b.warps[w]);
    }
  }

  lemma {:induction false} RunBlockNested(program: seq<Instruction>, base: LaunchContext, b: Block, fuel: nat)
    requires WellAnnotated(program) && ValidProgram(program) && Shaped(b) && BlockNested(program, b)
    ensures BlockNested(program, RunBlock(program, base, b, fuel).block)
    decreases fuel
  {
    hide Pass, Release, WellAnnotated, BlockNested, AllFinished, AllParked, AnyRunnable;
    if fuel > 0 {
      PassNested(program, base, b, 0);
      match Pass(program, base, b, 0)
      case Failed(_, _) =>
      case Going(b1) =>
        ReleaseNested(program, b1);
        RunBlockNested(program, base, Release(b1), fuel - 1);
        RunBlockNested(program, base, b1, fuel - 1);
    }
  }

  /** On an annotated program the divergence stack of every warp is nested at every point of every block. */
  lemma BlockIsNested(program: seq<Instruction>, base: LaunchContext, lanes: u32, m: MemoryImage, c: Counters, fuel: nat)
    requires WellAnnotated(program) && |c.histogram| == WARP_SIZE + 1
    ensures ValidProgram(program)
    ensures BlockNested(program, RunBlock(program, base, InitialBlock(lanes, m, c), fuel).block)
  {
    hide RunBlock, WellAnnotated, LiveLanes, Nested, Partition;
    SmallProgram(program);
    var b := InitialBlock(lanes, m, c);
    forall w | 0 <= w < |b.warps| ensures Nested(program, b.warps[w]) && Partition(b.warps[w]) {
      InitialNested(program, LiveLanes(lanes, w));
    }
    RunBlockNested(program, base, b, fuel);
  }

  // ---- the run of a warp in its block ----

  lemma {:induction false} MicroRunAppend(program: seq<Instruction>, ctx: LaunchContext, s: WarpState, first: seq<MemoryImage>, second: seq<MemoryImage>)
    requires ValidProgram(program)
    ensures MicroRun(program, ctx, s, first + second) ==
            match MicroRun(program, ctx, s, first)
            case None => None
            case Some(t) => MicroRun(program, ctx, t, second)
    decreases |second|
  {
    hide MicroNext;
    if second == [] {
      assert first + second == first;
    } else {
      var n := |second| - 1;
      assert (first + second)[..|first| + n] == first + second[..n];
      MicroRunAppend(program, ctx, s, first, second[..n]);
    }
  }

  lemma MicroRunOne(program: seq<Instruction>, ctx: LaunchContext, s: WarpState, m: MemoryImage)
    requires ValidProgram(program)
    ensures MicroRun(program, ctx, s, [m]) == MicroNext(program, ctx, s, m)
  {
    hide MicroNext;
    assert MicroRun(program, ctx, s, [m][..0]) == Some(s);
  }

  /** A scheduling step is a run of micro-steps that find one memory. */
  lemma {:induction false} StepMicroRun(program: seq<Instruction>, ctx: LaunchContext, s: WarpState, m: MemoryImage)
    returns (memories: seq<MemoryImage>)
    requires ValidProgram(program) && Step(program, ctx, s, m).Stepped?
    ensures MicroRun(program, ctx, s, memories) == Some(Step(program, ctx, s, m).warp.(parked := false))
    decreases Weight(s.stack), if s.active == {} then 0 else 1
  {
    hide Step, Issue, MicroRun, PopTop, Retire;
    StepIsMicroSteps(program, ctx, s, m);
    MicroRunOne(program, ctx, s, m);
    memories := [m];
    match MicroStep(program, ctx, s, m)
    case Visible(_) =>
    case Silent(t) =>
      if MustPop(s) { PopIsLighter(s); } else { RetiredAll(s); }
      var more := StepMicroRun(program, ctx, t, m);
      MicroRunAppend(program, ctx, s, memories, more);
      memories := memories + more;
  }

  ghost function Unparked(s: WarpState): WarpState { s.(parked := false) }

  /** Warp `w` has gone from its state in `b` to its state in `b1` by micro-steps. */
  ghost predicate MovesAlong(program: seq<Instruction>, base: LaunchContext, w: nat, memories: seq<MemoryImage>, b: Block, b1: Block)
    requires ValidProgram(program) && w < |b.warps| == |b1.warps|
  {
    MicroRun(program, ContextOf(base, w), Unparked(b.warps[w]), memories) == Some(Unparked(b1.warps[w]))
  }

  lemma StaysPut(program: seq<Instruction>, base: LaunchContext, w: nat, b: Block, b1: Block)
    requires ValidProgram(program) && w < |b.warps| == |b1.warps| && Unparked(b1.warps[w]) == Unparked(b.warps[w])
    ensures MovesAlong(program, base, w, [], b, b1)
  {
  }

  lemma MovesOn(program: seq<Instruction>, base: LaunchContext, w: nat, first: seq<MemoryImage>, second: seq<MemoryImage>,
                b: Block, b1: Block, b2: Block)
    requires ValidProgram(program) && w < |b.warps| == |b1.warps| == |b2.warps|
    requires MovesAlong(program, base, w, first, b, b1) && MovesAlong(program, base, w, second, b1, b2)
    ensures MovesAlong(program, base, w, first + second, b, b2)
  {
    hide MicroRun;
    MicroRunAppend(program, ContextOf(base, w), Unparked(b.warps[w]), first, second);
  }

  /** The turn of any warp, seen from warp `v`; the warp that faults is not seen further. */
  lemma TurnMoves(program: seq<Instruction>, base: LaunchContext, b: Block, w: nat, v: nat) returns (memories: seq<MemoryImage>)
    requires ValidProgram(program) && Shaped(b) && w < |b.warps| && v < |b.warps|
    requires var p := Turn(program, base, b, w); p.Failed? ==> v != w
    ensures MovesAlong(program, base, v, memories, b, Turn(program, base, b, w).block)
  {
    hide Step, Record, MicroRun, MovesAlong;
    memories := [];
    var b1 := Turn(program, base, b, w).block;
    if v == w && Runnable(b.warps[w]) {
      var ctx, s := ContextOf(base, w), b.warps[w];
      var step := Step(program, ctx, s, b.memory);
      if step.outcome != Finished { RecordParts(b, w, step.outcome, step.warp, step.memory); }
      memories := StepMicroRun(program, ctx, s, b.memory);
      assert Unparked(s) == s && b1.warps[w] == step.warp;
      MoveIs(program, base, w, memories, b, b1);
    } else {
      TurnElsewhere(program, base, b, w);
      StaysPut(program, base, v, b, b1);
    }
  }

  lemma MoveIs(program: seq<Instruction>, base: LaunchContext, w: nat, memories: seq<MemoryImage>, b: Block, b1: Block)
    requires ValidProgram(program) && w < |b.warps| == |b1.warps|
    requires MicroRun(program, ContextOf(base, w), Unparked(b.warps[w]), memories) == Some(Unparked(b1.warps[w]))
    ensures MovesAlong(program, base, w, memories, b, b1)
  {
  }

  lemma TurnFaultWarp(program: seq<Instruction>, base: LaunchContext, b: Block, w: nat)
    requires ValidProgram(program) && Phased(b) && w < |b.warps|
    ensures Turn(program, base, b, w).Failed? ==> Turn(program, base, b, w).fault.warp == w
  {
    hide Phased, Step, Invariant, Record;
    WarpKept(b, w);
    if Runnable(b.warps[w]) && Step(program, ContextOf(base, w), b.warps[w], b.memory).Faulted? {
      var picks := StepFault(program, base, b, w);
    }
  }

  lemma {:induction false} PassMoves(program: seq<Instruction>, base: LaunchContext, b: Block, w: nat, v: nat) returns (memories: seq<MemoryImage>)
    requires ValidProgram(program) && Phased(b) && w <= |b.warps| && v < |b.warps|
    requires Shaped(b)
    requires var p := Pass(program, base, b, w); p.Failed? ==> v != p.fault.warp
    ensures MovesAlong(program, base, v, memories, b, Pass(program, base, b, w).block)
    decreases |b.warps| - w
  {
    hide Phased, Turn, MovesAlong, Shaped;
    PhasedHasLog(b);
    if w == |b.warps| {
      memories := [];
      StaysPut(program, base, v, b, b);
    } else {
      TurnPhased(program, base, b, w);
      TurnFaultWarp(program, base, b, w);
      memories := TurnMoves(program, base, b, w, v);
      match Turn(program, base, b, w)
      case Failed(_, _) =>
      case Going(b1) =>
        var more := PassMoves(program, base, b1, w + 1, v);
        MovesOn(program, base, v, memories, more, b, b1, Pass(program, base, b1, w + 1).block);
        memories := memories + more;
    }
  }

  /** In every run of a block, each warp that does not fault does a run of micro-steps on some memories: the
      runs of which nesting and mask restoration hold. */
  lemma {:induction false} BlockMoves(program: seq<Instruction>, base: LaunchContext, b: Block, fuel: nat, v: nat)
    returns (memories: seq<MemoryImage>)
    requires ValidProgram(program) && Phased(b) && Shaped(b) && v < |b.warps|
    requires var r := RunBlock(program, base, b, fuel); r.BlockFault? ==> v != r.fault.warp
    ensures |RunBlock(program, base, b, fuel).block.warps| == |b.warps|
    ensures MovesAlong(program, base, v, memories, b, RunBlock(program, base, b, fuel).block)
    decreases fuel
  {
    hide Phased, Pass, Release, MovesAlong, AllFinished, AllParked, AnyRunnable;
    if fuel == 0 {
      memories := [];
      StaysPut(program, base, v, b, b);
    } else {
      PassPhased(program, base, b, 0);
      memories := PassMoves(program, base, b, 0, v);
      match Pass(program, base, b, 0)
      case Failed(_, _) =>
      case Going(b1) =>
        if !AllFinished(b1) {
          if AllParked(b1) {
            ReleasePhased(b1);
            ReleaseParts(b1, v);
            StaysPut(program, base, v, b1, Release(b1));
            MovesOn(program, base, v, memories, [], b, b1, Release(b1));
            var more := BlockMoves(program, base, Release(b1), fuel - 1, v);
            MovesOn(program, base, v, memories + [], more, b, Release(b1), RunBlock(program, base, Release(b1), fuel - 1).block);
            memories := memories + [] + more;
          } else if AnyRunnable(b) {
            var more := BlockMoves(program, base, b1, fuel - 1, v);
            MovesOn(program, base, v, memories, more, b, b1, RunBlock(program, base, b1, fuel - 1).block);
            memories := memories + more;
          }
        }
    }
  }

  lemma ReleaseParts(b: Block, v: nat)
    requires Shaped(b) && v < |b.warps|
    ensures |Release(b).warps| == |b.warps| && Unparked(Release(b).warps[v]) == Unparked(b.warps[v])
  {
  }

  /** From the start of a block: the run of warp `v`. */
  lemma WarpOfBlock(program: seq<Instruction>, base: LaunchContext, lanes: u32, m: MemoryImage, c: Counters, fuel: nat, v: nat)
    returns (memories: seq<MemoryImage>)
    requires ValidProgram(program) && |c.histogram| == WARP_SIZE + 1 && v < WarpCount(lanes)
    requires var r := RunBlock(program, base, InitialBlock(lanes, m, c), fuel); r.BlockFault? ==> v != r.fault.warp
    ensures var r := RunBlock(program, base, InitialBlock(lanes, m, c), fuel);
            && |r.block.warps| == WarpCount(lanes)
            && StateAt(program, ContextOf(base, v), InitialWarp(LiveLanes(lanes, v)), memories, |memories|)
               == Some(Unparked(r.block.warps[v]))
  {
    hide RunBlock, Phased, MicroRun, LiveLanes, WarpCount;
    InitialBlockPhased(lanes, m, c);
    memories := BlockMoves(program, base, InitialBlock(lanes, m, c), fuel, v);
    assert memories[..|memories|] == memories;
  }
}
