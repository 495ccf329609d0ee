/** Running one block: the scheduler loop over warp objects, with the launch counters it updates. */
module Device {
  import opened Isa
  import opened Alu
  import opened Memory
  import opened RegisterFiles
  import opened WarpSpec
  import opened Warps
  import opened Scheduling
  import Geometry

  class LaunchStats {
    var issued: nat
    var alu: nat
    var memory: nat
    var control: nat
    var barrier: nat
    var divergent: nat
    var reconverged: nat
    var completed: nat
    var laneSum: nat
    const histogram: array<nat>
    var warps: nat

    ghost predicate Valid() { histogram.Length == WARP_SIZE + 1 }

    ghost function Footprint(): set<object> { {this, histogram} }

    ghost function Value(): Counters
      reads this, histogram
    {
      Counters(issued, alu, memory, control, barrier, divergent, reconverged, completed, laneSum, histogram[..], warps)
    }

    constructor ()
      ensures Valid() && fresh(Footprint()) && Value() == ZeroCounters()
    {
      issued, alu, memory, control, barrier := 0, 0, 0, 0, 0;
      divergent, reconverged, completed, laneSum, warps := 0, 0, 0, 0, 0;
      histogram := new nat[WARP_SIZE + 1](_ => 0);
    }

    /** One issue of `op` on `lanes` lanes. */
    method Count(lanes: nat, op: Opcode)
      requires Valid() && lanes <= WARP_SIZE
      modifies Footprint()
      ensures Value() == Tally(old(Value()), lanes, op)
    {
      hide TallyClass;
      issued := issued + 1;
      laneSum := laneSum + lanes;
      histogram[lanes] := histogram[lanes] + 1;
      CountClass(op);
    }

    method CountClass(op: Opcode)
      modifies this
      ensures Value() == TallyClass(old(Value()), op)
    {
      hide ClassOf;
      match ClassOf(op) {
        case ControlClass => control := control + 1;
        case BarrierClass => barrier := barrier + 1;
        case MemoryClass => memory := memory + 1;
        case AluClass => alu := alu + 1;
      }
    }
  }

  /** The objects of a block share no storage. */
  ghost predicate Apart(warps: seq<Warp>, base: LaunchContext, memory: BlockMemory, stats: LaunchStats) {
    && memory.Valid() && stats.Valid() && memory.Footprint() !! stats.Footprint()
    && (forall w | 0 <= w < |warps| ::
          && warps[w].Valid() && warps[w].context == base.(warpId := w)
          && warps[w].Footprint() !! memory.Footprint() && warps[w].Footprint() !! stats.Footprint())
    && (forall v, w | 0 <= v < w < |warps| :: warps[v].Footprint() !! warps[w].Footprint())
  }

  /** The warp objects are in the given states. */
  ghost predicate InStates(warps: seq<Warp>, states: seq<WarpState>)
    reads warps, set w | w in warps :: w.registers.general, set w | w in warps :: w.registers.predicates
  {
    |states| == |warps| && forall w | 0 <= w < |warps| :: warps[w].Valid() && warps[w].State() == states[w]
  }

  /** The objects hold the block `b`. */
  ghost predicate Holds(b: Block, warps: seq<Warp>, memory: BlockMemory, stats: LaunchStats)
    reads warps, set w | w in warps :: w.registers.general, set w | w in warps :: w.registers.predicates
    reads memory.Footprint(), stats.Footprint()
  {
    InStates(warps, b.warps) && ImageOf(memory) == b.memory && stats.Value() == b.counters
  }

  /** Steps one warp; no other warp changes. */
  method StepWarp(program: seq<Instruction>, base: LaunchContext, warps: seq<Warp>, w: nat, memory: BlockMemory,
                  stats: LaunchStats, ghost b: Block) returns (r: Isa.Result<Outcome, Fault>)
    requires ValidProgram(program) && w < |warps| && Apart(warps, base, memory, stats)
    requires Holds(b, warps, memory, stats)
    modifies warps[w].Footprint(), memory.Footprint()
    ensures var step := Step(program, base.(warpId := w), b.warps[w], b.memory);
            && r == ResultOf(step)
            && Holds(b.(warps := b.warps[w := step.warp], memory := step.memory), warps, memory, stats)
  {
    hide Step;
    ghost var step := Step(program, base.(warpId := w), b.warps[w], b.memory);
    r := warps[w].Step(program, memory);
    forall v | 0 <= v < |warps| ensures warps[v].State() == b.warps[w := step.warp][v] {
      if v != w { assert warps[v].Footprint() !! warps[w].Footprint(); }
    }
  }

  /** One warp's turn: skipped if it has finished or is parked, otherwise one step, counted if it issued. */
  method TakeTurn(program: seq<Instruction>, base: LaunchContext, warps: seq<Warp>, w: nat, memory: BlockMemory,
                  stats: LaunchStats, ghost b: Block) returns (ran: bool, fault: Option<Fault>, ghost b1: Block)
    requires ValidProgram(program) && Shaped(b) && w < |warps| && Apart(warps, base, memory, stats)
    requires Holds(b, warps, memory, stats)
    modifies warps[w].Footprint(), memory.Footprint(), stats.Footprint()
    ensures Shaped(b1) && |b1.warps| == |b.warps| && Holds(b1, warps, memory, stats)
    ensures Turn(program, base, b, w) == if fault.Some? then Failed(fault.value, b1) else Going(b1)
    ensures ran <==> Runnable(b.warps[w])
  {
    hide Step, Tally, Apart;
    ApartPair(warps, base, memory, stats, w);
    var warp := warps[w];
    assert warp.State() == b.warps[w];
    b1 := b;
    if warp.live == {} || warp.parked {
      return false, None, b;
    }
    ghost var step := Step(program, base.(warpId := w), b.warps[w], b.memory);
    var outcome := StepWarp(program, base, warps, w, memory, stats, b);
    b1 := b.(warps := b.warps[w := step.warp], memory := step.memory);
    assert warp.State() == b1.warps[w];
    if outcome.Err? {
      return true, Some(outcome.error), b1;
    }
    if outcome.value != Finished {
      WarpRuns.MaskSize(warp.lastExec);
      CountIssue(warps, base, memory, stats, b1, |warp.lastExec|, warp.lastOp);
      b1 := Record(b, w, step.outcome, step.warp, step.memory);
    }
    return true, None, b1;
  }

  lemma ApartPair(warps: seq<Warp>, base: LaunchContext, memory: BlockMemory, stats: LaunchStats, w: nat)
    requires Apart(warps, base, memory, stats) && w < |warps|
    ensures warps[w].Valid() && stats.Valid()
    ensures warps[w].Footprint() !! stats.Footprint() && memory.Footprint() !! stats.Footprint()
  {
  }

  method CountIssue(warps: seq<Warp>, base: LaunchContext, memory: BlockMemory, stats: LaunchStats,
                    ghost b: Block, lanes: nat, op: Opcode)
    requires Apart(warps, base, memory, stats) && Shaped(b) && Holds(b, warps, memory, stats) && lanes <= WARP_SIZE
    modifies stats.Footprint()
    ensures Holds(b.(counters := Tally(b.counters, lanes, op)), warps, memory, stats)
  {
    hide Tally;
    stats.Count(lanes, op);
    forall v | 0 <= v < |warps| ensures warps[v].State() == b.warps[v] {
      assert warps[v].Footprint() !! stats.Footprint();
    }
  }

  ghost function AllFootprints(warps: seq<Warp>): set<object> {
    set w, o | w in warps && o in w.Footprint() :: o
  }

  /** Every warp in order takes its turn; a fault ends the pass. */
  method RunPass(program: seq<Instruction>, base: LaunchContext, warps: seq<Warp>, memory: BlockMemory,
                 stats: LaunchStats, ghost b: Block) returns (anyRunnable: bool, fault: Option<Fault>, ghost b1: Block)
    requires ValidProgram(program) && Shaped(b) && Apart(warps, base, memory, stats)
    requires Holds(b, warps, memory, stats)
    modifies AllFootprints(warps), memory.Footprint(), stats.Footprint()
    ensures Shaped(b1) && |b1.warps| == |b.warps| && Holds(b1, warps, memory, stats)
    ensures Pass(program, base, b, 0) == if fault.Some? then Failed(fault.value, b1) else Going(b1)
    ensures fault == None ==> (anyRunnable <==> AnyRunnable(b))
  {
    hide Turn, Holds, Apart, Pass, AllFootprints, Runnable;
    HoldsLength(b, warps, memory, stats);
    b1, anyRunnable, fault := b, false, None;
    for w := 0 to |warps|
      invariant Shaped(b1) && |b1.warps| == |b.warps| == |warps| && Holds(b1, warps, memory, stats)
      invariant fault == None && Pass(program, base, b, 0) == Pass(program, base, b1, w)
      invariant forall v | w <= v < |warps| :: b1.warps[v] == b.warps[v]
      invariant anyRunnable <==> exists v :: 0 <= v < w && Runnable(b.warps[v])
    {
      InFootprints(warps, w);
      ghost var before := b1;
      var ran;
      ran, fault, b1 := TakeTurn(program, base, warps, w, memory, stats, before);
      TurnElsewhere(program, base, before, w);
      PassStep(program, base, before, w);
      anyRunnable := anyRunnable || ran;
      if fault.Some? {
        return anyRunnable, fault, b1;
      }
    }
    PassEnd(program, base, b1);
  }

  lemma PassStep(program: seq<Instruction>, base: LaunchContext, b: Block, w: nat)
    requires ValidProgram(program) && Shaped(b) && w < |b.warps|
    ensures Pass(program, base, b, w) == match Turn(program, base, b, w)
                                          case Failed(f, b1) => Failed(f, b1)
                                          case Going(b1) => Pass(program, base, b1, w + 1)
  {
    hide Turn;
  }

  lemma PassEnd(program: seq<Instruction>, base: LaunchContext, b: Block)
    requires ValidProgram(program) && Shaped(b)
    ensures Pass(program, base, b, |b.warps|) == Going(b)
  {
  }

  lemma HoldsLength(b: Block, warps: seq<Warp>, memory: BlockMemory, stats: LaunchStats)
    requires Holds(b, warps, memory, stats)
    ensures |b.warps| == |warps|
  {
  }

  lemma InFootprints(warps: seq<Warp>, w: nat)
    requires w < |warps|
    ensures warps[w].Footprint() <= AllFootprints(warps)
  {
    assert warps[w] in warps;
  }

  /** Whether some warp is unfinished, and whether all unfinished warps are parked. */
  method Survey(warps: seq<Warp>, ghost states: seq<WarpState>) returns (anyUnfinished: bool, allParked: bool)
    requires InStates(warps, states)
    ensures anyUnfinished <==> exists w :: 0 <= w < |states| && states[w].live != {}
    ensures allParked <==> forall w | 0 <= w < |states| && states[w].live != {} :: states[w].parked
  {
    anyUnfinished, allParked := false, true;
    for w := 0 to |warps|
      invariant anyUnfinished <==> exists v :: 0 <= v < w && states[v].live != {}
      invariant allParked <==> forall v | 0 <= v < w && states[v].live != {} :: states[v].parked
    {
      assert warps[w].State() == states[w];
      if warps[w].live != {} {
        anyUnfinished := true;
        allParked := allParked && warps[w].parked;
      }
    }
  }

  method UnparkOne(base: LaunchContext, warps: seq<Warp>, w: nat, memory: BlockMemory, stats: LaunchStats, ghost b: Block)
    requires w < |warps| && Apart(warps, base, memory, stats) && Holds(b, warps, memory, stats)
    modifies warps[w]
    ensures Holds(b.(warps := b.warps[w := b.warps[w].(parked := false)]), warps, memory, stats)
  {
    warps[w].parked := false;
    forall v | 0 <= v < |warps| ensures warps[v].State() == b.warps[w := b.warps[w].(parked := false)][v] {
      if v != w { assert warps[v].Footprint() !! warps[w].Footprint(); }
    }
  }

  method UnparkAll(base: LaunchContext, warps: seq<Warp>, memory: BlockMemory, stats: LaunchStats, ghost b: Block)
    requires Apart(warps, base, memory, stats) && Holds(b, warps, memory, stats)
    modifies AllFootprints(warps)
    ensures Holds(b.(warps := Unpark(b.warps)), warps, memory, stats)
  {
    hide Holds, Apart, AllFootprints;
    HoldsLength(b, warps, memory, stats);
    ghost var b1 := b;
    for w := 0 to |warps|
      invariant |b1.warps| == |b.warps| && b1 == b.(warps := b1.warps) && Holds(b1, warps, memory, stats)
      invariant forall v | 0 <= v < |warps| :: b1.warps[v] == if v < w then b.warps[v].(parked := false) else b.warps[v]
    {
      InFootprints(warps, w);
      UnparkOne(base, warps, w, memory, stats, b1);
      b1 := b1.(warps := b1.warps[w := b1.warps[w].(parked := false)]);
    }
    assert b1.warps == Unpark(b.warps);
  }

  /** The warps of a block, each with its own storage. */
  method CreateWarps(base: LaunchContext, lanes: u32, memory: BlockMemory, stats: LaunchStats) returns (warps: seq<Warp>)
    requires memory.Valid() && stats.Valid() && memory.Footprint() !! stats.Footprint()
    ensures fresh(AllFootprints(warps))
    ensures Apart(warps, base, memory, stats) && InStates(warps, InitialWarps(lanes))
    ensures |warps| == (lanes + 31) % 0x1_0000_0000 / 32
    ensures lanes + 31 < 0x1_0000_0000 ==>
              forall w: nat, l: nat | w < |warps| && l < 32 :: l in warps[w].live <==> 32 * w + l < lanes
  {
    hide InStates, Apart, AllFootprints, InitialWarps, LiveLanes, InitialWarp, WarpCount;
    var count := WarpCount(lanes);
    warps := [];
    NoWarps(base, memory, stats);
    InitialWarpsLength(lanes);
    ghost var used: set<object> := {};
    for w := 0 to count
      invariant |warps| == w && fresh(used) && used == AllFootprints(warps) && Apart(warps, base, memory, stats)
      invariant InStates(warps, InitialWarps(lanes)[..w])
    {
      var warp := new Warp(LiveLanes(lanes, w), base.(warpId := w));
      ApartPush(warps, base, memory, stats, warp);
      InStatesPush(warps, lanes, warp);
      warps := warps + [warp];
      used := used + warp.Footprint();
    }
    assert InitialWarps(lanes)[..count] == InitialWarps(lanes);
    WarpsHoldLanes(warps, lanes);
  }

  lemma WarpsHoldLanes(warps: seq<Warp>, lanes: u32)
    requires InStates(warps, InitialWarps(lanes))
    ensures |warps| == (lanes + 31) % 0x1_0000_0000 / 32
    ensures lanes + 31 < 0x1_0000_0000 ==>
              forall w: nat, l: nat | w < |warps| && l < 32 :: l in warps[w].live <==> 32 * w + l < lanes
  {
    if lanes + 31 < 0x1_0000_0000 { Geometry.InitialHoldsLanes(lanes); }
    hide LiveLanes;
    forall w: nat | w < |warps| ensures warps[w].live == InitialWarps(lanes)[w].live {
      assert warps[w].State() == InitialWarps(lanes)[w];
    }
  }

  lemma NoWarps(base: LaunchContext, memory: BlockMemory, stats: LaunchStats)
    requires memory.Valid() && stats.Valid() && memory.Footprint() !! stats.Footprint()
    ensures Apart([], base, memory, stats) && AllFootprints([]) == {} && InStates([], [])
  {
  }

  lemma InitialWarpsLength(lanes: u32)
    ensures |InitialWarps(lanes)| == WarpCount(lanes)
  {
  }

  lemma InStatesPush(warps: seq<Warp>, lanes: u32, warp: Warp)
    requires |warps| < |InitialWarps(lanes)| && InStates(warps, InitialWarps(lanes)[..|warps|])
    requires warp.Valid() && warp.State() == InitialWarp(LiveLanes(lanes, |warps|))
    ensures InStates(warps + [warp], InitialWarps(lanes)[..|warps| + 1])
  {
    var states := InitialWarps(lanes);
    assert states[|warps|] == InitialWarp(LiveLanes(lanes, |warps|));
    forall v | 0 <= v < |warps| ensures warps[v].Valid() && warps[v].State() == states[v] {
      assert states[..|warps|][v] == states[v];
    }
  }

  lemma ApartPush(warps: seq<Warp>, base: LaunchContext, memory: BlockMemory, stats: LaunchStats, warp: Warp)
    requires Apart(warps, base, memory, stats)
    requires warp.Valid() && warp.context == base.(warpId := |warps|)
    requires warp.Footprint() !! memory.Footprint() && warp.Footprint() !! stats.Footprint()
    requires warp.Footprint() !! AllFootprints(warps)
    ensures Apart(warps + [warp], base, memory, stats)
    ensures AllFootprints(warps + [warp]) == AllFootprints(warps) + warp.Footprint()
  {
    forall v | 0 <= v < |warps| ensures warps[v].Footprint() !! warp.Footprint() {
      InFootprints(warps, v);
    }
  }

  datatype BlockEnd = Done | Failure(fault: Fault) | Unfinished

  /** What the caller sees of a block that ended. */
  ghost predicate Ends(result: BlockResult, end: BlockEnd, memory: BlockMemory, stats: LaunchStats)
    reads memory.Footprint(), stats.Footprint()
  {
    match result
    case Completed(b) =>
      end == Done && ImageOf(memory) == b.memory && stats.Value() == WithEvents(b.counters, b.warps)
    case BlockFault(f, b) => end == Failure(f) && ImageOf(memory) == b.memory && stats.Value() == b.counters
    case OutOfFuel(b) => end == Unfinished && ImageOf(memory) == b.memory && stats.Value() == b.counters
    case NoProgress(_) => false
  }

  method AddEvents(warps: seq<Warp>, memory: BlockMemory, stats: LaunchStats, base: LaunchContext, ghost b: Block)
    requires Apart(warps, base, memory, stats) && Holds(b, warps, memory, stats)
    modifies stats
    ensures ImageOf(memory) == b.memory && stats.Value() == WithEvents(b.counters, b.warps)
  {
    hide Apart;
    assert b.warps[..0] == [];
    for w := 0 to |warps|
      invariant InStates(warps, b.warps) && ImageOf(memory) == b.memory
      invariant stats.Value() == WithEvents(b.counters, b.warps[..w])
    {
      ApartPair(warps, base, memory, stats, w);
      assert warps[w].State() == b.warps[w];
      assert b.warps[..w + 1][..w] == b.warps[..w];
      AddEventsOf(warps, w, memory, stats, base, b.warps);
    }
    assert b.warps[..|warps|] == b.warps;
  }

  method AddEventsOf(warps: seq<Warp>, w: nat, memory: BlockMemory, stats: LaunchStats, base: LaunchContext, ghost states: seq<WarpState>)
    requires Apart(warps, base, memory, stats) && InStates(warps, states) && w < |warps|
    modifies stats
    ensures InStates(warps, states) && ImageOf(memory) == old(ImageOf(memory))
    ensures stats.Value() == old(stats.Value()).(divergent := old(stats.divergent) + states[w].divergent,
                                                reconverged := old(stats.reconverged) + states[w].reconverged)
  {
    assert warps[w].State() == states[w];
    stats.divergent := stats.divergent + warps[w].divergent;
    stats.reconverged := stats.reconverged + warps[w].reconverged;
    forall v | 0 <= v < |warps| ensures warps[v].State() == states[v] {
      assert warps[v].Footprint() !! stats.Footprint();
    }
  }

  method CountWarps(warps: seq<Warp>, memory: BlockMemory, stats: LaunchStats, base: LaunchContext, ghost states: seq<WarpState>)
    requires Apart(warps, base, memory, stats) && InStates(warps, states)
    modifies stats
    ensures InStates(warps, states) && ImageOf(memory) == old(ImageOf(memory))
    ensures stats.Value() == old(stats.Value()).(warps := old(stats.warps) + |warps|)
  {
    stats.warps := stats.warps + |warps|;
    forall v | 0 <= v < |warps| ensures warps[v].State() == states[v] {
      assert warps[v].Footprint() !! stats.Footprint();
    }
  }

  method CompleteBarrier(warps: seq<Warp>, memory: BlockMemory, stats: LaunchStats, base: LaunchContext, ghost b: Block)
    requires Shaped(b) && Apart(warps, base, memory, stats) && Holds(b, warps, memory, stats)
    modifies AllFootprints(warps), stats
    ensures Holds(Release(b), warps, memory, stats)
  {
    hide AllFootprints;
    UnparkAll(base, warps, memory, stats, b);
    stats.completed := stats.completed + 1;
    forall v | 0 <= v < |warps| ensures warps[v].State() == Unpark(b.warps)[v] {
      assert warps[v].Footprint() !! stats.Footprint();
    }
  }

  /** One round of the scheduler loop: a pass, and then the end of the block, the release of a completed
      barrier, or the next round. The fault for a scheduler without progress is unreachable. */
  method RunRound(program: seq<Instruction>, base: LaunchContext, warps: seq<Warp>, memory: BlockMemory,
                  stats: LaunchStats, ghost b: Block, ghost fuel: nat) returns (end: Option<BlockEnd>, ghost b1: Block)
    requires ValidProgram(program) && Shaped(b) && fuel > 0 && Apart(warps, base, memory, stats)
    requires Holds(b, warps, memory, stats)
    modifies AllFootprints(warps), memory.Footprint(), stats.Footprint()
    ensures Shaped(b1)
    ensures end == None ==>
              Holds(b1, warps, memory, stats) && RunBlock(program, base, b, fuel) == RunBlock(program, base, b1, fuel - 1)
    ensures end.Some? ==> Ends(RunBlock(program, base, b, fuel), end.value, memory, stats)
  {
    hide Holds, Apart, RunBlock, Pass, Release, AllFootprints, InStates;
    RunBlockStep(program, base, b, fuel);
    var anyRunnable, fault;
    anyRunnable, fault, b1 := RunPass(program, base, warps, memory, stats, b);
    HoldsParts(b1, warps, memory, stats);
    if fault.Some? {
      return Some(Failure(fault.value)), b1;
    }
    var anyUnfinished, allParked := Survey(warps, b1.warps);
    if !anyUnfinished {
      AddEvents(warps, memory, stats, base, b1);
      return Some(Done), b1;
    }
    if allParked {
      CompleteBarrier(warps, memory, stats, base, b1);
      return None, Release(b1);
    }
    ProgressMade(program, base, b);
    if !anyRunnable {
      assert false;
    }
    return None, b1;
  }

  /** `run_block`, for at most `fuel` rounds. */
  method ExecuteBlock(program: seq<Instruction>, memory: BlockMemory, base: LaunchContext, lanes: u32,
                      stats: LaunchStats, fuel: nat) returns (end: BlockEnd)
    requires ValidProgram(program)
    requires memory.Valid() && stats.Valid() && memory.Footprint() !! stats.Footprint()
    modifies memory.Footprint(), stats.Footprint()
    ensures Ends(RunBlock(program, base, InitialBlock(lanes, old(ImageOf(memory)), old(stats.Value())), fuel),
                 end, memory, stats)
  {
    hide Holds, Apart, RunBlock, AllFootprints, InStates;
    var warps := CreateWarps(base, lanes, memory, stats);
    ghost var start := InitialBlock(lanes, ImageOf(memory), stats.Value());
    CountWarps(warps, memory, stats, base, InitialWarps(lanes));
    ghost var b := start;
    AssembleHolds(b, warps, memory, stats);
    var remaining := fuel;
    while remaining > 0
      invariant Shaped(b) && Holds(b, warps, memory, stats)
      invariant RunBlock(program, base, start, fuel) == RunBlock(program, base, b, remaining)
    {
      var over: Option<BlockEnd>;
      over, b := RunRound(program, base, warps, memory, stats, b, remaining);
      if over.Some? {
        return over.value;
      }
      remaining := remaining - 1;
    }
    HoldsParts(b, warps, memory, stats);
    RunBlockEnd(program, base, b);
    return Unfinished;
  }

  lemma AssembleHolds(b: Block, warps: seq<Warp>, memory: BlockMemory, stats: LaunchStats)
    requires InStates(warps, b.warps) && ImageOf(memory) == b.memory && stats.Value() == b.counters
    ensures Holds(b, warps, memory, stats)
  {
  }

  lemma HoldsParts(b: Block, warps: seq<Warp>, memory: BlockMemory, stats: LaunchStats)
    requires Holds(b, warps, memory, stats)
    ensures InStates(warps, b.warps) && ImageOf(memory) == b.memory && stats.Value() == b.counters
  {
  }

  lemma RunBlockStep(program: seq<Instruction>, base: LaunchContext, b: Block, fuel: nat)
    requires ValidProgram(program) && Shaped(b) && fuel > 0
    ensures RunBlock(program, base, b, fuel) ==
            match Pass(program, base, b, 0)
            case Failed(f, b1) => BlockFault(f, b1)
            case Going(b1) =>
              if AllFinished(b1) then Completed(b1)
              else if AllParked(b1) then RunBlock(program, base, Release(b1), fuel - 1)
              else if !AnyRunnable(b) then NoProgress(b1)
              else RunBlock(program, base, b1, fuel - 1)
  {
    hide Pass, Release;
  }

  lemma RunBlockEnd(program: seq<Instruction>, base: LaunchContext, b: Block)
    requires ValidProgram(program) && Shaped(b)
    ensures RunBlock(program, base, b, 0) == OutOfFuel(b)
  {
  }
}
