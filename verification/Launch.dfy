/** A launch: decoding the program, then every block of the grid in order on one global memory. */
module Launch {
  import opened Isa
  import opened Alu
  import opened Memory
  import opened WarpSpec
  import opened WarpRuns
  import opened Scheduling
  import opened Device

  /** The program is decoded word by word; the first word that is not an instruction stops the launch. */
  method DecodeAll(words: seq<u64>) returns (r: Isa.Result<seq<Instruction>, (nat, IsaError)>)
    ensures r.Ok? ==> |r.value| == |words| && ValidProgram(r.value)
                      && forall pc | 0 <= pc < |words| :: Encode(r.value[pc]) == Ok(words[pc])
    ensures r.Err? ==> var (pc, e) := r.error;
                       && pc < |words| && Decode(words[pc]) == Err(e)
                       && forall k | 0 <= k < pc :: Decode(words[k]).Ok?
  {
    hide Decode, Encode;
    var program: seq<Instruction> := [];
    for pc := 0 to |words|
      invariant |program| == pc && forall k | 0 <= k < pc :: Decode(words[k]) == Ok(program[k])
    {
      match Decode(words[pc]) {
        case Err(e) => return Err((pc, e));
        case Ok(i) => program := program + [i];
      }
    }
    forall pc | 0 <= pc < |words| ensures Encode(program[pc]) == Ok(words[pc]) && Valid(program[pc]) {
      DecodeInvertsEncode(program[pc], words[pc]);
      DecodedIsValid(words[pc]);
    }
    return Ok(program);
  }

  lemma DecodedIsValid(word: u64)
    ensures Decode(word).Ok? ==> Valid(Decode(word).value)
  {
  }

  /** What a launch is given besides the program. */
  datatype Config = Config(grid: Dim2, block: Dim2, shared: u32, params: seq<u32>, floats: FloatOps) {
    function Lanes(): u32 { block.Count() }
    function Context(column: u32, row: u32): LaunchContext {
      LaunchContext(block, grid, Dim2(column, row), 0, floats)
    }
  }

  datatype Totals = Totals(global: seq<u8>, counters: Counters, blocks: nat, lanes: nat, memory: MemoryStats)

  function AddStats(a: MemoryStats, b: MemoryStats): MemoryStats {
    MemoryStats(a.globalLoads + b.globalLoads, a.globalStores + b.globalStores,
                a.globalLaneAccesses + b.globalLaneAccesses, a.globalSegments + b.globalSegments,
                a.sharedAccesses + b.sharedAccesses, a.sharedLaneAccesses + b.sharedLaneAccesses,
                a.sharedWavefronts + b.sharedWavefronts, a.sharedConflicted + b.sharedConflicted)
  }

  function BlockStart(cfg: Config, global: seq<u8>): MemoryImage {
    MemoryImage(Store(global, seq(cfg.shared, _ => 0), cfg.params), ZERO_STATS)
  }

  datatype LaunchResult = Launched(totals: Totals) | Aborted(fault: Fault, global: seq<u8>) | Exhausted(global: seq<u8>)

  ghost predicate Shaped(t: Totals) { |t.counters.histogram| == WARP_SIZE + 1 }

  ghost function BlockRun(program: seq<Instruction>, cfg: Config, column: u32, row: u32, t: Totals, fuel: nat): BlockResult
    requires ValidProgram(program) && Shaped(t)
  {
    RunBlock(program, cfg.Context(column, row), InitialBlock(cfg.Lanes(), BlockStart(cfg, t.global), t.counters), fuel)
  }

  /** One block: it sees the global memory the earlier blocks left, its own zeroed shared memory, and its own
      counters of memory accesses. */
  ghost function OneBlock(program: seq<Instruction>, cfg: Config, column: u32, row: u32, t: Totals, fuel: nat): (r: LaunchResult)
    requires ValidProgram(program) && Shaped(t)
    ensures r.Launched? ==> Shaped(r.totals)
  {
    match BlockRun(program, cfg, column, row, t, fuel)
    case Completed(b) =>
      Launched(Totals(b.memory.store.global, WithEvents(b.counters, b.warps), t.blocks + 1, t.lanes + cfg.Lanes(),
                      AddStats(t.memory, b.memory.stats)))
    case BlockFault(f, b) => Aborted(f, b.memory.store.global)
    case OutOfFuel(b) => Exhausted(b.memory.store.global)
    case NoProgress(b) => Exhausted(b.memory.store.global)
  }

  /** The blocks of one row, from `column` on. */
  ghost function Row(program: seq<Instruction>, cfg: Config, column: u32, row: u32, t: Totals, fuel: nat): (r: LaunchResult)
    requires ValidProgram(program) && Shaped(t) && column <= cfg.grid.x
    ensures r.Launched? ==> Shaped(r.totals)
    decreases cfg.grid.x - column
  {
    if column == cfg.grid.x then Launched(t)
    else match OneBlock(program, cfg, column, row, t, fuel)
      case Aborted(f, global) => Aborted(f, global)
      case Exhausted(global) => Exhausted(global)
      case Launched(t1) => Row(program, cfg, column + 1, row, t1, fuel)
  }

  /** The rows of the grid, from `row` on. */
  ghost function Grid(program: seq<Instruction>, cfg: Config, row: u32, t: Totals, fuel: nat): (r: LaunchResult)
    requires ValidProgram(program) && Shaped(t) && row <= cfg.grid.y
    ensures r.Launched? ==> Shaped(r.totals)
    decreases cfg.grid.y - row
  {
    if row == cfg.grid.y then Launched(t)
    else match Row(program, cfg, 0, row, t, fuel)
      case Aborted(f, global) => Aborted(f, global)
      case Exhausted(global) => Exhausted(global)
      case Launched(t1) => Grid(program, cfg, row + 1, t1, fuel)
  }

  ghost function Start(global: seq<u8>): Totals {
    Totals(global, ZeroCounters(), 0, 0, ZERO_STATS)
  }

  // ---- what the totals mean ----

  /** Every issue is of one class and one lane count, at most two reconvergence events follow a divergence,
      and every block contributed all its lanes and warps. */
  ghost predicate Conserved(cfg: Config, t: Totals) {
    && Balanced(t.counters) && Shaped(t)
    && t.counters.reconverged <= 2 * t.counters.divergent
    && t.lanes == t.blocks * cfg.Lanes()
    && t.counters.warps == t.blocks * WarpCount(cfg.Lanes())
  }

  /** The counters that only the end of a block changes. */
  ghost predicate SameEvents(c: Counters, d: Counters) {
    c.warps == d.warps && c.divergent == d.divergent && c.reconverged == d.reconverged
  }

  lemma {:induction false} RunKeepsWarps(program: seq<Instruction>, base: LaunchContext, b: Block, fuel: nat)
    requires ValidProgram(program) && Scheduling.Shaped(b)
    ensures SameEvents(RunBlock(program, base, b, fuel).block.counters, b.counters)
    decreases fuel
  {
    hide Pass, AllFinished, AllParked, AnyRunnable, Scheduling.Shaped;
    if fuel > 0 {
      PassKeepsWarps(program, base, b, 0);
      match Pass(program, base, b, 0)
      case Failed(_, _) =>
      case Going(b1) =>
        if !AllFinished(b1) {
          if AllParked(b1) {
            RunKeepsWarps(program, base, Release(b1), fuel - 1);
          } else if AnyRunnable(b) {
            RunKeepsWarps(program, base, b1, fuel - 1);
          }
        }
    }
  }

  lemma {:induction false} PassKeepsWarps(program: seq<Instruction>, base: LaunchContext, b: Block, w: nat)
    requires ValidProgram(program) && Scheduling.Shaped(b) && w <= |b.warps|
    ensures SameEvents(Pass(program, base, b, w).block.counters, b.counters)
    decreases |b.warps| - w
  {
    hide Step;
    if w < |b.warps| {
      match Turn(program, base, b, w)
      case Failed(_, _) =>
      case Going(b1) => PassKeepsWarps(program, base, b1, w + 1);
    }
  }

  /** A block adds exactly what it did. */
  lemma BlockConserves(program: seq<Instruction>, cfg: Config, column: u32, row: u32, t: Totals, fuel: nat)
    requires ValidProgram(program) && Conserved(cfg, t)
    ensures match OneBlock(program, cfg, column, row, t, fuel)
            case Launched(t1) => Conserved(cfg, t1) && t1.blocks == t.blocks + 1
            case _ => true
  {
    hide RunBlock, Invariant, PhasedLog, PhaseOf, Fair, Barriers, Scheduling.Sum, Weighted, WarpCount;
    var b0 := InitialBlock(cfg.Lanes(), BlockStart(cfg, t.global), t.counters);
    BlockOutcome(program, cfg.Context(column, row), cfg.Lanes(), BlockStart(cfg, t.global), t.counters, fuel);
    RunKeepsWarps(program, cfg.Context(column, row), b0, fuel);
    match BlockRun(program, cfg, column, row, t, fuel)
    case Completed(b) =>
      EventsBound(b.warps);
      OneMore(t.blocks, cfg.Lanes());
      OneMore(t.blocks, WarpCount(cfg.Lanes()));
    case _ =>
  }

  lemma OneMore(a: nat, b: nat)
    ensures (a + 1) * b == a * b + b
  {
  }

  lemma {:induction false} RowConserves(program: seq<Instruction>, cfg: Config, column: u32, row: u32, t: Totals, fuel: nat)
    requires ValidProgram(program) && Conserved(cfg, t) && column <= cfg.grid.x
    ensures match Row(program, cfg, column, row, t, fuel)
            case Launched(t1) => Conserved(cfg, t1) && t1.blocks == t.blocks + (cfg.grid.x - column)
            case _ => true
    decreases cfg.grid.x - column
  {
    hide OneBlock, Conserved;
    ConservedShape(cfg, t);
    if column < cfg.grid.x {
      BlockConserves(program, cfg, column, row, t, fuel);
      match OneBlock(program, cfg, column, row, t, fuel)
      case Launched(t1) => RowConserves(program, cfg, column + 1, row, t1, fuel);
      case _ =>
    }
  }

  lemma ConservedShape(cfg: Config, t: Totals)
    requires Conserved(cfg, t)
    ensures Shaped(t)
  {
  }

  lemma {:induction false} GridConserves(program: seq<Instruction>, cfg: Config, row: u32, t: Totals, fuel: nat)
    requires ValidProgram(program) && Conserved(cfg, t) && row <= cfg.grid.y
    ensures match Grid(program, cfg, row, t, fuel)
            case Launched(t1) => Conserved(cfg, t1) && t1.blocks == t.blocks + (cfg.grid.y - row) * cfg.grid.x
            case _ => true
    decreases cfg.grid.y - row
  {
    hide Row, Conserved;
    ConservedShape(cfg, t);
    if row < cfg.grid.y {
      RowConserves(program, cfg, 0, row, t, fuel);
      OneMore(cfg.grid.y - row - 1, cfg.grid.x);
      match Row(program, cfg, 0, row, t, fuel)
      case Launched(t1) => GridConserves(program, cfg, row + 1, t1, fuel);
      case _ =>
    }
  }

  /** The totals of any launch that completes. */
  lemma LaunchConserves(program: seq<Instruction>, cfg: Config, global: seq<u8>, fuel: nat)
    requires ValidProgram(program)
    ensures match Grid(program, cfg, 0, Start(global), fuel)
            case Launched(t) =>
              && Balanced(t.counters) && t.counters.reconverged <= 2 * t.counters.divergent
              && t.blocks == cfg.grid.y * cfg.grid.x
              && t.lanes == t.blocks * cfg.Lanes()
              && t.counters.warps == t.blocks * ((cfg.Lanes() as int + 31) % 0x1_0000_0000 / 32)
              && cfg.Lanes() as int == cfg.block.x * cfg.block.y % 0x1_0000_0000
            case _ => true
  {
    hide Grid, Balanced;
    ZeroBalanced();
    GridConserves(program, cfg, 0, Start(global), fuel);
  }

  // ---- the loops of `launch` ----

  /** The objects hold the running totals. */
  ghost predicate HoldsTotals(t: Totals, global: ByteMemory, stats: LaunchStats, blocks: nat, lanes: nat, memory: MemoryStats)
    reads global.bytes, stats.Footprint()
  {
    t == Totals(global.bytes[..], stats.Value(), blocks, lanes, memory)
  }

  /** Creates the memory of one block and runs it. */
  method ExecuteOne(program: seq<Instruction>, cfg: Config, column: u32, row: u32, global: ByteMemory, stats: LaunchStats,
                    ghost t: Totals, fuel: nat) returns (end: BlockEnd, memory: MemoryStats)
    requires ValidProgram(program) && Shaped(t) && stats.Valid() && global.bytes !in stats.Footprint()
    requires t.global == global.bytes[..] && t.counters == stats.Value()
    modifies global.bytes, stats.Footprint()
    ensures match OneBlock(program, cfg, column, row, t, fuel)
            case Launched(t1) =>
              (end == Done && t1.global == global.bytes[..] && t1.counters == stats.Value()
               && t1.blocks == t.blocks + 1 && t1.lanes == t.lanes + cfg.Lanes() && t1.memory == AddStats(t.memory, memory))
            case Aborted(f, g) => end == Failure(f) && g == global.bytes[..]
            case Exhausted(g) => end == Unfinished && g == global.bytes[..]
  {
    hide RunBlock, InitialBlock, WithEvents;
    var block := new BlockMemory(global, cfg.shared, cfg.params);
    end := ExecuteBlock(program, block, cfg.Context(column, row), cfg.Lanes(), stats, fuel);
    memory := block.analyzer.stats;
  }

  /** One row of blocks. */
  method ExecuteRow(program: seq<Instruction>, cfg: Config, row: u32, global: ByteMemory, stats: LaunchStats,
                    blocks0: nat, lanes0: nat, memory0: MemoryStats, ghost t: Totals, fuel: nat)
    returns (end: BlockEnd, blocks: nat, lanes: nat, memory: MemoryStats)
    requires ValidProgram(program) && Shaped(t) && stats.Valid() && global.bytes !in stats.Footprint()
    requires HoldsTotals(t, global, stats, blocks0, lanes0, memory0)
    modifies global.bytes, stats.Footprint()
    ensures match Row(program, cfg, 0, row, t, fuel)
            case Launched(t1) => end == Done && HoldsTotals(t1, global, stats, blocks, lanes, memory)
            case Aborted(f, g) => end == Failure(f) && g == global.bytes[..]
            case Exhausted(g) => end == Unfinished && g == global.bytes[..]
  {
    hide OneBlock;
    blocks, lanes, memory := blocks0, lanes0, memory0;
    ghost var now := t;
    var column: u32 := 0;
    while column < cfg.grid.x
      invariant column <= cfg.grid.x && Shaped(now) && HoldsTotals(now, global, stats, blocks, lanes, memory)
      invariant Row(program, cfg, 0, row, t, fuel) == Row(program, cfg, column, row, now, fuel)
    {
      ghost var step := OneBlock(program, cfg, column, row, now, fuel);
      var one;
      end, one := ExecuteOne(program, cfg, column, row, global, stats, now, fuel);
      if end != Done {
        return;
      }
      now := step.totals;
      blocks, lanes, memory := blocks + 1, lanes + cfg.Lanes(), AddStats(memory, one);
      column := column + 1;
    }
    end := Done;
  }

  datatype LaunchEnd =
    | Finish(counters: Counters, blocks: nat, lanes: nat, memory: MemoryStats)
    | InvalidWord(pc: nat, error: IsaError) | EmptyLaunch | Crash(fault: Fault) | Incomplete

  /** The value of a finished launch's counters. */
  method Snapshot(stats: LaunchStats) returns (c: Counters)
    ensures c == stats.Value()
  {
    c := Counters(stats.issued, stats.alu, stats.memory, stats.control, stats.barrier, stats.divergent,
                  stats.reconverged, stats.completed, stats.laneSum, stats.histogram[..], stats.warps);
  }

  /** `Device::launch`, with at most `fuel` scheduler rounds for each block. */
  method LaunchKernel(words: seq<u64>, cfg: Config, global: ByteMemory, fuel: nat) returns (end: LaunchEnd, ghost program: seq<Instruction>)
    modifies global.bytes
    ensures end.InvalidWord? ==> end.pc < |words| && Decode(words[end.pc]) == Err(end.error)
                                 && forall k | 0 <= k < end.pc :: Decode(words[k]).Ok?
    ensures !end.InvalidWord? ==> ValidProgram(program) && |program| == |words|
                                  && forall pc | 0 <= pc < |words| :: Encode(program[pc]) == Ok(words[pc])
    ensures !end.InvalidWord? ==> (end == EmptyLaunch <==> cfg.block.Count() == 0 || cfg.grid.Count() == 0)
    ensures !end.InvalidWord? && end != EmptyLaunch ==>
              match Grid(program, cfg, 0, Start(old(global.bytes[..])), fuel)
              case Launched(t) => end == Finish(t.counters, t.blocks, t.lanes, t.memory) && t.global == global.bytes[..]
              case Aborted(f, g) => end == Crash(f) && g == global.bytes[..]
              case Exhausted(g) => end == Incomplete && g == global.bytes[..]
  {
    hide Row, Encode, Decode, Valid;
    program := [];
    var decoded := DecodeAll(words);
    if decoded.Err? {
      return InvalidWord(decoded.error.0, decoded.error.1), program;
    }
    program := decoded.value;
    if cfg.block.Count() == 0 || cfg.grid.Count() == 0 {
      return EmptyLaunch, program;
    }
    end := ExecuteGrid(decoded.value, cfg, global, fuel);
  }

  method ExecuteGrid(program: seq<Instruction>, cfg: Config, global: ByteMemory, fuel: nat) returns (end: LaunchEnd)
    requires ValidProgram(program)
    modifies global.bytes
    ensures match Grid(program, cfg, 0, Start(old(global.bytes[..])), fuel)
            case Launched(t) => end == Finish(t.counters, t.blocks, t.lanes, t.memory) && t.global == global.bytes[..]
            case Aborted(f, g) => end == Crash(f) && g == global.bytes[..]
            case Exhausted(g) => end == Incomplete && g == global.bytes[..]
  {
    hide Row;
    var stats := new LaunchStats();
    var blocks, lanes, memory := 0, 0, ZERO_STATS;
    ghost var start := Start(global.bytes[..]);
    ghost var now := start;
    var row: u32 := 0;
    while row < cfg.grid.y
      invariant row <= cfg.grid.y && Shaped(now) && HoldsTotals(now, global, stats, blocks, lanes, memory)
      invariant Grid(program, cfg, 0, start, fuel) == Grid(program, cfg, row, now, fuel)
    {
      ghost var step := Row(program, cfg, 0, row, now, fuel);
      var over;
      over, blocks, lanes, memory := ExecuteRow(program, cfg, row, global, stats, blocks, lanes, memory, now, fuel);
      match over {
        case Failure(f) => return Crash(f);
        case Unfinished => return Incomplete;
        case Done => now := step.totals;
      }
      row := row + 1;
    }
    var counters := Snapshot(stats);
    return Finish(counters, blocks, lanes, memory);
  }
}
