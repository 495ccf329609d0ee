/** Launching the reduction kernel computes the golden model. */
module ReduceLaunch {
  import opened Isa
  import opened Alu
  import opened Memory
  import opened WarpSpec
  import opened Scheduling
  import opened ReductionSums
  import opened ReduceKernel
  import ReduceProof
  import ReduceTermination
  import ReduceCounters
  import L = Launch

  /** The buffers of a launch over `blocks` blocks. */
  datatype Job = Job(x: u32, partial: u32, input: seq<u32>, blocks: u32) {
    function Block(b: u32): Env { Env(b, x, partial, input) }
  }

  /** Aligned, disjoint buffers inside a memory of `size` bytes, and an index space that fits signed words. */
  ghost predicate Fits(j: Job, size: nat) {
    && |j.input| < 0x8000_0000 && j.blocks * BLOCK <= 0x8000_0000
    && j.x % 4 == 0 && j.partial % 4 == 0
    && j.x + 4 * |j.input| <= size && j.partial + 4 * j.blocks <= size <= 0x1_0000_0000
    && (j.x + 4 * |j.input| <= j.partial || j.partial + 4 * j.blocks <= j.x)
  }

  function ConfigOf(j: Job, floats: FloatOps): L.Config {
    L.Config(Dim2(j.blocks, 1), Dim2(BLOCK, 1), 1024, [j.x, j.partial, |j.input| % 0x1_0000_0000], floats)
  }

  /** The input is in memory, and the results of the first `done` blocks are. */
  ghost predicate Progress(j: Job, global: seq<u8>, size: nat, done: nat) {
    && Fits(j, size) && |global| == size && done <= j.blocks
    && (forall i | 0 <= i < |j.input| :: Load32(global, j.x + 4 * i) == Ok(j.input[i]))
    && (forall b | 0 <= b < done :: Load32(global, j.partial + 4 * b) == Ok(BlockSum(j.input, b)))
  }

  /** The counters after `done` blocks: nine barriers a block, and no bank conflict. */
  ghost predicate Counted(t: L.Totals, done: nat) {
    && L.Shaped(t) && Balanced(t.counters)
    && t.counters.completed == ReduceCounters.BARRIERS * done && t.memory.sharedConflicted == 0
  }

  lemma BlockStarts(j: Job, floats: FloatOps, column: u32, row: u32, global: seq<u8>, size: nat)
    requires Progress(j, global, size, column) && column < j.blocks
    ensures var cfg := ConfigOf(j, floats); var e := j.Block(column); var m := L.BlockStart(cfg, global);
            && Sized(e, m.store) && InputIntact(e, m.store) && ReduceProof.Launched(e, cfg.Context(column, row))
            && cfg.Lanes() == BLOCK && m.store.global == global
  {
    hide Load32, BlockSum;
    Quotient(BLOCK * 1, 0x1_0000_0000, 0, BLOCK);
  }

  /** The memory a block leaves has its result and everything that was there before. */
  lemma BlockAdds(j: Job, column: u32, global: seq<u8>, size: nat, m: Store)
    requires Progress(j, global, size, column) && column < j.blocks
    requires ReduceProof.Framed(j.Block(column), global, m)
    requires j.partial + 4 * column < 0x1_0000_0000
    requires LoadFrom(m, Global, j.partial + 4 * column) == Ok(BlockSum(j.input, column))
    ensures Progress(j, m.global, size, column + 1)
  {
    hide Load32, BlockSum;
    forall i | 0 <= i < |j.input| ensures Load32(m.global, j.x + 4 * i) == Ok(j.input[i]) {
      assert LoadFrom(m, Global, j.x + 4 * i) == Load32(global, j.x + 4 * i);
    }
    forall b | 0 <= b < column + 1 ensures Load32(m.global, j.partial + 4 * b) == Ok(BlockSum(j.input, b)) {
      if b < column { assert LoadFrom(m, Global, j.partial + 4 * b) == Load32(global, j.partial + 4 * b); }
    }
  }

  lemma EventsKept(c: Counters, warps: seq<WarpState>)
    requires Balanced(c)
    ensures Balanced(WithEvents(c, warps)) && WithEvents(c, warps).completed == c.completed
  {
    hide Scheduling.Sum, Weighted, Divergent, Reconverged;
  }

  /** One block of the grid. */
  lemma BlockDone(j: Job, floats: FloatOps, column: u32, row: u32, t: L.Totals, size: nat, fuel: nat)
    requires Progress(j, t.global, size, column) && column < j.blocks && Counted(t, column)
    ensures ValidProgram(Kernel())
    ensures match L.OneBlock(Kernel(), ConfigOf(j, floats), column, row, t, fuel)
            case Launched(t1) => Counted(t1, column + 1) && Progress(j, t1.global, size, column + 1)
            case Aborted(_, _) => false
            case Exhausted(_) => fuel < ReduceTermination.ROUNDS
  {
    hide Kernel, RunBlock, InitialBlock, LoadFrom, Progress, Sized, InputIntact, ReduceProof.Framed, ReduceProof.Launched, BlockSum;
    var cfg := ConfigOf(j, floats);
    var e := j.Block(column);
    BlockStarts(j, floats, column, row, t.global, size);
    ReduceProof.ReduceBlock(e, cfg.Context(column, row), cfg.Lanes(), L.BlockStart(cfg, t.global), t.counters, fuel);
    if fuel >= ReduceTermination.ROUNDS {
      ReduceTermination.ReduceBlockEnds(e, cfg.Context(column, row), cfg.Lanes(), L.BlockStart(cfg, t.global), t.counters, fuel);
    }
    ReduceCounters.ReduceBlockCounts(e, cfg.Context(column, row), cfg.Lanes(), L.BlockStart(cfg, t.global), t.counters, fuel);
    match L.BlockRun(Kernel(), cfg, column, row, t, fuel)
    case Completed(b) =>
      BlockAdds(j, column, t.global, size, b.memory.store);
      EventsKept(b.counters, b.warps);
    case _ =>
  }

  lemma {:induction false} RowDone(j: Job, floats: FloatOps, column: u32, row: u32, t: L.Totals, size: nat, fuel: nat)
    requires Progress(j, t.global, size, column) && column <= j.blocks && Counted(t, column)
    ensures ValidProgram(Kernel())
    ensures match L.Row(Kernel(), ConfigOf(j, floats), column, row, t, fuel)
            case Launched(t1) => Counted(t1, j.blocks) && Progress(j, t1.global, size, j.blocks)
            case Aborted(_, _) => false
            case Exhausted(_) => fuel < ReduceTermination.ROUNDS
    decreases j.blocks - column
  {
    hide Kernel, Progress, L.OneBlock;
    KernelValid();
    if column < j.blocks {
      BlockDone(j, floats, column, row, t, size, fuel);
      match L.OneBlock(Kernel(), ConfigOf(j, floats), column, row, t, fuel)
      case Launched(t1) => RowDone(j, floats, column + 1, row, t1, size, fuel);
      case _ =>
    }
  }

  lemma StartProgress(j: Job, global: seq<u8>)
    requires Fits(j, |global|) && forall i | 0 <= i < |j.input| :: Load32(global, j.x + 4 * i) == Ok(j.input[i])
    ensures Progress(j, L.Start(global).global, |global|, 0) && Counted(L.Start(global), 0)
  {
    hide Load32, Balanced;
    ZeroBalanced();
  }

  lemma EndProgress(j: Job, t: L.Totals, size: nat)
    requires Progress(j, t.global, size, j.blocks) && Counted(t, j.blocks) && j.blocks == |ReduceBlocks(j.input)|
    ensures t.counters.completed == 9 * j.blocks && t.memory.sharedConflicted == 0
    ensures forall b | 0 <= b < |ReduceBlocks(j.input)| :: Load32(t.global, j.partial + 4 * b) == Ok(ReduceBlocks(j.input)[b])
  {
    hide Load32, Balanced, BlockSum;
  }

  /** For every input: a launch of the kernel over all its blocks never faults, completes when every block may
      take `ROUNDS` rounds, and leaves in memory the partial sums of the golden model; it has then completed
      nine barriers in every block and counted no bank conflict. */
  lemma ReductionIsGolden(j: Job, floats: FloatOps, global: seq<u8>, fuel: nat)
    requires Fits(j, |global|) && j.blocks == |ReduceBlocks(j.input)|
    requires forall i | 0 <= i < |j.input| :: Load32(global, j.x + 4 * i) == Ok(j.input[i])
    ensures ValidProgram(Kernel())
    ensures match L.Grid(Kernel(), ConfigOf(j, floats), 0, L.Start(global), fuel)
            case Launched(t) =>
              && t.counters.completed == 9 * j.blocks && t.memory.sharedConflicted == 0
              && forall b | 0 <= b < |ReduceBlocks(j.input)| :: Load32(t.global, j.partial + 4 * b) == Ok(ReduceBlocks(j.input)[b])
            case Aborted(_, _) => false
            case Exhausted(_) => fuel < ReduceTermination.ROUNDS
  {
    hide Kernel, Load32, L.Row, L.Grid, Progress, Counted, ReduceBlocks;
    KernelValid();
    var cfg := ConfigOf(j, floats);
    StartProgress(j, global);
    RowDone(j, floats, 0, 0, L.Start(global), |global|, fuel);
    OneRow(cfg, L.Start(global), fuel);
    match L.Grid(Kernel(), cfg, 0, L.Start(global), fuel)
    case Launched(t) => EndProgress(j, t, |global|);
    case _ =>
  }

  lemma OneRow(cfg: L.Config, t: L.Totals, fuel: nat)
    requires ValidProgram(Kernel()) && L.Shaped(t) && cfg.grid.y == 1
    ensures L.Grid(Kernel(), cfg, 0, t, fuel) == L.Row(Kernel(), cfg, 0, 0, t, fuel)
  {
    hide Kernel, L.Row;
    var r := L.Row(Kernel(), cfg, 0, 0, t, fuel);
    if r.Launched? { assert L.Grid(Kernel(), cfg, 1, r.totals, fuel) == r; }
  }
}
