/** A completed launch, block by block: which block runs when, what it finds, and what the totals sum up. */
module LaunchOrder {
  import opened Isa
  import opened Alu
  import opened Memory
  import opened WarpSpec
  import opened Scheduling
  import L = Launch

  /** The block at (x, y) of the grid ran from totals `before`, ended as `b`, and left totals `after`: it sees its
      own coordinates, the global memory before it, zeroed shared memory of the program's size, the parameters,
      and fresh access counters. */
  ghost predicate BlockRan(program: seq<Instruction>, cfg: L.Config, x: u32, y: u32, before: L.Totals, b: Block, after: L.Totals, fuel: nat)
    requires ValidProgram(program) && L.Shaped(before)
  {
    var base := LaunchContext(cfg.block, cfg.grid, Dim2(x, y), 0, cfg.floats);
    var memory := MemoryImage(Store(before.global, seq(cfg.shared, _ => 0), cfg.params), ZERO_STATS);
    && RunBlock(program, base, InitialBlock(cfg.block.x * cfg.block.y % 0x1_0000_0000, memory, before.counters), fuel) == Completed(b)
    && after.global == b.memory.store.global && after.counters == WithEvents(b.counters, b.warps)
  }

  /** One total of the access counters over the blocks. */
  ghost function Total(blocks: seq<Block>, count: MemoryStats -> nat): nat {
    if blocks == [] then 0 else Total(blocks[..|blocks| - 1], count) + count(blocks[|blocks| - 1].memory.stats)
  }

  ghost predicate SummedUp(blocks: seq<Block>, from: MemoryStats, to: MemoryStats) {
    && to.globalLoads == from.globalLoads + Total(blocks, (s: MemoryStats) => s.globalLoads)
    && to.globalStores == from.globalStores + Total(blocks, (s: MemoryStats) => s.globalStores)
    && to.globalLaneAccesses == from.globalLaneAccesses + Total(blocks, (s: MemoryStats) => s.globalLaneAccesses)
    && to.globalSegments == from.globalSegments + Total(blocks, (s: MemoryStats) => s.globalSegments)
    && to.sharedAccesses == from.sharedAccesses + Total(blocks, (s: MemoryStats) => s.sharedAccesses)
    && to.sharedLaneAccesses == from.sharedLaneAccesses + Total(blocks, (s: MemoryStats) => s.sharedLaneAccesses)
    && to.sharedWavefronts == from.sharedWavefronts + Total(blocks, (s: MemoryStats) => s.sharedWavefronts)
    && to.sharedConflicted == from.sharedConflicted + Total(blocks, (s: MemoryStats) => s.sharedConflicted)
  }

  lemma SumOne(blocks: seq<Block>, b: Block, from: MemoryStats, to: MemoryStats)
    requires SummedUp(blocks, from, to)
    ensures SummedUp(blocks + [b], from, L.AddStats(to, b.memory.stats))
  {
    var longer := blocks + [b];
    assert longer[..|longer| - 1] == blocks && longer[|longer| - 1] == b;
  }

  lemma NothingSummed(from: MemoryStats)
    ensures SummedUp([], from, from)
  {
  }

  /** The block at column `x` and row `y` ran in its place in the row by row order. */
  ghost predicate RanInPlace(program: seq<Instruction>, cfg: L.Config, x: u32, y: u32, totals: seq<L.Totals>, blocks: seq<Block>, fuel: nat)
    requires ValidProgram(program)
  {
    var k := y * cfg.grid.x as int + x;
    k < |blocks| < |totals| && L.Shaped(totals[k]) && BlockRan(program, cfg, x, y, totals[k], blocks[k], totals[k + 1], fuel)
  }

  /** The first `n` blocks of the grid have run row by row, one after the other; `totals[k]` is what the `k`-th
      of them found. */
  ghost predicate InOrder(program: seq<Instruction>, cfg: L.Config, totals: seq<L.Totals>, blocks: seq<Block>, n: nat, fuel: nat)
    requires ValidProgram(program)
  {
    && |totals| == n + 1 && |blocks| == n && n <= cfg.grid.x * cfg.grid.y
    && (forall k | 0 <= k <= n :: L.Shaped(totals[k]))
    && (forall x: u32, y: u32 | x < cfg.grid.x && y * cfg.grid.x as int + x < n :: RanInPlace(program, cfg, x, y, totals, blocks, fuel))
    && SummedUp(blocks, totals[0].memory, totals[n].memory)
  }

  lemma CountOf(cfg: L.Config)
    ensures cfg.Lanes() as int == cfg.block.x * cfg.block.y % 0x1_0000_0000
  {
  }

  /** One more block. */
  lemma NextBlock(program: seq<Instruction>, cfg: L.Config, column: u32, row: u32, totals: seq<L.Totals>, blocks: seq<Block>, n: nat, fuel: nat)
    returns (b: Block)
    requires ValidProgram(program) && InOrder(program, cfg, totals, blocks, n, fuel)
    requires column < cfg.grid.x && row < cfg.grid.y && n == row * cfg.grid.x + column
    requires L.OneBlock(program, cfg, column, row, totals[n], fuel).Launched?
    ensures InOrder(program, cfg, totals + [L.OneBlock(program, cfg, column, row, totals[n], fuel).totals], blocks + [b], n + 1, fuel)
  {
    hide RunBlock, InitialBlock, WithEvents;
    b := L.BlockRun(program, cfg, column, row, totals[n], fuel).block;
    var after := L.OneBlock(program, cfg, column, row, totals[n], fuel).totals;
    CountOf(cfg);
    assert BlockRan(program, cfg, column, row, totals[n], b, after, fuel);
    SumOne(blocks, b, totals[0].memory, totals[n].memory);
    Extend(program, cfg, column, row, totals, blocks, n, b, after, fuel);
  }

  lemma Extend(program: seq<Instruction>, cfg: L.Config, column: u32, row: u32, totals: seq<L.Totals>, blocks: seq<Block>, n: nat,
               b: Block, after: L.Totals, fuel: nat)
    requires ValidProgram(program) && InOrder(program, cfg, totals, blocks, n, fuel) && L.Shaped(after)
    requires column < cfg.grid.x && row < cfg.grid.y && n == row * cfg.grid.x + column
    requires BlockRan(program, cfg, column, row, totals[n], b, after, fuel)
    requires SummedUp(blocks + [b], totals[0].memory, after.memory)
    ensures InOrder(program, cfg, totals + [after], blocks + [b], n + 1, fuel)
  {
    hide BlockRan, SummedUp;
    var more, longer := totals + [after], blocks + [b];
    InGrid(column, row, cfg.grid.x, cfg.grid.y);
    forall x: u32, y: u32 | x < cfg.grid.x && y * cfg.grid.x as int + x < n + 1
      ensures RanInPlace(program, cfg, x, y, more, longer, fuel)
    {
      if y * cfg.grid.x as int + x == n {
        OneCoordinate(x, y, column, row, cfg.grid.x);
      } else {
        assert RanInPlace(program, cfg, x, y, totals, blocks, fuel);
      }
    }
  }

  lemma InGrid(column: nat, row: nat, width: nat, height: nat)
    requires column < width && row < height
    ensures row * width + column < width * height
  {
    MulMonotone(row + 1, height, width);
    assert (row + 1) * width == row * width + width;
  }

  lemma OneCoordinate(x: nat, y: nat, column: nat, row: nat, width: nat)
    requires x < width && column < width && y * width + x == row * width + column
    ensures x == column && y == row
  {
    Quotient(y * width + x, width, y, x);
    Quotient(y * width + x, width, row, column);
  }

  lemma {:induction false} RowInOrder(program: seq<Instruction>, cfg: L.Config, column: u32, row: u32,
                                      totals: seq<L.Totals>, blocks: seq<Block>, n: nat, fuel: nat)
    returns (totals1: seq<L.Totals>, blocks1: seq<Block>)
    requires ValidProgram(program) && InOrder(program, cfg, totals, blocks, n, fuel)
    requires column <= cfg.grid.x && row < cfg.grid.y && n == row * cfg.grid.x + column
    requires L.Row(program, cfg, column, row, totals[n], fuel).Launched?
    ensures (row + 1) * cfg.grid.x == row * cfg.grid.x + cfg.grid.x
    ensures InOrder(program, cfg, totals1, blocks1, (row + 1) * cfg.grid.x, fuel) && totals1[0] == totals[0]
    ensures totals1[(row + 1) * cfg.grid.x] == L.Row(program, cfg, column, row, totals[n], fuel).totals
    decreases cfg.grid.x - column
  {
    hide L.OneBlock, RanInPlace, SummedUp;
    assert (row + 1) * cfg.grid.x == row * cfg.grid.x + cfg.grid.x;
    totals1, blocks1 := totals, blocks;
    if column < cfg.grid.x {
      var b := NextBlock(program, cfg, column, row, totals, blocks, n, fuel);
      var after := L.OneBlock(program, cfg, column, row, totals[n], fuel).totals;
      totals1, blocks1 := RowInOrder(program, cfg, column + 1, row, totals + [after], blocks + [b], n + 1, fuel);
    }
  }

  lemma {:induction false} GridInOrder(program: seq<Instruction>, cfg: L.Config, row: u32,
                                       totals: seq<L.Totals>, blocks: seq<Block>, n: nat, fuel: nat)
    returns (totals1: seq<L.Totals>, blocks1: seq<Block>)
    requires ValidProgram(program) && InOrder(program, cfg, totals, blocks, n, fuel)
    requires row <= cfg.grid.y && n == row * cfg.grid.x && L.Grid(program, cfg, row, totals[n], fuel).Launched?
    ensures InOrder(program, cfg, totals1, blocks1, cfg.grid.y * cfg.grid.x, fuel) && totals1[0] == totals[0]
    ensures totals1[cfg.grid.y * cfg.grid.x] == L.Grid(program, cfg, row, totals[n], fuel).totals
    decreases cfg.grid.y - row
  {
    hide L.Row, RanInPlace, SummedUp;
    totals1, blocks1 := totals, blocks;
    if row < cfg.grid.y {
      var totals2, blocks2 := RowInOrder(program, cfg, 0, row, totals, blocks, n, fuel);
      totals1, blocks1 := GridInOrder(program, cfg, row + 1, totals2, blocks2, (row + 1) * cfg.grid.x, fuel);
    }
  }

  /** A launch that completes has run every block of the grid, row by row, each on the memory the ones before
      left; its totals of the access counters are the sums over the blocks. */
  lemma LaunchRunsBlocks(program: seq<Instruction>, cfg: L.Config, global: seq<u8>, fuel: nat)
    returns (totals: seq<L.Totals>, blocks: seq<Block>)
    requires ValidProgram(program) && L.Grid(program, cfg, 0, L.Start(global), fuel).Launched?
    ensures InOrder(program, cfg, totals, blocks, cfg.grid.y * cfg.grid.x, fuel)
    ensures totals[0].global == global && totals[0].counters == ZeroCounters() && totals[0].memory == ZERO_STATS
    ensures totals[cfg.grid.y * cfg.grid.x] == L.Grid(program, cfg, 0, L.Start(global), fuel).totals
  {
    hide L.Grid, RanInPlace;
    NothingSummed(ZERO_STATS);
    hide SummedUp;
    totals, blocks := GridInOrder(program, cfg, 0, [L.Start(global)], [], 0, fuel);
  }
}
