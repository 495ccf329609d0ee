/** The control-flow graph of a program, instruction by instruction and block by block. */
module ControlFlow {
  import opened Isa
  import opened Graphs

  /** Where control can go after the instruction at `pc`; `n` stands for the end of the program. */
  function Successors(i: Instruction, pc: nat, n: nat): seq<nat> {
    match i.op
    case Bra => [i.Target()] + (if i.guard.present then [pc + 1] else [])
    case Exit => [n] + (if i.guard.present then [pc + 1] else [])
    case _ => [pc + 1]
  }

  predicate TargetsInRange(program: seq<Instruction>) {
    TargetsBelow(program, |program|)
  }

  /** The branches among the first `bound` instructions stay inside the program. */
  predicate TargetsBelow(program: seq<Instruction>, bound: nat)
    requires bound <= |program|
  {
    forall pc | 0 <= pc < bound && program[pc].op == Bra :: program[pc].Target() < |program|
  }

  ghost predicate FirstBadBranch(program: seq<Instruction>, pc: nat) {
    && pc < |program| && program[pc].op == Bra && program[pc].Target() >= |program|
    && TargetsBelow(program, pc)
  }

  /** One node for each instruction, and an exit node. */
  ghost function InstructionGraph(program: seq<Instruction>): Graph {
    seq(|program|, (pc: nat) requires pc < |program| => Successors(program[pc], pc, |program|)) + [[]]
  }

  lemma InstructionGraphIsGraph(program: seq<Instruction>)
    requires TargetsInRange(program)
    ensures IsGraph(InstructionGraph(program)) && |InstructionGraph(program)| == |program| + 1
  {
    var g := InstructionGraph(program);
    forall pc | 0 <= pc < |g| ensures InRange(g[pc], |g|) {
      if pc < |program| { assert g[pc] == Successors(program[pc], pc, |program|); }
    }
  }

  predicate IsTerminator(i: Instruction) { i.op == Bra || i.op == Exit }

  datatype Cfg = Cfg(leaders: seq<nat>, blockOf: seq<nat>, succs: seq<seq<nat>>, exitNode: nat)

  /** A block starts at a branch target or after a terminator. */
  predicate Marks(program: seq<Instruction>, pc: nat, x: nat)
    requires pc < |program|
  {
    || (program[pc].op == Bra && program[pc].Target() == x)
    || (IsTerminator(program[pc]) && pc + 1 == x)
  }

  ghost predicate Marked(program: seq<Instruction>, bound: nat, x: nat)
    requires bound <= |program|
  {
    exists pc: nat :: pc < bound && Marks(program, pc, x)
  }

  ghost predicate IsLeader(program: seq<Instruction>, x: nat) {
    x == 0 || Marked(program, |program|, x)
  }

  /** The blocks tile the first `bound` instructions: each starts at its leader, ends before the next one. */
  ghost predicate TilesBelow(program: seq<Instruction>, leaders: seq<nat>, blockOf: seq<nat>, bound: nat) {
    && |blockOf| == bound <= |program|
    && (forall b | 0 <= b < |leaders| :: leaders[b] < bound && blockOf[leaders[b]] == b)
    && (forall pc | 0 <= pc < bound ::
          && blockOf[pc] < |leaders|
          && leaders[blockOf[pc]] <= pc < BlockEnd(leaders, bound, blockOf[pc]))
    && (forall pc | 0 <= pc < bound :: leaders[blockOf[pc]] == pc <==> IsLeader(program, pc))
  }

  ghost predicate Tiles(program: seq<Instruction>, leaders: seq<nat>, blockOf: seq<nat>) {
    TilesBelow(program, leaders, blockOf, |program|)
  }

  /** One past the last instruction of block `b`. */
  function BlockEnd(leaders: seq<nat>, n: nat, b: nat): nat {
    if b + 1 < |leaders| then leaders[b + 1] else n
  }

  /** The block node of an instruction node. */
  function NodeOf(leaders: seq<nat>, blockOf: seq<nat>, pc: nat): nat {
    if pc < |blockOf| then blockOf[pc] else |leaders|
  }

  /** Block `b` is joined to the blocks of the instructions that can follow its last instruction. */
  ghost predicate IsSuccessors(program: seq<Instruction>, leaders: seq<nat>, blockOf: seq<nat>, b: nat, out: seq<nat>) {
    var last := BlockEnd(leaders, |program|, b) - 1;
    && 0 <= last < |program|
    && var next := Successors(program[last], last, |program|);
       |out| == |next| && forall k | 0 <= k < |out| :: out[k] == NodeOf(leaders, blockOf, next[k])
  }

  /** What `build_cfg` returns: blocks that tile the program, joined like their last instructions. */
  ghost predicate IsCfg(program: seq<Instruction>, cfg: Cfg) {
    && Tiles(program, cfg.leaders, cfg.blockOf)
    && cfg.exitNode == |cfg.leaders|
    && |cfg.succs| == |cfg.leaders| + 1 && cfg.succs[cfg.exitNode] == []
    && forall b | 0 <= b < |cfg.leaders| :: IsSuccessors(program, cfg.leaders, cfg.blockOf, b, cfg.succs[b])
  }

  /** The block boundaries, or the first branch whose target is past the end. */
  method FindLeaders(program: seq<Instruction>) returns (r: Result<array<bool>, nat>)
    ensures r.Ok? <==> TargetsInRange(program)
    ensures r.Err? ==> FirstBadBranch(program, r.error)
    ensures r.Ok? ==> r.value.Length == |program| + 1
    ensures r.Ok? ==> forall x | 0 <= x < |program| :: r.value[x] <==> Marked(program, |program|, x)
  {
    var n := |program|;
    var isLeader := new bool[n + 1](_ => false);
    for pc := 0 to n
      invariant forall x | 0 <= x < n :: isLeader[x] <==> Marked(program, pc, x)
      invariant forall k | 0 <= k < pc && program[k].op == Bra :: program[k].Target() < n
    {
      var i := program[pc];
      ghost var before := isLeader[..];
      if i.op == Bra {
        if i.Target() >= n { return Err(pc); }
        isLeader[i.Target()] := true;
      }
      if IsTerminator(i) && pc + 1 < n {
        isLeader[pc + 1] := true;
      }
      forall x | 0 <= x < n ensures isLeader[x] <==> Marked(program, pc + 1, x) {
        assert isLeader[x] <==> before[x] || Marks(program, pc, x);
        if before[x] {
          var k: nat :| k < pc && Marks(program, k, x);
          assert k < pc + 1;
        }
      }
    }
    return Ok(isLeader);
  }

  lemma LastBlock(program: seq<Instruction>, leaders: seq<nat>, blockOf: seq<nat>, pc: nat)
    requires TilesBelow(program, leaders, blockOf, pc) && pc > 0
    ensures |leaders| > 0 && blockOf[pc - 1] == |leaders| - 1
  {
    hide IsLeader;
    assert pc - 1 < BlockEnd(leaders, pc, blockOf[pc - 1]);
  }

  lemma NewBlock(program: seq<Instruction>, leaders: seq<nat>, blockOf: seq<nat>, pc: nat)
    requires TilesBelow(program, leaders, blockOf, pc) && pc < |program| && IsLeader(program, pc)
    ensures TilesBelow(program, leaders + [pc], blockOf + [|leaders|], pc + 1)
  {
    hide IsLeader;
    var l, o := leaders + [pc], blockOf + [|leaders|];
    forall k | 0 <= k < pc + 1 ensures o[k] < |l| && l[o[k]] <= k < BlockEnd(l, pc + 1, o[k]) {
      if k < pc { assert blockOf[k] < |leaders|; }
    }
    forall k | 0 <= k < pc + 1 ensures l[o[k]] == k <==> IsLeader(program, k) {
      if k < pc { assert l[o[k]] == leaders[blockOf[k]]; }
    }
  }

  lemma SameBlock(program: seq<Instruction>, leaders: seq<nat>, blockOf: seq<nat>, pc: nat)
    requires TilesBelow(program, leaders, blockOf, pc) && 0 < pc < |program| && !IsLeader(program, pc)
    ensures |leaders| > 0 && TilesBelow(program, leaders, blockOf + [|leaders| - 1], pc + 1)
  {
    hide IsLeader;
    LastBlock(program, leaders, blockOf, pc);
    var o := blockOf + [|leaders| - 1];
    forall k | 0 <= k < pc + 1 ensures o[k] < |leaders| && leaders[o[k]] <= k < BlockEnd(leaders, pc + 1, o[k]) {
      if k < pc { assert leaders[blockOf[k]] <= k < BlockEnd(leaders, pc, blockOf[k]); }
    }
    forall k | 0 <= k < pc + 1 ensures leaders[o[k]] == k <==> IsLeader(program, k) {
      if k < pc { assert o[k] == blockOf[k]; }
    }
  }

  method SplitBlocks(program: seq<Instruction>, isLeader: array<bool>) returns (leaders: seq<nat>, blockOf: seq<nat>)
    requires isLeader.Length == |program| + 1
    requires forall x | 0 <= x < |program| :: isLeader[x] <==> Marked(program, |program|, x)
    ensures Tiles(program, leaders, blockOf)
  {
    hide Marked;
    leaders, blockOf := [], [];
    assert TilesBelow(program, leaders, blockOf, 0);
    hide TilesBelow;
    for pc := 0 to |program|
      invariant TilesBelow(program, leaders, blockOf, pc)
    {
      if pc == 0 || isLeader[pc] {
        NewBlock(program, leaders, blockOf, pc);
        leaders := leaders + [pc];
      } else {
        SameBlock(program, leaders, blockOf, pc);
      }
      blockOf := blockOf + [|leaders| - 1];
    }
  }

  /** The successors of one block, from its last instruction. */
  method BlockSuccessors(program: seq<Instruction>, leaders: seq<nat>, blockOf: seq<nat>, b: nat) returns (out: seq<nat>)
    requires TargetsInRange(program) && Tiles(program, leaders, blockOf) && b < |leaders|
    ensures IsSuccessors(program, leaders, blockOf, b, out)
  {
    hide Tiles;
    var n, blocks := |program|, |leaders|;
    BlockNotEmpty(program, leaders, blockOf, b);
    var last := (if b + 1 < blocks then leaders[b + 1] else n) - 1;
    var i := program[last];
    var fallthrough := if last + 1 < n then blockOf[last + 1] else blocks;
    out := [];
    if i.op == Bra {
      out := out + [blockOf[i.Target()]];
      if i.guard.present { out := out + [fallthrough]; }
    } else if i.op == Exit {
      out := out + [blocks];
      if i.guard.present { out := out + [fallthrough]; }
    } else {
      out := out + [fallthrough];
    }
  }

  /** `build_cfg`: fails at the first branch out of range; otherwise the blocks of the program. */
  method BuildCfg(program: seq<Instruction>) returns (r: Result<Cfg, nat>)
    ensures r.Ok? <==> TargetsInRange(program)
    ensures r.Err? ==> FirstBadBranch(program, r.error)
    ensures r.Ok? ==> IsCfg(program, r.value)
  {
    hide Marked, Tiles, IsSuccessors;
    var found := FindLeaders(program);
    if found.Err? { return Err(found.error); }
    var leaders, blockOf := SplitBlocks(program, found.value);
    var succs: seq<seq<nat>> := [];
    for b := 0 to |leaders|
      invariant |succs| == b
      invariant forall c | 0 <= c < b :: IsSuccessors(program, leaders, blockOf, c, succs[c])
    {
      var out := BlockSuccessors(program, leaders, blockOf, b);
      succs := succs + [out];
    }
    return Ok(Cfg(leaders, blockOf, succs + [[]], |leaders|));
  }

  /** The end of a block is past its leader, and is the leader of the next block. */
  lemma BlockNotEmpty(program: seq<Instruction>, leaders: seq<nat>, blockOf: seq<nat>, b: nat)
    requires Tiles(program, leaders, blockOf) && b < |leaders|
    ensures leaders[b] < BlockEnd(leaders, |program|, b) <= |program| == |blockOf|
  {
    assert blockOf[leaders[b]] == b;
  }
}
