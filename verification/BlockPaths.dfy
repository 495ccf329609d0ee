/** Paths to the exit through blocks and through instructions are the same paths. */
module BlockPaths {
  import opened Isa
  import opened Graphs
  import opened ControlFlow

  ghost predicate HasCfg(program: seq<Instruction>, cfg: Cfg) {
    TargetsInRange(program) && IsCfg(program, cfg)
  }

  /** The node of block graph that holds instruction node `pc`. */
  ghost function BlockAt(cfg: Cfg, pc: nat): nat { NodeOf(cfg.leaders, cfg.blockOf, pc) }

  ghost function LeaderOf(program: seq<Instruction>, cfg: Cfg, c: nat): nat {
    if c < |cfg.leaders| then cfg.leaders[c] else |program|
  }

  ghost predicate IsLast(program: seq<Instruction>, cfg: Cfg, pc: nat) {
    pc < |program| && pc + 1 == BlockEnd(cfg.leaders, |program|, BlockAt(cfg, pc))
  }

  lemma {:induction false} LeadersAscend(program: seq<Instruction>, cfg: Cfg, b: nat, c: nat)
    requires IsCfg(program, cfg) && b < c < |cfg.leaders|
    ensures cfg.leaders[b] < cfg.leaders[c]
  {
    hide Tiles, IsSuccessors;
    BlockNotEmpty(program, cfg.leaders, cfg.blockOf, c - 1);
    if b < c - 1 { LeadersAscend(program, cfg, b, c - 1); }
  }

  lemma BlockBounds(program: seq<Instruction>, cfg: Cfg, pc: nat)
    requires IsCfg(program, cfg) && pc < |program|
    ensures |cfg.blockOf| == |program| && cfg.blockOf[pc] < |cfg.leaders|
    ensures cfg.leaders[cfg.blockOf[pc]] <= pc < BlockEnd(cfg.leaders, |program|, cfg.blockOf[pc])
  {
    hide IsLeader, IsSuccessors;
  }

  /** The blocks partition the program. */
  lemma BlockUnique(program: seq<Instruction>, cfg: Cfg, pc: nat, b: nat)
    requires IsCfg(program, cfg) && pc < |program| && b < |cfg.leaders|
    ensures pc < |cfg.blockOf|
    ensures cfg.blockOf[pc] == b <==> cfg.leaders[b] <= pc < BlockEnd(cfg.leaders, |program|, b)
  {
    hide IsCfg;
    BlockBounds(program, cfg, pc);
    var c := cfg.blockOf[pc];
    if c < b {
      if c + 1 < b { LeadersAscend(program, cfg, c + 1, b); }
    } else if b < c {
      if b + 1 < c { LeadersAscend(program, cfg, b + 1, c); }
    }
  }

  /** Only a block's first instruction is a branch target or follows a terminator. */
  lemma EntryIsLeader(program: seq<Instruction>, cfg: Cfg, pc: nat, s: nat)
    requires HasCfg(program, cfg) && pc < |program| && s < |program|
    requires Marks(program, pc, s)
    ensures cfg.leaders[BlockAt(cfg, s)] == s
  {
    assert Marked(program, |program|, s);
  }

  /** Only a block's last instruction is a branch or an exit. */
  lemma TerminatorIsLast(program: seq<Instruction>, cfg: Cfg, pc: nat)
    requires HasCfg(program, cfg) && pc < |program| && IsTerminator(program[pc])
    ensures IsLast(program, cfg, pc)
  {
    hide IsLeader;
    var b := cfg.blockOf[pc];
    if pc + 1 < BlockEnd(cfg.leaders, |program|, b) {
      BlockNotEmpty(program, cfg.leaders, cfg.blockOf, b);
      BlockUnique(program, cfg, pc + 1, b);
      EntryIsLeader(program, cfg, pc, pc + 1);
      assert false;
    }
  }

  /** Inside a block control only moves to the next instruction. */
  lemma InnerStep(program: seq<Instruction>, cfg: Cfg, pc: nat)
    requires HasCfg(program, cfg) && pc < |program| && !IsLast(program, cfg, pc)
    ensures InstructionGraph(program)[pc] == [pc + 1]
    ensures pc + 1 < |program| && BlockAt(cfg, pc + 1) == BlockAt(cfg, pc)
  {
    hide IsLeader;
    if IsTerminator(program[pc]) { TerminatorIsLast(program, cfg, pc); }
    BlockNotEmpty(program, cfg.leaders, cfg.blockOf, cfg.blockOf[pc]);
    BlockUnique(program, cfg, pc + 1, cfg.blockOf[pc]);
  }

  /** The last instruction of a block has one successor for each successor of the block. */
  lemma LastSuccessors(program: seq<Instruction>, cfg: Cfg, pc: nat)
    requires HasCfg(program, cfg) && IsLast(program, cfg, pc)
    ensures pc < |program| && BlockAt(cfg, pc) < |cfg.leaders| < |cfg.succs|
    ensures var next, out := Successors(program[pc], pc, |program|), cfg.succs[BlockAt(cfg, pc)];
            && InstructionGraph(program)[pc] == next
            && |out| == |next| && forall k | 0 <= k < |out| :: out[k] == BlockAt(cfg, next[k])
  {
    hide IsLeader, Marks;
    BlockBounds(program, cfg, pc);
    assert IsSuccessors(program, cfg.leaders, cfg.blockOf, BlockAt(cfg, pc), cfg.succs[BlockAt(cfg, pc)]);
  }

  /** Control leaves a block only for the first instruction of a successor block or the exit. */
  lemma LastStep(program: seq<Instruction>, cfg: Cfg, pc: nat, s: nat)
    requires HasCfg(program, cfg) && IsLast(program, cfg, pc) && s in InstructionGraph(program)[pc]
    ensures BlockAt(cfg, pc) < |cfg.succs|
    ensures s == LeaderOf(program, cfg, BlockAt(cfg, s))
    ensures BlockAt(cfg, s) in cfg.succs[BlockAt(cfg, pc)]
  {
    hide HasCfg, IsLast, InstructionGraph, BlockAt, LeaderOf;
    LastSuccessors(program, cfg, pc);
    var next := Successors(program[pc], pc, |program|);
    var k :| 0 <= k < |next| && next[k] == s;
    assert cfg.succs[BlockAt(cfg, pc)][k] == BlockAt(cfg, s);
    LastTarget(program, cfg, pc, s);
  }

  lemma LastTarget(program: seq<Instruction>, cfg: Cfg, pc: nat, s: nat)
    requires HasCfg(program, cfg) && IsLast(program, cfg, pc) && s in Successors(program[pc], pc, |program|)
    ensures s == LeaderOf(program, cfg, BlockAt(cfg, s))
  {
    hide IsLeader, Tiles, IsSuccessors, Marks;
    BlockBounds(program, cfg, pc);
    if s < |program| {
      if s == pc + 1 {
        LeaderOwnsItself(program, cfg, cfg.blockOf[pc] + 1);
        assert s == cfg.leaders[cfg.blockOf[pc] + 1];
      } else {
        MarksTarget(program, pc, s);
        EntryIsLeader(program, cfg, pc, s);
        BlockBounds(program, cfg, s);
      }
    }
  }

  lemma MarksTarget(program: seq<Instruction>, pc: nat, s: nat)
    requires pc < |program| && s in Successors(program[pc], pc, |program|) && s < |program| && s != pc + 1
    ensures Marks(program, pc, s)
  {
  }

  lemma LeaderOwnsItself(program: seq<Instruction>, cfg: Cfg, b: nat)
    requires IsCfg(program, cfg) && b < |cfg.leaders|
    ensures cfg.leaders[b] < |program| == |cfg.blockOf| && cfg.blockOf[cfg.leaders[b]] == b
  {
    hide IsLeader, IsSuccessors;
  }

  lemma BlockStep(program: seq<Instruction>, cfg: Cfg, pc: nat, c: nat)
    requires HasCfg(program, cfg) && IsLast(program, cfg, pc) && c in cfg.succs[BlockAt(cfg, pc)]
    ensures LeaderOf(program, cfg, c) in InstructionGraph(program)[pc]
    ensures BlockAt(cfg, LeaderOf(program, cfg, c)) == c
  {
    hide HasCfg, InstructionGraph, LeaderOf;
    LastSuccessors(program, cfg, pc);
    hide IsLast, BlockAt;
    var next := Successors(program[pc], pc, |program|);
    var k :| 0 <= k < |next| && cfg.succs[BlockAt(cfg, pc)][k] == c;
    assert next[k] in next;
    LastTarget(program, cfg, pc, next[k]);
  }

  lemma CfgIsGraph(program: seq<Instruction>, cfg: Cfg)
    requires HasCfg(program, cfg)
    ensures IsGraph(cfg.succs)
  {
    hide IsLeader;
    forall b | 0 <= b < |cfg.leaders| ensures InRange(cfg.succs[b], |cfg.succs|) && cfg.succs[b] != [] {
      assert IsSuccessors(program, cfg.leaders, cfg.blockOf, b, cfg.succs[b]);
    }
  }

  /** A path to the exit runs through the whole rest of the block it starts in. */
  lemma {:induction false} Traverse(program: seq<Instruction>, cfg: Cfg, p: seq<nat>, z: nat)
    requires HasCfg(program, cfg) && p != [] && ExitPath(InstructionGraph(program), p[0], p)
    requires p[0] <= z < |program| && BlockAt(cfg, z) == BlockAt(cfg, p[0])
    ensures z in p
    decreases z - p[0]
  {
    hide IsCfg, InstructionGraph;
    if p[0] < z {
      BlockBounds(program, cfg, z);
      BlockBounds(program, cfg, p[0]);
      GraphSizes(program, cfg);
      InnerStep(program, cfg, p[0]);
      var g := InstructionGraph(program);
      PathSuffix(g, p[0], p, 1);
      assert p[1] in g[p[0]];
      Traverse(program, cfg, p[1..], z);
    }
  }

  /** An instruction path to the exit visits, block by block, a block path. */
  lemma {:induction false} Project(program: seq<Instruction>, cfg: Cfg, p: seq<nat>) returns (q: seq<nat>)
    requires HasCfg(program, cfg) && p != [] && ExitPath(InstructionGraph(program), p[0], p)
    ensures ExitPath(cfg.succs, BlockAt(cfg, p[0]), q)
    ensures forall c | c in q && c != BlockAt(cfg, p[0]) :: LeaderOf(program, cfg, c) in p
    decreases |p|
  {
    hide IsCfg, InstructionGraph;
    var pc := p[0];
    GraphSizes(program, cfg);
    if |p| == 1 {
      q := [cfg.exitNode];
    } else {
      var g := InstructionGraph(program);
      PathSuffix(g, pc, p, 1);
      assert p[1] in g[pc];
      q := Project(program, cfg, p[1..]);
      if IsLast(program, cfg, pc) {
        LastStep(program, cfg, pc, p[1]);
        BlockInRange(program, cfg, pc);
        PathExtend(cfg.succs, BlockAt(cfg, pc), BlockAt(cfg, p[1]), q);
        q := [BlockAt(cfg, pc)] + q;
      } else {
        InnerStep(program, cfg, pc);
      }
    }
  }

  lemma GraphSizes(program: seq<Instruction>, cfg: Cfg)
    requires HasCfg(program, cfg)
    ensures |cfg.succs| == cfg.exitNode + 1 && cfg.exitNode == |cfg.leaders| && |cfg.blockOf| == |program|
    ensures |InstructionGraph(program)| == |program| + 1
    ensures IsGraph(InstructionGraph(program)) && InstructionGraph(program)[|program|] == []
  {
    InstructionGraphIsGraph(program);
  }

  lemma BlockInRange(program: seq<Instruction>, cfg: Cfg, pc: nat)
    requires HasCfg(program, cfg) && pc < |program|
    ensures BlockAt(cfg, pc) < |cfg.leaders|
    ensures LeaderOf(program, cfg, BlockAt(cfg, pc)) <= pc
  {
    hide IsLeader;
  }

  /** Every block path to the exit is walked by an instruction path that stays in its blocks. */
  lemma {:induction false} Lift(program: seq<Instruction>, cfg: Cfg, pc: nat, q: seq<nat>) returns (p: seq<nat>)
    requires HasCfg(program, cfg) && pc <= |program| && ExitPath(cfg.succs, BlockAt(cfg, pc), q)
    ensures ExitPath(InstructionGraph(program), pc, p)
    ensures forall z | z in p :: BlockAt(cfg, z) in q
    decreases |q|, |program| - pc
  {
    hide IsCfg, InstructionGraph;
    GraphSizes(program, cfg);
    var g := InstructionGraph(program);
    if pc == |program| {
      p := [pc];
    } else if IsLast(program, cfg, pc) {
      BlockInRange(program, cfg, pc);
      PathSuffix(cfg.succs, q[0], q, 1);
      assert q[1] in cfg.succs[q[0]];
      BlockStep(program, cfg, pc, q[1]);
      var s := LeaderOf(program, cfg, q[1]);
      SuccessorInRange(g, pc, s);
      p := Lift(program, cfg, s, q[1..]);
      PathExtend(g, pc, s, p);
      p := [pc] + p;
    } else {
      InnerStep(program, cfg, pc);
      p := Lift(program, cfg, pc + 1, q);
      PathExtend(g, pc, pc + 1, p);
      p := [pc] + p;
    }
  }

  lemma SuccessorInRange(g: Graph, b: nat, s: nat)
    requires IsGraph(g) && b < |g| && s in g[b]
    ensures s < |g|
  {
    var k :| 0 <= k < |g[b]| && g[b][k] == s;
    assert InRange(g[b], |g|);
  }

  /** An instruction reaches the end of the program exactly when its block reaches the exit node. */
  lemma ReachesAgree(program: seq<Instruction>, cfg: Cfg, pc: nat)
    requires HasCfg(program, cfg) && pc <= |program|
    ensures Reaches(InstructionGraph(program), pc) <==> Reaches(cfg.succs, BlockAt(cfg, pc))
  {
    hide IsCfg;
    if p :| ExitPath(InstructionGraph(program), pc, p) {
      var q := Project(program, cfg, p);
    } else if q :| ExitPath(cfg.succs, BlockAt(cfg, pc), q) {
      var p := Lift(program, cfg, pc, q);
    }
  }
}
