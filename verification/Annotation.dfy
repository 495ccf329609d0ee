/** Giving every branch its reconvergence PC: the first PC of the immediate post-dominator of its block. */
module Annotation {
  import opened Isa
  import opened Graphs
  import opened ControlFlow
  import opened BlockPaths
  import opened BlockSets
  import opened PostDominators
  import opened ImmediatePostDominators

  // ---- from blocks to instructions ----

  /** No earlier instruction of its own block post-dominates a block's last instruction. */
  lemma NothingEarlierPostDominates(program: seq<Instruction>, cfg: Cfg, pc: nat, z: nat)
    requires HasCfg(program, cfg) && IsLast(program, cfg, pc) && Reaches(InstructionGraph(program), pc)
    requires z < |program| && z != pc && BlockAt(cfg, z) == BlockAt(cfg, pc)
    ensures !PostDominates(InstructionGraph(program), z, pc)
  {
    hide IsCfg, InstructionGraph;
    var g := InstructionGraph(program);
    BlockBounds(program, cfg, z);
    if PostDominates(g, z, pc) {
      var p :| ExitPath(g, pc, p);
      assert p[0] in {pc};
      var i := LastOccurrence(p, {pc});
      PathSuffix(g, pc, p, i);
      var tail := p[i..];
      var k :| 0 <= k < |tail| && tail[k] == z;
      PathSuffix(g, pc, tail, k);
      Traverse(program, cfg, tail[k..], pc);
      assert false;
    }
  }

  /** A node that post-dominates the last instruction of a block lies in a block that post-dominates it. */
  lemma BlockPostDominates(program: seq<Instruction>, cfg: Cfg, pc: nat, z: nat)
    requires HasCfg(program, cfg) && pc < |program| && PostDominates(InstructionGraph(program), z, pc)
    ensures PostDominates(cfg.succs, BlockAt(cfg, z), BlockAt(cfg, pc))
  {
    hide IsCfg, InstructionGraph;
    forall q | ExitPath(cfg.succs, BlockAt(cfg, pc), q) ensures BlockAt(cfg, z) in q {
      var p := Lift(program, cfg, pc, q);
    }
  }

  /** If a block post-dominates another, each of its instructions post-dominates the other's first. */
  lemma InstructionPostDominates(program: seq<Instruction>, cfg: Cfg, s: nat, z: nat)
    requires HasCfg(program, cfg) && s <= |program| && z <= |program|
    requires s == LeaderOf(program, cfg, BlockAt(cfg, s))
    requires PostDominates(cfg.succs, BlockAt(cfg, z), BlockAt(cfg, s))
    ensures PostDominates(InstructionGraph(program), z, s)
  {
    hide IsCfg, InstructionGraph;
    var g := InstructionGraph(program);
    GraphSizes(program, cfg);
    forall p | ExitPath(g, s, p) ensures z in p {
      var q := Project(program, cfg, p);
      var c := BlockAt(cfg, z);
      assert LeaderOf(program, cfg, c) in p;
      if z < |program| {
        BlockBounds(program, cfg, z);
        var i :| 0 <= i < |p| && p[i] == LeaderOf(program, cfg, c);
        PathSuffix(g, s, p, i);
        LeaderOwnsItself(program, cfg, c);
        Traverse(program, cfg, p[i..], z);
      }
    }
  }

  /** The first PC of a block's immediate post-dominator is the immediate post-dominator of its last PC. */
  lemma ImmediateLifts(program: seq<Instruction>, cfg: Cfg, pc: nat, d: nat)
    requires HasCfg(program, cfg) && IsLast(program, cfg, pc) && Reaches(InstructionGraph(program), pc)
    requires IsImmediate(cfg.succs, BlockAt(cfg, pc), d)
    ensures IsImmediate(InstructionGraph(program), pc, LeaderOf(program, cfg, d))
  {
    hide IsCfg, InstructionGraph, PostDominates;
    var g, s := InstructionGraph(program), LeaderOf(program, cfg, d);
    GraphSizes(program, cfg);
    LeaderAt(program, cfg, d);
    BlockBounds(program, cfg, pc);
    LeaderPostDominates(program, cfg, pc, d);
    forall z: nat | z < |g| && z != pc && PostDominates(g, z, pc) ensures PostDominates(g, z, s) {
      var c := BlockAt(cfg, z);
      if z < |program| {
        BlockBounds(program, cfg, z);
        if c == BlockAt(cfg, pc) {
          NothingEarlierPostDominates(program, cfg, pc, z);
        }
      }
      BlockPostDominates(program, cfg, pc, z);
      InstructionPostDominates(program, cfg, s, z);
    }
  }

  lemma LeaderAt(program: seq<Instruction>, cfg: Cfg, d: nat)
    requires HasCfg(program, cfg) && d < |cfg.succs|
    ensures LeaderOf(program, cfg, d) <= |program| && BlockAt(cfg, LeaderOf(program, cfg, d)) == d
    ensures d < |cfg.leaders| <==> LeaderOf(program, cfg, d) < |program|
  {
    hide IsLeader, IsSuccessors;
  }

  lemma LeaderPostDominates(program: seq<Instruction>, cfg: Cfg, pc: nat, d: nat)
    requires HasCfg(program, cfg) && pc < |program| && d != BlockAt(cfg, pc)
    requires PostDominates(cfg.succs, d, BlockAt(cfg, pc))
    ensures PostDominates(InstructionGraph(program), LeaderOf(program, cfg, d), pc)
  {
    hide IsCfg, InstructionGraph;
    forall p | ExitPath(InstructionGraph(program), pc, p) ensures LeaderOf(program, cfg, d) in p {
      var q := Project(program, cfg, p);
    }
  }

  /** When a guarded branch cannot reach the exit, neither can its fall-through block. */
  lemma StuckBranch(program: seq<Instruction>, cfg: Cfg, pc: nat)
    requires HasCfg(program, cfg) && pc < |program| && program[pc].op == Bra && program[pc].guard.present
    requires !Reaches(InstructionGraph(program), pc)
    ensures pc + 1 < |program| && BlockAt(cfg, pc + 1) != BlockAt(cfg, pc)
    ensures !Reaches(cfg.succs, BlockAt(cfg, pc)) && !Reaches(cfg.succs, BlockAt(cfg, pc + 1))
    ensures BlockAt(cfg, pc + 1) < |cfg.succs| && BlockAt(cfg, pc) < |cfg.leaders|
  {
    hide IsCfg;
    var g := InstructionGraph(program);
    GraphSizes(program, cfg);
    assert pc + 1 in g[pc];
    if Reaches(g, pc + 1) { SuccessorReaches(g, pc, pc + 1); }
    assert ExitPath(g, |program|, [|program|]);
    ReachesAgree(program, cfg, pc);
    ReachesAgree(program, cfg, pc + 1);
    TerminatorIsLast(program, cfg, pc);
    BlockBounds(program, cfg, pc);
    BlockBounds(program, cfg, pc + 1);
  }

  // ---- the annotation ----

  /** The reconvergence PC of a guarded branch: its immediate post-dominator, if that is an instruction.
      The result is stored in 16 bits. */
  ghost predicate IsReconvergence(program: seq<Instruction>, pc: nat, r: u16) {
    var g := InstructionGraph(program);
    if Reaches(g, pc) then
      exists d: nat :: IsImmediate(g, pc, d) && r == if d < |program| then d % 0x1_0000 else NO_RECONVERGENCE
    else
      r == NO_RECONVERGENCE
  }

  ghost predicate AnnotatedAt(before: seq<Instruction>, pc: nat, i: Instruction)
    requires pc < |before|
  {
    && (before[pc].op != Bra ==> i == before[pc])
    && (before[pc].op == Bra ==>
          exists r: u16 :: i == before[pc].(imm := BranchImm(before[pc].Target(), r))
                      && if before[pc].guard.present then IsReconvergence(before, pc, r) else r == NO_RECONVERGENCE)
  }

  ghost predicate Annotated(before: seq<Instruction>, after: seq<Instruction>) {
    |after| == |before| && forall pc | 0 <= pc < |before| :: AnnotatedAt(before, pc, after[pc])
  }

  /** The reconvergence PC the post-dominator sets give a guarded branch. */
  method ReconvergenceOf(ghost program: seq<Instruction>, cfg: Cfg, pdom: seq<BlockSet>, pc: nat) returns (r: u16)
    requires HasCfg(program, cfg) && IsGraph(cfg.succs) && Represents(pdom, AllDominators(cfg.succs))
    requires pc < |program| == |cfg.blockOf| && program[pc].op == Bra && program[pc].guard.present
    ensures IsReconvergence(program, pc, r)
  {
    hide IsCfg, Represents, InstructionGraph, IsGraph, IsImmediate;
    GraphSizes(program, cfg);
    BlockBounds(program, cfg, pc);
    TerminatorIsLast(program, cfg, pc);
    ReachesAgree(program, cfg, pc);
    if !Reaches(InstructionGraph(program), pc) { StuckBranch(program, cfg, pc); }
    var ipdom := ImmediatePostDominator(pdom, cfg.succs, cfg.blockOf[pc]);
    LeaderAt(program, cfg, ipdom);
    if Reaches(InstructionGraph(program), pc) { ImmediateLifts(program, cfg, pc, ipdom); }
    if ipdom != cfg.exitNode {
      r := cfg.leaders[ipdom] % 0x1_0000;
    } else {
      r := NO_RECONVERGENCE;
    }
  }

  /** `annotate_reconvergence`: fails, changing nothing, at the first branch out of range. */
  method AnnotateReconvergence(program: array<Instruction>) returns (r: Result<(), nat>)
    modifies program
    ensures r.Ok? <==> TargetsInRange(old(program[..]))
    ensures r.Err? ==> FirstBadBranch(program[..], r.error) && program[..] == old(program[..])
    ensures r.Ok? ==> Annotated(old(program[..]), program[..])
  {
    hide IsCfg, Represents, IsReconvergence, IsGraph;
    ghost var before := program[..];
    var built := BuildCfg(program[..]);
    if built.Err? { return Err(built.error); }
    var cfg := built.value;
    CfgIsGraph(before, cfg);
    GraphSizes(before, cfg);
    var pdom := ComputePostDominators(cfg.succs);
    for pc := 0 to program.Length
      invariant Represents(pdom, AllDominators(cfg.succs))
      invariant forall k | 0 <= k < pc :: AnnotatedAt(before, k, program[k])
      invariant forall k | pc <= k < |before| :: program[k] == before[k]
    {
      var i := program[pc];
      if i.op != Bra { continue; }
      var reconvergence := NO_RECONVERGENCE;
      if i.guard.present {
        reconvergence := ReconvergenceOf(before, cfg, pdom, pc);
      }
      program[pc] := i.(imm := BranchImm(i.Target(), reconvergence));
    }
    return Ok(());
  }

  // ---- what annotating again does ----

  lemma ReconvergenceUnique(program: seq<Instruction>, pc: nat, r: u16, s: u16)
    requires IsReconvergence(program, pc, r) && IsReconvergence(program, pc, s)
    ensures r == s
  {
    var g := InstructionGraph(program);
    if Reaches(g, pc) {
      var d: nat :| IsImmediate(g, pc, d) && r == if d < |program| then d % 0x1_0000 else NO_RECONVERGENCE;
      var e: nat :| IsImmediate(g, pc, e) && s == if e < |program| then e % 0x1_0000 else NO_RECONVERGENCE;
      ImmediateUnique(g, pc, d, e);
    }
  }

  /** Annotating changes neither targets nor the graph. */
  lemma AnnotationKeepsGraph(before: seq<Instruction>, after: seq<Instruction>)
    requires Annotated(before, after)
    ensures InstructionGraph(after) == InstructionGraph(before)
    ensures TargetsInRange(after) <==> TargetsInRange(before)
    ensures forall pc | 0 <= pc < |before| :: after[pc].op == before[pc].op && after[pc].guard == before[pc].guard
    ensures forall pc | 0 <= pc < |before| && before[pc].op == Bra :: after[pc].Target() == before[pc].Target()
  {
    hide IsReconvergence;
    forall pc | 0 <= pc < |before|
      ensures after[pc].op == before[pc].op && after[pc].guard == before[pc].guard
      ensures before[pc].op == Bra ==> after[pc].Target() == before[pc].Target()
    {
      assert AnnotatedAt(before, pc, after[pc]);
      if before[pc].op == Bra {
        var r: u16 :| after[pc] == before[pc].(imm := BranchImm(before[pc].Target(), r));
        BranchImmHalves(before[pc].Target(), r);
      }
    }
    assert forall pc | 0 <= pc < |before| ::
      Successors(after[pc], pc, |before|) == Successors(before[pc], pc, |before|);
  }

  lemma ReconvergenceByGraph(a: seq<Instruction>, b: seq<Instruction>, pc: nat, r: u16)
    requires |a| == |b| && InstructionGraph(a) == InstructionGraph(b)
    ensures IsReconvergence(a, pc, r) <==> IsReconvergence(b, pc, r)
  {
  }

  /** Annotating an annotated program changes nothing. */
  lemma AnnotationIdempotent(a: seq<Instruction>, b: seq<Instruction>, c: seq<Instruction>)
    requires Annotated(a, b) && Annotated(b, c)
    ensures c == b
  {
    hide IsReconvergence, InstructionGraph;
    AnnotationKeepsGraph(a, b);
    forall pc | 0 <= pc < |a| ensures c[pc] == b[pc] {
      assert AnnotatedAt(a, pc, b[pc]) && AnnotatedAt(b, pc, c[pc]);
      if a[pc].op == Bra {
        var r: u16 :| b[pc] == a[pc].(imm := BranchImm(a[pc].Target(), r))
                      && if a[pc].guard.present then IsReconvergence(a, pc, r) else r == NO_RECONVERGENCE;
        var s: u16 :| c[pc] == b[pc].(imm := BranchImm(b[pc].Target(), s))
                      && if b[pc].guard.present then IsReconvergence(b, pc, s) else s == NO_RECONVERGENCE;
        if a[pc].guard.present {
          ReconvergenceByGraph(a, b, pc, s);
          ReconvergenceUnique(a, pc, r, s);
        }
      }
    }
  }

  /** The output of annotation is itself annotated. */
  lemma AnnotatedOnce(a: seq<Instruction>, b: seq<Instruction>)
    requires Annotated(a, b)
    ensures Annotated(b, b)
  {
    hide IsReconvergence, InstructionGraph;
    AnnotationKeepsGraph(a, b);
    forall pc | 0 <= pc < |b| ensures AnnotatedAt(b, pc, b[pc]) {
      assert AnnotatedAt(a, pc, b[pc]);
      if a[pc].op == Bra {
        var r: u16 :| b[pc] == a[pc].(imm := BranchImm(a[pc].Target(), r))
                      && if a[pc].guard.present then IsReconvergence(a, pc, r) else r == NO_RECONVERGENCE;
        if a[pc].guard.present { ReconvergenceByGraph(a, b, pc, r); }
        assert b[pc] == b[pc].(imm := BranchImm(b[pc].Target(), r));
      }
    }
  }

  /** A program has at most one annotation. */
  lemma AnnotationUnique(a: seq<Instruction>, b: seq<Instruction>, c: seq<Instruction>)
    requires Annotated(a, b) && Annotated(a, c)
    ensures b == c
  {
    hide IsReconvergence;
    forall pc | 0 <= pc < |a| ensures b[pc] == c[pc] {
      assert AnnotatedAt(a, pc, b[pc]) && AnnotatedAt(a, pc, c[pc]);
      if a[pc].op == Bra {
        var r: u16 :| b[pc] == a[pc].(imm := BranchImm(a[pc].Target(), r))
                      && if a[pc].guard.present then IsReconvergence(a, pc, r) else r == NO_RECONVERGENCE;
        var s: u16 :| c[pc] == a[pc].(imm := BranchImm(a[pc].Target(), s))
                      && if a[pc].guard.present then IsReconvergence(a, pc, s) else s == NO_RECONVERGENCE;
        if a[pc].guard.present { ReconvergenceUnique(a, pc, r, s); }
      }
    }
  }

  lemma HasImmediate(g: Graph, b: nat)
    requires IsGraph(g) && b < |g| - 1 && Reaches(g, b)
    ensures exists d: nat :: IsImmediate(g, b, d)
  {
    var d := ImmediateExists(g, b);
  }

  /** The reconvergence half of a branch, as a function of the program. */
  ghost function ReconvergenceAt(program: seq<Instruction>, pc: nat): (r: u16)
    requires TargetsInRange(program) && pc < |program|
    ensures program[pc].guard.present ==> IsReconvergence(program, pc, r)
    ensures !program[pc].guard.present ==> r == NO_RECONVERGENCE
  {
    var g := InstructionGraph(program);
    if program[pc].guard.present && Reaches(g, pc) then
      InstructionGraphIsGraph(program);
      HasImmediate(g, pc);
      var d: nat :| IsImmediate(g, pc, d);
      if d < |program| then d % 0x1_0000 else NO_RECONVERGENCE
    else NO_RECONVERGENCE
  }

  /** The annotated program. */
  ghost function AnnotationOf(program: seq<Instruction>): (after: seq<Instruction>)
    requires TargetsInRange(program)
    ensures Annotated(program, after)
  {
    seq(|program|, (pc: nat) requires pc < |program| =>
      if program[pc].op == Bra
      then program[pc].(imm := BranchImm(program[pc].Target(), ReconvergenceAt(program, pc)))
      else program[pc])
  }
}
