/** The reconvergence PCs recorded in the reduction kernel are those the annotation pass computes. */
module ReduceAnnotation {
  import opened Isa
  import opened Collections
  import opened Graphs
  import opened ControlFlow
  import opened Annotation
  import opened ReduceKernel
  import Nesting

  ghost function G(): (g: Graph)
    ensures |g| == SIZE + 1
    ensures forall pc | 0 <= pc < SIZE :: g[pc] == Successors(Code(pc), pc, SIZE)
  {
    InstructionGraph(Kernel())
  }

  lemma Targets()
    ensures TargetsInRange(Kernel())
  {
    hide Code;
    forall pc | 0 <= pc < SIZE && Kernel()[pc].op == Bra ensures Kernel()[pc].Target() < SIZE {
      OnlyBranches(pc);
      BranchCode(pc);
    }
  }

  lemma OnlyBranches(pc: nat)
    requires pc < SIZE && Code(pc).op == Bra
    ensures pc in {7, 17, 27}
  {
  }

  /** Every instruction can be followed by the next one. */
  lemma FallThrough(pc: nat)
    requires pc < SIZE
    ensures pc + 1 in G()[pc]
  {
    if pc == 36 { LastCode(); } else { GuardedOrPlain(pc); }
    hide Code;
  }

  lemma LastCode()
    ensures Code(36).op == Exit
  {
  }

  lemma GuardedOrPlain(pc: nat)
    requires pc < 36
    ensures Code(pc).guard.present || (Code(pc).op != Bra && Code(pc).op != Exit)
  {
  }

  lemma {:induction false} AllReach(pc: nat)
    requires pc <= SIZE
    ensures Reaches(G(), pc)
    decreases SIZE - pc
  {
    hide G, Code;
    if pc == SIZE {
      assert ExitPath(G(), pc, [pc]);
    } else {
      FallThrough(pc);
      AllReach(pc + 1);
      SuccessorReaches(G(), pc, pc + 1);
    }
  }

  /** A stretch of instructions [lo, hi) that control leaves only to `d`. */
  ghost predicate LeavesTo(lo: nat, hi: nat, d: nat) {
    hi <= SIZE && forall pc, s | lo <= pc < hi && s in G()[pc] :: lo <= s < hi || s == d
  }

  /** Every path from such a stretch passes `d`. */
  lemma StretchDominated(lo: nat, hi: nat, d: nat, pc: nat)
    requires LeavesTo(lo, hi, d) && lo <= pc < hi
    ensures PostDominates(G(), d, pc)
  {
    hide G, Code;
    forall p | ExitPath(G(), pc, p) ensures d in p {
      var stretch := set x | x in UpTo(hi) && lo <= x;
      assert p[0] in stretch;
      var i := LastOccurrence(p, stretch);
      GraphSize();
      assert p[|p| - 1] !in stretch;
      assert p[i + 1] in G()[p[i]];
    }
  }

  lemma GraphSize()
    ensures |G()| == SIZE + 1
  {
  }

  lemma Stretches()
    ensures LeavesTo(8, 12, 12) && LeavesTo(18, 24, 24) && LeavesTo(16, 28, 28)
  {
    hide G;
    Edges8();
    Edges18();
    Edges16();
  }

  lemma PlainEdge(pc: nat)
    requires pc < SIZE && Code(pc).op != Bra && Code(pc).op != Exit
    ensures G()[pc] == [pc + 1]
  {
  }

  lemma Edges8()
    ensures LeavesTo(8, 12, 12)
  {
    hide G;
    forall pc | 8 <= pc < 12 ensures G()[pc] == [pc + 1] {
      assert Code(pc).op != Bra && Code(pc).op != Exit;
      PlainEdge(pc);
    }
  }

  lemma Edges18()
    ensures LeavesTo(18, 24, 24)
  {
    hide G;
    forall pc | 18 <= pc < 24 ensures G()[pc] == [pc + 1] {
      assert Code(pc).op != Bra && Code(pc).op != Exit;
      PlainEdge(pc);
    }
  }

  lemma BranchEdges(pc: nat)
    requires pc in {7, 17, 27}
    ensures G()[pc] == [if pc == 7 then STAGE else if pc == 17 then SKIP else LOOP, pc + 1]
  {
    BranchCode(pc);
    hide Code;
  }

  lemma Edges16()
    ensures LeavesTo(16, 28, 28)
  {
    hide G;
    BranchEdges(17);
    BranchEdges(27);
    forall pc | 16 <= pc < 28 && pc != 17 && pc != 27 ensures G()[pc] == [pc + 1] {
      assert Code(pc).op != Bra && Code(pc).op != Exit;
      PlainEdge(pc);
    }
  }

  /** A node that both successors of a branch reach, one of them directly, is its immediate post-dominator. */
  lemma DirectImmediate(pc: nat, d: nat, other: nat)
    requires pc in {7, 17, 27} && d < SIZE && d != pc && PostDominates(G(), d, other)
    requires forall s :: s in G()[pc] <==> s == d || s == other
    ensures IsImmediate(G(), pc, d)
  {
    hide G, Code;
    GraphSize();
    PostDominatesSelf(G(), d);
    PostDominatesFromSuccessors(G(), d, pc);
    forall c: nat | c < |G()| && c != pc && PostDominates(G(), c, pc) ensures PostDominates(G(), c, d) {
      PostDominatesStep(G(), c, pc, d);
    }
  }

  lemma Immediates()
    ensures IsImmediate(G(), 7, 12) && IsImmediate(G(), 17, 24) && IsImmediate(G(), 27, 28)
  {
    hide G, Code, LeavesTo, IsImmediate;
    Stretches();
    BranchEdges(7);
    BranchEdges(17);
    BranchEdges(27);
    StretchDominated(8, 12, 12, 8);
    StretchDominated(18, 24, 24, 18);
    StretchDominated(16, 28, 28, 16);
    DirectImmediate(7, 12, 8);
    DirectImmediate(17, 24, 18);
    DirectImmediate(27, 28, 16);
  }

  lemma BranchAnnotated(pc: nat)
    requires pc in {7, 17, 27}
    ensures IsReconvergence(Kernel(), pc, Code(pc).Reconvergence())
  {
    hide Code, IsImmediate, Kernel;
    KernelLength();
    Immediates();
    BranchCode(pc);
    AllReach(pc);
    var d: nat := Code(pc).Reconvergence();
    assert IsImmediate(InstructionGraph(Kernel()), pc, d);
  }

  lemma KernelLength()
    ensures |Kernel()| == SIZE
  {
  }

  lemma SplitImm(i: Instruction)
    ensures i.imm == BranchImm(i.Target(), i.Reconvergence())
  {
  }

  /** The kernel is annotated, every path of it reaches the end, and so its divergence stack is nested and
      its branches get their masks back. */
  lemma KernelWellAnnotated()
    ensures Nesting.WellAnnotated(Kernel())
  {
    hide Code, IsReconvergence;
    KernelLength();
    KernelValid();
    Targets();
    forall pc | 0 <= pc < SIZE ensures AnnotatedAt(Kernel(), pc, Kernel()[pc]) {
      if Code(pc).op == Bra {
        OnlyBranches(pc);
        BranchAnnotated(pc);
        BranchCode(pc);
        SplitImm(Code(pc));
        assert Kernel()[pc] == Kernel()[pc].(imm := BranchImm(Kernel()[pc].Target(), Code(pc).Reconvergence()));
      }
    }
    forall pc: nat | pc < SIZE ensures Reaches(InstructionGraph(Kernel()), pc) {
      AllReach(pc);
    }
  }
}
