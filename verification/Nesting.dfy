/** On an annotated program the divergence stack is nested, and a divergent branch gets its mask back. */
module Nesting {
  import opened Isa
  import opened Alu
  import opened Graphs
  import opened ControlFlow
  import opened Annotation
  import opened WarpSpec
  import opened Refinement
  import opened WarpRuns

  /** A program as the assembler leaves it: its branches carry their immediate post-dominators. The end of
      every path is reachable, and 0xFFFF is not an address of the program. */
  ghost predicate WellAnnotated(program: seq<Instruction>) {
    && ValidProgram(program) && |program| < NO_RECONVERGENCE && TargetsInRange(program)
    && Annotated(program, program)
    && forall pc: nat | pc < |program| :: Reaches(InstructionGraph(program), pc)
  }

  /** The node a recorded reconvergence PC stands for. */
  ghost function Point(program: seq<Instruction>, r: u16): nat {
    if r == NO_RECONVERGENCE then |program| else r
  }

  ghost predicate Dominates(program: seq<Instruction>, d: nat, x: nat) {
    PostDominates(InstructionGraph(program), d, x)
  }

  /** The top reconvergence point, if there is one, post-dominates `x`. */
  ghost predicate Under(program: seq<Instruction>, stack: seq<Entry>, x: nat) {
    stack == [] || Dominates(program, Point(program, Top(stack).reconvergence), x)
  }

  ghost predicate InProgram(program: seq<Instruction>, e: Entry) {
    e.resume <= |program| && (e.reconvergence < |program| || e.reconvergence == NO_RECONVERGENCE)
  }

  /** Each entry's reconvergence point post-dominates where the entry resumes, and is itself
      post-dominated by the next older one. */
  ghost predicate NestedStack(program: seq<Instruction>, stack: seq<Entry>) {
    stack == [] ||
    (&& NestedStack(program, Below(stack))
     && InProgram(program, Top(stack))
     && Dominates(program, Point(program, Top(stack).reconvergence), Top(stack).resume)
     && Under(program, Below(stack), Point(program, Top(stack).reconvergence)))
  }

  ghost predicate Nested(program: seq<Instruction>, s: WarpState) {
    && NestedStack(program, s.stack) && s.pc <= |program|
    && (s.active != {} ==> Under(program, s.stack, s.pc))
  }

  /** Every older reconvergence point post-dominates every younger one. */
  lemma {:induction false} OlderPostDominates(program: seq<Instruction>, stack: seq<Entry>, i: nat, j: nat)
    requires NestedStack(program, stack) && i <= j < |stack|
    ensures Dominates(program, Point(program, stack[i].reconvergence), Point(program, stack[j].reconvergence))
    decreases |stack|
  {
    var g := InstructionGraph(program);
    if i == j {
      PostDominatesSelf(g, Point(program, stack[j].reconvergence));
    } else if j < |stack| - 1 {
      OlderPostDominates(program, Below(stack), i, j);
    } else {
      OlderPostDominates(program, Below(stack), i, j - 1);
      PostDominatesTransitive(g, Point(program, stack[i].reconvergence), Point(program, stack[j - 1].reconvergence),
                              Point(program, stack[j].reconvergence));
    }
  }

  lemma UnderTransitive(program: seq<Instruction>, stack: seq<Entry>, d: nat, x: nat)
    requires Under(program, stack, d) && Dominates(program, d, x)
    ensures Under(program, stack, x)
  {
    if stack != [] {
      PostDominatesTransitive(InstructionGraph(program), Point(program, Top(stack).reconvergence), d, x);
    }
  }

  lemma NestedPush(program: seq<Instruction>, stack: seq<Entry>, e: Entry)
    ensures NestedStack(program, stack + [e]) <==>
            && NestedStack(program, stack) && InProgram(program, e)
            && Dominates(program, Point(program, e.reconvergence), e.resume)
            && Under(program, stack, Point(program, e.reconvergence))
  {
    hide Dominates;
    assert Below(stack + [e]) == stack;
  }

  /** Resolving one entry keeps the nesting. */
  lemma PopNested(program: seq<Instruction>, s: WarpState)
    requires |program| < NO_RECONVERGENCE && Nested(program, s) && MustPop(s)
    ensures Nested(program, PopTop(s))
  {
    hide Dominates;
    var e, below := Top(s.stack), Below(s.stack);
    var r := Point(program, e.reconvergence);
    UnderTransitive(program, below, r, e.resume);
    if !e.IsJoin() && s.active != {} {
      Reflexive(program, r);
      NestedPush(program, below, Entry(e.reconvergence, e.reconvergence, s.active));
      assert Top(PopTop(s).stack) == Entry(e.reconvergence, e.reconvergence, s.active);
    }
  }

  lemma Reflexive(program: seq<Instruction>, x: nat)
    ensures Dominates(program, x, x)
  {
    PostDominatesSelf(InstructionGraph(program), x);
  }

  /** A real reconvergence point on top post-dominates nothing past the end of the program. */
  lemma UnderExit(program: seq<Instruction>, stack: seq<Entry>)
    requires Under(program, stack, |program|) && stack != [] && InProgram(program, Top(stack))
    ensures Top(stack).reconvergence == NO_RECONVERGENCE
  {
    var g := InstructionGraph(program);
    assert |g| == |program| + 1;
    OnlyExitPostDominatesExit(g, Point(program, Top(stack).reconvergence));
  }

  /** Moving along an edge from a PC that is not the top reconvergence point. */
  lemma UnderStep(program: seq<Instruction>, s: WarpState, next: nat)
    requires Nested(program, s) && s.active != {} && s.pc < |program| && !AtReconvergence(s)
    requires next in InstructionGraph(program)[s.pc]
    ensures Under(program, s.stack, next)
  {
    if s.stack != [] {
      PostDominatesStep(InstructionGraph(program), Point(program, Top(s.stack).reconvergence), s.pc, next);
    }
  }

  /** No lane can leave the program while a real reconvergence point is on top: neither by falling off the
      end nor by an exit instruction. */
  lemma NoRetirementInside(program: seq<Instruction>, s: WarpState)
    requires TargetsInRange(program) && Nested(program, s) && s.active != {} && !MustPop(s) && s.stack != []
    requires s.pc >= |program| || program[s.pc].op == Exit
    ensures Top(s.stack).reconvergence == NO_RECONVERGENCE
  {
    hide Dominates;
    if s.pc < |program| {
      Edges(program, s.pc);
      UnderStep(program, s, |program|);
    }
    UnderExit(program, s.stack);
  }

  // ---- one micro-step: a pop, a retirement at the end of the program, or an issue ----

  datatype Micro = Silent(warp: WarpState) | Visible(result: StepResult)

  ghost function MicroStep(program: seq<Instruction>, ctx: LaunchContext, s: WarpState, m: MemoryImage): Micro
    requires ValidProgram(program)
  {
    if MustPop(s) then Silent(PopTop(s))
    else if s.active == {} then Visible(Stepped(Finished, s, m))
    else if s.pc >= |program| then Silent(Retire(s, s.active))
    else Visible(Issue(program, ctx, s, m))
  }

  /** A scheduling step is micro-steps up to the first visible one. */
  lemma StepIsMicroSteps(program: seq<Instruction>, ctx: LaunchContext, s: WarpState, m: MemoryImage)
    requires ValidProgram(program)
    ensures Step(program, ctx, s, m) == match MicroStep(program, ctx, s, m)
                                         case Silent(t) => Step(program, ctx, t, m)
                                         case Visible(r) => r
  {
    hide Issue;
    if MustPop(s) {
      PopIsLighter(s);
    }
  }

  // ---- every micro-step keeps the nesting ----

  lemma RetireAllNested(program: seq<Instruction>, s: WarpState)
    requires Nested(program, s) && Partition(s)
    ensures Nested(program, Retire(s, s.active)) && Partition(Retire(s, s.active))
  {
    RetireKeepsPartition(s, s.active);
  }

  lemma SmallProgram(program: seq<Instruction>)
    requires WellAnnotated(program)
    ensures ValidProgram(program) && TargetsInRange(program) && |program| < NO_RECONVERGENCE
  {
  }

  lemma RecordedHalf(program: seq<Instruction>, pc: nat) returns (r: u16)
    requires WellAnnotated(program) && pc < |program| && program[pc].op == Bra && program[pc].guard.present
    ensures program[pc].imm == BranchImm(program[pc].Target(), r)
    ensures Reaches(InstructionGraph(program), pc) && IsReconvergence(program, pc, r)
  {
    hide InstructionGraph, IsReconvergence, Reaches, ValidProgram, TargetsInRange;
    var i := program[pc];
    assert AnnotatedAt(program, pc, i);
    r :| i == i.(imm := BranchImm(i.Target(), r)) && IsReconvergence(program, pc, r);
  }

  lemma PointOf(program: seq<Instruction>, pc: nat, r: u16)
    requires |program| < NO_RECONVERGENCE && Reaches(InstructionGraph(program), pc) && IsReconvergence(program, pc, r)
    ensures IsImmediate(InstructionGraph(program), pc, Point(program, r)) && (r < |program| || r == NO_RECONVERGENCE)
  {
    var g := InstructionGraph(program);
    assert |g| == |program| + 1;
    hide InstructionGraph, Reaches;
    assert forall d: nat | IsImmediate(g, pc, d) :: d <= |program|;
  }

  /** The reconvergence PC recorded in a branch is its immediate post-dominator. */
  lemma RecordedPoint(program: seq<Instruction>, pc: nat)
    requires WellAnnotated(program) && pc < |program| && program[pc].op == Bra && program[pc].guard.present
    ensures var r := program[pc].Reconvergence();
            && IsImmediate(InstructionGraph(program), pc, Point(program, r))
            && (r < |program| || r == NO_RECONVERGENCE)
  {
    hide InstructionGraph, IsImmediate, TargetsInRange;
    var i := program[pc];
    var r := RecordedHalf(program, pc);
    BranchImmHalves(i.Target(), r);
    assert i.Reconvergence() == r;
    PointOf(program, pc, r);
  }

  /** The edges that an issue can follow. */
  lemma Edges(program: seq<Instruction>, pc: nat)
    requires pc < |program|
    ensures var g, i := InstructionGraph(program), program[pc];
            && |g| == |program| + 1
            && (i.op == Bra ==> i.Target() in g[pc])
            && (i.op == Exit ==> |program| in g[pc])
            && (i.guard.present || (i.op != Bra && i.op != Exit) ==> pc + 1 in g[pc])
  {
    assert InstructionGraph(program)[pc] == Successors(program[pc], pc, |program|);
  }

  /** A divergent branch pushes an entry that fits the nesting. */
  lemma DivergeNested(program: seq<Instruction>, s: WarpState, mask: Mask)
    requires WellAnnotated(program) && Nested(program, s) && Ready(program, s) && !MustPop(s)
    requires program[s.pc].op == Bra && program[s.pc].guard.present
    ensures var e := Entry(program[s.pc].Reconvergence(), NextPc(s.pc), mask);
            && NestedStack(program, s.stack + [e])
            && Under(program, s.stack + [e], program[s.pc].Target())
  {
    hide NestedStack, InstructionGraph, Partition, PostDominates;
    var i := program[s.pc];
    var g := InstructionGraph(program);
    var e := Entry(i.Reconvergence(), NextPc(s.pc), mask);
    var d := Point(program, i.Reconvergence());
    RecordedPoint(program, s.pc);
    Edges(program, s.pc);
    if s.stack != [] { PointInProgram(program, s); }
    PostDominatesStep(g, d, s.pc, i.Target());
    PostDominatesStep(g, d, s.pc, s.pc + 1);
    assert Under(program, s.stack, d);
    hide Dominates;
    NestedPush(program, s.stack, e);
  }

  lemma PointInProgram(program: seq<Instruction>, s: WarpState)
    requires Nested(program, s) && s.stack != []
    ensures InProgram(program, Top(s.stack))
  {
    hide Dominates;
  }

  lemma BranchNested(program: seq<Instruction>, s: WarpState)
    requires WellAnnotated(program) && Nested(program, s) && Ready(program, s) && !MustPop(s) && program[s.pc].op == Bra
    ensures Nested(program, Branch(program[s.pc], Exec(program[s.pc], s), s))
  {
    hide Dominates, NestedStack, InstructionGraph, Partition, Annotated;
    var i := program[s.pc];
    var exec := Exec(i, s);
    Edges(program, s.pc);
    UnderStep(program, s, i.Target());
    if i.guard.present {
      UnderStep(program, s, s.pc + 1);
      DivergeNested(program, s, s.active - exec);
    }
  }

  lemma ExecActive(i: Instruction, s: WarpState)
    requires Valid(i)
    ensures Exec(i, s) <= s.active && (!i.guard.present ==> Exec(i, s) == s.active)
  {
  }

  lemma ExitNested(program: seq<Instruction>, s: WarpState)
    requires WellAnnotated(program) && Nested(program, s) && Ready(program, s) && !MustPop(s) && program[s.pc].op == Exit
    ensures Nested(program, Retire(s, Exec(program[s.pc], s)).(pc := NextPc(s.pc)))
  {
    hide Dominates, NestedStack, Separated, InstructionGraph, WellAnnotated, RetireStack, Exec;
    SmallProgram(program);
    var i := program[s.pc];
    ExecActive(i, s);
    RetireKeepsStack(s.stack, s.active, Exec(i, s));
    if i.guard.present {
      Edges(program, s.pc);
      UnderStep(program, s, s.pc + 1);
    }
  }

  lemma PlainNested(program: seq<Instruction>, s: WarpState, lanes: RegisterBank)
    requires WellAnnotated(program) && Nested(program, s) && Ready(program, s) && !MustPop(s)
    requires program[s.pc].op != Bra && program[s.pc].op != Exit
    ensures Nested(program, s.(lanes := lanes, pc := NextPc(s.pc)))
  {
    hide Dominates, InstructionGraph, NestedStack, Partition, Annotated;
    Edges(program, s.pc);
    UnderStep(program, s, s.pc + 1);
  }

  /** The state an issue leaves. */
  lemma IssueShape(program: seq<Instruction>, ctx: LaunchContext, s: WarpState, m: MemoryImage)
    requires ValidProgram(program) && s.pc < |program|
    ensures var i := program[s.pc];
            var exec := Exec(i, s);
            var s1, r := s.(lastExec := exec, lastOp := i.op), Issue(program, ctx, s, m);
            && exec <= s.active
            && (i.op == Bra ==> r.Stepped? && r.warp == Branch(i, exec, s1))
            && (i.op == Exit ==> r.Stepped? && r.warp == Retire(s1, exec).(pc := NextPc(s.pc)))
            && (i.op != Bra && i.op != Exit ==>
                  if r.Stepped? then r.warp.(parked := false) == s1.(lanes := r.warp.lanes, pc := NextPc(s.pc), parked := false)
                  else r.warp == s1.(lanes := r.warp.lanes))
  {
    hide SweepFrom, Observe, AluBank, Branch, Retire, GuardHolds;
  }

  /** Nesting does not depend on registers, flags or counters. */
  lemma SameNested(program: seq<Instruction>, s: WarpState, t: WarpState)
    requires Nested(program, s) && s.stack == t.stack && s.pc == t.pc && s.active == t.active
    ensures Nested(program, t)
  {
    hide NestedStack, Under;
  }

  /** An issue keeps the nesting. */
  lemma IssueNested(program: seq<Instruction>, ctx: LaunchContext, s: WarpState, m: MemoryImage)
    requires WellAnnotated(program) && Nested(program, s) && Ready(program, s) && !MustPop(s)
    ensures Nested(program, Issue(program, ctx, s, m).warp)
  {
    var i := program[s.pc];
    var s1 := s.(lastExec := Exec(i, s), lastOp := i.op);
    var after := Issue(program, ctx, s, m).warp;
    IssueShape(program, ctx, s, m);
    SameExec(i, s, s1);
    SameNested(program, s, s1);
    hide Issue, Nested, WellAnnotated, Exec, Branch, Retire, Partition;
    if i.op == Bra {
      BranchNested(program, s1);
    } else if i.op == Exit {
      ExitNested(program, s1);
    } else {
      if Issue(program, ctx, s, m).Stepped? { PlainNested(program, s1, after.lanes); }
      SameNested(program, if Issue(program, ctx, s, m).Stepped? then s1.(lanes := after.lanes, pc := NextPc(s.pc)) else s1, after);
    }
  }

  lemma SameExec(i: Instruction, s: WarpState, s1: WarpState)
    requires Valid(i) && s1 == s.(lastExec := s1.lastExec, lastOp := s1.lastOp)
    ensures Exec(i, s1) == Exec(i, s)
  {
  }

  ghost predicate MicroOk(program: seq<Instruction>, step: Micro) {
    match step
    case Silent(t) => Nested(program, t) && Partition(t)
    case Visible(r) => Nested(program, r.warp) && Partition(r.warp)
  }

  /** Every micro-step keeps the nesting and the lane partition. */
  lemma MicroStepKeepsNested(program: seq<Instruction>, ctx: LaunchContext, s: WarpState, m: MemoryImage)
    requires WellAnnotated(program) && Nested(program, s) && Partition(s)
    ensures MicroOk(program, MicroStep(program, ctx, s, m))
  {
    hide Issue, Nested, Partition, Retire, PopTop;
    if MustPop(s) {
      PopNested(program, s);
      PopKeepsLanes(s);
    } else if s.active != {} {
      if s.pc >= |program| {
        RetireAllNested(program, s);
      } else {
        IssueNested(program, ctx, s, m);
        IssuePartition(program, ctx, s, m);
      }
    }
  }

  /** Every scheduling step keeps the nesting and the lane partition. */
  lemma {:induction false} StepKeepsNested(program: seq<Instruction>, ctx: LaunchContext, s: WarpState, m: MemoryImage)
    requires WellAnnotated(program) && Nested(program, s) && Partition(s)
    ensures Nested(program, Step(program, ctx, s, m).warp) && Partition(Step(program, ctx, s, m).warp)
    decreases Weight(s.stack), if s.active == {} then 0 else 1
  {
    hide Step, Issue, Nested, Partition, PopTop, Retire;
    StepIsMicroSteps(program, ctx, s, m);
    MicroStepKeepsNested(program, ctx, s, m);
    if MustPop(s) {
      PopIsLighter(s);
      StepKeepsNested(program, ctx, PopTop(s), m);
    } else if s.active != {} && s.pc >= |program| {
      RetiredAll(s);
      StepKeepsNested(program, ctx, Retire(s, s.active), m);
    }
  }

  lemma RetiredAll(s: WarpState)
    ensures Retire(s, s.active).active == {} && Weight(Retire(s, s.active).stack) == Weight(s.stack)
  {
    RetireKeepsWeight(s.stack, s.active);
  }

  lemma InitialNested(program: seq<Instruction>, live: Mask)
    ensures Nested(program, InitialWarp(live)) && Partition(InitialWarp(live))
  {
  }

  // ---- a divergent branch gets its mask back ----

  /** Between a divergent branch with reconvergence PC `r` above `base`, and its final join. */
  ghost predicate Inside(program: seq<Instruction>, base: seq<Entry>, r: u16, live: Mask, s: WarpState) {
    && Nested(program, s) && Partition(s) && s.active != {} && s.live == live
    && |s.stack| > |base| && s.stack[..|base|] == base && s.stack[|base|].reconvergence == r < |program|
  }

  /** The state the final join leaves: the old stack, the old mask, at the reconvergence PC. */
  ghost predicate Restored(base: seq<Entry>, r: u16, live: Mask, s: WarpState) {
    s.stack == base && s.live == live && s.pc == r && s.active == live - Held(base)
  }

  /** Inside a branch with a real reconvergence PC, the top entry has one too. */
  lemma InsideTopIsReal(program: seq<Instruction>, base: seq<Entry>, r: u16, live: Mask, s: WarpState)
    requires |program| < NO_RECONVERGENCE && Inside(program, base, r, live, s)
    ensures InProgram(program, Top(s.stack)) && Top(s.stack).reconvergence < |program|
  {
    var g := InstructionGraph(program);
    OlderPostDominates(program, s.stack, |base|, |s.stack| - 1);
    if Top(s.stack).reconvergence == NO_RECONVERGENCE {
      OnlyExitPostDominatesExit(g, r);
      assert false;
    }
  }

  lemma PartitionActive(s: WarpState)
    requires Partition(s)
    ensures s.active == s.live - Held(s.stack)
  {
    SeparatedFrom(s.stack, s.active);
  }

  lemma PopInside(program: seq<Instruction>, base: seq<Entry>, r: u16, live: Mask, s: WarpState)
    requires WellAnnotated(program) && Inside(program, base, r, live, s) && MustPop(s)
    ensures Inside(program, base, r, live, PopTop(s)) || Restored(base, r, live, PopTop(s))
  {
    hide WellAnnotated, Nested, Partition;
    SmallProgram(program);
    PopNested(program, s);
    PopKeepsLanes(s);
    PartitionActive(PopTop(s));
    TopMask(s);
    var t := PopTop(s);
    assert t.active != {};
    if t.stack != base {
      assert t.stack[..|base|] == base;
    }
  }

  lemma TopMask(s: WarpState)
    requires Partition(s) && s.stack != []
    ensures Top(s.stack).mask != {}
  {
  }

  lemma IssueInside(program: seq<Instruction>, ctx: LaunchContext, base: seq<Entry>, r: u16, live: Mask, s: WarpState, m: MemoryImage)
    requires WellAnnotated(program) && Inside(program, base, r, live, s) && !MustPop(s) && s.pc < |program|
    requires ValidProgram(program)
    ensures Issue(program, ctx, s, m).Stepped? ==> Inside(program, base, r, live, Issue(program, ctx, s, m).warp)
  {
    hide WellAnnotated, Nested, Partition, SweepFrom, Observe, AluBank, Retire, Exec;
    SmallProgram(program);
    InsideTopIsReal(program, base, r, live, s);
    IssueNested(program, ctx, s, m);
    IssuePartition(program, ctx, s, m);
    if program[s.pc].op == Exit {
      NoRetirementInside(program, s);
      assert false;
    }
  }

  /** A micro-step inside a branch stays inside or is its final join; it never retires a lane and never
      finds the warp finished. */
  lemma MicroStepInside(program: seq<Instruction>, ctx: LaunchContext, base: seq<Entry>, r: u16, live: Mask, s: WarpState, m: MemoryImage)
    requires WellAnnotated(program) && Inside(program, base, r, live, s) && ValidProgram(program)
    ensures match MicroStep(program, ctx, s, m)
            case Silent(t) => Inside(program, base, r, live, t) || Restored(base, r, live, t)
            case Visible(v) => v.Stepped? ==> v.outcome != Finished && Inside(program, base, r, live, v.warp)
  {
    hide WellAnnotated, Issue, Retire, PopTop;
    SmallProgram(program);
    InsideTopIsReal(program, base, r, live, s);
    if MustPop(s) {
      PopInside(program, base, r, live, s);
    } else if s.pc >= |program| {
      NoRetirementInside(program, s);
      assert false;
    } else {
      IssueInside(program, ctx, base, r, live, s, m);
      IssueIsNotFinished(program, ctx, s, m);
    }
  }

  // ---- runs in which other warps change memory between the micro-steps ----

  /** One micro-step on memory `m`; the scheduler clears the parked flag before the next one. None at a fault. */
  ghost function MicroNext(program: seq<Instruction>, ctx: LaunchContext, s: WarpState, m: MemoryImage): Option<WarpState>
    requires ValidProgram(program)
  {
    match MicroStep(program, ctx, s, m)
    case Silent(t) => Some(t)
    case Visible(Faulted(_, _, _)) => None
    case Visible(Stepped(_, t, _)) => Some(t.(parked := false))
  }

  /** The state after as many micro-steps as there are memories, each finding the memory given for it. */
  ghost function MicroRun(program: seq<Instruction>, ctx: LaunchContext, s: WarpState, memories: seq<MemoryImage>): Option<WarpState>
    requires ValidProgram(program)
  {
    if memories == [] then Some(s)
    else match MicroRun(program, ctx, s, memories[..|memories| - 1])
      case None => None
      case Some(t) => MicroNext(program, ctx, t, memories[|memories| - 1])
  }

  ghost function StateAt(program: seq<Instruction>, ctx: LaunchContext, s: WarpState, memories: seq<MemoryImage>, k: nat): Option<WarpState>
    requires ValidProgram(program) && k <= |memories|
  {
    MicroRun(program, ctx, s, memories[..k])
  }

  lemma StateNext(program: seq<Instruction>, ctx: LaunchContext, s: WarpState, memories: seq<MemoryImage>, k: nat)
    requires ValidProgram(program) && k < |memories|
    ensures StateAt(program, ctx, s, memories, k + 1) ==
            match StateAt(program, ctx, s, memories, k)
            case None => None
            case Some(t) => MicroNext(program, ctx, t, memories[k])
  {
    hide MicroNext;
    assert memories[..k + 1][..k] == memories[..k];
  }

  /** Whatever the memories are, every reachable state of a warp is nested. */
  lemma {:induction false} MicroRunIsNested(program: seq<Instruction>, ctx: LaunchContext, s: WarpState, memories: seq<MemoryImage>, k: nat)
    requires WellAnnotated(program) && Nested(program, s) && Partition(s) && k <= |memories|
    ensures match StateAt(program, ctx, s, memories, k) case None => true case Some(t) => Nested(program, t) && Partition(t)
    decreases k
  {
    hide WellAnnotated, Nested, Partition, MicroStep, MicroRun;
    SmallProgram(program);
    if k > 0 {
      StateNext(program, ctx, s, memories, k - 1);
      MicroRunIsNested(program, ctx, s, memories, k - 1);
      match StateAt(program, ctx, s, memories, k - 1)
      case None =>
      case Some(t) =>
        MicroStepKeepsNested(program, ctx, t, memories[k - 1]);
        match MicroStep(program, ctx, t, memories[k - 1])
        case Silent(_) =>
        case Visible(r) => UnparkKeepsNested(program, r.warp);
    } else {
      StateStart(program, ctx, s, memories);
    }
  }

  lemma StateStart(program: seq<Instruction>, ctx: LaunchContext, s: WarpState, memories: seq<MemoryImage>)
    requires ValidProgram(program)
    ensures StateAt(program, ctx, s, memories, 0) == Some(s)
  {
  }

  lemma UnparkKeepsNested(program: seq<Instruction>, s: WarpState)
    requires Nested(program, s) && Partition(s)
    ensures Nested(program, s.(parked := false)) && Partition(s.(parked := false))
  {
    hide NestedStack;
  }

  lemma UnparkKeepsInside(program: seq<Instruction>, base: seq<Entry>, r: u16, live: Mask, s: WarpState)
    requires Inside(program, base, r, live, s)
    ensures Inside(program, base, r, live, s.(parked := false))
  {
    hide Nested, Partition;
    UnparkKeepsNested(program, s);
  }

  /** The stack stays deeper than `depth` from state `i` to before state `k`. */
  ghost predicate DeeperUntil(program: seq<Instruction>, ctx: LaunchContext, s: WarpState, memories: seq<MemoryImage>, depth: nat, i: nat, k: nat)
    requires ValidProgram(program) && k <= |memories|
  {
    forall j | i <= j < k :: StateAt(program, ctx, s, memories, j).Some?
                             && |StateAt(program, ctx, s, memories, j).value.stack| > depth
  }

  /** From a state inside a branch every later one is inside it, until its final join. */
  lemma {:induction false} InsideUntilRestored(program: seq<Instruction>, ctx: LaunchContext, base: seq<Entry>, r: u16, live: Mask,
                                               s: WarpState, memories: seq<MemoryImage>, i: nat, k: nat)
    requires WellAnnotated(program) && ValidProgram(program) && i <= k <= |memories|
    requires StateAt(program, ctx, s, memories, i).Some? && Inside(program, base, r, live, StateAt(program, ctx, s, memories, i).value)
    requires DeeperUntil(program, ctx, s, memories, |base|, i, k)
    ensures match StateAt(program, ctx, s, memories, k)
            case None => true
            case Some(t) => Inside(program, base, r, live, t) || Restored(base, r, live, t)
    decreases k
  {
    hide WellAnnotated, Inside, MicroStep, StateAt;
    if k > i {
      InsideUntilRestored(program, ctx, base, r, live, s, memories, i, k - 1);
      StateNext(program, ctx, s, memories, k - 1);
      var t := StateAt(program, ctx, s, memories, k - 1).value;
      MicroStepInside(program, ctx, base, r, live, t, memories[k - 1]);
      match MicroStep(program, ctx, t, memories[k - 1])
      case Silent(_) =>
      case Visible(v) => if v.Stepped? { UnparkKeepsInside(program, base, r, live, v.warp); }
    }
  }

  /** A warp about to split at a guarded branch that records a real reconvergence PC. */
  ghost predicate Diverging(program: seq<Instruction>, s: WarpState) {
    && Ready(program, s) && !MustPop(s)
    && program[s.pc].op == Bra && program[s.pc].Reconvergence() != NO_RECONVERGENCE
    && program[s.pc].guard.present && {} < Exec(program[s.pc], s) < s.active
  }

  /** When a divergent branch with a real reconvergence PC has split the active mask, the first time the
      stack is back at its depth the warp is at that PC with exactly the mask that was split, the stack is
      what it was, and no lane has retired in between; whatever other warps do to memory meanwhile. */
  lemma BranchRestoresMask(program: seq<Instruction>, ctx: LaunchContext, start: WarpState, memories: seq<MemoryImage>, i: nat, k: nat)
    requires WellAnnotated(program) && ValidProgram(program) && Nested(program, start) && Partition(start) && i < k <= |memories|
    requires StateAt(program, ctx, start, memories, i).Some? && Diverging(program, StateAt(program, ctx, start, memories, i).value)
    requires var s := StateAt(program, ctx, start, memories, i).value;
             DeeperUntil(program, ctx, start, memories, |s.stack|, i + 1, k)
    ensures var s, next := StateAt(program, ctx, start, memories, i).value, StateAt(program, ctx, start, memories, i + 1);
            next.Some? && |next.value.stack| == |s.stack| + 1
    ensures var s := StateAt(program, ctx, start, memories, i).value;
            match StateAt(program, ctx, start, memories, k)
            case None => true
            case Some(t) => |t.stack| <= |s.stack| ==>
              t.active == s.active && t.pc == program[s.pc].Reconvergence() && t.stack == s.stack && t.live == s.live
  {
    hide WellAnnotated, Nested, Partition, StateAt, Issue;
    var s := StateAt(program, ctx, start, memories, i).value;
    MicroRunIsNested(program, ctx, start, memories, i);
    StateNext(program, ctx, start, memories, i);
    var r := program[s.pc].Reconvergence();
    var after := Issue(program, ctx, s, memories[i]).warp;
    IssueNested(program, ctx, s, memories[i]);
    IssuePartition(program, ctx, s, memories[i]);
    RecordedPoint(program, s.pc);
    PartitionActive(s);
    BranchTaken(program, ctx, s, memories[i]);
    UnparkKeepsInside(program, s.stack, r, s.live, after);
    InsideUntilRestored(program, ctx, s.stack, r, s.live, start, memories, i + 1, k);
  }

  lemma BranchTaken(program: seq<Instruction>, ctx: LaunchContext, s: WarpState, m: MemoryImage)
    requires Ready(program, s) && program[s.pc].op == Bra
    requires program[s.pc].guard.present && {} < Exec(program[s.pc], s) < s.active
    ensures var i, after := program[s.pc], Issue(program, ctx, s, m);
            && after.Stepped? && after.memory == m
            && after.warp.active == Exec(i, s) && after.warp.live == s.live
            && after.warp.stack == s.stack + [Entry(i.Reconvergence(), NextPc(s.pc), s.active - Exec(i, s))]
  {
    hide Partition;
    var i := program[s.pc];
    NothingLeft(s.active, Exec(i, s));
  }
}
