/** A kernel whose result does depend on the recorded reconvergence PC: a branch to a barrier. */
module BarrierDependence {
  import opened Isa
  import opened Alu
  import opened WarpSpec
  import opened Refinement
  import opened Independence

  /** Two annotations of: a guarded branch to the next instruction, which is a barrier. */
  ghost predicate BranchBeforeBarrier(p: seq<Instruction>, s: WarpState) {
    && ValidProgram(p) && |p| < NO_RECONVERGENCE && s.pc + 1 < |p|
    && p[s.pc].op == Bra && p[s.pc].guard.present && p[s.pc].Target() == s.pc + 1 && p[s.pc + 1].op == BarSync
  }

  /** A whole warp on which the branch diverges. */
  ghost predicate WholeAndDiverging(p: seq<Instruction>, s: WarpState)
    requires BranchBeforeBarrier(p, s)
  {
    Partition(s) && s.stack == [] && {} < Exec(p[s.pc], s) < s.active
  }

  lemma DivergingStep(p: seq<Instruction>, ctx: LaunchContext, s: WarpState, m: MemoryImage)
    requires BranchBeforeBarrier(p, s) && WholeAndDiverging(p, s)
    ensures var exec := Exec(p[s.pc], s); var step := Step(p, ctx, s, m);
            && step.Stepped? && step.outcome == Issued && step.memory == m
            && step.warp.pc == s.pc + 1 && step.warp.active == exec && step.warp.live == s.live == s.active
            && step.warp.stack == [Entry(p[s.pc].Reconvergence(), s.pc + 1, s.active - exec)]
  {
    hide SweepFrom, Observe, AluBank, Exec;
    StackEmptyIffWhole(s);
    NothingLeft(s.active, Exec(p[s.pc], s));
    assert Settle(s, |p|) == s;
  }

  /** With the next instruction recorded the warp is whole again at the barrier; with any other value the
      barrier faults. */
  lemma BarrierDependsOnReconvergence(p: seq<Instruction>, ctx: LaunchContext, s: WarpState, m: MemoryImage)
    requires BranchBeforeBarrier(p, s) && WholeAndDiverging(p, s)
    ensures var first := Step(p, ctx, s, m); var second := Step(p, ctx, first.warp, first.memory);
            if p[s.pc].Reconvergence() == s.pc + 1 then second.Stepped? && second.outcome == Barrier
            else second.Faulted? && second.fault.kind == DivergentBarrier
  {
    hide SweepFrom, Observe, AluBank, Exec, Separated, Weight;
    DivergingStep(p, ctx, s, m);
    var t := Step(p, ctx, s, m).warp;
    hide Step;
    var exec := Exec(p[s.pc], s);
    NothingLeft(s.active, exec);
    JoinAtOnce(t, |p|, s.pc + 1, s.active);
    StepAtBarrier(p, ctx, t, m);
  }

  /** Arriving at a deferred entry that resumes at its own reconvergence PC joins the two paths. */
  lemma JoinAtOnce(t: WarpState, n: nat, pc: u16, all: Mask)
    requires |t.stack| == 1 && t.active != {} && t.pc == pc < n && t.stack[0].resume == pc
    requires t.stack[0].mask == all - t.active && t.active <= all
    ensures if t.stack[0].reconvergence == pc
            then Settle(t, n).active == all && Settle(t, n).live == t.live && Settle(t, n).pc == pc
            else Settle(t, n) == t
  {
    if t.stack[0].reconvergence == pc {
      PopIsLighter(t);
      var u := PopTop(t);
      assert u.active == all && u.stack == [];
      assert Resolve(u) == u;
    }
  }

  lemma StepAtBarrier(p: seq<Instruction>, ctx: LaunchContext, t: WarpState, m: MemoryImage)
    requires ValidProgram(p) && Settle(t, |p|).active != {} && Settle(t, |p|).pc < |p| && p[Settle(t, |p|).pc].op == BarSync
    ensures var r := Settle(t, |p|); var step := Step(p, ctx, t, m);
            if r.active == r.live then step.Stepped? && step.outcome == Barrier
            else step.Faulted? && step.fault.kind == DivergentBarrier
  {
    hide Settle, Exec;
  }

  // ---- a concrete kernel ----

  function Split(r: u16): seq<Instruction> {
    [Instruction(Bra, Guard(true, false, 0), 0, 0, 0, false, BranchImm(1, r)),
     Instruction(BarSync, Guard(false, false, 0), 0, 0, 0, false, 0),
     Instruction(Exit, Guard(false, false, 0), 0, 0, 0, false, 0)]
  }

  /** Two lanes whose guards differ. */
  function TwoLanes(): WarpState {
    var s := InitialWarp({0, 1});
    s.(lanes := s.lanes[0 := WritePred(ZeroLane(), 0, true)])
  }

  lemma SplitIs(r: u16)
    ensures BranchBeforeBarrier(Split(r), TwoLanes()) && TwoLanes().pc == 0 && |Split(r)| == 3
    ensures Split(r)[0].Reconvergence() == r && ValidProgram(Split(r))
  {
    BranchImmHalves(1, r);
  }

  lemma SameSplit(r: u16, s: u16)
    ensures SameKernel(Split(r), Split(s))
  {
    BranchImmHalves(1, r);
    BranchImmHalves(1, s);
  }

  lemma TwoDiverge(r: u16)
    requires BranchBeforeBarrier(Split(r), TwoLanes())
    ensures WholeAndDiverging(Split(r), TwoLanes())
  {
    var s := TwoLanes();
    var exec := Exec(Split(r)[0], s);
    assert 0 in exec && 1 !in exec && 1 in s.active;
  }

  /** Two annotations of one kernel, one state: one reaches the barrier, the other faults. */
  lemma AnnotationsDiffer(ctx: LaunchContext, m: MemoryImage)
    ensures SameKernel(Split(1), Split(NO_RECONVERGENCE))
    ensures ValidProgram(Split(1)) && ValidProgram(Split(NO_RECONVERGENCE))
    ensures var p, q, s := Split(1), Split(NO_RECONVERGENCE), TwoLanes();
            var a, c := Step(p, ctx, s, m), Step(q, ctx, s, m);
            && Step(p, ctx, a.warp, a.memory).Stepped? && Step(q, ctx, c.warp, c.memory).Faulted?
  {
    SplitIs(1);
    SplitIs(NO_RECONVERGENCE);
    TwoDiverge(1);
    TwoDiverge(NO_RECONVERGENCE);
    SameSplit(1, NO_RECONVERGENCE);
    hide Step, TwoLanes, WholeAndDiverging, Split, BranchBeforeBarrier, SameKernel;
    BarrierDependsOnReconvergence(Split(1), ctx, TwoLanes(), m);
    BarrierDependsOnReconvergence(Split(NO_RECONVERGENCE), ctx, TwoLanes(), m);
  }
}
