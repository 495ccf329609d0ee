/** The steps of one warp as rounds of its threads, and what every reachable state keeps. */
module WarpRuns {
  import opened Isa
  import opened Alu
  import opened Collections
  import opened WarpSpec
  import opened Threads
  import opened Refinement

  // ---- one scheduling step ----

  ghost predicate AllRetired(threads: seq<Thread>) {
    forall l | 0 <= l < |threads| :: threads[l].Retired?
  }

  /** A settled warp has a path to issue exactly when some thread is still running. */
  lemma ReadyIffRunning(program: seq<Instruction>, s: WarpState)
    requires ValidProgram(program) && Partition(s)
    ensures var r := Settle(s, |program|);
            && (r.active != {} ==> Ready(program, r) && !AllRetired(View(s, |program|)))
            && (r.active == {} ==> r.live == {} && r.stack == [] && AllRetired(View(s, |program|)))
  {
    hide Settle, View, AllRetired;
    var r := Settle(s, |program|);
    SettleReady(s, |program|);
    SettleKeepsView(s, |program|);
    if r.active == {} { NoneRunning(r, |program|); } else { SomeRunning(r, |program|); }
  }

  lemma NoneRunning(r: WarpState, n: nat)
    requires Partition(r) && r.active == {} && r.stack == []
    ensures r.live == {} && AllRetired(View(r, n))
  {
  }

  lemma SomeRunning(r: WarpState, n: nat)
    requires Partition(r) && r.active != {} && r.pc < n
    ensures !AllRetired(View(r, n))
  {
    var l :| l in r.active;
    assert View(r, n)[l].Running?;
  }

  /** `step` returns Finished exactly when every thread has retired, and it then changes no thread;
      otherwise it is the issue of the settled state, whose threads are those of `s`. */
  lemma StepOutcome(program: seq<Instruction>, ctx: LaunchContext, s: WarpState, m: MemoryImage)
    requires ValidProgram(program) && Partition(s)
    ensures var r := Settle(s, |program|);
            var step := Step(program, ctx, s, m);
            && (step.Stepped? && step.outcome == Finished <==> AllRetired(View(s, |program|)))
            && (AllRetired(View(s, |program|)) ==>
                  step == Stepped(Finished, r, m) && r.live == {} && View(r, |program|) == View(s, |program|))
            && (!AllRetired(View(s, |program|)) ==>
                  && Ready(program, r) && View(r, |program|) == View(s, |program|)
                  && step == Issue(program, ctx, r, m) && IssueRefines(program, ctx, r, m, step))
  {
    hide Issue, View, AllRetired, IssueRefines;
    ReadyIffRunning(program, s);
    SettleKeepsView(s, |program|);
    var r := Settle(s, |program|);
    if r.active != {} {
      IssueIsRound(program, ctx, r, m);
      IssueIsNotFinished(program, ctx, r, m);
    }
  }

  lemma IssueIsNotFinished(program: seq<Instruction>, ctx: LaunchContext, s: WarpState, m: MemoryImage)
    requires ValidProgram(program) && s.pc < |program|
    ensures Issue(program, ctx, s, m).Stepped? ==> Issue(program, ctx, s, m).outcome != Finished
  {
    hide SweepFrom, Observe, Exec, AluBank, Branch;
  }

  // ---- invariants of every reachable state ----

  lemma MaskSize(m: Mask)
    ensures |m| <= WARP_SIZE
  {
    var all := UpTo(WARP_SIZE);
    SubsetSize(m, all);
  }

  /** The lanes are partitioned, at most 31 paths wait, and every two reconvergence events were paid for
      by a divergence. */
  ghost predicate Invariant(s: WarpState) {
    && Partition(s) && |s.stack| <= 31
    && s.reconverged + Weight(s.stack) <= 2 * s.divergent
  }

  lemma InitialInvariant(live: Mask)
    ensures Invariant(InitialWarp(live))
  {
  }

  lemma PopBalance(s: WarpState)
    requires MustPop(s)
    ensures PopTop(s).divergent == s.divergent
    ensures PopTop(s).reconverged + Weight(PopTop(s).stack) <= s.reconverged + Weight(s.stack)
  {
    PopIsLighter(s);
  }

  lemma {:induction false} ResolveBalance(s: WarpState)
    ensures Resolve(s).divergent == s.divergent
    ensures Resolve(s).reconverged + Weight(Resolve(s).stack) <= s.reconverged + Weight(s.stack)
    decreases Weight(s.stack)
  {
    if MustPop(s) {
      PopIsLighter(s);
      PopBalance(s);
      ResolveBalance(PopTop(s));
    }
  }

  lemma {:induction false} SettleBalance(s: WarpState, n: nat)
    ensures Settle(s, n).divergent == s.divergent
    ensures Settle(s, n).reconverged + Weight(Settle(s, n).stack) <= s.reconverged + Weight(s.stack)
    decreases Weight(s.stack), if s.active == {} then 0 else 1
  {
    ResolveBalance(s);
    ResolveIsLighter(s);
    var r := Resolve(s);
    if r.active != {} && r.pc >= n {
      RetireKeepsWeight(r.stack, r.active);
      SettleBalance(Retire(r, r.active), n);
    }
  }

  /** `s1` has the stack and event counts of `s`, or one more deferred path and one more divergence. */
  ghost predicate StackGrows(s: WarpState, s1: WarpState) {
    || (s1.stack == s.stack && s1.divergent == s.divergent && s1.reconverged == s.reconverged)
    || (|s1.stack| == |s.stack| + 1 && s1.active != {} && Partition(s1)
        && s1.divergent == s.divergent + 1 && s1.reconverged == s.reconverged
        && Weight(s1.stack) <= Weight(s.stack) + 2)
  }

  lemma BranchStack(s: WarpState, i: Instruction)
    requires Valid(i) && Partition(s)
    ensures StackGrows(s, Branch(i, Exec(i, s), s))
  {
    var exec := Exec(i, s);
    var e := Entry(i.Reconvergence(), NextPc(s.pc), s.active - exec);
    NothingLeft(s.active, exec);
    if i.guard.present && exec != {} && exec != s.active {
      WeightOfPush(s.stack, e);
      DivergePartition(s, exec, e);
    }
  }

  lemma PlainKeepsStack(program: seq<Instruction>, ctx: LaunchContext, s: WarpState, m: MemoryImage)
    requires ValidProgram(program) && s.pc < |program| && program[s.pc].op != Bra && program[s.pc].op != Exit
    ensures var s1 := Issue(program, ctx, s, m).warp;
            s1.stack == s.stack && s1.divergent == s.divergent && s1.reconverged == s.reconverged
  {
    hide SweepFrom, Observe, AluBank, Exec;
  }

  /** Only a divergent branch makes the stack deeper, and it leaves the taken lanes active. */
  lemma IssueStack(program: seq<Instruction>, ctx: LaunchContext, s: WarpState, m: MemoryImage)
    requires Ready(program, s)
    ensures StackGrows(s, Issue(program, ctx, s, m).warp)
  {
    hide SweepFrom, Observe, AluBank, Branch, Weight, Separated, MemoryIssue;
    var i := program[s.pc];
    if i.op == Exit {
      ExitKeepsStack(s, i);
    } else if i.op == Bra {
      BranchStack(s.(lastExec := Exec(i, s), lastOp := i.op), i);
    } else {
      PlainKeepsStack(program, ctx, s, m);
    }
  }

  lemma ExitKeepsStack(s: WarpState, i: Instruction)
    requires Valid(i) && Partition(s)
    ensures RetireStack(s.stack, Exec(i, s)) == s.stack
  {
    RetireKeepsStack(s.stack, s.active, Exec(i, s));
  }

  lemma IssuePartition(program: seq<Instruction>, ctx: LaunchContext, s: WarpState, m: MemoryImage)
    requires Ready(program, s)
    ensures Partition(Issue(program, ctx, s, m).warp)
  {
    IssueIsRound(program, ctx, s, m);
    hide SweepFrom, Observe, AluBank, View, Ascending, Run, Branch, Retire;
  }

  /** Every step keeps the invariant, also a step that faults. */
  lemma StepKeepsInvariant(program: seq<Instruction>, ctx: LaunchContext, s: WarpState, m: MemoryImage)
    requires ValidProgram(program) && Invariant(s)
    ensures Invariant(Step(program, ctx, s, m).warp)
  {
    hide Issue, View, AllRetired, IssueRefines;
    StepOutcome(program, ctx, s, m);
    SettleKeepsView(s, |program|);
    SettleBalance(s, |program|);
    var r := Settle(s, |program|);
    if Ready(program, r) {
      IssueStack(program, ctx, r, m);
      IssuePartition(program, ctx, r, m);
      var s1 := Issue(program, ctx, r, m).warp;
      SeparatedFrom(s1.stack, s1.active);
      MaskSize(s1.live);
      assert Held(s1.stack) + s1.active == s1.live;
    }
  }

  // ---- runs ----

  /** The state after `k` issues, if none of the first `k` steps faults or finds the warp finished. */
  ghost function After(program: seq<Instruction>, ctx: LaunchContext, s: WarpState, m: MemoryImage, k: nat): Option<(WarpState, MemoryImage)>
    requires ValidProgram(program)
    decreases k
  {
    if k == 0 then Some((s, m))
    else match Step(program, ctx, s, m)
      case Faulted(_, _, _) => None
      case Stepped(outcome, s1, m1) => if outcome == Finished then None else After(program, ctx, s1, m1, k - 1)
  }

  lemma RunOneStep(program: seq<Instruction>, ctx: LaunchContext, s: WarpState, m: MemoryImage)
    requires ValidProgram(program) && Invariant(s)
    ensures match Step(program, ctx, s, m)
            case Faulted(_, _, _) => true
            case Stepped(outcome, s1, m1) =>
              outcome != Finished ==>
                Run(program, ctx, Ascending(Settle(s, |program|).active, 0), Machine(View(s, |program|), m.store))
                == Some(Machine(View(s1, |program|), m1.store))
  {
    hide Issue, Step;
    StepOutcome(program, ctx, s, m);
  }

  // ---- reconvergence events ----

  /** While no lane of `live` has retired, a path is active and every divergence has been, or will be, followed
      by at least one arrival at its reconvergence PC. */
  ghost predicate NoneLost(s: WarpState, live: Mask) {
    s.live <= live && (s.live == live ==> s.active != {} && s.divergent <= s.reconverged + Weight(s.stack))
  }

  lemma PopNoneLost(s: WarpState, live: Mask)
    requires MustPop(s) && Partition(s) && NoneLost(s, live)
    ensures NoneLost(PopTop(s), live)
  {
    var e := Top(s.stack);
    if !e.IsJoin() && s.active != {} {
      WeightOfPush(Below(s.stack), Entry(e.reconvergence, e.reconvergence, s.active));
    }
  }

  lemma {:induction false} ResolveNoneLost(s: WarpState, live: Mask)
    requires Partition(s) && NoneLost(s, live)
    ensures Partition(Resolve(s)) && NoneLost(Resolve(s), live)
    decreases Weight(s.stack)
  {
    hide NoneLost, Partition, PopTop;
    if MustPop(s) {
      PopIsLighter(s);
      PopNoneLost(s, live);
      PopKeepsLanes(s);
      ResolveNoneLost(PopTop(s), live);
    }
  }

  /** Some active lane retires. */
  lemma RetireLoses(s: WarpState, lanes: Mask, live: Mask)
    requires Partition(s) && NoneLost(s, live) && lanes <= s.active && lanes != {}
    ensures NoneLost(Retire(s, lanes), live)
  {
    var l :| l in lanes;
    assert l in s.live && l !in Retire(s, lanes).live;
  }

  lemma {:induction false} SettleNoneLost(s: WarpState, n: nat, live: Mask)
    requires Partition(s) && NoneLost(s, live)
    ensures NoneLost(Settle(s, n), live)
    decreases Weight(s.stack), if s.active == {} then 0 else 1
  {
    hide NoneLost, Partition, Retire;
    ResolveNoneLost(s, live);
    ResolveIsLighter(s);
    var r := Resolve(s);
    if r.active != {} && r.pc >= n {
      RetireKeepsWeight(r.stack, r.active);
      RetireLoses(r, r.active, live);
      RetireKeepsPartition(r, r.active);
      RetireParts(r);
      SettleNoneLost(Retire(r, r.active), n, live);
    }
  }

  lemma RetireParts(s: WarpState)
    ensures Retire(s, s.active).stack == RetireStack(s.stack, s.active) && Retire(s, s.active).active == {}
  {
  }

  lemma BranchNoneLost(s: WarpState, i: Instruction, live: Mask)
    requires Valid(i) && NoneLost(s, live)
    ensures NoneLost(Branch(i, Exec(i, s), s), live)
  {
    var exec := Exec(i, s);
    if i.guard.present && exec != {} && s.active - exec != {} {
      WeightOfPush(s.stack, Entry(i.Reconvergence(), NextPc(s.pc), s.active - exec));
    }
  }

  lemma ExitNoneLost(s: WarpState, lanes: Mask, live: Mask)
    requires Partition(s) && NoneLost(s, live) && lanes <= s.active
    ensures NoneLost(Retire(s, lanes), live)
  {
    if lanes == {} {
      RetireKeepsStack(s.stack, s.active, lanes);
    } else {
      RetireLoses(s, lanes, live);
    }
  }

  lemma PlainKeepsActive(program: seq<Instruction>, ctx: LaunchContext, s: WarpState, m: MemoryImage)
    requires ValidProgram(program) && s.pc < |program| && program[s.pc].op != Bra && program[s.pc].op != Exit
    ensures Issue(program, ctx, s, m).warp.active == s.active && Issue(program, ctx, s, m).warp.live == s.live
  {
    hide SweepFrom, Observe, AluBank, Exec;
  }

  lemma IssueNoneLost(program: seq<Instruction>, ctx: LaunchContext, s: WarpState, m: MemoryImage, live: Mask)
    requires Ready(program, s) && NoneLost(s, live)
    ensures NoneLost(Issue(program, ctx, s, m).warp, live)
  {
    hide SweepFrom, Observe, AluBank, Branch, Weight, Separated, MemoryIssue, Exec, Retire;
    var i := program[s.pc];
    var t := s.(lastExec := Exec(i, s), lastOp := i.op);
    SameMask(i, s, t);
    if i.op == Exit {
      ExitNoneLost(t, Exec(i, t), live);
    } else if i.op == Bra {
      BranchNoneLost(t, i, live);
    } else {
      PlainKeepsStack(program, ctx, s, m);
      PlainKeepsActive(program, ctx, s, m);
    }
  }

  lemma SameMask(i: Instruction, s: WarpState, t: WarpState)
    requires Valid(i) && t.active == s.active && t.lanes == s.lanes
    ensures Exec(i, t) == Exec(i, s) && Exec(i, s) <= s.active
  {
  }

  /** Every step keeps it, also a step that faults. */
  lemma StepNoneLost(program: seq<Instruction>, ctx: LaunchContext, s: WarpState, m: MemoryImage, live: Mask)
    requires ValidProgram(program) && Invariant(s) && NoneLost(s, live)
    ensures NoneLost(Step(program, ctx, s, m).warp, live)
  {
    hide Issue, View, AllRetired, IssueRefines, NoneLost;
    StepOutcome(program, ctx, s, m);
    SettleNoneLost(s, |program|, live);
    SettleReady(s, |program|);
    var r := Settle(s, |program|);
    if Ready(program, r) { IssueNoneLost(program, ctx, r, m, live); }
  }

  lemma {:induction false} AfterKeeps(program: seq<Instruction>, ctx: LaunchContext, s: WarpState, m: MemoryImage, k: nat, live: Mask)
    requires ValidProgram(program) && Invariant(s) && NoneLost(s, live)
    ensures var r := After(program, ctx, s, m, k); r.Some? ==> Invariant(r.value.0) && NoneLost(r.value.0, live)
    decreases k
  {
    hide Step, Invariant, NoneLost;
    if k > 0 {
      StepKeepsInvariant(program, ctx, s, m);
      StepNoneLost(program, ctx, s, m, live);
      match Step(program, ctx, s, m)
      case Faulted(_, _, _) =>
      case Stepped(outcome, s1, m1) => if outcome != Finished { AfterKeeps(program, ctx, s1, m1, k - 1, live); }
    }
  }

  /** Whenever a warp is whole again after any number of issues, with every lane it started with active, each of
      its divergences has been followed by one or two arrivals. */
  lemma EventsWhenWhole(program: seq<Instruction>, ctx: LaunchContext, live: Mask, m: MemoryImage, k: nat)
    requires ValidProgram(program) && live != {}
    ensures var r := After(program, ctx, InitialWarp(live), m, k);
            r.Some? && r.value.0.active == live ==>
              r.value.0.divergent <= r.value.0.reconverged <= 2 * r.value.0.divergent
  {
    hide Step, After;
    InitialInvariant(live);
    AfterKeeps(program, ctx, InitialWarp(live), m, k, live);
    var r := After(program, ctx, InitialWarp(live), m, k);
    if r.Some? && r.value.0.active == live {
      SeparatedFrom(r.value.0.stack, r.value.0.active);
    }
  }
}
