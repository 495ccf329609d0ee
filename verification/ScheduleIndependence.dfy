/** What a warp does in a block does not depend on how the warps are scheduled, as long as no warp reads what
    another one stores. */
module ScheduleIndependence {
  import opened Isa
  import opened Alu
  import opened Memory
  import opened WarpSpec
  import opened Refinement
  import opened WarpRuns
  import opened Scheduling
  import opened Areas

  // ---- one instruction ----

  lemma {:induction false} SweepAgrees(i: Instruction, k: nat, exec: Mask, lanes: RegisterBank, a: Store, b: Store, area: Area)
    requires Valid(i) && k <= WARP_SIZE && Agree(a, b, area)
    requires forall l | l in exec && k <= l :: Within(i, lanes[l], area)
    ensures var sa, sb := SweepFrom(i, k, exec, lanes, a), SweepFrom(i, k, exec, lanes, b);
            && sa.lanes == sb.lanes && Agree(sa.store, sb.store, area)
            && (sa.Swept? <==> sb.Swept?)
            && (sa.SweepFault? ==> sa.lane == sb.lane && sa.error == sb.error && sa.address == sb.address)
    decreases WARP_SIZE - k
  {
    hide AccessLane, Agree, Within;
    if k < WARP_SIZE {
      if k in exec {
        AccessAgrees(i, lanes[k], a, b, area);
        match AccessLane(i, lanes[k], a)
        case Denied(_, _) =>
        case Accessed(r, a1) => SweepAgrees(i, k + 1, exec, lanes[k := r], a1, AccessLane(i, lanes[k], b).store, area);
      } else {
        SweepAgrees(i, k + 1, exec, lanes, a, b, area);
      }
    }
  }

  lemma {:induction false} SweepUnseen(i: Instruction, k: nat, exec: Mask, lanes: RegisterBank, b: Store, area: Area, other: Area, c: Store)
    requires Valid(i) && k <= WARP_SIZE && Unread(area, other) && Agree(c, b, other)
    requires forall l | l in exec && k <= l :: Within(i, lanes[l], area)
    ensures Agree(c, SweepFrom(i, k, exec, lanes, b).store, other)
    decreases WARP_SIZE - k
  {
    hide AccessLane, Agree, Within, Unread;
    if k < WARP_SIZE {
      if k in exec {
        AccessUnseen(i, lanes[k], b, area, other, c);
        match AccessLane(i, lanes[k], b)
        case Denied(_, _) =>
        case Accessed(r, b1) => SweepUnseen(i, k + 1, exec, lanes[k := r], b1, area, other, c);
      } else {
        SweepUnseen(i, k + 1, exec, lanes, b, area, other, c);
      }
    }
  }

  ghost predicate SameButParked(s: WarpState, t: WarpState) {
    s.(parked := false) == t.(parked := false)
  }

  /** The memory accesses of the instruction at the PC stay in the area. */
  ghost predicate IssueWithin(program: seq<Instruction>, s: WarpState, area: Area)
    requires ValidProgram(program) && s.pc < |program|
  {
    IsMemory(program[s.pc].op) ==> forall l | l in Exec(program[s.pc], s) :: Within(program[s.pc], s.lanes[l], area)
  }

  ghost predicate StepWithin(program: seq<Instruction>, s: WarpState, area: Area)
    requires ValidProgram(program)
  {
    var r := Settle(s, |program|);
    SettleReady(s, |program|);
    r.active != {} ==> IssueWithin(program, r, area)
  }

  /** Two results of the same step on memories that agree, the states equal up to the parked flag. */
  ghost predicate SameStep(x: StepResult, y: StepResult, area: Area) {
    && SameButParked(x.warp, y.warp) && Agree(x.memory.store, y.memory.store, area)
    && (x.Stepped? <==> y.Stepped?)
    && (x.Stepped? ==> x.outcome == y.outcome)
    && (x.Faulted? ==> x.fault == y.fault)
  }

  lemma {:induction false} ResolveParked(s: WarpState, p: bool)
    ensures Resolve(s.(parked := p)) == Resolve(s).(parked := p)
    decreases Weight(s.stack)
  {
    if MustPop(s) {
      PopIsLighter(s);
      assert PopTop(s.(parked := p)) == PopTop(s).(parked := p);
      ResolveParked(PopTop(s), p);
    }
  }

  lemma {:induction false} SettleParked(s: WarpState, n: nat, p: bool)
    ensures Settle(s.(parked := p), n) == Settle(s, n).(parked := p)
    decreases Weight(s.stack), if s.active == {} then 0 else 1
  {
    ResolveParked(s, p);
    ResolveIsLighter(s);
    var r := Resolve(s);
    if r.active != {} && r.pc >= n {
      RetireKeepsWeight(r.stack, r.active);
      assert Retire(r.(parked := p), r.active) == Retire(r, r.active).(parked := p);
      SettleParked(Retire(r, r.active), n, p);
    }
  }

  /** An issue does not look at the parked flag, nor at memory outside the area. */
  lemma IssueAgrees(program: seq<Instruction>, ctx: LaunchContext, s: WarpState, t: WarpState, m: MemoryImage, k: MemoryImage, area: Area)
    requires ValidProgram(program) && s.pc < |program| && SameButParked(s, t)
    requires Agree(m.store, k.store, area) && IssueWithin(program, s, area)
    ensures SameStep(Issue(program, ctx, s, m), Issue(program, ctx, t, k), area)
  {
    hide SweepFrom, Observe, AluBank, Branch, Agree, Within, Retire;
    var i := program[s.pc];
    var exec := Exec(i, s);
    assert Exec(i, t) == exec;
    if IsMemory(i.op) {
      SweepAgrees(i, 0, exec, s.lanes, m.store, k.store, area);
    } else if i.op == Bra {
      BranchParked(i, exec, s.(lastExec := exec, lastOp := i.op), t.(lastExec := exec, lastOp := i.op));
    } else if i.op == Exit {
      RetireParked(exec, s.(lastExec := exec, lastOp := i.op), t.(lastExec := exec, lastOp := i.op));
    }
  }

  lemma BranchParked(i: Instruction, exec: Mask, s: WarpState, t: WarpState)
    requires SameButParked(s, t) && exec <= s.active
    ensures SameButParked(Branch(i, exec, s), Branch(i, exec, t))
  {
  }

  lemma RetireParked(exec: Mask, s: WarpState, t: WarpState)
    requires SameButParked(s, t)
    ensures SameButParked(Retire(s, exec), Retire(t, exec))
  {
  }

  /** A step whose accesses stay in the area does the same on memories that agree. */
  lemma StepAgrees(program: seq<Instruction>, ctx: LaunchContext, s: WarpState, t: WarpState, m: MemoryImage, k: MemoryImage, area: Area)
    requires ValidProgram(program) && SameButParked(s, t) && Agree(m.store, k.store, area) && StepWithin(program, s, area)
    ensures SameStep(Step(program, ctx, s, m), Step(program, ctx, t, k), area)
  {
    hide Settle, Issue, Agree, IssueWithin;
    SettleParked(s, |program|, false);
    SettleParked(t, |program|, false);
    SettleReady(s, |program|);
    SettleReady(t, |program|);
    var r := Settle(s, |program|);
    if r.active != {} {
      IssueAgrees(program, ctx, r, Settle(t, |program|), m, k, area);
    }
  }

  /** A step whose accesses stay in the area is not seen by a warp that reads nothing the area writes. */
  lemma StepUnseen(program: seq<Instruction>, ctx: LaunchContext, s: WarpState, m: MemoryImage, area: Area, other: Area, c: Store)
    requires ValidProgram(program) && StepWithin(program, s, area) && Unread(area, other) && Agree(c, m.store, other)
    ensures Agree(c, Step(program, ctx, s, m).memory.store, other)
  {
    hide Settle, SweepFrom, Observe, AluBank, Branch, Agree, Within, Retire, Exec, Unread;
    SettleReady(s, |program|);
    var r := Settle(s, |program|);
    if r.active != {} {
      var i := program[r.pc];
      if IsMemory(i.op) {
        SweepUnseen(i, 0, Exec(i, r), r.lanes, m.store, area, other, c);
        SameExecution(i, r);
      }
    }
  }

  lemma SameExecution(i: Instruction, s: WarpState)
    requires Valid(i)
    ensures forall e: Mask, op: Opcode :: Exec(i, s.(lastExec := e, lastOp := op)) == Exec(i, s)
  {
  }

  /** Stepping within the area does not depend on the parked flag. */
  lemma WithinParked(program: seq<Instruction>, s: WarpState, t: WarpState, area: Area)
    requires ValidProgram(program) && SameButParked(s, t) && StepWithin(program, s, area)
    ensures StepWithin(program, t, area)
  {
    hide Settle, Within;
    SettleParked(s, |program|, false);
    SettleParked(t, |program|, false);
    SettleReady(s, |program|);
    var r := Settle(s, |program|);
    if r.active != {} { assert Exec(program[r.pc], r) == Exec(program[r.pc], Settle(t, |program|)); }
  }

  // ---- a warp alone ----

  /** The whole run of a warp on its own, with barriers as no-ops, stays in its area. */
  ghost predicate RunsWithin(program: seq<Instruction>, ctx: LaunchContext, s: WarpState, m: MemoryImage, area: Area)
    requires ValidProgram(program)
  {
    forall k: nat | After(program, ctx, s, m, k).Some? :: StepWithin(program, After(program, ctx, s, m, k).value.0, area)
  }

  lemma {:induction false} AfterStep(program: seq<Instruction>, ctx: LaunchContext, s: WarpState, m: MemoryImage, k: nat)
    requires ValidProgram(program) && After(program, ctx, s, m, k).Some?
    ensures After(program, ctx, s, m, k + 1) ==
            var (t, h) := After(program, ctx, s, m, k).value;
            match Step(program, ctx, t, h)
            case Faulted(_, _, _) => None
            case Stepped(outcome, t1, h1) => if outcome == Finished then None else Some((t1, h1))
    decreases k
  {
    hide Step;
    if k > 0 {
      var step := Step(program, ctx, s, m);
      AfterStep(program, ctx, step.warp, step.memory, k - 1);
    }
  }

  /** The warp, on its own, is finished after `k` issues. */
  ghost predicate FinishesAlone(program: seq<Instruction>, ctx: LaunchContext, s: WarpState, m: MemoryImage, k: nat)
    requires ValidProgram(program)
  {
    match After(program, ctx, s, m, k)
    case None => false
    case Some((t, h)) => Step(program, ctx, t, h).Stepped? && Step(program, ctx, t, h).outcome == Finished
  }

  // ---- a warp in its block ----

  /** Warp `s` is where it is alone after `steps` issues, and sees the memory it sees alone. */
  ghost predicate WarpFollows(program: seq<Instruction>, ctx: LaunchContext, s0: WarpState, m0: MemoryImage, steps: nat,
                              s: WarpState, m: MemoryImage, area: Area)
    requires ValidProgram(program)
  {
    match After(program, ctx, s0, m0, steps)
    case None => false
    case Some((t, h)) =>
      if s.live == {} then FinishesAlone(program, ctx, s0, m0, steps) && s.lanes == t.lanes
      else SameButParked(t, s) && Agree(h.store, m.store, area)
  }

  datatype Kernel = Kernel(program: seq<Instruction>, base: LaunchContext, warps: seq<WarpState>, memory: MemoryImage, areas: seq<Area>)

  /** No warp, run alone, reads what another warp, run alone, writes. */
  ghost predicate Independent(q: Kernel) {
    && ValidProgram(q.program) && |q.areas| == |q.warps|
    && (forall w | 0 <= w < |q.warps| :: Invariant(q.warps[w]))
    && (forall w | 0 <= w < |q.warps| ::
          RunsWithin(q.program, ContextOf(q.base, w), q.warps[w], q.memory, q.areas[w]))
    && (forall v, w | 0 <= v < |q.warps| && 0 <= w < |q.warps| && v != w :: Unread(q.areas[v], q.areas[w]))
  }

  ghost predicate FollowsAt(q: Kernel, b: Block, steps: nat, w: nat)
    requires Independent(q) && w < |q.warps| == |b.warps|
  {
    WarpFollows(q.program, ContextOf(q.base, w), q.warps[w], q.memory, steps, b.warps[w], b.memory, q.areas[w])
  }

  /** Every warp of the block is where it is alone after its number of steps. */
  ghost predicate Follows(q: Kernel, b: Block, steps: seq<nat>)
    requires Independent(q)
  {
    && |b.warps| == |steps| == |q.warps| && Phased(b)
    && forall w | 0 <= w < |q.warps| :: FollowsAt(q, b, steps[w], w)
  }

  /** A warp without live lanes has nothing left to do, alone. */
  lemma DeadFinishes(program: seq<Instruction>, ctx: LaunchContext, s: WarpState, m: MemoryImage)
    requires ValidProgram(program) && Invariant(s) && s.live == {}
    ensures Step(program, ctx, s, m).Stepped? && Step(program, ctx, s, m).outcome == Finished
  {
    hide Issue;
    StepOutcome(program, ctx, s, m);
  }

  lemma {:induction false} AfterInvariant(program: seq<Instruction>, ctx: LaunchContext, s: WarpState, m: MemoryImage, k: nat)
    requires ValidProgram(program) && Invariant(s)
    ensures After(program, ctx, s, m, k).Some? ==> Invariant(After(program, ctx, s, m, k).value.0)
    decreases k
  {
    hide Step, Invariant;
    if k > 0 && After(program, ctx, s, m, k).Some? {
      StepKeepsInvariant(program, ctx, s, m);
      var step := Step(program, ctx, s, m);
      AfterInvariant(program, ctx, step.warp, step.memory, k - 1);
    }
  }

  /** Finding the warp finished changes no register and no memory. */
  lemma FinishedKeeps(program: seq<Instruction>, ctx: LaunchContext, s: WarpState, m: MemoryImage)
    requires ValidProgram(program) && Invariant(s)
    requires Step(program, ctx, s, m).Stepped? && Step(program, ctx, s, m).outcome == Finished
    ensures Step(program, ctx, s, m).warp.lanes == s.lanes && Step(program, ctx, s, m).memory == m
  {
    hide Issue, View, IssueRefines;
    StepOutcome(program, ctx, s, m);
    SettleKeepsView(s, |program|);
  }

  // ---- one turn ----

  /** What the turn of a runnable warp does: it issues, or finds that it has finished. */
  ghost predicate TurnMoves(q: Kernel, b: Block, b1: Block, steps: nat, next: nat, w: nat)
    requires Independent(q) && w < |b.warps| == |b1.warps| == |q.warps|
  {
    && FollowsAt(q, b1, next, w)
    && (next == steps + 1 || (next == steps && b1.warps[w].live == {}))
  }

  /** Warp `w` of the block steps as it does alone. */
  lemma StepsAlike(q: Kernel, b: Block, steps: nat, w: nat)
    requires Independent(q) && w < |q.warps| == |b.warps| && FollowsAt(q, b, steps, w) && Runnable(b.warps[w])
    ensures var ctx := ContextOf(q.base, w);
            var (t, h) := After(q.program, ctx, q.warps[w], q.memory, steps).value;
            && SameStep(Step(q.program, ctx, t, h), Step(q.program, ctx, b.warps[w], b.memory), q.areas[w])
            && StepWithin(q.program, b.warps[w], q.areas[w]) && Invariant(t)
  {
    hide Step, StepWithin, Agree, Invariant, Unread;
    var ctx := ContextOf(q.base, w);
    var (t, h) := After(q.program, ctx, q.warps[w], q.memory, steps).value;
    AfterInvariant(q.program, ctx, q.warps[w], q.memory, steps);
    assert RunsWithin(q.program, ctx, q.warps[w], q.memory, q.areas[w]);
    StepAgrees(q.program, ctx, t, b.warps[w], h, b.memory, q.areas[w]);
    WithinParked(q.program, t, b.warps[w], q.areas[w]);
  }

  /** The warp that takes its turn still follows its run alone. */
  lemma OwnTurn(q: Kernel, b: Block, steps: nat, w: nat) returns (next: nat)
    requires Independent(q) && w < |q.warps| == |b.warps| && Phased(b) && FollowsAt(q, b, steps, w) && Runnable(b.warps[w])
    requires Turn(q.program, q.base, b, w).Going?
    ensures TurnMoves(q, b, Turn(q.program, q.base, b, w).block, steps, next, w)
  {
    hide Step, StepWithin, Agree, Invariant, Unread, Independent, Record;
    IndependentProgram(q);
    StepsAlike(q, b, steps, w);
    var ctx := ContextOf(q.base, w);
    var (t, h) := After(q.program, ctx, q.warps[w], q.memory, steps).value;
    var alone := Step(q.program, ctx, t, h);
    var here := Step(q.program, ctx, b.warps[w], b.memory);
    WarpInvariant(b, w);
    StepStatus(q.program, ctx, b.warps[w], b.memory);
    if here.outcome == Finished {
      FinishedKeeps(q.program, ctx, t, h);
      next := steps;
    } else {
      AfterStep(q.program, ctx, q.warps[w], q.memory, steps);
      next := steps + 1;
      RecordParts(b, w, here.outcome, here.warp, here.memory);
      if here.warp.live == {} {
        StepKeepsInvariant(q.program, ctx, t, h);
        DeadFinishes(q.program, ctx, alone.warp, alone.memory);
      }
    }
  }

  lemma IndependentProgram(q: Kernel)
    requires Independent(q)
    ensures ValidProgram(q.program) && |q.areas| == |q.warps|
  {
  }

  lemma WarpInvariant(b: Block, w: nat)
    requires Phased(b) && w < |b.warps|
    ensures Invariant(b.warps[w])
  {
  }

  /** The turn of another warp is not noticed. */
  lemma OtherTurn(q: Kernel, b: Block, steps: seq<nat>, w: nat, v: nat)
    requires Independent(q) && Follows(q, b, steps) && w < |q.warps| && v < |q.warps| && v != w
    requires Turn(q.program, q.base, b, w).Going?
    ensures FollowsAt(q, Turn(q.program, q.base, b, w).block, steps[v], v)
  {
    hide Step, StepWithin, Agree, Invariant, Record;
    assert FollowsAt(q, b, steps[v], v) && FollowsAt(q, b, steps[w], w);
    if Runnable(b.warps[w]) {
      hide Independent;
      IndependentProgram(q);
      AreasApart(q, w, v);
      StepsAlike(q, b, steps[w], w);
      var ctx := ContextOf(q.base, w);
      var here := Step(q.program, ctx, b.warps[w], b.memory);
      if here.outcome != Finished { RecordParts(b, w, here.outcome, here.warp, here.memory); }
      if b.warps[v].live != {} {
        var (t, h) := After(q.program, ContextOf(q.base, v), q.warps[v], q.memory, steps[v]).value;
        StepUnseen(q.program, ctx, b.warps[w], b.memory, q.areas[w], q.areas[v], h.store);
      }
    }
  }

  lemma AreasApart(q: Kernel, v: nat, w: nat)
    requires Independent(q) && v < |q.warps| && w < |q.warps| && v != w
    ensures Unread(q.areas[v], q.areas[w])
  {
  }

  /** A turn moves its warp along its run alone and no other warp. */
  lemma TurnFollows(q: Kernel, b: Block, steps: seq<nat>, w: nat) returns (next: seq<nat>)
    requires Independent(q) && Follows(q, b, steps) && w < |q.warps| && Turn(q.program, q.base, b, w).Going?
    ensures var b1 := Turn(q.program, q.base, b, w).block;
            && Follows(q, b1, next)
            && (forall v | 0 <= v < |q.warps| && v != w :: next[v] == steps[v] && b1.warps[v] == b.warps[v])
            && (if Runnable(b.warps[w]) then next[w] == steps[w] + 1 || (next[w] == steps[w] && b1.warps[w].live == {})
                else next[w] == steps[w] && b1.warps[w] == b.warps[w])
  {
    hide Step, Invariant, FollowsAt, Independent, Record;
    IndependentProgram(q);
    TurnPhased(q.program, q.base, b, w);
    TurnElsewhere(q.program, q.base, b, w);
    var b1 := Turn(q.program, q.base, b, w).block;
    next := steps;
    if Runnable(b.warps[w]) {
      var n := OwnTurn(q, b, steps[w], w);
      next := steps[w := n];
    }
    forall v | 0 <= v < |q.warps| ensures FollowsAt(q, b1, next[v], v) {
      if v != w { OtherTurn(q, b, steps, w, v); }
    }
  }

  // ---- passes and whole blocks ----

  lemma {:induction false} PassFollows(q: Kernel, b: Block, steps: seq<nat>, w: nat) returns (next: seq<nat>)
    requires Independent(q) && Follows(q, b, steps) && w <= |q.warps| && Pass(q.program, q.base, b, w).Going?
    ensures Follows(q, Pass(q.program, q.base, b, w).block, next)
    decreases |q.warps| - w
  {
    hide Turn, FollowsAt, Phased, Independent;
    IndependentProgram(q);
    PhasedHasLog(b);
    next := steps;
    if w < |q.warps| {
      next := TurnFollows(q, b, steps, w);
      next := PassFollows(q, Turn(q.program, q.base, b, w).block, next, w + 1);
    }
  }

  lemma ReleaseFollows(q: Kernel, b: Block, steps: seq<nat>)
    requires Independent(q) && Follows(q, b, steps) && AllParked(b) && !AllFinished(b)
    ensures Follows(q, Release(b), steps)
  {
    hide Agree, Invariant, Independent, After, FinishesAlone;
    IndependentProgram(q);
    ReleasePhased(b);
    forall w | 0 <= w < |q.warps| ensures FollowsAt(q, Release(b), steps[w], w) {
      assert FollowsAt(q, b, steps[w], w);
    }
  }

  /** Whatever the scheduler has done so far, every warp is where it is alone. */
  lemma {:induction false} RunFollows(q: Kernel, b: Block, steps: seq<nat>, fuel: nat) returns (next: seq<nat>)
    requires Independent(q) && Follows(q, b, steps)
    ensures var r := RunBlock(q.program, q.base, b, fuel);
            r.Completed? || r.OutOfFuel? ==> Follows(q, r.block, next)
    decreases fuel
  {
    hide Pass, Follows, Release, Phased, Independent, AllParked, AllFinished, AnyRunnable;
    IndependentProgram(q);
    FollowsShaped(q, b, steps);
    next := steps;
    if fuel > 0 {
      match Pass(q.program, q.base, b, 0)
      case Failed(_, _) =>
      case Going(b1) =>
        next := PassFollows(q, b, steps, 0);
        if !AllFinished(b1) {
          if AllParked(b1) {
            ReleaseFollows(q, b1, next);
            next := RunFollows(q, Release(b1), next, fuel - 1);
          } else {
            next := RunFollows(q, b1, next, fuel - 1);
          }
        }
    }
  }

  lemma FollowsShaped(q: Kernel, b: Block, steps: seq<nat>)
    requires Independent(q) && Follows(q, b, steps)
    ensures Scheduling.Shaped(b) && |b.warps| == |q.warps| == |steps|
  {
    hide Independent, FollowsAt;
  }

  // ---- a block finishes when its warps do ----

  lemma {:induction false} AfterStops(program: seq<Instruction>, ctx: LaunchContext, s: WarpState, m: MemoryImage, k: nat, j: nat)
    requires ValidProgram(program) && FinishesAlone(program, ctx, s, m, k) && After(program, ctx, s, m, j).Some?
    ensures j <= k
    ensures var (t, h) := After(program, ctx, s, m, j).value;
            Step(program, ctx, t, h).Stepped? && (Step(program, ctx, t, h).outcome == Finished <==> j == k)
    decreases k
  {
    hide Step;
    if k == 0 {
      if j > 0 { assert false; }
    } else if j > 0 {
      var step := Step(program, ctx, s, m);
      AfterStops(program, ctx, step.warp, step.memory, k - 1, j - 1);
    }
  }

  /** Alone, warp `w` finishes after `k[w]` issues, without a fault. */
  ghost predicate AllFinishAlone(q: Kernel, k: seq<nat>)
    requires Independent(q)
  {
    |k| == |q.warps|
    && forall w | 0 <= w < |q.warps| :: FinishesAlone(q.program, ContextOf(q.base, w), q.warps[w], q.memory, k[w])
  }

  /** The issues the unfinished warps among the first `n` have left, each counted once more. */
  ghost function Left(b: Block, steps: seq<nat>, k: seq<nat>, n: nat): int
    requires n <= |b.warps| == |steps| == |k|
  {
    if n == 0 then 0
    else if b.warps[n - 1].live == {} then Left(b, steps, k, n - 1)
    else Left(b, steps, k, n - 1) + k[n - 1] - steps[n - 1] + 1
  }

  lemma StepsBounded(q: Kernel, b: Block, steps: seq<nat>, k: seq<nat>, w: nat)
    requires Independent(q) && Follows(q, b, steps) && AllFinishAlone(q, k) && w < |q.warps|
    ensures steps[w] <= k[w]
  {
    hide Independent, Phased, Agree, StepWithin, Step;
    IndependentProgram(q);
    assert FollowsAt(q, b, steps[w], w);
    assert FinishesAlone(q.program, ContextOf(q.base, w), q.warps[w], q.memory, k[w]);
    AfterStops(q.program, ContextOf(q.base, w), q.warps[w], q.memory, k[w], steps[w]);
  }

  lemma {:induction false} LeftPositive(q: Kernel, b: Block, steps: seq<nat>, k: seq<nat>, n: nat)
    requires Independent(q) && Follows(q, b, steps) && AllFinishAlone(q, k) && n <= |q.warps|
    ensures Left(b, steps, k, n) >= 0
    decreases n
  {
    hide Independent, FollowsAt, Phased, FinishesAlone;
    IndependentProgram(q);
    if n > 0 {
      StepsBounded(q, b, steps, k, n - 1);
      LeftPositive(q, b, steps, k, n - 1);
    }
  }

  /** Moving one warp on leaves less to do. */
  lemma {:induction false} LeftDrops(b: Block, steps: seq<nat>, b1: Block, next: seq<nat>, k: seq<nat>, w: nat, n: nat)
    requires n <= |b.warps| == |steps| == |k| == |b1.warps| == |next| && w < |b.warps|
    requires forall v | 0 <= v < |b.warps| && v != w :: next[v] == steps[v] && b1.warps[v] == b.warps[v]
    requires b.warps[w].live != {} && steps[w] <= k[w] && (next[w] == steps[w] + 1 || b1.warps[w].live == {})
    ensures Left(b1, next, k, n) <= Left(b, steps, k, n) - (if w < n then 1 else 0)
    decreases n
  {
    if n > 0 { LeftDrops(b, steps, b1, next, k, w, n - 1); }
  }

  lemma LeftSame(b: Block, steps: seq<nat>, b1: Block, next: seq<nat>, k: seq<nat>, n: nat)
    requires n <= |b.warps| == |steps| == |k| == |b1.warps| == |next| && next == steps
    requires forall v | 0 <= v < |b.warps| :: b1.warps[v].live == b.warps[v].live
    ensures Left(b1, next, k, n) == Left(b, steps, k, n)
    decreases n
  {
    if n > 0 { LeftSame(b, steps, b1, next, k, n - 1); }
  }

  /** No turn faults when the warps alone do not. */
  lemma TurnSafe(q: Kernel, b: Block, steps: seq<nat>, k: seq<nat>, w: nat)
    requires Independent(q) && Follows(q, b, steps) && AllFinishAlone(q, k) && w < |q.warps|
    ensures Turn(q.program, q.base, b, w).Going?
  {
    hide Independent, Phased, Agree, StepWithin, Step, Record;
    IndependentProgram(q);
    if Runnable(b.warps[w]) {
      assert FollowsAt(q, b, steps[w], w);
      assert FinishesAlone(q.program, ContextOf(q.base, w), q.warps[w], q.memory, k[w]);
      AfterStops(q.program, ContextOf(q.base, w), q.warps[w], q.memory, k[w], steps[w]);
      StepsAlike(q, b, steps[w], w);
    }
  }

  /** A pass does not fault, and leaves less to do if some warp can run. */
  lemma {:induction false} PassSafe(q: Kernel, b: Block, steps: seq<nat>, k: seq<nat>, w: nat) returns (next: seq<nat>)
    requires Independent(q) && Follows(q, b, steps) && AllFinishAlone(q, k) && w <= |q.warps|
    ensures Pass(q.program, q.base, b, w).Going? && Follows(q, Pass(q.program, q.base, b, w).block, next)
    ensures Left(Pass(q.program, q.base, b, w).block, next, k, |k|)
            <= Left(b, steps, k, |k|) - (if exists v :: w <= v < |q.warps| && Runnable(b.warps[v]) then 1 else 0)
    decreases |q.warps| - w
  {
    hide Turn, FollowsAt, Phased, Independent, FinishesAlone, Left, Runnable;
    IndependentProgram(q);
    FollowsShaped(q, b, steps);
    next := steps;
    if w < |q.warps| {
      TurnSafe(q, b, steps, k, w);
      var b1 := Turn(q.program, q.base, b, w).block;
      var mid := TurnFollows(q, b, steps, w);
      StepsBounded(q, b, steps, k, w);
      if Runnable(b.warps[w]) {
        RunnableLives(b.warps[w]);
        LeftDrops(b, steps, b1, mid, k, w, |k|);
      } else {
        assert mid == steps;
        LeftSame(b, steps, b1, mid, k, |k|);
      }
      next := PassSafe(q, b1, mid, k, w + 1);
    }
  }

  lemma RunnableLives(s: WarpState)
    requires Runnable(s)
    ensures s.live != {}
  {
  }

  /** A pass over warps that cannot run changes nothing. */
  lemma {:induction false} IdlePass(program: seq<Instruction>, base: LaunchContext, b: Block, w: nat)
    requires ValidProgram(program) && Scheduling.Shaped(b) && w <= |b.warps| && !AnyRunnable(b)
    ensures Pass(program, base, b, w) == Going(b)
    decreases |b.warps| - w
  {
    hide Step;
    if w < |b.warps| {
      assert !Runnable(b.warps[w]);
      IdlePass(program, base, b, w + 1);
    }
  }

  lemma ReleaseRuns(b: Block)
    requires Scheduling.Shaped(b) && !AllFinished(b)
    ensures AnyRunnable(Release(b)) && forall v | 0 <= v < |b.warps| :: Release(b).warps[v].live == b.warps[v].live
  {
    var w :| 0 <= w < |b.warps| && b.warps[w].live != {};
    assert Runnable(Release(b).warps[w]);
  }

  lemma IdleIsParked(b: Block)
    requires !AnyRunnable(b)
    ensures AllParked(b)
  {
    forall w | 0 <= w < |b.warps| && b.warps[w].live != {} ensures b.warps[w].parked {
      assert !Runnable(b.warps[w]);
    }
  }

  /** If every warp finishes alone, the block finishes. */
  lemma {:induction false} BlockFinishes(q: Kernel, b: Block, steps: seq<nat>, k: seq<nat>) returns (fuel: nat)
    requires Independent(q) && Follows(q, b, steps) && AllFinishAlone(q, k)
    ensures RunBlock(q.program, q.base, b, fuel).Completed?
    decreases FollowsLeft(q, b, steps, k), if AnyRunnable(b) then 0 else 1
  {
    hide Pass, Release, Phased, Independent, FollowsAt, FinishesAlone, AllParked, AllFinished, AnyRunnable, Left, Runnable;
    IndependentProgram(q);
    FollowsShaped(q, b, steps);
    var next := PassSafe(q, b, steps, k, 0);
    var b1 := Pass(q.program, q.base, b, 0).block;
    if !AnyRunnable(b) {
      IdlePass(q.program, q.base, b, 0);
      IdleIsParked(b);
    } else {
      SomeRunnable(b);
    }
    FollowsShaped(q, b1, next);
    LeftPositive(q, b1, next, k, |k|);
    LeftPositive(q, b, steps, k, |k|);
    if AllFinished(b1) {
      fuel := 1;
    } else if AllParked(b1) {
      ReleaseRuns(b1);
      if !AnyRunnable(b) {
        ReleaseFollows(q, b, steps);
        LeftSame(b, steps, Release(b), steps, k, |k|);
        fuel := BlockFinishes(q, Release(b), steps, k);
      } else {
        ReleaseFollows(q, b1, next);
        LeftSame(b1, next, Release(b1), next, k, |k|);
        fuel := BlockFinishes(q, Release(b1), next, k);
      }
      fuel := fuel + 1;
    } else {
      fuel := BlockFinishes(q, b1, next, k);
      fuel := fuel + 1;
    }
  }

  ghost function FollowsLeft(q: Kernel, b: Block, steps: seq<nat>, k: seq<nat>): nat
    requires Independent(q) && Follows(q, b, steps) && AllFinishAlone(q, k)
  {
    LeftPositive(q, b, steps, k, |k|);
    Left(b, steps, k, |k|)
  }

  lemma SomeRunnable(b: Block)
    requires AnyRunnable(b)
    ensures exists v :: 0 <= v < |b.warps| && Runnable(b.warps[v])
  {
  }

  // ---- from the start of a block ----

  ghost function KernelOf(program: seq<Instruction>, base: LaunchContext, lanes: u32, m: MemoryImage, areas: seq<Area>): Kernel {
    Kernel(program, base, InitialWarps(lanes), m, areas)
  }

  lemma StartFollows(q: Kernel, lanes: u32, c: Counters)
    requires q.warps == InitialWarps(lanes) && Independent(q) && |c.histogram| == WARP_SIZE + 1
    ensures Follows(q, InitialBlock(lanes, q.memory, c), seq(|q.warps|, _ => 0))
  {
    hide Independent, Agree, Phased;
    IndependentProgram(q);
    InitialBlockPhased(lanes, q.memory, c);
    var b := InitialBlock(lanes, q.memory, c);
    forall w | 0 <= w < |q.warps| ensures FollowsAt(q, b, 0, w) {
      InitialInvariant(LiveLanes(lanes, w));
      AgreeSelf(q.memory.store, q.areas[w]);
      if q.warps[w].live == {} {
        DeadFinishes(q.program, ContextOf(q.base, w), q.warps[w], q.memory);
      }
    }
  }

  /** For warps that read nothing another warp writes: a block that completes leaves every warp with the
      registers that its run alone, with barriers as no-ops, ends with. */
  lemma BlockLikeAlone(program: seq<Instruction>, base: LaunchContext, lanes: u32, m: MemoryImage, c: Counters,
                       areas: seq<Area>, fuel: nat) returns (k: seq<nat>)
    requires Independent(KernelOf(program, base, lanes, m, areas)) && |c.histogram| == WARP_SIZE + 1
    requires ValidProgram(program) && RunBlock(program, base, InitialBlock(lanes, m, c), fuel).Completed?
    ensures var q := KernelOf(program, base, lanes, m, areas);
            var b := RunBlock(program, base, InitialBlock(lanes, m, c), fuel).block;
            && AllFinishAlone(q, k) && |b.warps| == |q.warps|
            && forall w | 0 <= w < |q.warps| ::
                 b.warps[w].lanes == After(program, ContextOf(base, w), q.warps[w], m, k[w]).value.0.lanes
  {
    var q := KernelOf(program, base, lanes, m, areas);
    hide RunBlock, Independent, Phased, Agree, After, FinishesAlone, InitialBlock, InitialWarps;
    StartFollows(q, lanes, c);
    var b := RunBlock(program, base, InitialBlock(lanes, m, c), fuel).block;
    k := RunFollows(q, InitialBlock(lanes, m, c), seq(|q.warps|, _ => 0), fuel);
    CompletedIsFinished(program, base, InitialBlock(lanes, m, c), fuel);
    FollowsShaped(q, b, k);
    forall w | 0 <= w < |q.warps|
      ensures FinishesAlone(program, ContextOf(base, w), q.warps[w], m, k[w])
      ensures b.warps[w].lanes == After(program, ContextOf(base, w), q.warps[w], m, k[w]).value.0.lanes
    {
      assert FollowsAt(q, b, k[w], w);
    }
  }

  lemma {:induction false} CompletedIsFinished(program: seq<Instruction>, base: LaunchContext, b: Block, fuel: nat)
    requires ValidProgram(program) && Scheduling.Shaped(b) && RunBlock(program, base, b, fuel).Completed?
    ensures AllFinished(RunBlock(program, base, b, fuel).block)
    decreases fuel
  {
    hide Pass, Release, AllFinished, AllParked, AnyRunnable;
    if fuel > 0 {
      var b1 := Pass(program, base, b, 0).block;
      if !AllFinished(b1) {
        CompletedIsFinished(program, base, if AllParked(b1) then Release(b1) else b1, fuel - 1);
      }
    }
  }

  /** For such warps, the block completes if, and only if, every warp finishes alone. */
  lemma BlockFinishesIffAlone(program: seq<Instruction>, base: LaunchContext, lanes: u32, m: MemoryImage, c: Counters, areas: seq<Area>)
    requires Independent(KernelOf(program, base, lanes, m, areas)) && |c.histogram| == WARP_SIZE + 1
    requires ValidProgram(program)
    ensures (exists fuel: nat :: RunBlock(program, base, InitialBlock(lanes, m, c), fuel).Completed?)
            <==> (exists k: seq<nat> :: AllFinishAlone(KernelOf(program, base, lanes, m, areas), k))
  {
    hide RunBlock, Independent, AllFinishAlone, InitialBlock, InitialWarps, Follows;
    var q := KernelOf(program, base, lanes, m, areas);
    if fuel: nat :| RunBlock(program, base, InitialBlock(lanes, m, c), fuel).Completed? {
      var k := BlockLikeAlone(program, base, lanes, m, c, areas, fuel);
    }
    if k: seq<nat> :| AllFinishAlone(q, k) {
      StartFollows(q, lanes, c);
      var fuel := BlockFinishes(q, InitialBlock(lanes, m, c), seq(|q.warps|, _ => 0), k);
    }
  }
}
