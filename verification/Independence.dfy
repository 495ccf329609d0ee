/** When results depend on the recorded reconvergence PCs. For kernels in which no lane accesses a word that
    another lane stores to, any two annotations of one program finish together with the same registers and
    memory, unless one of them reaches a barrier with a part of the warp waiting on the stack. */
module Independence {
  import opened Isa
  import opened Alu
  import opened Memory
  import opened WarpSpec
  import opened Threads
  import opened Refinement
  import opened WarpRuns
  import opened Areas
  import Scheduling

  /** The programs differ at most in the reconvergence halves of their branches. */
  ghost predicate SameKernel(p: seq<Instruction>, q: seq<Instruction>) {
    && |p| == |q|
    && forall pc | 0 <= pc < |p| ::
         p[pc] == q[pc]
         || (p[pc].op == Bra && q[pc] == p[pc].(imm := q[pc].imm) && p[pc].Target() == q[pc].Target())
  }

  // ---- one thread on its own ----

  /** A thread together with the memory only it changes. */
  datatype Alone = Alone(thread: Thread, store: Store)

  /** A thread after `j` steps on its own, barriers counting as no-ops; none if it faults or retires earlier. */
  ghost function Solo(p: seq<Instruction>, ctx: LaunchContext, lane: nat, a: Alone, j: nat): Option<Alone>
    requires ValidProgram(p) && lane < WARP_SIZE
    decreases j
  {
    if j == 0 then Some(a)
    else if !a.thread.Running? || a.thread.pc >= |p| then None
    else match ThreadStep(p, ctx, lane, a.thread, a.store)
      case ThreadFault(_, _) => None
      case Advanced(t, m) => Solo(p, ctx, lane, Alone(t, m), j - 1)
  }

  ghost predicate RetiresAfter(p: seq<Instruction>, ctx: LaunchContext, lane: nat, a: Alone, j: nat)
    requires ValidProgram(p) && lane < WARP_SIZE
  {
    Solo(p, ctx, lane, a, j).Some? && Solo(p, ctx, lane, a, j).value.thread.Retired?
  }

  lemma {:induction false} SoloSplit(p: seq<Instruction>, ctx: LaunchContext, lane: nat, a: Alone, i: nat, j: nat)
    requires ValidProgram(p) && lane < WARP_SIZE
    ensures Solo(p, ctx, lane, a, i + j) ==
            match Solo(p, ctx, lane, a, i)
            case None => None
            case Some(b) => Solo(p, ctx, lane, b, j)
    decreases i
  {
    hide ThreadStep;
    if i > 0 && a.thread.Running? && a.thread.pc < |p| {
      match ThreadStep(p, ctx, lane, a.thread, a.store)
      case ThreadFault(_, _) =>
      case Advanced(t, m) => SoloSplit(p, ctx, lane, Alone(t, m), i - 1, j);
    }
  }

  // ---- threads that do not disturb each other ----

  /** The access of the thread's next instruction, if it makes one, stays in the area. */
  ghost predicate ThreadWithin(p: seq<Instruction>, t: Thread, area: Area)
    requires ValidProgram(p)
  {
    t.Running? && t.pc < |p| && IsMemory(p[t.pc].op) && GuardHolds(p[t.pc], t.regs) ==> Within(p[t.pc], t.regs, area)
  }

  /** The whole run of the thread on its own stays in its area. */
  ghost predicate Confined(p: seq<Instruction>, ctx: LaunchContext, lane: nat, a: Alone, area: Area)
    requires ValidProgram(p) && lane < WARP_SIZE
  {
    forall j: nat | Solo(p, ctx, lane, a, j).Some? :: ThreadWithin(p, Solo(p, ctx, lane, a, j).value.thread, area)
  }

  /** No lane accesses a word another lane stores to; what a lane stores to counts as accessed. */
  ghost predicate Separate(areas: seq<Area>) {
    && |areas| == WARP_SIZE
    && (forall l, space: Space, address: u32 | 0 <= l < WARP_SIZE && areas[l].stores(space, address) ::
          areas[l].loads(space, address))
    && (forall k, l | 0 <= k < WARP_SIZE && 0 <= l < WARP_SIZE && k != l :: Unread(areas[k], areas[l]))
  }

  ghost predicate Stored(areas: seq<Area>, space: Space, address: u32) {
    exists l :: 0 <= l < |areas| && areas[l].stores(space, address)
  }

  /** The words no lane stores to. */
  ghost function Rest(areas: seq<Area>): Area {
    Area((space: Space, address: u32) => !Stored(areas, space, address), (space: Space, address: u32) => false)
  }

  /** Threads in shared memory beside the same threads each on its own: every thread sees the memory it sees
      alone, and words no lane stores to are as they were in `first`. */
  ghost predicate Beside(areas: seq<Area>, alone: seq<Alone>, threads: seq<Thread>, m: Store, first: Store) {
    && |areas| == |alone| == |threads| == WARP_SIZE
    && (forall l | 0 <= l < WARP_SIZE :: alone[l].thread == threads[l] && Agree(alone[l].store, m, areas[l]))
    && Agree(first, m, Rest(areas))
  }

  ghost predicate AllConfined(p: seq<Instruction>, ctx: LaunchContext, alone: seq<Alone>, areas: seq<Area>)
    requires ValidProgram(p) && |areas| == |alone| == WARP_SIZE
  {
    forall l: nat | l < WARP_SIZE :: Confined(p, ctx, l, alone[l], areas[l])
  }

  /** A confined step does the same on memories that agree. */
  lemma ThreadAgrees(p: seq<Instruction>, ctx: LaunchContext, lane: nat, t: Thread, a: Store, m: Store, area: Area)
    requires ValidProgram(p) && lane < WARP_SIZE && t.Running? && t.pc < |p|
    requires Agree(a, m, area) && ThreadWithin(p, t, area)
    ensures match ThreadStep(p, ctx, lane, t, a)
            case ThreadFault(e, address) => ThreadStep(p, ctx, lane, t, m) == ThreadFault(e, address)
            case Advanced(t1, a1) =>
              var s := ThreadStep(p, ctx, lane, t, m);
              s.Advanced? && s.thread == t1 && Agree(a1, s.store, area)
  {
    hide AluLane, AccessLane, Agree, Within;
    var i := p[t.pc];
    if IsMemory(i.op) && GuardHolds(i, t.regs) { AccessAgrees(i, t.regs, a, m, area); }
  }

  /** A confined step is not seen by an area that reads nothing its own area stores. */
  lemma ThreadUnseen(p: seq<Instruction>, ctx: LaunchContext, lane: nat, t: Thread, m: Store, area: Area, other: Area, c: Store)
    requires ValidProgram(p) && lane < WARP_SIZE && t.Running? && t.pc < |p|
    requires ThreadWithin(p, t, area) && Unread(area, other) && Agree(c, m, other)
    ensures ThreadStep(p, ctx, lane, t, m).Advanced? ==> Agree(c, ThreadStep(p, ctx, lane, t, m).store, other)
  {
    hide AluLane, AccessLane, Agree, Within, Unread;
    var i := p[t.pc];
    if IsMemory(i.op) && GuardHolds(i, t.regs) { AccessUnseen(i, t.regs, m, area, other, c); }
  }

  lemma RestUnread(areas: seq<Area>, k: nat)
    requires k < |areas|
    ensures Unread(areas[k], Rest(areas))
  {
  }

  lemma ConfinedNow(p: seq<Instruction>, ctx: LaunchContext, lane: nat, a: Alone, area: Area)
    requires ValidProgram(p) && lane < WARP_SIZE && Confined(p, ctx, lane, a, area)
    ensures ThreadWithin(p, a.thread, area)
  {
    assert Solo(p, ctx, lane, a, 0) == Some(a);
  }

  lemma ConfinedNext(p: seq<Instruction>, ctx: LaunchContext, lane: nat, a: Alone, area: Area)
    requires ValidProgram(p) && lane < WARP_SIZE && Confined(p, ctx, lane, a, area)
    ensures Solo(p, ctx, lane, a, 1).Some? ==> Confined(p, ctx, lane, Solo(p, ctx, lane, a, 1).value, area)
  {
    hide Solo, ThreadWithin;
    if Solo(p, ctx, lane, a, 1).Some? {
      var b := Solo(p, ctx, lane, a, 1).value;
      forall j: nat | Solo(p, ctx, lane, b, j).Some? ensures ThreadWithin(p, Solo(p, ctx, lane, b, j).value.thread, area) {
        SoloSplit(p, ctx, lane, a, 1, j);
      }
    }
  }

  lemma SoloOne(p: seq<Instruction>, ctx: LaunchContext, lane: nat, a: Alone)
    requires ValidProgram(p) && lane < WARP_SIZE
    ensures Solo(p, ctx, lane, a, 0) == Some(a)
    ensures Solo(p, ctx, lane, a, 1) ==
            if !a.thread.Running? || a.thread.pc >= |p| then None
            else match ThreadStep(p, ctx, lane, a.thread, a.store)
              case ThreadFault(_, _) => None
              case Advanced(t, m) => Some(Alone(t, m))
  {
    hide ThreadStep;
    if a.thread.Running? && a.thread.pc < |p| {
      match ThreadStep(p, ctx, lane, a.thread, a.store)
      case ThreadFault(_, _) =>
      case Advanced(t, m) => assert Solo(p, ctx, lane, Alone(t, m), 0) == Some(Alone(t, m));
    }
  }

  /** One step of one thread in shared memory is its step on its own, and no other thread notices. */
  lemma StepBeside(p: seq<Instruction>, ctx: LaunchContext, areas: seq<Area>, alone: seq<Alone>, threads: seq<Thread>,
                   m: Store, first: Store, k: nat)
    requires ValidProgram(p) && Separate(areas) && Beside(areas, alone, threads, m, first) && AllConfined(p, ctx, alone, areas)
    requires CanStep(p, threads, k)
    ensures match ThreadStep(p, ctx, k, threads[k], m)
            case ThreadFault(_, _) => Solo(p, ctx, k, alone[k], 1) == None
            case Advanced(t, m1) =>
              && Solo(p, ctx, k, alone[k], 1).Some?
              && var next := alone[k := Solo(p, ctx, k, alone[k], 1).value];
                 Beside(areas, next, threads[k := t], m1, first) && AllConfined(p, ctx, next, areas)
  {
    hide ThreadStep, Agree, ThreadWithin, Unread, Solo, Confined;
    ConfinedNow(p, ctx, k, alone[k], areas[k]);
    ConfinedNext(p, ctx, k, alone[k], areas[k]);
    SoloOne(p, ctx, k, alone[k]);
    ThreadAgrees(p, ctx, k, threads[k], alone[k].store, m, areas[k]);
    RestUnread(areas, k);
    ThreadUnseen(p, ctx, k, threads[k], m, areas[k], Rest(areas), first);
    forall l | 0 <= l < WARP_SIZE && l != k
      ensures ThreadStep(p, ctx, k, threads[k], m).Advanced? ==>
                Agree(alone[l].store, ThreadStep(p, ctx, k, threads[k], m).store, areas[l])
    {
      ThreadUnseen(p, ctx, k, threads[k], m, areas[k], areas[l], alone[l].store);
    }
  }

  ghost function Count(schedule: seq<nat>, l: nat): nat {
    if schedule == [] then 0 else (if schedule[0] == l then 1 else 0) + Count(schedule[1..], l)
  }

  /** Every thread of `next` is the one of `alone` some steps later, on its own. */
  ghost predicate Later(p: seq<Instruction>, ctx: LaunchContext, alone: seq<Alone>, next: seq<Alone>, steps: nat -> nat)
    requires ValidProgram(p) && |alone| == |next| == WARP_SIZE
  {
    forall l: nat | l < WARP_SIZE :: Solo(p, ctx, l, alone[l], steps(l)) == Some(next[l])
  }

  /** In an interleaving of threads that do not disturb each other every thread does exactly what it does on
      its own. */
  lemma {:induction false} Projection(p: seq<Instruction>, ctx: LaunchContext, schedule: seq<nat>, areas: seq<Area>,
                                      alone: seq<Alone>, m: Machine, first: Store) returns (next: seq<Alone>)
    requires ValidProgram(p) && Separate(areas) && Beside(areas, alone, m.threads, m.store, first) && AllConfined(p, ctx, alone, areas)
    ensures |next| == WARP_SIZE
    ensures match Run(p, ctx, schedule, m)
            case None => true
            case Some(after) =>
              && Beside(areas, next, after.threads, after.store, first) && AllConfined(p, ctx, next, areas)
              && Later(p, ctx, alone, next, l => Count(schedule, l))
  {
    hide ThreadStep, Beside, Separate, Solo, Confined;
    BesideShape(areas, alone, m.threads, m.store, first);
    next := alone;
    if schedule == [] {
      forall l: nat | l < WARP_SIZE ensures Solo(p, ctx, l, alone[l], 0) == Some(alone[l]) { SoloOne(p, ctx, l, alone[l]); }
    } else if CanStep(p, m.threads, schedule[0]) {
      var k := schedule[0];
      StepBeside(p, ctx, areas, alone, m.threads, m.store, first, k);
      match ThreadStep(p, ctx, k, m.threads[k], m.store)
      case ThreadFault(_, _) =>
      case Advanced(t, store) =>
        var mid := alone[k := Solo(p, ctx, k, alone[k], 1).value];
        next := Projection(p, ctx, schedule[1..], areas, mid, Machine(m.threads[k := t], store), first);
        if Run(p, ctx, schedule, m).Some? {
          forall l: nat | l < WARP_SIZE ensures Solo(p, ctx, l, alone[l], Count(schedule, l)) == Some(next[l]) {
            SoloSplit(p, ctx, l, alone[l], if l == k then 1 else 0, Count(schedule[1..], l));
            SoloOne(p, ctx, l, alone[l]);
          }
        }
    }
  }

  lemma BesideShape(areas: seq<Area>, alone: seq<Alone>, threads: seq<Thread>, m: Store, first: Store)
    requires Beside(areas, alone, threads, m, first)
    ensures |areas| == |alone| == |threads| == WARP_SIZE && forall l | 0 <= l < WARP_SIZE :: alone[l].thread == threads[l]
  {
  }

  lemma {:induction false} CountAscending(mask: Mask, k: nat, l: nat)
    requires k <= WARP_SIZE
    ensures Count(Ascending(mask, k), l) == if l in mask && l >= k then 1 else 0
    decreases WARP_SIZE - k
  {
    if k < WARP_SIZE {
      CountAscending(mask, k + 1, l);
      if k in mask {
        assert Ascending(mask, k)[1..] == Ascending(mask, k + 1);
      }
    }
  }

  // ---- the steps of a warp ----

  /** The warp beside its threads on their own. */
  ghost predicate WarpBeside(p: seq<Instruction>, ctx: LaunchContext, areas: seq<Area>, alone: seq<Alone>, s: WarpState,
                             m: Store, first: Store)
  {
    && ValidProgram(p) && Separate(areas) && Beside(areas, alone, View(s, |p|), m, first)
    && AllConfined(p, ctx, alone, areas) && Invariant(s)
  }

  lemma WarpShape(p: seq<Instruction>, ctx: LaunchContext, areas: seq<Area>, alone: seq<Alone>, s: WarpState, m: Store, first: Store)
    requires WarpBeside(p, ctx, areas, alone, s, m, first)
    ensures ValidProgram(p) && Invariant(s) && |alone| == WARP_SIZE
    ensures forall l | 0 <= l < WARP_SIZE :: alone[l].thread == View(s, |p|)[l]
  {
  }

  /** What one step does to each thread: active threads advance, the others stay. */
  lemma StepProjection(p: seq<Instruction>, ctx: LaunchContext, areas: seq<Area>, alone: seq<Alone>, s: WarpState,
                       m: MemoryImage, first: Store) returns (next: seq<Alone>)
    requires WarpBeside(p, ctx, areas, alone, s, m.store, first)
    requires !AllRetired(View(s, |p|)) && Step(p, ctx, s, m).Stepped?
    ensures var step := Step(p, ctx, s, m);
            && step.outcome != Finished && WarpBeside(p, ctx, areas, next, step.warp, step.memory.store, first)
            && |alone| == |next| == WARP_SIZE
            && Later(p, ctx, alone, next, l => if l in Settle(s, |p|).active then 1 else 0)
  {
    hide Step, View, Solo, AllRetired, Settle, Beside, AllConfined, Separate, Run;
    BesideShape(areas, alone, View(s, |p|), m.store, first);
    StepOutcome(p, ctx, s, m);
    RunOneStep(p, ctx, s, m);
    StepKeepsInvariant(p, ctx, s, m);
    var who := Settle(s, |p|).active;
    next := Projection(p, ctx, Ascending(who, 0), areas, alone, Machine(View(s, |p|), m.store), first);
    forall l: nat | l < WARP_SIZE ensures Count(Ascending(who, 0), l) == if l in who then 1 else 0 {
      CountAscending(who, 0, l);
    }
  }

  /** The settled warp is at a barrier, and a part of it waits on the stack. */
  ghost predicate Divided(p: seq<Instruction>, s: WarpState) {
    var r := Settle(s, |p|);
    r.active != {} && r.pc < |p| && p[r.pc].op == BarSync && r.stack != []
  }

  /** The thread at which a warp faults faults on its own. */
  lemma FaultIsAlone(p: seq<Instruction>, ctx: LaunchContext, areas: seq<Area>, alone: seq<Alone>, r: WarpState,
                     m: MemoryImage, first: Store, lane: nat, error: AccessError, address: u32, m1: Store)
    requires WarpBeside(p, ctx, areas, alone, r, m.store, first) && Ready(p, r)
    requires FaultsAt(p, ctx, r, m.store, lane, error, address, m1)
    ensures lane < WARP_SIZE == |alone| && alone[lane].thread.Running? && Solo(p, ctx, lane, alone[lane], 1) == None
  {
    hide View, Run, Ascending, ThreadStep, Solo, Count, Beside, AllConfined, Separate, Partition, Invariant;
    var schedule := Ascending(r.active - FromLane(lane), 0);
    var before := Run(p, ctx, schedule, Machine(View(r, |p|), m.store)).value;
    BesideShape(areas, alone, View(r, |p|), m.store, first);
    var next := Projection(p, ctx, schedule, areas, alone, Machine(View(r, |p|), m.store), first);
    BesideShape(areas, next, before.threads, before.store, first);
    CountAscending(r.active - FromLane(lane), 0, lane);
    assert Solo(p, ctx, lane, alone[lane], Count(schedule, lane)) == Some(next[lane]);
    SoloOne(p, ctx, lane, alone[lane]);
    StepBeside(p, ctx, areas, next, before.threads, before.store, first, lane);
  }

  /** A warp whose threads retire on their own faults, if at all, at a barrier with a part of it waiting. */
  lemma OnlyDividedFaults(p: seq<Instruction>, ctx: LaunchContext, areas: seq<Area>, alone: seq<Alone>, s: WarpState,
                          m: MemoryImage, first: Store, len: seq<nat>)
    requires WarpBeside(p, ctx, areas, alone, s, m.store, first) && |alone| == WARP_SIZE && RunLengths(p, ctx, alone, len)
    ensures Step(p, ctx, s, m).Faulted? <==> Divided(p, s)
  {
    hide Step, View, AllRetired, Settle, Solo, Beside, AllConfined, Separate, FaultsAt, RunLengths, Completes, Divided, Partition;
    StepOutcome(p, ctx, s, m);
    DividedFaults(p, ctx, s, m);
    match Step(p, ctx, s, m)
    case Stepped(_, _, _) =>
    case Faulted(f, _, m1) =>
      if f.kind != DivergentBarrier {
        var r := Settle(s, |p|);
        SettledInvariant(s, |p|);
        FaultIsAlone(p, ctx, areas, alone, r, m, first, f.lane, f.kind.error, f.address, m1.store);
        RunLength(p, ctx, alone, len, f.lane);
        FaultedNeverRetires(p, ctx, f.lane, alone[f.lane], len[f.lane]);
        assert false;
      }
  }

  lemma SettledInvariant(s: WarpState, n: nat)
    requires Invariant(s)
    ensures Invariant(Settle(s, n))
  {
    hide Settle;
    SettleKeepsView(s, n);
    SettleBalance(s, n);
    SeparatedFrom(Settle(s, n).stack, Settle(s, n).active);
    MaskSize(Settle(s, n).live);
  }

  /** The step fault of a divided warp, for any memory. */
  lemma DividedFaults(p: seq<Instruction>, ctx: LaunchContext, s: WarpState, m: MemoryImage)
    requires ValidProgram(p) && Invariant(s)
    ensures Step(p, ctx, s, m).Faulted? && Step(p, ctx, s, m).fault.kind == DivergentBarrier <==> Divided(p, s)
  {
    hide View, AllRetired, Settle, Issue, IssueRefines;
    ReadyIffRunning(p, s);
    var r := Settle(s, |p|);
    if r.active != {} { IssueIsRound(p, ctx, r, m); }
  }

  lemma FaultedNeverRetires(p: seq<Instruction>, ctx: LaunchContext, lane: nat, a: Alone, j: nat)
    requires ValidProgram(p) && lane < WARP_SIZE && Solo(p, ctx, lane, a, 1) == None && a.thread.Running?
    ensures !RetiresAfter(p, ctx, lane, a, j)
  {
    if j > 0 {
      hide Solo;
      SoloSplit(p, ctx, lane, a, 1, j - 1);
    }
  }

  // ---- a warp whose threads all retire finishes, or divides at a barrier ----

  /** Thread `l` retires after `len[l]` steps of its own. */
  ghost predicate RunLengths(p: seq<Instruction>, ctx: LaunchContext, alone: seq<Alone>, len: seq<nat>)
    requires ValidProgram(p) && |alone| == WARP_SIZE
  {
    |len| == WARP_SIZE && forall l: nat | l < WARP_SIZE :: RetiresAfter(p, ctx, l, alone[l], len[l])
  }

  lemma RunLength(p: seq<Instruction>, ctx: LaunchContext, alone: seq<Alone>, len: seq<nat>, l: nat)
    requires ValidProgram(p) && |alone| == WARP_SIZE && RunLengths(p, ctx, alone, len) && l < WARP_SIZE
    ensures |len| == WARP_SIZE && RetiresAfter(p, ctx, l, alone[l], len[l])
  {
  }

  ghost predicate FinishesAfter(p: seq<Instruction>, ctx: LaunchContext, s: WarpState, m: MemoryImage, k: nat)
    requires ValidProgram(p)
  {
    After(p, ctx, s, m, k).Some? && AllRetired(View(After(p, ctx, s, m, k).value.0, |p|))
  }

  /** After `k` issues the warp faults at a barrier because a part of it waits on the stack. */
  ghost predicate DividesAfter(p: seq<Instruction>, ctx: LaunchContext, s: WarpState, m: MemoryImage, k: nat)
    requires ValidProgram(p)
  {
    After(p, ctx, s, m, k).Some? && Divided(p, After(p, ctx, s, m, k).value.0)
  }

  /** The run lengths that remain after the lanes of `who` have stepped. */
  ghost function Shorter(len: seq<nat>, who: Mask): (r: seq<nat>)
    requires |len| == WARP_SIZE
    ensures |r| == WARP_SIZE
  {
    seq(WARP_SIZE, l requires 0 <= l < WARP_SIZE => if l in who && len[l] > 0 then len[l] - 1 else len[l])
  }

  lemma RemainingLength(p: seq<Instruction>, ctx: LaunchContext, lane: nat, a: Alone, b: Alone, len: nat, moved: bool)
    requires ValidProgram(p) && lane < WARP_SIZE && RetiresAfter(p, ctx, lane, a, len)
    requires Solo(p, ctx, lane, a, if moved then 1 else 0) == Some(b)
    ensures moved ==> len > 0
    ensures var rest := if moved && len > 0 then len - 1 else len;
            RetiresAfter(p, ctx, lane, b, rest) && Solo(p, ctx, lane, b, rest) == Solo(p, ctx, lane, a, len)
  {
    hide ThreadStep;
    if moved && len > 0 {
      SoloSplit(p, ctx, lane, a, 1, len - 1);
    }
  }

  /** After a step the run lengths of the active threads are one shorter. */
  lemma StepLengths(p: seq<Instruction>, ctx: LaunchContext, areas: seq<Area>, alone: seq<Alone>, s: WarpState, m: MemoryImage,
                    first: Store, len: seq<nat>)
    returns (next: seq<Alone>, rest: seq<nat>)
    requires WarpBeside(p, ctx, areas, alone, s, m.store, first) && RunLengths(p, ctx, alone, len)
    requires !AllRetired(View(s, |p|)) && Step(p, ctx, s, m).Stepped?
    ensures var step := Step(p, ctx, s, m);
            && step.outcome != Finished && WarpBeside(p, ctx, areas, next, step.warp, step.memory.store, first)
            && |next| == |len| == |rest| == WARP_SIZE && RunLengths(p, ctx, next, rest) && Scheduling.Sum(rest) < Scheduling.Sum(len)
            && forall l: nat | l < WARP_SIZE ::
                 len[l] <= rest[l] + 1 && Solo(p, ctx, l, next[l], rest[l]) == Solo(p, ctx, l, alone[l], len[l])
  {
    hide Step, View, Settle, Solo, AllRetired, RetiresAfter, WarpBeside;
    WarpShape(p, ctx, areas, alone, s, m.store, first);
    var who := Settle(s, |p|).active;
    rest := Shorter(len, who);
    next := StepProjection(p, ctx, areas, alone, s, m, first);
    forall l: nat | l < WARP_SIZE
      ensures (l in who ==> len[l] > 0) && RetiresAfter(p, ctx, l, next[l], rest[l])
      ensures Solo(p, ctx, l, next[l], rest[l]) == Solo(p, ctx, l, alone[l], len[l])
    {
      RunLength(p, ctx, alone, len, l);
      RemainingLength(p, ctx, l, alone[l], next[l], len[l], l in who);
    }
    ReadyIffRunning(p, s);
    var at :| at in who;
    Scheduling.SumBelow(rest, len);
  }

  lemma RetiredLengths(p: seq<Instruction>, ctx: LaunchContext, alone: seq<Alone>, threads: seq<Thread>, len: seq<nat>)
    requires ValidProgram(p) && |alone| == WARP_SIZE && RunLengths(p, ctx, alone, len)
    requires |threads| == WARP_SIZE && AllRetired(threads) && forall l | 0 <= l < WARP_SIZE :: alone[l].thread == threads[l]
    ensures forall l: nat | l < WARP_SIZE :: len[l] == 0 && Solo(p, ctx, l, alone[l], len[l]) == Some(alone[l])
  {
    forall l: nat | l < WARP_SIZE ensures len[l] == 0 {
      assert RetiresAfter(p, ctx, l, alone[l], len[l]);
    }
  }

  /** The run of the warp has ended after `k` issues, at least as many as the longest thread run and at most
      as many as all of them together, and left every thread and its memory as its own run does. */
  ghost predicate EndsLikeThreads(p: seq<Instruction>, ctx: LaunchContext, areas: seq<Area>, alone: seq<Alone>, s: WarpState,
                                  m: MemoryImage, first: Store, len: seq<nat>, k: nat, last: seq<Alone>)
    requires ValidProgram(p) && |alone| == WARP_SIZE
  {
    && FinishesAfter(p, ctx, s, m, k) && |len| == |last| == WARP_SIZE
    && k <= Scheduling.Sum(len) && (forall l: nat | l < WARP_SIZE :: len[l] <= k)
    && (forall l: nat | l < WARP_SIZE :: Solo(p, ctx, l, alone[l], len[l]) == Some(last[l]))
    && var (s1, m1) := After(p, ctx, s, m, k).value;
       Beside(areas, last, View(s1, |p|), m1.store, first)
  }

  lemma EndsNow(p: seq<Instruction>, ctx: LaunchContext, areas: seq<Area>, alone: seq<Alone>, s: WarpState,
                m: MemoryImage, first: Store, len: seq<nat>)
    requires ValidProgram(p) && |alone| == |len| == WARP_SIZE && AllRetired(View(s, |p|))
    requires Beside(areas, alone, View(s, |p|), m.store, first)
    requires forall l: nat | l < WARP_SIZE :: len[l] == 0 && Solo(p, ctx, l, alone[l], len[l]) == Some(alone[l])
    ensures EndsLikeThreads(p, ctx, areas, alone, s, m, first, len, 0, alone)
  {
    hide View, AllRetired, Beside, Solo;
  }

  /** The end of the rest of a run is the end of the run. */
  lemma EndsLater(p: seq<Instruction>, ctx: LaunchContext, areas: seq<Area>, alone: seq<Alone>, next: seq<Alone>, s: WarpState,
                  m: MemoryImage, first: Store, len: seq<nat>, rest: seq<nat>, j: nat, last: seq<Alone>)
    requires ValidProgram(p) && |alone| == |next| == |len| == |rest| == WARP_SIZE
    requires Step(p, ctx, s, m).Stepped? && Step(p, ctx, s, m).outcome != Finished
    requires EndsLikeThreads(p, ctx, areas, next, Step(p, ctx, s, m).warp, Step(p, ctx, s, m).memory, first, rest, j, last)
    requires Scheduling.Sum(rest) < Scheduling.Sum(len)
    requires forall l: nat | l < WARP_SIZE ::
               len[l] <= rest[l] + 1 && Solo(p, ctx, l, next[l], rest[l]) == Solo(p, ctx, l, alone[l], len[l])
    ensures EndsLikeThreads(p, ctx, areas, alone, s, m, first, len, j + 1, last)
  {
    hide Step, View, Solo, AllRetired, Beside, Scheduling.Sum;
  }

  lemma {:induction false} FinishesOrDivides(p: seq<Instruction>, ctx: LaunchContext, areas: seq<Area>, alone: seq<Alone>,
                                             s: WarpState, m: MemoryImage, first: Store, len: seq<nat>)
    returns (k: nat, last: seq<Alone>)
    requires WarpBeside(p, ctx, areas, alone, s, m.store, first) && RunLengths(p, ctx, alone, len)
    ensures DividesAfter(p, ctx, s, m, k) || EndsLikeThreads(p, ctx, areas, alone, s, m, first, len, k, last)
    decreases Scheduling.Sum(len)
  {
    hide Step, View, Settle, Solo, RetiresAfter, Divided, Beside, Separate, AllConfined, Invariant, EndsLikeThreads, AllRetired;
    WarpShape(p, ctx, areas, alone, s, m.store, first);
    last := alone;
    if AllRetired(View(s, |p|)) {
      k := 0;
      RetiredLengths(p, ctx, alone, View(s, |p|), len);
      EndsNow(p, ctx, areas, alone, s, m, first, len);
    } else if Divided(p, s) {
      k := 0;
    } else {
      OnlyDividedFaults(p, ctx, areas, alone, s, m, first, len);
      var step := Step(p, ctx, s, m);
      var next, rest := StepLengths(p, ctx, areas, alone, s, m, first, len);
      var j;
      j, last := FinishesOrDivides(p, ctx, areas, next, step.warp, step.memory, first, rest);
      k := j + 1;
      if !DividesAfter(p, ctx, step.warp, step.memory, j) {
        EndsLater(p, ctx, areas, alone, next, s, m, first, len, rest, j, last);
      }
    }
  }

  // ---- two annotations ----

  lemma SameThreadStep(p: seq<Instruction>, q: seq<Instruction>, ctx: LaunchContext, lane: nat, t: Thread, store: Store)
    requires ValidProgram(p) && ValidProgram(q) && SameKernel(p, q) && lane < WARP_SIZE && t.Running? && t.pc < |p|
    ensures ThreadStep(p, ctx, lane, t, store) == ThreadStep(q, ctx, lane, t, store)
  {
    hide AluLane, AccessLane;
  }

  lemma {:induction false} SameSolo(p: seq<Instruction>, q: seq<Instruction>, ctx: LaunchContext, lane: nat, a: Alone, j: nat)
    requires ValidProgram(p) && ValidProgram(q) && SameKernel(p, q) && lane < WARP_SIZE
    ensures Solo(p, ctx, lane, a, j) == Solo(q, ctx, lane, a, j)
    decreases j
  {
    hide ThreadStep;
    if j > 0 && a.thread.Running? && a.thread.pc < |p| {
      SameThreadStep(p, q, ctx, lane, a.thread, a.store);
      match ThreadStep(p, ctx, lane, a.thread, a.store)
      case ThreadFault(_, _) =>
      case Advanced(t, m) => SameSolo(p, q, ctx, lane, Alone(t, m), j - 1);
    }
  }

  lemma SameWithin(p: seq<Instruction>, q: seq<Instruction>, t: Thread, area: Area)
    requires ValidProgram(p) && ValidProgram(q) && SameKernel(p, q) && ThreadWithin(p, t, area)
    ensures ThreadWithin(q, t, area)
  {
  }

  /** Confinement does not depend on the annotation. */
  lemma SameConfined(p: seq<Instruction>, q: seq<Instruction>, ctx: LaunchContext, alone: seq<Alone>, areas: seq<Area>)
    requires ValidProgram(p) && ValidProgram(q) && SameKernel(p, q) && |alone| == |areas| == WARP_SIZE
    requires AllConfined(p, ctx, alone, areas)
    ensures AllConfined(q, ctx, alone, areas)
  {
    hide Solo, ThreadWithin, SameKernel;
    forall l: nat | l < WARP_SIZE ensures Confined(q, ctx, l, alone[l], areas[l]) {
      assert Confined(p, ctx, l, alone[l], areas[l]);
      forall j: nat | Solo(q, ctx, l, alone[l], j).Some? ensures ThreadWithin(q, Solo(q, ctx, l, alone[l], j).value.thread, areas[l]) {
        SameSolo(p, q, ctx, l, alone[l], j);
        SameWithin(p, q, Solo(p, ctx, l, alone[l], j).value.thread, areas[l]);
      }
    }
  }

  /** The threads of a warp, each with the memory to itself. */
  ghost function AloneThreads(s: WarpState, n: nat, m: Store): (alone: seq<Alone>)
    ensures |alone| == WARP_SIZE && forall l | 0 <= l < WARP_SIZE :: alone[l] == Alone(View(s, n)[l], m)
  {
    seq(WARP_SIZE, l requires 0 <= l < WARP_SIZE => Alone(View(s, n)[l], m))
  }

  /** A warp whose threads, each run on its own, keep to areas that do not disturb each other. */
  ghost predicate Undisturbed(p: seq<Instruction>, ctx: LaunchContext, areas: seq<Area>, s: WarpState, m: Store) {
    && ValidProgram(p) && Separate(areas) && Invariant(s) && AllConfined(p, ctx, AloneThreads(s, |p|, m), areas)
  }

  lemma UndisturbedBeside(p: seq<Instruction>, ctx: LaunchContext, areas: seq<Area>, s: WarpState, m: Store)
    requires Undisturbed(p, ctx, areas, s, m)
    ensures |areas| == WARP_SIZE && AllConfined(p, ctx, AloneThreads(s, |p|, m), areas)
    ensures WarpBeside(p, ctx, areas, AloneThreads(s, |p|, m), s, m, m)
  {
    hide View, Agree, Confined, Invariant;
    forall l | 0 <= l < WARP_SIZE ensures Agree(m, m, areas[l]) { AgreeSelf(m, areas[l]); }
    AgreeSelf(m, Rest(areas));
  }

  /** The run lengths of the threads of a warp that finishes. */
  lemma {:induction false} LengthsOfRun(p: seq<Instruction>, ctx: LaunchContext, areas: seq<Area>, alone: seq<Alone>,
                                        s: WarpState, m: MemoryImage, first: Store, k: nat) returns (len: seq<nat>)
    requires WarpBeside(p, ctx, areas, alone, s, m.store, first) && FinishesAfter(p, ctx, s, m, k)
    ensures |alone| == WARP_SIZE && RunLengths(p, ctx, alone, len)
    decreases k
  {
    hide Step, View, Settle, Solo, WarpBeside;
    WarpShape(p, ctx, areas, alone, s, m.store, first);
    if k == 0 {
      len := seq(WARP_SIZE, _ => 0);
      forall l: nat | l < WARP_SIZE ensures RetiresAfter(p, ctx, l, alone[l], len[l]) { SoloOne(p, ctx, l, alone[l]); }
    } else {
      if AllRetired(View(s, |p|)) { FinishedStops(p, ctx, s, m, k); }
      var step := Step(p, ctx, s, m);
      var who := Settle(s, |p|).active;
      var next := StepProjection(p, ctx, areas, alone, s, m, first);
      var rest := LengthsOfRun(p, ctx, areas, next, step.warp, step.memory, first, k - 1);
      len := seq(WARP_SIZE, l requires 0 <= l < WARP_SIZE => rest[l] + (if l in who then 1 else 0));
      forall l: nat | l < WARP_SIZE ensures RetiresAfter(p, ctx, l, alone[l], len[l]) {
        RunLength(p, ctx, next, rest, l);
        SoloSplit(p, ctx, l, alone[l], if l in who then 1 else 0, rest[l]);
      }
    }
  }

  lemma FinishedStops(p: seq<Instruction>, ctx: LaunchContext, s: WarpState, m: MemoryImage, k: nat)
    requires ValidProgram(p) && Invariant(s) && AllRetired(View(s, |p|)) && k > 0
    ensures After(p, ctx, s, m, k) == None && !Divided(p, s)
  {
    hide View, AllRetired, Settle, Issue;
    StepOutcome(p, ctx, s, m);
    ReadyIffRunning(p, s);
  }

  lemma DividedStops(p: seq<Instruction>, ctx: LaunchContext, s: WarpState, m: MemoryImage, k: nat)
    requires ValidProgram(p) && Invariant(s) && Divided(p, s) && k > 0
    ensures After(p, ctx, s, m, k) == None
  {
    hide Step, Divided, Invariant;
    DividedFaults(p, ctx, s, m);
  }

  /** A run ends in one way and at one point. */
  lemma {:induction false} EndsOnce(p: seq<Instruction>, ctx: LaunchContext, s: WarpState, m: MemoryImage, j: nat, k: nat)
    requires ValidProgram(p) && Invariant(s) && FinishesAfter(p, ctx, s, m, j)
    requires FinishesAfter(p, ctx, s, m, k) || DividesAfter(p, ctx, s, m, k)
    ensures j == k && FinishesAfter(p, ctx, s, m, k) && !DividesAfter(p, ctx, s, m, k)
    decreases j
  {
    hide Step, View, AllRetired, Invariant, Divided;
    if j == 0 {
      FinishedStops(p, ctx, s, m, k + 1);
      if k > 0 { FinishedStops(p, ctx, s, m, k); }
    } else if k == 0 {
      if Divided(p, s) { DividedStops(p, ctx, s, m, j); } else { FinishedStops(p, ctx, s, m, j); }
    } else {
      StepKeepsInvariant(p, ctx, s, m);
      var step := Step(p, ctx, s, m);
      EndsOnce(p, ctx, step.warp, step.memory, j - 1, k - 1);
    }
  }

  /** The same sizes and parameters, and the same word at every address. */
  ghost predicate SameMemory(a: Store, b: Store) {
    && |a.global| == |b.global| && |a.shared| == |b.shared| && a.params == b.params
    && forall space: Space, address: u32 :: LoadFrom(a, space, address) == LoadFrom(b, space, address)
  }

  /** What every thread ends with determines the memory. */
  lemma SameEnd(areas: seq<Area>, last: seq<Alone>, t1: seq<Thread>, m1: Store, t2: seq<Thread>, m2: Store, first: Store)
    requires Separate(areas) && Beside(areas, last, t1, m1, first) && Beside(areas, last, t2, m2, first)
    ensures t1 == t2 && SameMemory(m1, m2)
  {
    hide LoadFrom, Unread;
    forall space: Space, address: u32 ensures LoadFrom(m1, space, address) == LoadFrom(m2, space, address) {
      if Stored(areas, space, address) {
        var l :| 0 <= l < |areas| && areas[l].stores(space, address);
        assert areas[l].loads(space, address);
      } else {
        assert Rest(areas).loads(space, address);
      }
    }
  }

  /** `q` finishes after `j` issues with the registers of every lane and the memory that `p` has after `k`, and
      both numbers lie between the longest thread run and the sum of all thread runs. */
  ghost predicate FinishesLike(p: seq<Instruction>, q: seq<Instruction>, ctx: LaunchContext, s: WarpState, m: MemoryImage,
                               k: nat, j: nat, len: seq<nat>)
    requires ValidProgram(p) && ValidProgram(q) && FinishesAfter(p, ctx, s, m, k)
  {
    && FinishesAfter(q, ctx, s, m, j)
    && View(After(q, ctx, s, m, j).value.0, |q|) == View(After(p, ctx, s, m, k).value.0, |p|)
    && SameMemory(After(q, ctx, s, m, j).value.1.store, After(p, ctx, s, m, k).value.1.store)
    && RunLengths(p, ctx, AloneThreads(s, |p|, m.store), len)
    && k <= Scheduling.Sum(len) && j <= Scheduling.Sum(len) && forall l: nat | l < WARP_SIZE :: len[l] <= k && len[l] <= j
  }

  /** For a kernel in which no lane accesses a word another lane stores to, barriers included: if the warp
      finishes without a fault under one annotation, then under any other it finishes with the same
      registers and memory, or it faults at a barrier that a part of the warp has not reached. */
  lemma ReconvergenceIndependence(p: seq<Instruction>, q: seq<Instruction>, ctx: LaunchContext, areas: seq<Area>,
                                  s: WarpState, m: MemoryImage, k: nat) returns (j: nat, len: seq<nat>)
    requires ValidProgram(q) && SameKernel(p, q) && Undisturbed(p, ctx, areas, s, m.store) && FinishesAfter(p, ctx, s, m, k)
    ensures DividesAfter(q, ctx, s, m, j) || FinishesLike(p, q, ctx, s, m, k, j, len)
  {
    hide View, Solo, After, Invariant, SameKernel, Beside, Separate, AllConfined, RetiresAfter, Divided;
    var alone := AloneThreads(s, |p|, m.store);
    UndisturbedBeside(p, ctx, areas, s, m.store);
    len := LengthsOfRun(p, ctx, areas, alone, s, m, m.store, k);
    var i, last := FinishesOrDivides(p, ctx, areas, alone, s, m, m.store, len);
    EndsOnce(p, ctx, s, m, k, i);
    SameLength(p, q);
    SameConfined(p, q, ctx, alone, areas);
    UndisturbedBeside(q, ctx, areas, s, m.store);
    SameLengths(p, q, ctx, alone, len);
    var last1;
    j, last1 := FinishesOrDivides(q, ctx, areas, alone, s, m, m.store, len);
    if !DividesAfter(q, ctx, s, m, j) {
      forall l: nat | l < WARP_SIZE ensures last1[l] == last[l] { SameSolo(p, q, ctx, l, alone[l], len[l]); }
      assert last1 == last;
      SameEnd(areas, last, View(After(p, ctx, s, m, k).value.0, |p|), After(p, ctx, s, m, k).value.1.store,
              View(After(q, ctx, s, m, j).value.0, |q|), After(q, ctx, s, m, j).value.1.store, m.store);
    }
  }

  lemma SameLength(p: seq<Instruction>, q: seq<Instruction>)
    requires SameKernel(p, q)
    ensures |p| == |q|
  {
  }

  lemma SameLengths(p: seq<Instruction>, q: seq<Instruction>, ctx: LaunchContext, alone: seq<Alone>, len: seq<nat>)
    requires ValidProgram(p) && ValidProgram(q) && SameKernel(p, q) && |alone| == WARP_SIZE && RunLengths(p, ctx, alone, len)
    ensures RunLengths(q, ctx, alone, len)
  {
    hide Solo, SameKernel;
    forall l: nat | l < WARP_SIZE ensures RetiresAfter(q, ctx, l, alone[l], len[l]) {
      RunLength(p, ctx, alone, len, l);
      SameSolo(p, q, ctx, l, alone[l], len[l]);
    }
  }

  /** When the annotation matters: the other annotation finishes with the same registers and memory if, and
      only if, no barrier of its run is issued with a part of the warp waiting on the stack. */
  lemma SameResultIffWhole(p: seq<Instruction>, q: seq<Instruction>, ctx: LaunchContext, areas: seq<Area>,
                           s: WarpState, m: MemoryImage, k: nat)
    requires ValidProgram(q) && SameKernel(p, q) && Undisturbed(p, ctx, areas, s, m.store) && FinishesAfter(p, ctx, s, m, k)
    ensures (exists j: nat, len: seq<nat> :: FinishesLike(p, q, ctx, s, m, k, j, len))
            <==> (forall i: nat :: !DividesAfter(q, ctx, s, m, i))
  {
    hide After, FinishesAfter, DividesAfter, RunLengths, SameMemory, Invariant, SameKernel, Separate, AllConfined;
    var j, len := ReconvergenceIndependence(p, q, ctx, areas, s, m, k);
    forall j: nat, len: seq<nat>, i: nat | FinishesLike(p, q, ctx, s, m, k, j, len) && DividesAfter(q, ctx, s, m, i) ensures false {
      EndsOnce(q, ctx, s, m, j, i);
    }
  }

  // ---- kernels without stores ----

  ghost predicate StoreFree(p: seq<Instruction>) {
    forall i | i in p :: !IsStore(i.op)
  }

  /** Every lane may load every word, and none stores. */
  ghost function LoadsOnly(): (areas: seq<Area>)
    ensures |areas| == WARP_SIZE
  {
    seq(WARP_SIZE, _ => Area((space, address) => true, (space, address) => false))
  }

  /** The lanes of a kernel without stores cannot disturb each other. */
  lemma StoreFreeUndisturbed(p: seq<Instruction>, ctx: LaunchContext, s: WarpState, m: Store)
    requires ValidProgram(p) && StoreFree(p) && Invariant(s)
    ensures Undisturbed(p, ctx, LoadsOnly(), s, m)
  {
    hide Solo, View, Invariant;
    var alone := AloneThreads(s, |p|, m);
    forall l: nat, j: nat | l < WARP_SIZE && Solo(p, ctx, l, alone[l], j).Some?
      ensures ThreadWithin(p, Solo(p, ctx, l, alone[l], j).value.thread, LoadsOnly()[l])
    {
    }
  }

  /** For kernels without stores and barriers the annotation never matters. */
  lemma QuietIndependence(p: seq<Instruction>, q: seq<Instruction>, ctx: LaunchContext, s: WarpState, m: MemoryImage, k: nat)
    returns (j: nat, len: seq<nat>)
    requires ValidProgram(p) && ValidProgram(q) && SameKernel(p, q) && StoreFree(p) && Invariant(s)
    requires FinishesAfter(p, ctx, s, m, k) && forall i | i in p :: i.op != BarSync
    ensures FinishesLike(p, q, ctx, s, m, k, j, len)
  {
    StoreFreeUndisturbed(p, ctx, s, m.store);
    NoBarriers(p, q);
    hide StoreFree, SameKernel, FinishesAfter, FinishesLike, Undisturbed, After, Settle;
    j, len := ReconvergenceIndependence(p, q, ctx, LoadsOnly(), s, m, k);
  }

  lemma NoBarriers(p: seq<Instruction>, q: seq<Instruction>)
    requires SameKernel(p, q) && forall i | i in p :: i.op != BarSync
    ensures forall pc | 0 <= pc < |q| :: q[pc].op != BarSync
  {
  }
}
