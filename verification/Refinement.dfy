/** A warp is 32 independent threads: the divergence stack only decides which of them run next. */
module Refinement {
  import opened Isa
  import opened Alu
  import opened Memory
  import opened WarpSpec
  import opened Threads

  // ---- every live lane is in exactly one mask ----

  ghost function Held(stack: seq<Entry>): set<nat> {
    if stack == [] then {} else Held(Below(stack)) + Top(stack).mask
  }

  /** The masks on the stack are non-empty and disjoint from each other and from `above`. */
  ghost predicate Separated(stack: seq<Entry>, above: set<nat>) {
    stack == [] || (Top(stack).mask != {} && Top(stack).mask !! above
                    && Separated(Below(stack), above + Top(stack).mask))
  }

  /** The live lanes are the disjoint union of the active mask and the non-empty masks on the stack. */
  ghost predicate Partition(s: WarpState) {
    Separated(s.stack, s.active) && s.live == s.active + Held(s.stack)
  }

  lemma HeldOfPush(stack: seq<Entry>, e: Entry)
    ensures Held(stack + [e]) == Held(stack) + e.mask
  {
    assert Below(stack + [e]) == stack;
  }

  lemma SeparatedOfPush(stack: seq<Entry>, e: Entry, above: set<nat>)
    ensures Separated(stack + [e], above) <==> e.mask != {} && e.mask !! above && Separated(stack, above + e.mask)
  {
    assert Below(stack + [e]) == stack;
  }

  lemma {:induction false} SeparatedFrom(stack: seq<Entry>, above: set<nat>)
    requires Separated(stack, above)
    ensures Held(stack) !! above
    ensures |stack| + |above| <= |Held(stack) + above|
  {
    if stack != [] {
      SeparatedFrom(Below(stack), above + Top(stack).mask);
      assert Held(stack) + above == Held(Below(stack)) + (above + Top(stack).mask);
      assert |above + Top(stack).mask| == |above| + |Top(stack).mask|;
    }
  }

  lemma {:induction false} SeparatedShrinks(stack: seq<Entry>, above: set<nat>, less: set<nat>)
    requires Separated(stack, above) && less <= above
    ensures Separated(stack, less)
  {
    if stack != [] {
      SeparatedShrinks(Below(stack), above + Top(stack).mask, less + Top(stack).mask);
    }
  }

  /** The PC at which a lane held by the stack will resume. */
  ghost function StackPc(stack: seq<Entry>, lane: nat): u16 {
    if stack == [] then 0
    else if lane in Top(stack).mask then Top(stack).resume
    else StackPc(Below(stack), lane)
  }

  ghost function LanePc(s: WarpState, lane: nat): u16 {
    if lane in s.active then s.pc else StackPc(s.stack, lane)
  }

  /** What a warp state means for its lanes. */
  ghost function View(s: WarpState, n: nat): (threads: seq<Thread>)
    ensures |threads| == WARP_SIZE
  {
    seq(WARP_SIZE, l requires 0 <= l < WARP_SIZE =>
      if l in s.live then AtPc(LanePc(s, l), s.lanes[l], n) else Retired(s.lanes[l]))
  }

  // ---- resolution of the stack moves no lane ----

  /** Where lane `l` is after the top entry is split off. */
  lemma SplitTop(s: WarpState, l: nat)
    requires Partition(s) && s.stack != [] && l in s.live
    ensures var e, below := Top(s.stack), Below(s.stack);
            && (l in s.active ==> l !in e.mask && l !in Held(below))
            && (l in e.mask ==> l !in s.active && l !in Held(below) && LanePc(s, l) == e.resume)
            && (l !in s.active && l !in e.mask ==> l in Held(below) && LanePc(s, l) == StackPc(below, l))
  {
    SeparatedFrom(Below(s.stack), s.active + Top(s.stack).mask);
  }

  lemma PopJoinPartition(s: WarpState)
    requires Partition(s) && MustPop(s) && (Top(s.stack).IsJoin() || s.active == {})
    ensures Partition(PopTop(s)) && PopTop(s).live == s.live && |PopTop(s).stack| <= |s.stack|
  {
    var e, below := Top(s.stack), Below(s.stack);
    assert Separated(below, s.active + e.mask);
    assert PopTop(s).stack == below && PopTop(s).active == s.active + e.mask;
  }

  lemma PopArrivalPartition(s: WarpState)
    requires Partition(s) && MustPop(s) && !Top(s.stack).IsJoin() && s.active != {}
    ensures Partition(PopTop(s)) && PopTop(s).live == s.live && |PopTop(s).stack| <= |s.stack|
  {
    var e, below := Top(s.stack), Below(s.stack);
    var join := Entry(e.reconvergence, e.reconvergence, s.active);
    assert PopTop(s).stack == below + [join] && PopTop(s).active == e.mask;
    HeldOfPush(below, join);
    assert Separated(below + [join], e.mask) by {
      SeparatedOfPush(below, join, e.mask);
      assert e.mask + s.active == s.active + e.mask;
    }
  }

  lemma PopLanePc(s: WarpState, l: nat)
    requires Partition(s) && MustPop(s) && l in s.live
    ensures LanePc(PopTop(s), l) == LanePc(s, l)
  {
    SplitTop(s, l);
    var e, below := Top(s.stack), Below(s.stack);
    var join := Entry(e.reconvergence, e.reconvergence, s.active);
    assert Below(below + [join]) == below && Top(below + [join]) == join;
  }

  lemma PopKeepsLanes(s: WarpState)
    requires Partition(s) && MustPop(s)
    ensures var p := PopTop(s);
            && Partition(p) && p.live == s.live && p.lanes == s.lanes && |p.stack| <= |s.stack|
            && forall l | l in s.live :: LanePc(p, l) == LanePc(s, l)
  {
    if Top(s.stack).IsJoin() || s.active == {} { PopJoinPartition(s); } else { PopArrivalPartition(s); }
    forall l | l in s.live ensures LanePc(PopTop(s), l) == LanePc(s, l) {
      PopLanePc(s, l);
    }
  }

  lemma {:induction false} ResolveKeepsLanes(s: WarpState)
    requires Partition(s)
    ensures var r := Resolve(s);
            && Partition(r) && r.live == s.live && r.lanes == s.lanes && |r.stack| <= |s.stack|
            && forall l | l in s.live :: LanePc(r, l) == LanePc(s, l)
    decreases Weight(s.stack)
  {
    if MustPop(s) {
      PopKeepsLanes(s);
      PopIsLighter(s);
      ResolveKeepsLanes(PopTop(s));
    }
  }

  lemma {:induction false} RetireKeepsStack(stack: seq<Entry>, above: set<nat>, lanes: Mask)
    requires Separated(stack, above) && lanes <= above
    ensures RetireStack(stack, lanes) == stack
  {
    if stack != [] {
      RetireKeepsStack(Below(stack), above + Top(stack).mask, lanes);
      assert Below(RetireStack(stack, lanes)) == RetireStack(Below(stack), lanes);
      assert stack == Below(stack) + [Top(stack)];
      assert Top(RetireStack(stack, lanes)).mask == Top(stack).mask;
    }
  }

  lemma RetireKeepsPartition(s: WarpState, lanes: Mask)
    requires Partition(s) && lanes <= s.active
    ensures Partition(Retire(s, lanes)) && Retire(s, lanes).stack == s.stack
  {
    var r := Retire(s, lanes);
    assert r.stack == s.stack by { RetireKeepsStack(s.stack, s.active, lanes); }
    assert Separated(r.stack, r.active) by { SeparatedShrinks(s.stack, s.active, r.active); }
    assert r.live == r.active + Held(s.stack) by {
      SeparatedFrom(s.stack, s.active);
      RemoveFromLeft(s.active, Held(s.stack), lanes);
    }
  }

  lemma RemoveFromLeft(a: set<nat>, b: set<nat>, c: set<nat>)
    requires c <= a && a !! b
    ensures (a + b) - c == (a - c) + b
  {
  }

  lemma RetireKeepsLanePc(s: WarpState, lanes: Mask, l: nat)
    requires Partition(s) && lanes <= s.active && l in s.live && l !in lanes
    ensures LanePc(Retire(s, lanes), l) == LanePc(s, l)
  {
    RetireKeepsStack(s.stack, s.active, lanes);
  }

  lemma SameView(s: WarpState, r: WarpState, n: nat)
    requires r.lanes == s.lanes && r.live <= s.live
    requires forall l | l in r.live :: LanePc(r, l) == LanePc(s, l)
    requires forall l | l in s.live - r.live :: LanePc(s, l) >= n
    ensures View(r, n) == View(s, n)
  {
  }

  /** Settling the stack advances no lane, whatever the recorded reconvergence PCs are. */
  lemma {:induction false} SettleKeepsView(s: WarpState, n: nat)
    requires Partition(s)
    ensures var r := Settle(s, n);
            && Partition(r) && r.lanes == s.lanes && r.live <= s.live && |r.stack| <= |s.stack|
            && View(r, n) == View(s, n)
    decreases Weight(s.stack), if s.active == {} then 0 else 1
  {
    ResolveKeepsLanes(s);
    ResolveIsLighter(s);
    var r := Resolve(s);
    SameView(s, r, n);
    if r.active != {} && r.pc >= n {
      var t := Retire(r, r.active);
      RetireKeepsWeight(r.stack, r.active);
      RetireKeepsPartition(r, r.active);
      forall l | l in t.live ensures LanePc(t, l) == LanePc(r, l) {
        RetireKeepsLanePc(r, r.active, l);
      }
      SameView(r, t, n);
      SettleKeepsView(t, n);
    }
  }

  // ---- an issue is one step of every active lane ----

  /** Lanes of `who` from `k` on step without touching memory: `before` becomes `after`. */
  lemma {:induction false} QuietRound(program: seq<Instruction>, ctx: LaunchContext, k: nat, who: Mask,
                                      before: seq<Thread>, after: seq<Thread>, store: Store)
    requires ValidProgram(program) && k <= WARP_SIZE && |before| == |after| == WARP_SIZE
    requires forall l | 0 <= l < WARP_SIZE && (l < k || l !in who) :: before[l] == after[l]
    requires forall l | l in who && l >= k ::
               CanStep(program, before, l) && ThreadStep(program, ctx, l, before[l], store) == Advanced(after[l], store)
    ensures Run(program, ctx, Ascending(who, k), Machine(before, store)) == Some(Machine(after, store))
    decreases WARP_SIZE - k
  {
    hide ThreadStep;
    if k == WARP_SIZE {
      assert before == after;
    } else if k in who {
      QuietRound(program, ctx, k + 1, who, before[k := after[k]], after, store);
      assert Ascending(who, k)[1..] == Ascending(who, k + 1);
    } else {
      QuietRound(program, ctx, k + 1, who, before, after, store);
    }
  }

  /** The threads of a memory instruction when lanes below `k` have stepped. */
  ghost function MidSweep(s: WarpState, n: nat, who: Mask, lanes: RegisterBank, k: nat): seq<Thread> {
    seq(WARP_SIZE, l requires 0 <= l < WARP_SIZE =>
      if l in who && l < k then AtPc(NextPc(s.pc), lanes[l], n) else View(s, n)[l])
  }

  ghost predicate AtMemory(program: seq<Instruction>, s: WarpState) {
    && ValidProgram(program) && Partition(s) && s.pc < |program|
    && IsMemory(program[s.pc].op)
  }

  /** A sweep changes only the registers of the lanes it reached. */
  lemma {:induction false} SweepFrame(i: Instruction, k: nat, exec: Mask, lanes: RegisterBank, m: Store)
    requires Valid(i) && k <= WARP_SIZE
    ensures var sweep := SweepFrom(i, k, exec, lanes, m);
            && (forall l | 0 <= l < WARP_SIZE && (l < k || l !in exec) :: sweep.lanes[l] == lanes[l])
            && (sweep.SweepFault? ==>
                  && k <= sweep.lane < WARP_SIZE && sweep.lane in exec
                  && AccessLane(i, lanes[sweep.lane], sweep.store) == Denied(sweep.error, sweep.address)
                  && forall l | sweep.lane <= l < WARP_SIZE :: sweep.lanes[l] == lanes[l])
    decreases WARP_SIZE - k
  {
    hide AccessLane;
    if k == WARP_SIZE {
    } else if k !in exec {
      SweepFrame(i, k + 1, exec, lanes, m);
    } else {
      match AccessLane(i, lanes[k], m)
      case Denied(_, _) =>
      case Accessed(r, after) => SweepFrame(i, k + 1, exec, lanes[k := r], after);
    }
  }

  /** One lane of a memory instruction: an executing lane accesses memory, a guarded-off lane skips. */
  lemma MemoryThread(program: seq<Instruction>, ctx: LaunchContext, s: WarpState, l: nat, store: Store)
    requires AtMemory(program, s) && l in s.active
    ensures View(s, |program|)[l] == Running(s.pc, s.lanes[l])
    ensures var i := program[s.pc];
            var t := ThreadStep(program, ctx, l, Running(s.pc, s.lanes[l]), store);
            if l in Exec(i, s) then
              match AccessLane(i, s.lanes[l], store)
              case Denied(e, address) => t == ThreadFault(e, address)
              case Accessed(r, after) => t == Advanced(AtPc(NextPc(s.pc), r, |program|), after)
            else t == Advanced(AtPc(NextPc(s.pc), s.lanes[l], |program|), store)
  {
    hide AccessLane, AluLane;
  }

  /** The lanes of `who` that a sweep completes: all of them, or those below the faulting lane. */
  ghost function Completed(sweep: Sweep, who: Mask): Mask {
    if sweep.SweepFault? then who - FromLane(sweep.lane) else who
  }

  ghost predicate Reached(k: nat, s: WarpState, lanes: RegisterBank) {
    forall l | 0 <= l < WARP_SIZE && (l >= k || l !in s.active) :: lanes[l] == s.lanes[l]
  }

  /** The sweep of the instruction at `pc` over the lanes from `k` on. */
  ghost function SweepOf(program: seq<Instruction>, k: nat, s: WarpState, lanes: RegisterBank, store: Store): Sweep
    requires ValidProgram(program) && s.pc < |program| && k <= WARP_SIZE
  {
    SweepFrom(program[s.pc], k, Exec(program[s.pc], s), lanes, store)
  }

  ghost function Stop(sweep: Sweep): nat {
    if sweep.SweepFault? then sweep.lane else WARP_SIZE
  }

  /** From lane `k` on, a sweep with result `sweep` is one step of each thread it completes. */
  ghost predicate SweepIsRound(program: seq<Instruction>, ctx: LaunchContext, k: nat, s: WarpState,
                               lanes: RegisterBank, store: Store, sweep: Sweep)
    requires ValidProgram(program) && k <= WARP_SIZE
  {
    Run(program, ctx, Ascending(Completed(sweep, s.active), k),
        Machine(MidSweep(s, |program|, s.active, lanes, k), store))
    == Some(Machine(MidSweep(s, |program|, s.active, sweep.lanes, Stop(sweep)), sweep.store))
  }

  lemma MidSweepSkip(s: WarpState, n: nat, lanes: RegisterBank, k: nat)
    requires k < WARP_SIZE && k !in s.active
    ensures MidSweep(s, n, s.active, lanes, k + 1) == MidSweep(s, n, s.active, lanes, k)
  {
  }

  lemma MidSweepNext(s: WarpState, n: nat, lanes: RegisterBank, k: nat, r: Lane)
    requires k < WARP_SIZE && k in s.active
    ensures MidSweep(s, n, s.active, lanes[k := r], k + 1)
         == MidSweep(s, n, s.active, lanes, k)[k := AtPc(NextPc(s.pc), r, n)]
  {
  }

  /** Lane `k` of the warp is active and does not fault: it leaves registers `r` and memory `m`. */
  ghost predicate LaneAdvances(program: seq<Instruction>, k: nat, s: WarpState, lanes: RegisterBank, store: Store, r: Lane, m: Store)
    requires AtMemory(program, s) && k < WARP_SIZE
  {
    && k in s.active
    && if k in Exec(program[s.pc], s) then AccessLane(program[s.pc], lanes[k], store) == Accessed(r, m)
       else r == lanes[k] && m == store
  }

  /** What remains of a sweep after lane `k`: lane `k` is among the completed lanes, and comes first. */
  lemma SweepNext(program: seq<Instruction>, k: nat, s: WarpState, lanes: RegisterBank, store: Store, r: Lane, m: Store)
    requires AtMemory(program, s) && k < WARP_SIZE && Reached(k, s, lanes) && LaneAdvances(program, k, s, lanes, store, r, m)
    ensures var sweep := SweepOf(program, k, s, lanes, store);
            && sweep == SweepOf(program, k + 1, s, lanes[k := r], m)
            && Ascending(Completed(sweep, s.active), k) == [k] + Ascending(Completed(sweep, s.active), k + 1)
  {
    hide AccessLane, Partition, View, GuardHolds;
    assert lanes[k := lanes[k]] == lanes;
    var sweep := SweepOf(program, k, s, lanes, store);
    SweepFrame(program[s.pc], k + 1, Exec(program[s.pc], s), lanes[k := r], m);
    assert k in Completed(sweep, s.active);
  }

  lemma RunFirst(program: seq<Instruction>, ctx: LaunchContext, k: nat, rest: seq<nat>, m: Machine, t: Thread, store: Store)
    requires ValidProgram(program) && CanStep(program, m.threads, k)
    requires ThreadStep(program, ctx, k, m.threads[k], m.store) == Advanced(t, store)
    ensures Run(program, ctx, [k] + rest, m) == Run(program, ctx, rest, Machine(m.threads[k := t], store))
  {
    hide ThreadStep;
    assert ([k] + rest)[0] == k && ([k] + rest)[1..] == rest;
  }

  lemma SweepRoundNext(program: seq<Instruction>, ctx: LaunchContext, k: nat, s: WarpState,
                       lanes: RegisterBank, store: Store, r: Lane, m: Store)
    requires AtMemory(program, s) && k < WARP_SIZE && Reached(k, s, lanes)
    requires LaneAdvances(program, k, s, lanes, store, r, m)
    requires SweepIsRound(program, ctx, k + 1, s, lanes[k := r], m, SweepOf(program, k + 1, s, lanes[k := r], m))
    ensures SweepIsRound(program, ctx, k, s, lanes, store, SweepOf(program, k, s, lanes, store))
  {
    SweepNext(program, k, s, lanes, store, r, m);
    MemoryThread(program, ctx, s, k, store);
    hide AccessLane, AluLane, ThreadStep, Run, Ascending, Completed, SweepOf, Partition, GuardHolds, Exec, AddressOf, View;
    MidSweepNext(s, |program|, lanes, k, r);
    var sweep := SweepOf(program, k, s, lanes, store);
    RunFirst(program, ctx, k, Ascending(Completed(sweep, s.active), k + 1),
             Machine(MidSweep(s, |program|, s.active, lanes, k), store), AtPc(NextPc(s.pc), r, |program|), m);
  }

  lemma SweepRoundDenied(program: seq<Instruction>, ctx: LaunchContext, k: nat, s: WarpState,
                         lanes: RegisterBank, store: Store)
    requires AtMemory(program, s) && k < WARP_SIZE && k in Exec(program[s.pc], s)
    requires AccessLane(program[s.pc], lanes[k], store).Denied?
    ensures SweepIsRound(program, ctx, k, s, lanes, store, SweepOf(program, k, s, lanes, store))
  {
    hide AluLane, ThreadStep;
    var sweep := SweepOf(program, k, s, lanes, store);
    AscendingNone(Completed(sweep, s.active), k);
  }

  lemma SweepRoundSkip(program: seq<Instruction>, ctx: LaunchContext, k: nat, s: WarpState,
                       lanes: RegisterBank, store: Store)
    requires AtMemory(program, s) && k < WARP_SIZE && k !in s.active
    requires SweepIsRound(program, ctx, k + 1, s, lanes, store, SweepOf(program, k + 1, s, lanes, store))
    ensures SweepIsRound(program, ctx, k, s, lanes, store, SweepOf(program, k, s, lanes, store))
  {
    hide AccessLane, AluLane, ThreadStep;
    MidSweepSkip(s, |program|, lanes, k);
  }

  /** A sweep of memory accesses is one step of each active thread in lane order, up to the first fault. */
  lemma {:induction false} SweepRound(program: seq<Instruction>, ctx: LaunchContext, k: nat, s: WarpState,
                                      lanes: RegisterBank, store: Store)
    requires AtMemory(program, s) && k <= WARP_SIZE && Reached(k, s, lanes)
    ensures SweepIsRound(program, ctx, k, s, lanes, store, SweepOf(program, k, s, lanes, store))
    decreases WARP_SIZE - k
  {
    hide AccessLane, AluLane, SweepFrom, SweepIsRound;
    var i := program[s.pc];
    if k == WARP_SIZE {
      SweepRoundEnd(program, ctx, s, lanes, store);
    } else if k !in s.active {
      SweepRound(program, ctx, k + 1, s, lanes, store);
      SweepRoundSkip(program, ctx, k, s, lanes, store);
    } else if k !in Exec(i, s) {
      assert lanes[k := lanes[k]] == lanes;
      SweepRound(program, ctx, k + 1, s, lanes, store);
      SweepRoundNext(program, ctx, k, s, lanes, store, lanes[k], store);
    } else {
      match AccessLane(i, lanes[k], store)
      case Denied(_, _) =>
        SweepRoundDenied(program, ctx, k, s, lanes, store);
      case Accessed(r, m) =>
        SweepRound(program, ctx, k + 1, s, lanes[k := r], m);
        SweepRoundNext(program, ctx, k, s, lanes, store, r, m);
    }
  }

  lemma SweepRoundEnd(program: seq<Instruction>, ctx: LaunchContext, s: WarpState, lanes: RegisterBank, store: Store)
    requires AtMemory(program, s)
    ensures SweepIsRound(program, ctx, WARP_SIZE, s, lanes, store, SweepOf(program, WARP_SIZE, s, lanes, store))
  {
  }

  ghost function FromLane(lane: nat): Mask { set l | lane <= l < WARP_SIZE && IsLane(l) }

  lemma {:induction false} AscendingNone(mask: Mask, k: nat)
    requires k <= WARP_SIZE && forall l | l in mask :: l < k
    ensures Ascending(mask, k) == []
    decreases WARP_SIZE - k
  {
    if k < WARP_SIZE { AscendingNone(mask, k + 1); }
  }

  lemma NothingLeft(a: set<nat>, part: set<nat>)
    requires part <= a
    ensures a - part == {} <==> part == a
  {
    if a - part == {} {
      forall l | l in a ensures l in part {
        assert l !in a - part;
      }
    }
  }

  /** A warp with a path to issue: the state in which `step` executes an instruction. */
  ghost predicate Ready(program: seq<Instruction>, s: WarpState) {
    ValidProgram(program) && Partition(s) && s.active != {} && s.pc < |program|
  }

  /** The state `s1` follows `s` by one step of every active thread, without memory traffic. */
  ghost predicate QuietIssue(program: seq<Instruction>, ctx: LaunchContext, s: WarpState, s1: WarpState, store: Store)
    requires Ready(program, s)
  {
    Run(program, ctx, Ascending(s.active, 0), Machine(View(s, |program|), store))
    == Some(Machine(View(s1, |program|), store))
  }

  lemma ActiveThread(program: seq<Instruction>, s: WarpState, l: nat)
    requires Ready(program, s) && l in s.active
    ensures View(s, |program|)[l] == Running(s.pc, s.lanes[l]) && CanStep(program, View(s, |program|), l)
  {
  }

  /** Enough for a quiet issue: active lanes step, and the others keep their PC and registers. */
  lemma QuietIssueFrom(program: seq<Instruction>, ctx: LaunchContext, s: WarpState, s1: WarpState, store: Store)
    requires Ready(program, s)
    requires forall l | l in s.active ::
               ThreadStep(program, ctx, l, Running(s.pc, s.lanes[l]), store) == Advanced(View(s1, |program|)[l], store)
    requires forall l | 0 <= l < WARP_SIZE && l !in s.active :: View(s1, |program|)[l] == View(s, |program|)[l]
    ensures QuietIssue(program, ctx, s, s1, store)
  {
    forall l | l in s.active ensures CanStep(program, View(s, |program|), l) {
      ActiveThread(program, s, l);
    }
    forall l | l in s.active ensures View(s, |program|)[l] == Running(s.pc, s.lanes[l]) {
      ActiveThread(program, s, l);
    }
    QuietRound(program, ctx, 0, s.active, View(s, |program|), View(s1, |program|), store);
  }

  /** All active lanes move to `pc` with new registers. */
  lemma MoveAll(program: seq<Instruction>, ctx: LaunchContext, s: WarpState, s1: WarpState, store: Store)
    requires Ready(program, s)
    requires s1.active == s.active && s1.live == s.live && s1.stack == s.stack
    requires forall l | 0 <= l < WARP_SIZE && l !in s.active :: s1.lanes[l] == s.lanes[l]
    requires forall l | l in s.active ::
               ThreadStep(program, ctx, l, Running(s.pc, s.lanes[l]), store)
               == Advanced(AtPc(s1.pc, s1.lanes[l], |program|), store)
    ensures Partition(s1) && QuietIssue(program, ctx, s, s1, store)
  {
    QuietIssueFrom(program, ctx, s, s1, store);
  }

  lemma DivergePartition(s: WarpState, exec: Mask, e: Entry)
    requires Partition(s) && exec <= s.active && exec != s.active && e.mask == s.active - exec
    ensures Partition(s.(stack := s.stack + [e], active := exec))
  {
    NothingLeft(s.active, exec);
    HeldOfPush(s.stack, e);
    SeparatedOfPush(s.stack, e, exec);
    assert exec + e.mask == s.active;
  }

  lemma DivergeLanePc(s: WarpState, exec: Mask, e: Entry, pc: u16, l: nat)
    requires Partition(s) && exec <= s.active && e.mask == s.active - exec && l in s.live
    ensures LanePc(s.(stack := s.stack + [e], active := exec, pc := pc), l)
            == if l in exec then pc else if l in s.active then e.resume else LanePc(s, l)
  {
    SeparatedFrom(s.stack, s.active);
    assert Below(s.stack + [e]) == s.stack && Top(s.stack + [e]) == e;
  }

  lemma DivergeIssue(program: seq<Instruction>, ctx: LaunchContext, s: WarpState, store: Store)
    requires Ready(program, s) && program[s.pc].op == Bra && program[s.pc].guard.present
    requires var exec := Exec(program[s.pc], s); exec != {} && exec != s.active
    ensures var s1 := Branch(program[s.pc], Exec(program[s.pc], s), s);
            && Partition(s1) && |s1.stack| == |s.stack| + 1 && QuietIssue(program, ctx, s, s1, store)
  {
    var i := program[s.pc];
    var exec := Exec(i, s);
    NothingLeft(s.active, exec);
    var s1 := Branch(i, exec, s);
    var e := Entry(i.Reconvergence(), NextPc(s.pc), s.active - exec);
    DivergePartition(s, exec, e);
    forall l | l in s.live
      ensures LanePc(s1, l) == if l in exec then i.Target() else if l in s.active then NextPc(s.pc) else LanePc(s, l)
    {
      DivergeLanePc(s, exec, e, i.Target(), l);
    }
    QuietIssueFrom(program, ctx, s, s1, store);
  }

  lemma ExitIssue(program: seq<Instruction>, ctx: LaunchContext, s: WarpState, store: Store)
    requires Ready(program, s) && program[s.pc].op == Exit
    ensures var s1 := Retire(s, Exec(program[s.pc], s)).(pc := NextPc(s.pc));
            && Partition(s1) && s1.stack == s.stack && QuietIssue(program, ctx, s, s1, store)
  {
    var exec := Exec(program[s.pc], s);
    var s1 := Retire(s, exec).(pc := NextPc(s.pc));
    RetireKeepsPartition(s, exec);
    forall l | 0 <= l < WARP_SIZE && l !in s.active
      ensures View(s1, |program|)[l] == View(s, |program|)[l]
    {
    }
    forall l | l in s.active
      ensures ThreadStep(program, ctx, l, Running(s.pc, s.lanes[l]), store) == Advanced(View(s1, |program|)[l], store)
    {
      ExitLane(program, s, l);
    }
    QuietIssueFrom(program, ctx, s, s1, store);
  }

  lemma ExitLane(program: seq<Instruction>, s: WarpState, l: nat)
    requires Ready(program, s) && program[s.pc].op == Exit && l in s.active
    ensures var s1 := Retire(s, Exec(program[s.pc], s)).(pc := NextPc(s.pc));
            View(s1, |program|)[l] == if GuardHolds(program[s.pc], s.lanes[l]) then Retired(s.lanes[l])
                                      else AtPc(NextPc(s.pc), s.lanes[l], |program|)
  {
    SeparatedFrom(s.stack, s.active);
  }

  /** The stack is empty exactly when every live lane is active. */
  lemma StackEmptyIffWhole(s: WarpState)
    requires Partition(s)
    ensures s.stack == [] <==> s.active == s.live
  {
    SeparatedFrom(s.stack, s.active);
    if s.stack != [] {
      assert Top(s.stack).mask <= Held(s.stack);
      var l :| l in Top(s.stack).mask;
      assert l in s.live && l !in s.active;
    }
  }

  /** The active threads of `s` have each taken one step, in lane order. */
  ghost predicate Completes(program: seq<Instruction>, ctx: LaunchContext, s: WarpState, store: Store, s1: WarpState, store1: Store)
    requires Ready(program, s)
  {
    && Partition(s1)
    && Run(program, ctx, Ascending(s.active, 0), Machine(View(s, |program|), store))
       == Some(Machine(View(s1, |program|), store1))
  }

  /** The active threads below `lane` have stepped, leaving memory `store1`, and the thread of `lane` faults. */
  ghost predicate FaultsAt(program: seq<Instruction>, ctx: LaunchContext, s: WarpState, store: Store, lane: nat,
                           error: AccessError, address: u32, store1: Store)
    requires Ready(program, s)
  {
    && lane in s.active
    && var before := Run(program, ctx, Ascending(s.active - FromLane(lane), 0), Machine(View(s, |program|), store));
       && before.Some? && before.value.store == store1
       && CanStep(program, before.value.threads, lane)
       && ThreadStep(program, ctx, lane, before.value.threads[lane], store1) == ThreadFault(error, address)
  }

  /** What an issue is, in terms of threads. */
  ghost predicate IssueRefines(program: seq<Instruction>, ctx: LaunchContext, s: WarpState, m: MemoryImage, r: StepResult)
    requires Ready(program, s)
  {
    match r
    case Stepped(outcome, s1, m1) => outcome != Finished && Completes(program, ctx, s, m.store, s1, m1.store)
    case Faulted(f, s1, m1) =>
      match f.kind
      case DivergentBarrier => program[s.pc].op == BarSync && s.stack != []
      case Access(e) => FaultsAt(program, ctx, s, m.store, f.lane, e, f.address, m1.store)
  }

  lemma MidSweepStart(s: WarpState, n: nat)
    ensures MidSweep(s, n, s.active, s.lanes, 0) == View(s, n)
  {
    hide View;
  }

  lemma MidSweepEnd(s: WarpState, s1: WarpState, n: nat)
    requires Partition(s) && s1.pc == NextPc(s.pc) && s1.active == s.active && s1.live == s.live && s1.stack == s.stack
    requires forall l | 0 <= l < WARP_SIZE && l !in s.active :: s1.lanes[l] == s.lanes[l]
    ensures MidSweep(s, n, s.active, s1.lanes, WARP_SIZE) == View(s1, n)
  {
    forall l | 0 <= l < WARP_SIZE && l !in s.active ensures View(s1, n)[l] == View(s, n)[l] { }
  }

  lemma MemoryIssueDone(program: seq<Instruction>, ctx: LaunchContext, s: WarpState, s1: WarpState, store: Store)
    requires Ready(program, s) && IsMemory(program[s.pc].op)
    requires var sweep := SweepOf(program, 0, s, s.lanes, store);
             sweep.Swept? && s1.lanes == sweep.lanes
    requires s1.pc == NextPc(s.pc) && s1.active == s.active && s1.live == s.live && s1.stack == s.stack
    ensures Completes(program, ctx, s, store, s1, SweepOf(program, 0, s, s.lanes, store).store)
  {
    hide AccessLane, AluLane, ThreadStep, Run, GuardHolds, AddressOf, SweepFrom, View, MidSweep, Ascending;
    SweepRound(program, ctx, 0, s, s.lanes, store);
    SweepFrame(program[s.pc], 0, Exec(program[s.pc], s), s.lanes, store);
    MidSweepStart(s, |program|);
    MidSweepEnd(s, s1, |program|);
  }

  lemma MemoryIssueFault(program: seq<Instruction>, ctx: LaunchContext, s: WarpState, store: Store)
    requires Ready(program, s) && IsMemory(program[s.pc].op)
    requires SweepOf(program, 0, s, s.lanes, store).SweepFault?
    ensures var f := SweepOf(program, 0, s, s.lanes, store);
            FaultsAt(program, ctx, s, store, f.lane, f.error, f.address, f.store)
  {
    hide AccessLane, AluLane, ThreadStep, Run;
    var f := SweepOf(program, 0, s, s.lanes, store);
    SweepRound(program, ctx, 0, s, s.lanes, store);
    SweepFrame(program[s.pc], 0, Exec(program[s.pc], s), s.lanes, store);
    MidSweepStart(s, |program|);
    MemoryThread(program, ctx, s, f.lane, f.store);
    assert MidSweep(s, |program|, s.active, f.lanes, f.lane)[f.lane] == Running(s.pc, s.lanes[f.lane]);
  }

  lemma MemoryIssueRefines(program: seq<Instruction>, ctx: LaunchContext, s: WarpState, m: MemoryImage)
    requires Ready(program, s) && IsMemory(program[s.pc].op)
    ensures var t := s.(lastExec := Exec(program[s.pc], s), lastOp := program[s.pc].op);
            IssueRefines(program, ctx, s, m, MemoryIssue(program[s.pc], Exec(program[s.pc], s), t, m, ctx))
  {
    hide SweepFrom, Observe, Completes, FaultsAt;
    var exec := Exec(program[s.pc], s);
    var t := s.(lastExec := exec, lastOp := program[s.pc].op);
    var sweep := SweepOf(program, 0, s, s.lanes, m.store);
    if sweep.Swept? {
      MemoryIssueDone(program, ctx, s, t.(lanes := sweep.lanes, pc := NextPc(s.pc)), m.store);
    } else {
      MemoryIssueFault(program, ctx, s, m.store);
    }
  }

  lemma BranchIssueRefines(program: seq<Instruction>, ctx: LaunchContext, s: WarpState, m: MemoryImage)
    requires Ready(program, s) && program[s.pc].op == Bra
    ensures IssueRefines(program, ctx, s, m, Issue(program, ctx, s, m))
  {
    var i := program[s.pc];
    var exec := Exec(i, s);
    var t := s.(lastExec := exec, lastOp := i.op);
    assert View(t, |program|) == View(s, |program|);
    NothingLeft(s.active, exec);
    if i.guard.present && exec != {} && exec != s.active {
      DivergeIssue(program, ctx, t, m.store);
    } else {
      assert forall l | l in s.active :: GuardHolds(i, s.lanes[l]) <==> l in exec;
      MoveAll(program, ctx, t, Branch(i, exec, t), m.store);
    }
  }

  lemma AluIssueRefines(program: seq<Instruction>, ctx: LaunchContext, s: WarpState, store: Store)
    requires Ready(program, s) && IsAlu(program[s.pc].op)
    ensures var exec := Exec(program[s.pc], s);
            var t := s.(lastExec := exec, lastOp := program[s.pc].op);
            Completes(program, ctx, s, store,
                      t.(lanes := AluBank(program[s.pc], exec, s.lanes, ctx), pc := NextPc(s.pc)), store)
  {
    hide AluLane, Run, Ascending;
    var exec := Exec(program[s.pc], s);
    var t := s.(lastExec := exec, lastOp := program[s.pc].op);
    MoveAll(program, ctx, s, t.(lanes := AluBank(program[s.pc], exec, s.lanes, ctx), pc := NextPc(s.pc)), store);
  }

  lemma BarrierIssueRefines(program: seq<Instruction>, ctx: LaunchContext, s: WarpState, store: Store)
    requires Ready(program, s) && program[s.pc].op == BarSync
    ensures var t := s.(lastExec := Exec(program[s.pc], s), lastOp := program[s.pc].op);
            Completes(program, ctx, s, store, t.(parked := true, pc := NextPc(s.pc)), store)
  {
    hide AluLane, Run, Ascending;
    var t := s.(lastExec := Exec(program[s.pc], s), lastOp := program[s.pc].op);
    MoveAll(program, ctx, s, t.(parked := true, pc := NextPc(s.pc)), store);
  }

  lemma ExitIssueRefines(program: seq<Instruction>, ctx: LaunchContext, s: WarpState, store: Store)
    requires Ready(program, s) && program[s.pc].op == Exit
    ensures var exec := Exec(program[s.pc], s);
            var t := s.(lastExec := exec, lastOp := program[s.pc].op);
            Completes(program, ctx, s, store, Retire(t, exec).(pc := NextPc(s.pc)), store)
  {
    hide AluLane, ThreadStep, Run, Ascending;
    var t := s.(lastExec := Exec(program[s.pc], s), lastOp := program[s.pc].op);
    assert View(t, |program|) == View(s, |program|);
    ExitIssue(program, ctx, t, store);
  }

  lemma BarrierFaults(program: seq<Instruction>, ctx: LaunchContext, s: WarpState, m: MemoryImage)
    requires Ready(program, s)
    ensures Issue(program, ctx, s, m).Faulted? && Issue(program, ctx, s, m).fault.kind == DivergentBarrier
            <==> program[s.pc].op == BarSync && s.stack != []
  {
    hide SweepFrom, Observe, Exec, AluBank;
    StackEmptyIffWhole(s);
  }

  /** Every issue, whatever reconvergence PCs the program records, is one step of each active thread in
      lane order; an access fault is the fault of the first thread that faults, after the threads of
      the lanes before it have stepped; the only other fault is a barrier in divergent code. */
  lemma IssueIsRound(program: seq<Instruction>, ctx: LaunchContext, s: WarpState, m: MemoryImage)
    requires Ready(program, s)
    ensures IssueRefines(program, ctx, s, m, Issue(program, ctx, s, m))
    ensures Issue(program, ctx, s, m).Faulted? && Issue(program, ctx, s, m).fault.kind == DivergentBarrier
            <==> program[s.pc].op == BarSync && s.stack != []
  {
    hide Completes, FaultsAt, MemoryIssue, AluBank, Exec, Partition;
    BarrierFaults(program, ctx, s, m);
    var op := program[s.pc].op;
    if op == Bra {
      BranchIssueRefines(program, ctx, s, m);
    } else if op == Exit {
      ExitIssueRefines(program, ctx, s, m.store);
    } else if op == BarSync {
      BarrierIssueRefines(program, ctx, s, m.store);
    } else if IsMemory(op) {
      MemoryIssueRefines(program, ctx, s, m);
    } else {
      AluIssueRefines(program, ctx, s, m.store);
    }
  }
}
