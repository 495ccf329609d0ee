/** The block scheduler as a state machine on values: round-robin issue, parking at barriers, and release.
    The history of a block (barrier arrivals, turns since the last release, the issue log) is part of the
    state, so that what whole runs keep can be stated. */
module Scheduling {
  import opened Isa
  import opened Alu
  import opened Collections
  import opened WarpSpec
  import opened Refinement
  import opened WarpRuns

  datatype Counters = Counters(issued: nat, alu: nat, memory: nat, control: nat, barrier: nat,
                               divergent: nat, reconverged: nat, completed: nat, laneSum: nat,
                               histogram: seq<nat>, warps: nat)

  function ZeroCounters(): Counters { Counters(0, 0, 0, 0, 0, 0, 0, 0, 0, seq(WARP_SIZE + 1, _ => 0), 0) }

  /** One issue: which warp, how many barriers that warp had issued before, the opcode, and on how many lanes. */
  datatype Event = Event(warp: nat, phase: nat, op: Opcode, lanes: nat)

  datatype Block = Block(warps: seq<WarpState>, memory: MemoryImage, counters: Counters, phase: nat,
                         arrivals: seq<nat>, turns: seq<nat>, log: seq<Event>)

  ghost predicate Shaped(b: Block) {
    |b.arrivals| == |b.turns| == |b.warps| && |b.counters.histogram| == WARP_SIZE + 1
  }

  predicate Runnable(s: WarpState) { s.live != {} && !s.parked }

  function TallyLanes(c: Counters, lanes: nat): Counters
    requires lanes < |c.histogram|
  {
    c.(issued := c.issued + 1, laneSum := c.laneSum + lanes,
       histogram := c.histogram[lanes := c.histogram[lanes] + 1])
  }

  datatype Class = ControlClass | BarrierClass | MemoryClass | AluClass

  /** The counter class of an opcode. */
  function ClassOf(op: Opcode): Class {
    match op
    case Bra | Exit => ControlClass
    case BarSync => BarrierClass
    case LdGlobal | StGlobal | LdShared | StShared | LdParam => MemoryClass
    case _ => AluClass
  }

  function TallyClass(c: Counters, op: Opcode): Counters {
    match ClassOf(op)
    case ControlClass => c.(control := c.control + 1)
    case BarrierClass => c.(barrier := c.barrier + 1)
    case MemoryClass => c.(memory := c.memory + 1)
    case AluClass => c.(alu := c.alu + 1)
  }

  /** The counters after one issue that executed on `lanes` lanes. */
  function Tally(c: Counters, lanes: nat, op: Opcode): Counters
    requires lanes < |c.histogram|
  {
    TallyClass(TallyLanes(c, lanes), op)
  }

  function ContextOf(base: LaunchContext, w: nat): LaunchContext { base.(warpId := w) }

  datatype Progress = Going(block: Block) | Failed(fault: Fault, block: Block)

  /** The block after warp `w` has taken an issue that was not its last. */
  ghost function Record(b: Block, w: nat, outcome: Outcome, s: WarpState, m: MemoryImage): (b1: Block)
    requires Shaped(b) && w < |b.warps|
    ensures Shaped(b1) && |b1.warps| == |b.warps|
  {
    MaskSize(s.lastExec);
    b.(warps := b.warps[w := s], memory := m,
       counters := Tally(b.counters, |s.lastExec|, s.lastOp),
       turns := b.turns[w := b.turns[w] + 1],
       arrivals := if outcome == Barrier then b.arrivals[w := b.arrivals[w] + 1] else b.arrivals,
       log := b.log + [Event(w, b.arrivals[w], s.lastOp, |s.lastExec|)])
  }

  /** The turn of warp `w` in a pass: at most one issue, none if it has finished or is parked. */
  ghost function Turn(program: seq<Instruction>, base: LaunchContext, b: Block, w: nat): (p: Progress)
    requires ValidProgram(program) && Shaped(b) && w < |b.warps|
    ensures Shaped(p.block) && |p.block.warps| == |b.warps|
  {
    if !Runnable(b.warps[w]) then Going(b)
    else match Step(program, ContextOf(base, w), b.warps[w], b.memory)
      case Faulted(f, s, m) => Failed(f, b.(warps := b.warps[w := s], memory := m))
      case Stepped(outcome, s, m) =>
        if outcome == Finished then Going(b.(warps := b.warps[w := s], memory := m))
        else Going(Record(b, w, outcome, s, m))
  }

  /** The turns of the warps from `w` on. */
  ghost function Pass(program: seq<Instruction>, base: LaunchContext, b: Block, w: nat): (p: Progress)
    requires ValidProgram(program) && Shaped(b) && w <= |b.warps|
    ensures Shaped(p.block) && |p.block.warps| == |b.warps|
    decreases |b.warps| - w
  {
    if w == |b.warps| then Going(b)
    else match Turn(program, base, b, w)
      case Failed(f, b1) => Failed(f, b1)
      case Going(b1) => Pass(program, base, b1, w + 1)
  }

  ghost predicate AllFinished(b: Block) {
    forall w | 0 <= w < |b.warps| :: b.warps[w].live == {}
  }

  /** Every unfinished warp waits at the barrier. */
  ghost predicate AllParked(b: Block) {
    forall w | 0 <= w < |b.warps| && b.warps[w].live != {} :: b.warps[w].parked
  }

  ghost predicate AnyRunnable(b: Block) {
    exists w :: 0 <= w < |b.warps| && Runnable(b.warps[w])
  }

  function Unpark(warps: seq<WarpState>): (r: seq<WarpState>)
    ensures |r| == |warps| && forall w | 0 <= w < |warps| :: r[w] == warps[w].(parked := false)
  {
    seq(|warps|, w requires 0 <= w < |warps| => warps[w].(parked := false))
  }

  /** The barrier completes and all warps are released. */
  ghost function Release(b: Block): (r: Block)
    requires Shaped(b)
    ensures Shaped(r) && |r.warps| == |b.warps|
  {
    b.(warps := Unpark(b.warps), phase := b.phase + 1,
       counters := b.counters.(completed := b.counters.completed + 1),
       turns := seq(|b.warps|, _ => 0))
  }

  datatype BlockResult = Completed(block: Block) | BlockFault(fault: Fault, block: Block)
                       | NoProgress(block: Block) | OutOfFuel(block: Block)

  /** Passes until every warp has finished, at most `fuel` of them. */
  ghost function RunBlock(program: seq<Instruction>, base: LaunchContext, b: Block, fuel: nat): (r: BlockResult)
    requires ValidProgram(program) && Shaped(b)
    ensures Shaped(r.block)
    decreases fuel
  {
    if fuel == 0 then OutOfFuel(b)
    else match Pass(program, base, b, 0)
      case Failed(f, b1) => BlockFault(f, b1)
      case Going(b1) =>
        if AllFinished(b1) then Completed(b1)
        else if AllParked(b1) then RunBlock(program, base, Release(b1), fuel - 1)
        else if !AnyRunnable(b) then NoProgress(b1)
        else RunBlock(program, base, b1, fuel - 1)
  }

  /** A turn leaves the other warps as they are. */
  lemma TurnElsewhere(program: seq<Instruction>, base: LaunchContext, b: Block, w: nat)
    requires ValidProgram(program) && Shaped(b) && w < |b.warps|
    ensures forall v | 0 <= v < |b.warps| && v != w :: Turn(program, base, b, w).block.warps[v] == b.warps[v]
  {
    hide Step, Tally;
  }

  lemma RecordParts(b: Block, w: nat, outcome: Outcome, s: WarpState, m: MemoryImage)
    requires Shaped(b) && w < |b.warps|
    ensures Record(b, w, outcome, s, m).warps == b.warps[w := s] && Record(b, w, outcome, s, m).memory == m
  {
  }

  // ---- counters ----

  function Sum(h: seq<nat>): nat {
    if h == [] then 0 else Sum(h[..|h| - 1]) + h[|h| - 1]
  }

  /** The sum of `k * h[k]`. */
  function Weighted(h: seq<nat>): nat {
    if h == [] then 0 else Weighted(h[..|h| - 1]) + (|h| - 1) * h[|h| - 1]
  }

  lemma {:induction false} SumUpdate(h: seq<nat>, k: nat)
    requires k < |h|
    ensures Sum(h[k := h[k] + 1]) == Sum(h) + 1
    ensures Weighted(h[k := h[k] + 1]) == Weighted(h) + k
  {
    var g := h[k := h[k] + 1];
    if k == |h| - 1 {
      assert g[..|g| - 1] == h[..|h| - 1];
      assert k * (h[k] + 1) == k * h[k] + k;
    } else {
      SumUpdate(h[..|h| - 1], k);
      assert g[..|g| - 1] == h[..|h| - 1][k := h[k] + 1];
    }
  }

  lemma {:induction false} SumBelow(g: seq<nat>, h: seq<nat>)
    requires |g| == |h| && forall k | 0 <= k < |h| :: g[k] <= h[k]
    ensures Sum(g) <= Sum(h)
    ensures (exists k :: 0 <= k < |h| && g[k] < h[k]) ==> Sum(g) < Sum(h)
  {
    if h != [] { SumBelow(g[..|g| - 1], h[..|h| - 1]); }
  }

  /** Every issue is of exactly one class and has exactly one lane count. */
  ghost predicate Balanced(c: Counters) {
    && c.issued == c.alu + c.memory + c.control + c.barrier
    && c.issued == Sum(c.histogram)
    && c.laneSum == Weighted(c.histogram)
  }

  lemma TallyKeepsBalance(c: Counters, lanes: nat, op: Opcode)
    requires Balanced(c) && lanes < |c.histogram|
    ensures Balanced(Tally(c, lanes, op))
  {
    hide Sum, Weighted, ClassOf;
    SumUpdate(c.histogram, lanes);
    var d := Tally(c, lanes, op);
    assert d.histogram == c.histogram[lanes := c.histogram[lanes] + 1];
    assert d.issued == c.issued + 1 && d.laneSum == c.laneSum + lanes;
    assert d.alu + d.memory + d.control + d.barrier == c.alu + c.memory + c.control + c.barrier + 1;
  }

  lemma {:induction false} SumZero(n: nat)
    ensures Sum(seq(n, _ => 0)) == 0 && Weighted(seq(n, _ => 0)) == 0
  {
    if n > 0 {
      SumZero(n - 1);
      assert seq(n, _ => 0)[..n - 1] == seq(n - 1, _ => 0);
    }
  }

  lemma ZeroBalanced()
    ensures Balanced(ZeroCounters())
  {
    SumZero(WARP_SIZE + 1);
  }

  // ---- what one issue does to a warp's status ----

  lemma {:induction false} ResolveKeepsParked(s: WarpState)
    ensures Resolve(s).parked == s.parked
    decreases Weight(s.stack)
  {
    if MustPop(s) {
      PopIsLighter(s);
      ResolveKeepsParked(PopTop(s));
    }
  }

  lemma {:induction false} SettleKeepsParked(s: WarpState, n: nat)
    ensures Settle(s, n).parked == s.parked
    decreases Weight(s.stack), if s.active == {} then 0 else 1
  {
    ResolveKeepsParked(s);
    ResolveIsLighter(s);
    var r := Resolve(s);
    if r.active != {} && r.pc >= n {
      RetireKeepsWeight(r.stack, r.active);
      SettleKeepsParked(Retire(r, r.active), n);
    }
  }

  /** The status of a warp after a step: parked exactly after a barrier, without lanes after the end. */
  ghost predicate StatusAfter(s: WarpState, step: StepResult) {
    match step
    case Faulted(_, _, _) => true
    case Stepped(Finished, t, _) => t.live == {} && !t.parked
    case Stepped(Barrier, t, _) => t.live != {} && t.parked && t.lastOp == BarSync
    case Stepped(Issued, t, _) => !t.parked && t.lastOp != BarSync
  }

  lemma IssueStatus(program: seq<Instruction>, ctx: LaunchContext, s: WarpState, m: MemoryImage)
    requires Ready(program, s) && !s.parked
    ensures StatusAfter(s, Issue(program, ctx, s, m))
  {
    hide SweepFrom, Observe, AluBank, Exec, Separated;
  }

  lemma StepStatus(program: seq<Instruction>, ctx: LaunchContext, s: WarpState, m: MemoryImage)
    requires ValidProgram(program) && Invariant(s) && !s.parked
    ensures StatusAfter(s, Step(program, ctx, s, m))
  {
    hide Issue, View, AllRetired, IssueRefines;
    StepOutcome(program, ctx, s, m);
    SettleKeepsParked(s, |program|);
    var r := Settle(s, |program|);
    if Ready(program, r) { IssueStatus(program, ctx, r, m); }
  }

  // ---- barrier phases ----

  /** A running warp has issued as many barriers as have completed, a parked one has issued one more, and
      a finished one no more than that. */
  ghost predicate PhaseOf(s: WarpState, arrivals: nat, phase: nat) {
    && (s.parked ==> s.live != {})
    && (s.live == {} ==> arrivals <= phase)
    && (s.live != {} ==> arrivals == if s.parked then phase + 1 else phase)
  }

  /** The number of barriers warp `w` has issued according to a log. */
  ghost function Barriers(log: seq<Event>, w: nat): nat {
    if log == [] then 0
    else
      var last := log[|log| - 1];
      Barriers(log[..|log| - 1], w) + (if last.warp == w && last.op == BarSync then 1 else 0)
  }

  /** Each event carries the number of barriers its warp had issued before it, and these never decrease
      along the log. */
  ghost predicate PhasedLog(log: seq<Event>, phase: nat) {
    && (forall i | 0 <= i < |log| :: log[i].phase == Barriers(log[..i], log[i].warp) && log[i].phase <= phase)
    && (forall i, j | 0 <= i < j < |log| :: log[i].phase <= log[j].phase)
  }

  ghost predicate Phased(b: Block) {
    && Shaped(b)
    && (forall w | 0 <= w < |b.warps| :: Invariant(b.warps[w]))
    && (forall w | 0 <= w < |b.warps| :: PhaseOf(b.warps[w], b.arrivals[w], b.phase))
    && (forall w | 0 <= w < |b.warps| :: b.arrivals[w] == Barriers(b.log, w))
    && (b.phase > 0 ==> exists w :: 0 <= w < |b.warps| && b.arrivals[w] >= b.phase)
    && PhasedLog(b.log, b.phase)
  }

  lemma BarriersStep(log: seq<Event>, e: Event, w: nat)
    ensures Barriers(log + [e], w) == Barriers(log, w) + (if e.warp == w && e.op == BarSync then 1 else 0)
  {
    assert (log + [e])[..|log|] == log;
  }

  lemma LogGrows(log: seq<Event>, e: Event, phase: nat)
    requires PhasedLog(log, phase) && e.phase == phase == Barriers(log, e.warp)
    ensures PhasedLog(log + [e], phase)
  {
    var longer := log + [e];
    forall i | 0 <= i < |longer|
      ensures longer[i].phase == Barriers(longer[..i], longer[i].warp) && longer[i].phase <= phase
    {
      assert longer[..i] == log[..i];
      assert log[..|log|] == log;
    }
  }

  /** A running warp's turn keeps the phases. */
  lemma RecordPhased(b: Block, w: nat, outcome: Outcome, s: WarpState, m: MemoryImage)
    requires Phased(b) && w < |b.warps| && Runnable(b.warps[w]) && outcome != Finished
    requires Invariant(s) && StatusAfter(b.warps[w], Stepped(outcome, s, m))
    ensures Phased(Record(b, w, outcome, s, m))
  {
    hide Invariant, PhasedLog;
    var b1 := Record(b, w, outcome, s, m);
    var e := Event(w, b.arrivals[w], s.lastOp, |s.lastExec|);
    assert PhaseOf(b.warps[w], b.arrivals[w], b.phase);
    LogGrows(b.log, e, b.phase);
    forall v | 0 <= v < |b.warps|
      ensures PhaseOf(b1.warps[v], b1.arrivals[v], b1.phase) && b1.arrivals[v] == Barriers(b1.log, v)
      ensures b1.arrivals[v] >= b.arrivals[v]
    {
      assert PhaseOf(b.warps[v], b.arrivals[v], b.phase);
      BarriersStep(b.log, e, v);
    }
    if b.phase > 0 {
      var v :| 0 <= v < |b.warps| && b.arrivals[v] >= b.phase;
      assert b1.arrivals[v] >= b1.phase;
    }
  }

  lemma FinishPhased(b: Block, w: nat, s: WarpState, m: MemoryImage)
    requires Phased(b) && w < |b.warps| && Runnable(b.warps[w])
    requires Invariant(s) && s.live == {} && !s.parked
    ensures Phased(b.(warps := b.warps[w := s], memory := m))
  {
    hide Invariant, PhasedLog, Barriers;
    var b1 := b.(warps := b.warps[w := s], memory := m);
    assert PhaseOf(b.warps[w], b.arrivals[w], b.phase);
    forall v | 0 <= v < |b.warps| ensures PhaseOf(b1.warps[v], b1.arrivals[v], b1.phase) {
      assert PhaseOf(b.warps[v], b.arrivals[v], b.phase);
    }
    if b.phase > 0 {
      var v :| 0 <= v < |b.warps| && b.arrivals[v] >= b.phase;
      assert b1.arrivals[v] >= b1.phase;
    }
  }

  /** A turn keeps the phases. */
  lemma TurnPhased(program: seq<Instruction>, base: LaunchContext, b: Block, w: nat)
    requires ValidProgram(program) && Phased(b) && w < |b.warps|
    ensures Turn(program, base, b, w).Going? ==> Phased(Turn(program, base, b, w).block)
    ensures PhasedLog(Turn(program, base, b, w).block.log, Turn(program, base, b, w).block.phase)
  {
    hide Step, Invariant, Record, PhasedLog, PhaseOf, Barriers;
    var ctx := base.(warpId := w);
    var s := b.warps[w];
    if Runnable(s) {
      StepStatus(program, ctx, s, b.memory);
      StepKeepsInvariant(program, ctx, s, b.memory);
      match Step(program, ctx, s, b.memory)
      case Faulted(_, _, _) =>
      case Stepped(outcome, t, m) =>
        if outcome == Finished {
          FinishPhased(b, w, t, m);
        } else {
          RecordPhased(b, w, outcome, t, m);
        }
    }
  }

  lemma {:induction false} PassPhased(program: seq<Instruction>, base: LaunchContext, b: Block, w: nat)
    requires ValidProgram(program) && Phased(b) && w <= |b.warps|
    ensures Pass(program, base, b, w).Going? ==> Phased(Pass(program, base, b, w).block)
    ensures PhasedLog(Pass(program, base, b, w).block.log, Pass(program, base, b, w).block.phase)
    decreases |b.warps| - w
  {
    hide Phased, Turn, PhasedLog;
    PhasedHasLog(b);
    if w < |b.warps| {
      TurnPhased(program, base, b, w);
      match Turn(program, base, b, w)
      case Failed(_, _) =>
      case Going(b1) => PassPhased(program, base, b1, w + 1);
    }
  }

  lemma PhasedHasLog(b: Block)
    requires Phased(b)
    ensures Shaped(b) && PhasedLog(b.log, b.phase)
  {
  }

  /** Releasing a completed barrier starts the next phase. */
  lemma ReleasePhased(b: Block)
    requires Phased(b) && AllParked(b) && !AllFinished(b)
    ensures Phased(Release(b))
  {
    hide Barriers, Partition;
    var b1 := Release(b);
    forall w | 0 <= w < |b.warps|
      ensures PhaseOf(b1.warps[w], b1.arrivals[w], b1.phase) && Invariant(b1.warps[w])
    {
      assert PhaseOf(b.warps[w], b.arrivals[w], b.phase);
      UnparkKeepsInvariant(b.warps[w]);
    }
    var w :| 0 <= w < |b.warps| && b.warps[w].live != {};
    assert PhaseOf(b.warps[w], b.arrivals[w], b.phase);
    assert b1.arrivals[w] >= b1.phase;
  }

  lemma UnparkKeepsInvariant(s: WarpState)
    requires Invariant(s)
    ensures Invariant(s.(parked := false))
  {
  }

  // ---- fairness and progress ----

  /** Since the last release every runnable warp has issued `passes` instructions, those below `w` one more. */
  ghost predicate Fair(b: Block, passes: nat, w: nat) {
    Shaped(b) && forall v | 0 <= v < |b.warps| && Runnable(b.warps[v]) :: b.turns[v] == if v < w then passes + 1 else passes
  }

  lemma TurnFair(program: seq<Instruction>, base: LaunchContext, b: Block, passes: nat, w: nat)
    requires ValidProgram(program) && Phased(b) && Fair(b, passes, w) && w < |b.warps|
    ensures Turn(program, base, b, w).Going? ==> Fair(Turn(program, base, b, w).block, passes, w + 1)
  {
    hide Step, Invariant, PhasedLog, PhaseOf, Barriers;
    if Runnable(b.warps[w]) {
      StepStatus(program, ContextOf(base, w), b.warps[w], b.memory);
    }
  }

  /** After a pass every warp that can still run has had the same number of turns since the release. */
  lemma {:induction false} PassFair(program: seq<Instruction>, base: LaunchContext, b: Block, passes: nat, w: nat)
    requires ValidProgram(program) && Phased(b) && Fair(b, passes, w) && w <= |b.warps|
    ensures Pass(program, base, b, w).Going? ==> Fair(Pass(program, base, b, w).block, passes + 1, 0)
    decreases |b.warps| - w
  {
    hide Phased, Turn;
    if w < |b.warps| {
      TurnFair(program, base, b, passes, w);
      TurnPhased(program, base, b, w);
      match Turn(program, base, b, w)
      case Failed(_, _) =>
      case Going(b1) => PassFair(program, base, b1, passes, w + 1);
    }
  }

  /** A turn logs at most one issue, by its own warp. */
  lemma TurnLogs(program: seq<Instruction>, base: LaunchContext, b: Block, w: nat)
    requires ValidProgram(program) && Shaped(b) && w < |b.warps|
    ensures var log := Turn(program, base, b, w).block.log;
            log == b.log || (|log| == |b.log| + 1 && log[..|b.log|] == b.log && log[|b.log|].warp == w)
  {
    hide Step, Tally;
  }

  /** The issues of a pass are by different warps, in the order of their numbers. */
  lemma {:induction false} PassInOrder(program: seq<Instruction>, base: LaunchContext, b: Block, w: nat)
    requires ValidProgram(program) && Shaped(b) && w <= |b.warps|
    ensures var log := Pass(program, base, b, w).block.log;
            && |b.log| <= |log| && log[..|b.log|] == b.log
            && (forall i | |b.log| <= i < |log| :: w <= log[i].warp)
            && (forall i, j | |b.log| <= i < j < |log| :: log[i].warp < log[j].warp)
    decreases |b.warps| - w
  {
    hide Turn;
    if w < |b.warps| {
      TurnLogs(program, base, b, w);
      match Turn(program, base, b, w)
      case Failed(_, _) =>
      case Going(b1) =>
        PassInOrder(program, base, b1, w + 1);
        var log := Pass(program, base, b1, w + 1).block.log;
        assert log[..|b.log|] == log[..|b1.log|][..|b.log|];
        assert forall i | |b.log| <= i < |b1.log| :: log[i] == b1.log[i];
    }
  }

  /** A pass makes no warp runnable. */
  lemma {:induction false} PassOnlyStops(program: seq<Instruction>, base: LaunchContext, b: Block, w: nat, v: nat)
    requires ValidProgram(program) && Shaped(b) && w <= |b.warps| && v < |b.warps|
    requires Pass(program, base, b, w).Going? && Runnable(Pass(program, base, b, w).block.warps[v])
    ensures Runnable(b.warps[v])
    decreases |b.warps| - w
  {
    hide Step;
    if w < |b.warps| {
      PassOnlyStops(program, base, Turn(program, base, b, w).block, w + 1, v);
    }
  }

  // ---- counters of whole runs ----

  /** The issues of a log whose opcode is in `ops`. */
  ghost function IssuesOf(log: seq<Event>, ops: set<Opcode>): nat {
    if log == [] then 0
    else IssuesOf(log[..|log| - 1], ops) + (if log[|log| - 1].op in ops then 1 else 0)
  }

  /** The issues of a log that executed on exactly `k` lanes. */
  ghost function IssuesOn(log: seq<Event>, k: nat): nat {
    if log == [] then 0
    else IssuesOn(log[..|log| - 1], k) + (if log[|log| - 1].lanes == k then 1 else 0)
  }

  ghost function LanesOf(log: seq<Event>): nat {
    if log == [] then 0 else LanesOf(log[..|log| - 1]) + log[|log| - 1].lanes
  }

  /** Since they were `c` the counters have counted the issues of the log: by class, and by number of lanes. */
  ghost predicate Logged(d: Counters, c: Counters, log: seq<Event>) {
    var control := IssuesOf(log, {Bra, Exit});
    var barrier := IssuesOf(log, {BarSync});
    var memory := IssuesOf(log, {LdGlobal, StGlobal, LdShared, StShared, LdParam});
    && d.issued == c.issued + |log|
    && d.control == c.control + control && d.barrier == c.barrier + barrier && d.memory == c.memory + memory
    && d.alu == c.alu + |log| - control - barrier - memory
    && d.laneSum == c.laneSum + LanesOf(log)
    && |d.histogram| == |c.histogram|
    && forall k | 0 <= k < |c.histogram| :: d.histogram[k] == c.histogram[k] + IssuesOn(log, k)
  }

  lemma LoggedStep(d: Counters, c: Counters, log: seq<Event>, e: Event)
    requires Logged(d, c, log) && e.lanes < |d.histogram|
    ensures Logged(Tally(d, e.lanes, e.op), c, log + [e])
  {
    var longer := log + [e];
    assert longer[..|longer| - 1] == log && longer[|longer| - 1] == e;
    OpInOneClass(e.op);
  }

  lemma OpInOneClass(op: Opcode)
    ensures ClassOf(op) == if op in {Bra, Exit} then ControlClass else if op in {BarSync} then BarrierClass
                           else if op in {LdGlobal, StGlobal, LdShared, StShared, LdParam} then MemoryClass else AluClass
  {
  }

  /** What the counters mean, for a block that started with counters `c`. */
  ghost predicate Accounted(b: Block, c: Counters) {
    && Balanced(b.counters)
    && Logged(b.counters, c, b.log)
    && b.counters.barrier == c.barrier + Sum(b.arrivals)
    && b.counters.completed == c.completed + b.phase
  }

  lemma TurnAccounted(program: seq<Instruction>, base: LaunchContext, b: Block, w: nat, c: Counters)
    requires ValidProgram(program) && Phased(b) && w < |b.warps| && Accounted(b, c)
    ensures Accounted(Turn(program, base, b, w).block, c)
  {
    hide Step, Invariant, PhasedLog, PhaseOf, Barriers, Balanced, Sum, Weighted, Logged;
    var ctx, s := ContextOf(base, w), b.warps[w];
    if Runnable(s) {
      StepStatus(program, ctx, s, b.memory);
      match Step(program, ctx, s, b.memory)
      case Faulted(_, _, _) =>
      case Stepped(outcome, t, m) =>
        if outcome != Finished {
          MaskSize(t.lastExec);
          TallyKeepsBalance(b.counters, |t.lastExec|, t.lastOp);
          LoggedStep(b.counters, c, b.log, Event(w, b.arrivals[w], t.lastOp, |t.lastExec|));
          SumUpdate(b.arrivals, w);
        }
    }
  }

  lemma {:induction false} PassAccounted(program: seq<Instruction>, base: LaunchContext, b: Block, w: nat, c: Counters)
    requires ValidProgram(program) && Phased(b) && w <= |b.warps| && Accounted(b, c)
    ensures Accounted(Pass(program, base, b, w).block, c)
    decreases |b.warps| - w
  {
    hide Phased, Turn, Accounted;
    PhasedHasLog(b);
    if w < |b.warps| {
      TurnAccounted(program, base, b, w, c);
      TurnPhased(program, base, b, w);
      match Turn(program, base, b, w)
      case Failed(_, _) =>
      case Going(b1) => PassAccounted(program, base, b1, w + 1, c);
    }
  }

  // ---- whole blocks ----

  /** `phase` is the largest number of barriers any warp has issued. */
  ghost predicate IsMax(phase: nat, arrivals: seq<nat>) {
    && (forall w | 0 <= w < |arrivals| :: arrivals[w] <= phase)
    && (phase > 0 ==> exists w :: 0 <= w < |arrivals| && arrivals[w] == phase)
  }

  lemma FinishedPhase(b: Block)
    requires Phased(b) && AllFinished(b)
    ensures IsMax(b.phase, b.arrivals)
  {
    hide Invariant, PhasedLog, Barriers;
    forall w | 0 <= w < |b.arrivals| ensures b.arrivals[w] <= b.phase {
      assert PhaseOf(b.warps[w], b.arrivals[w], b.phase);
    }
  }

  lemma ProgressMade(program: seq<Instruction>, base: LaunchContext, b: Block)
    requires ValidProgram(program) && Shaped(b) && Pass(program, base, b, 0).Going?
    requires var b1 := Pass(program, base, b, 0).block; !AllFinished(b1) && !AllParked(b1)
    ensures AnyRunnable(b)
  {
    hide Pass;
    var b1 := Pass(program, base, b, 0).block;
    var w :| 0 <= w < |b1.warps| && b1.warps[w].live != {} && !b1.warps[w].parked;
    PassOnlyStops(program, base, b, 0, w);
  }

  /** Any run of a block: the fault for no progress cannot happen, the counters balance, the log is phased,
      warps that can run have had equal turns, and at the end the completed barriers are the most any warp
      has issued. */
  ghost predicate RunOutcome(r: BlockResult, c: Counters) {
    match r
    case NoProgress(_) => false
    case BlockFault(_, b) => Accounted(b, c) && PhasedLog(b.log, b.phase)
    case OutOfFuel(b) => Phased(b) && Accounted(b, c) && exists passes: nat :: Fair(b, passes, 0)
    case Completed(b) => Phased(b) && Accounted(b, c) && AllFinished(b) && IsMax(b.phase, b.arrivals)
  }

  lemma {:induction false} RunBlockKeeps(program: seq<Instruction>, base: LaunchContext, b: Block, passes: nat, c: Counters, fuel: nat)
    requires ValidProgram(program) && Phased(b) && Fair(b, passes, 0) && Accounted(b, c)
    ensures RunOutcome(RunBlock(program, base, b, fuel), c)
    decreases fuel
  {
    hide Phased, Accounted, Pass, PhasedLog, Fair, AllFinished, AllParked, AnyRunnable, IsMax, Release;
    PhasedHasLog(b);
    if fuel > 0 {
      PassPhased(program, base, b, 0);
      PassFair(program, base, b, passes, 0);
      PassAccounted(program, base, b, 0, c);
      match Pass(program, base, b, 0)
      case Failed(_, _) =>
      case Going(b1) =>
        if AllFinished(b1) {
          FinishedPhase(b1);
        } else if AllParked(b1) {
          ReleasePhased(b1);
          ReleaseFair(b1, c);
          RunBlockKeeps(program, base, Release(b1), 0, c, fuel - 1);
        } else {
          ProgressMade(program, base, b);
          RunBlockKeeps(program, base, b1, passes + 1, c, fuel - 1);
        }
    }
  }

  lemma ReleaseFair(b: Block, c: Counters)
    requires Shaped(b) && Accounted(b, c)
    ensures Fair(Release(b), 0, 0) && Accounted(Release(b), c)
  {
  }

  // ---- the end of a block ----

  function Divergent(warps: seq<WarpState>): nat {
    if warps == [] then 0 else Divergent(warps[..|warps| - 1]) + warps[|warps| - 1].divergent
  }

  function Reconverged(warps: seq<WarpState>): nat {
    if warps == [] then 0 else Reconverged(warps[..|warps| - 1]) + warps[|warps| - 1].reconverged
  }

  /** The counters of a finished block: the divergence events of its first `k` warps are added. */
  function WithEvents(c: Counters, warps: seq<WarpState>): Counters {
    c.(divergent := c.divergent + Divergent(warps), reconverged := c.reconverged + Reconverged(warps))
  }

  /** Each divergence is followed by at most two arrivals at its reconvergence point. */
  lemma {:induction false} EventsBound(warps: seq<WarpState>)
    requires forall w | 0 <= w < |warps| :: Invariant(warps[w])
    ensures Reconverged(warps) <= 2 * Divergent(warps)
  {
    if warps != [] {
      hide Partition;
      EventsBound(warps[..|warps| - 1]);
    }
  }

  // ---- the start of a block ----

  /** The lanes of warp `w` in a block of `lanes` lanes: the last warp may be partly filled. */
  function LiveLanes(lanes: u32, w: nat): Mask {
    var first := w * WARP_SIZE;
    UpTo(if lanes <= first then 0 else if lanes - first < WARP_SIZE then lanes - first else WARP_SIZE)
  }

  /** The warp count is computed in 32 bits. */
  function WarpCount(lanes: u32): nat { Wrap(lanes + 31) / WARP_SIZE }

  function InitialWarps(lanes: u32): seq<WarpState> {
    seq(WarpCount(lanes), w requires 0 <= w < WarpCount(lanes) => InitialWarp(LiveLanes(lanes, w)))
  }

  ghost function InitialBlock(lanes: u32, m: MemoryImage, c: Counters): (b: Block)
    requires |c.histogram| == WARP_SIZE + 1
    ensures Shaped(b)
  {
    var n := WarpCount(lanes);
    Block(InitialWarps(lanes), m, c.(warps := c.warps + n), 0, seq(n, _ => 0), seq(n, _ => 0), [])
  }

  lemma InitialBlockPhased(lanes: u32, m: MemoryImage, c: Counters)
    requires |c.histogram| == WARP_SIZE + 1
    ensures Phased(InitialBlock(lanes, m, c)) && Fair(InitialBlock(lanes, m, c), 0, 0)
    ensures Balanced(c) ==> Accounted(InitialBlock(lanes, m, c), c)
  {
    var b := InitialBlock(lanes, m, c);
    forall w | 0 <= w < |b.warps| ensures Invariant(b.warps[w]) && PhaseOf(b.warps[w], b.arrivals[w], b.phase) {
      InitialInvariant(LiveLanes(lanes, w));
    }
    if Balanced(c) { InitialAccounted(lanes, m, c); }
    hide Accounted, Invariant, PhaseOf, LiveLanes;
  }

  lemma InitialAccounted(lanes: u32, m: MemoryImage, c: Counters)
    requires |c.histogram| == WARP_SIZE + 1 && Balanced(c)
    ensures Accounted(InitialBlock(lanes, m, c), c)
  {
    hide InitialWarps, WarpCount;
    SumZero(WarpCount(lanes));
    NothingLogged(InitialBlock(lanes, m, c).counters, c);
    hide Logged, Sum, Weighted;
  }

  lemma NothingLogged(d: Counters, c: Counters)
    requires d == c.(warps := d.warps)
    ensures Logged(d, c, [])
  {
  }

  /** Every block, from its start, for any number of passes. */
  lemma BlockOutcome(program: seq<Instruction>, base: LaunchContext, lanes: u32, m: MemoryImage, c: Counters, fuel: nat)
    requires ValidProgram(program) && |c.histogram| == WARP_SIZE + 1 && Balanced(c)
    ensures RunOutcome(RunBlock(program, base, InitialBlock(lanes, m, c), fuel), c)
  {
    hide Phased, Accounted, Fair, RunOutcome, RunBlock;
    InitialBlockPhased(lanes, m, c);
    RunBlockKeeps(program, base, InitialBlock(lanes, m, c), 0, c, fuel);
  }

  /** What a warp issued before its `k`-th barrier comes, in every run, before anything any warp issues after
      its own `k`-th barrier. */
  lemma BarrierOrders(log: seq<Event>, phase: nat, i: nat, j: nat, k: nat)
    requires PhasedLog(log, phase) && i < |log| && j < |log|
    requires Barriers(log[..i], log[i].warp) < k <= Barriers(log[..j], log[j].warp)
    ensures i < j
  {
    hide Barriers;
    assert log[i].phase < log[j].phase;
  }
}
