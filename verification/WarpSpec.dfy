/** One warp as a state machine on values: the divergence stack, and the issue of one instruction. */
module WarpSpec {
  import opened Isa
  import opened Alu
  import opened Memory

  /** A deferred path, or a join when it resumes at its own reconvergence PC. */
  datatype Entry = Entry(reconvergence: u16, resume: u16, mask: Mask) {
    predicate IsJoin() { resume == reconvergence }
  }

  datatype WarpState = WarpState(pc: u16, active: Mask, live: Mask, stack: seq<Entry>, lanes: RegisterBank, parked: bool,
                                 divergent: nat, reconverged: nat, lastExec: Mask, lastOp: Opcode)

  function InitialWarp(live: Mask): WarpState {
    WarpState(0, live, live, [], seq(WARP_SIZE, _ => ZeroLane()), false, 0, 0, {}, Exit)
  }

  datatype FaultKind = Access(error: AccessError) | DivergentBarrier

  datatype Fault = Fault(kind: FaultKind, block: nat, warp: nat, lane: nat, pc: u16, address: u32)

  datatype Outcome = Issued | Barrier | Finished

  datatype MemoryImage = MemoryImage(store: Store, stats: MemoryStats)

  datatype StepResult =
    | Stepped(outcome: Outcome, warp: WarpState, memory: MemoryImage)
    | Faulted(fault: Fault, warp: WarpState, memory: MemoryImage)

  predicate ValidProgram(program: seq<Instruction>) {
    forall i | i in program :: Valid(i)
  }

  /** `++pc` on the 16-bit program counter. */
  function NextPc(pc: u16): u16 { (pc + 1) % 0x1_0000 }

  // ---- the divergence stack ----

  function Top(stack: seq<Entry>): Entry
    requires stack != []
  {
    stack[|stack| - 1]
  }

  function Below(stack: seq<Entry>): seq<Entry>
    requires stack != []
  {
    stack[..|stack| - 1]
  }

  function SwitchTo(s: WarpState, entry: Entry, arrived: Mask): WarpState {
    if entry.IsJoin() then
      s.(active := arrived + entry.mask, pc := entry.reconvergence)
    else
      s.(stack := if arrived != {} then s.stack + [Entry(entry.reconvergence, entry.reconvergence, arrived)]
                  else s.stack,
         active := entry.mask, pc := entry.resume)
  }

  predicate AtReconvergence(s: WarpState) {
    s.stack != [] && Top(s.stack).reconvergence == s.pc
  }

  /** Rule 4 (no active lane) or rule 3 (arrival at the reconvergence PC) applies. */
  predicate MustPop(s: WarpState) {
    s.stack != [] && (s.active == {} || AtReconvergence(s))
  }

  function PopTop(s: WarpState): WarpState
    requires MustPop(s)
  {
    var below := s.(stack := Below(s.stack));
    if s.active == {} then SwitchTo(below, Top(s.stack), {})
    else SwitchTo(below.(reconverged := s.reconverged + 1), Top(s.stack), s.active)
  }

  /** Deferred entries weigh two and joins one, so that a pop always makes the stack lighter. */
  function Weight(stack: seq<Entry>): nat {
    if stack == [] then 0 else Weight(Below(stack)) + (if Top(stack).IsJoin() then 1 else 2)
  }

  lemma WeightOfPush(stack: seq<Entry>, e: Entry)
    ensures Weight(stack + [e]) == Weight(stack) + (if e.IsJoin() then 1 else 2)
  {
    assert Below(stack + [e]) == stack;
  }

  lemma PopIsLighter(s: WarpState)
    requires MustPop(s)
    ensures Weight(PopTop(s).stack) < Weight(s.stack)
  {
    var e := Top(s.stack);
    if !e.IsJoin() && s.active != {} {
      WeightOfPush(Below(s.stack), Entry(e.reconvergence, e.reconvergence, s.active));
    }
  }

  /** Rules 3 and 4 applied until neither does. */
  function Resolve(s: WarpState): WarpState
    decreases Weight(s.stack)
  {
    if MustPop(s) then (PopIsLighter(s); Resolve(PopTop(s))) else s
  }

  function RetireStack(stack: seq<Entry>, lanes: Mask): (r: seq<Entry>)
    ensures |r| == |stack|
    ensures forall j | 0 <= j < |stack| :: r[j] == stack[j].(mask := stack[j].mask - lanes)
  {
    seq(|stack|, j requires 0 <= j < |stack| => stack[j].(mask := stack[j].mask - lanes))
  }

  function Retire(s: WarpState, lanes: Mask): WarpState {
    s.(live := s.live - lanes, active := s.active - lanes, stack := RetireStack(s.stack, lanes))
  }

  lemma {:induction false} RetireKeepsWeight(stack: seq<Entry>, lanes: Mask)
    ensures Weight(RetireStack(stack, lanes)) == Weight(stack)
  {
    if stack != [] {
      RetireKeepsWeight(Below(stack), lanes);
      assert Below(RetireStack(stack, lanes)) == RetireStack(Below(stack), lanes);
    }
  }

  lemma {:induction false} ResolveIsLighter(s: WarpState)
    ensures Weight(Resolve(s).stack) <= Weight(s.stack) && !MustPop(Resolve(s))
    ensures s.active == {} && s.stack != [] ==> Weight(Resolve(s).stack) < Weight(s.stack)
    decreases Weight(s.stack)
  {
    if MustPop(s) {
      PopIsLighter(s);
      ResolveIsLighter(PopTop(s));
    }
  }

  /** Resolution, with paths that fell off the end of a program of `n` instructions retired, until a path
      that can issue is found or no lane is left. It ends for every state whatsoever. */
  function Settle(s: WarpState, n: nat): WarpState
    decreases Weight(s.stack), if s.active == {} then 0 else 1
  {
    var r := Resolve(s);
    if r.active == {} || r.pc < n then r
    else
      ResolveIsLighter(s);
      RetireKeepsWeight(r.stack, r.active);
      Settle(Retire(r, r.active), n)
  }

  // ---- one instruction ----

  predicate GuardHolds(i: Instruction, r: Lane)
    requires Valid(i)
  {
    ValidIndices(i);
    !i.guard.present || r.preds[i.guard.pred] != i.guard.negate
  }

  function Exec(i: Instruction, s: WarpState): Mask
    requires Valid(i)
  {
    set l | l in s.active && GuardHolds(i, s.lanes[l])
  }

  function SpaceOf(op: Opcode): Space {
    match op
    case LdShared | StShared => Shared
    case LdParam => Param
    case _ => Global
  }

  function AddressOf(i: Instruction, r: Lane): u32
    requires Valid(i)
  {
    if SpaceOf(i.op) == Param then i.imm else (ValidIndices(i); Wrap(r.general[i.src0] + i.imm))
  }

  datatype LaneAccess = Accessed(regs: Lane, store: Store) | Denied(error: AccessError, address: u32)

  /** The load or store of one lane. */
  function AccessLane(i: Instruction, r: Lane, m: Store): LaneAccess
    requires Valid(i)
  {
    ValidIndices(i);
    var address := AddressOf(i, r);
    if IsStore(i.op) then
      match StoreTo(m, SpaceOf(i.op), address, r.general[i.src1])
      case Err(e) => Denied(e, address)
      case Ok(after) => Accessed(r, after)
    else
      match LoadFrom(m, SpaceOf(i.op), address)
      case Err(e) => Denied(e, address)
      case Ok(v) => Accessed(WriteReg(r, i.dst, v), m)
  }

  datatype Sweep =
    | Swept(lanes: RegisterBank, store: Store)
    | SweepFault(lane: nat, error: AccessError, address: u32, lanes: RegisterBank, store: Store)

  /** The lanes of `exec` from lane `k` on access memory in lane order; the first failure stops the sweep. */
  function SweepFrom(i: Instruction, k: nat, exec: Mask, lanes: RegisterBank, m: Store): Sweep
    requires Valid(i) && k <= WARP_SIZE
    decreases WARP_SIZE - k
  {
    if k == WARP_SIZE then Swept(lanes, m)
    else if k !in exec then SweepFrom(i, k + 1, exec, lanes, m)
    else match AccessLane(i, lanes[k], m)
      case Denied(e, address) => SweepFault(k, e, address, lanes, m)
      case Accessed(r, after) => SweepFrom(i, k + 1, exec, lanes[k := r], after)
  }

  /** The address vector handed to the access counters: executing lanes only, zero elsewhere. */
  function AddressVector(i: Instruction, exec: Mask, lanes: RegisterBank): (a: seq<u32>)
    requires Valid(i)
    ensures |a| == WARP_SIZE
  {
    seq(WARP_SIZE, l requires 0 <= l < WARP_SIZE => if l in exec then AddressOf(i, lanes[l]) else 0)
  }

  ghost function Observe(i: Instruction, exec: Mask, lanes: RegisterBank, stats: MemoryStats): MemoryStats
    requires Valid(i)
  {
    CountAccess(stats, SpaceOf(i.op), IsStore(i.op), AddressVector(i, exec, lanes), exec)
  }

  function AluBank(i: Instruction, exec: Mask, lanes: RegisterBank, ctx: LaunchContext): RegisterBank
    requires Valid(i)
  {
    seq(WARP_SIZE, l requires 0 <= l < WARP_SIZE => if l in exec then AluLane(i, lanes[l], l, ctx) else lanes[l])
  }

  function Branch(i: Instruction, exec: Mask, s: WarpState): WarpState
    requires exec <= s.active
  {
    var fall := s.active - exec;
    if !i.guard.present then s.(pc := i.Target())
    else if exec == {} then s.(pc := NextPc(s.pc))
    else if fall == {} then s.(pc := i.Target())
    else s.(divergent := s.divergent + 1,
            stack := s.stack + [Entry(i.Reconvergence(), NextPc(s.pc), fall)],
            active := exec, pc := i.Target())
  }

  function MakeFault(kind: FaultKind, pc: u16, ctx: LaunchContext, lane: nat, address: u32): Fault {
    Fault(kind, ctx.BlockNumber(), ctx.warpId, lane, pc, address)
  }

  /** A memory instruction: the counters observe the access, then the lanes perform it in order. */
  ghost function MemoryIssue(i: Instruction, exec: Mask, s: WarpState, m: MemoryImage, ctx: LaunchContext): StepResult
    requires Valid(i)
  {
    var stats := Observe(i, exec, s.lanes, m.stats);
    match SweepFrom(i, 0, exec, s.lanes, m.store)
    case SweepFault(lane, e, address, lanes, store) =>
      Faulted(MakeFault(Access(e), s.pc, ctx, lane, address), s.(lanes := lanes), MemoryImage(store, stats))
    case Swept(lanes, store) =>
      Stepped(Issued, s.(lanes := lanes, pc := NextPc(s.pc)), MemoryImage(store, stats))
  }

  /** The instructions that move the whole warp: branch, exit and barrier. */
  function ControlIssue(i: Instruction, exec: Mask, s: WarpState, m: MemoryImage, ctx: LaunchContext): StepResult
    requires exec <= s.active
  {
    if i.op == Bra then Stepped(Issued, Branch(i, exec, s), m)
    else if i.op == Exit then Stepped(Issued, Retire(s, exec).(pc := NextPc(s.pc)), m)
    else if s.active != s.live then Faulted(MakeFault(DivergentBarrier, s.pc, ctx, 0, 0), s, m)
    else Stepped(Barrier, s.(parked := true, pc := NextPc(s.pc)), m)
  }

  predicate IsControl(op: Opcode) { op == Bra || op == Exit || op == BarSync }

  /** Issues the instruction at `pc` on the active lanes. */
  ghost function Issue(program: seq<Instruction>, ctx: LaunchContext, s0: WarpState, m: MemoryImage): StepResult
    requires ValidProgram(program) && s0.pc < |program|
  {
    var i := program[s0.pc];
    var exec := Exec(i, s0);
    var s := s0.(lastExec := exec, lastOp := i.op);
    if IsControl(i.op) then ControlIssue(i, exec, s, m, ctx)
    else if IsMemory(i.op) then MemoryIssue(i, exec, s, m, ctx)
    else Stepped(Issued, s.(lanes := AluBank(i, exec, s.lanes, ctx), pc := NextPc(s.pc)), m)
  }

  /** One scheduling step: settle the stack, then issue at most one instruction. */
  ghost function Step(program: seq<Instruction>, ctx: LaunchContext, s: WarpState, m: MemoryImage): StepResult
    requires ValidProgram(program)
  {
    var r := Settle(s, |program|);
    SettleReady(s, |program|);
    if r.active == {} then Stepped(Finished, r, m) else Issue(program, ctx, r, m)
  }

  /** A settled warp has either no active lane and an empty stack, or a path that is inside the program
      and not at its reconvergence PC. */
  lemma {:induction false} SettleReady(s: WarpState, n: nat)
    ensures var r := Settle(s, n); !MustPop(r) && (r.active != {} ==> r.pc < n)
    decreases Weight(s.stack), if s.active == {} then 0 else 1
  {
    ResolveIsLighter(s);
    var r := Resolve(s);
    if r.active != {} && r.pc >= n {
      RetireKeepsWeight(r.stack, r.active);
      SettleReady(Retire(r, r.active), n);
    }
  }
}
