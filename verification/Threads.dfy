/** The meaning a kernel has for independent threads: one program counter per lane, shared memory, and a
    scheduler that may pick any running thread next. There is no mask, stack or reconvergence here. */
module Threads {
  import opened Isa
  import opened Alu
  import opened Memory
  import opened WarpSpec

  datatype Thread = Running(pc: u16, regs: Lane) | Retired(regs: Lane)

  /** Falling off the end of the program is equivalent to exit. */
  function AtPc(pc: u16, regs: Lane, n: nat): Thread {
    if pc < n then Running(pc, regs) else Retired(regs)
  }

  datatype ThreadResult = Advanced(thread: Thread, store: Store) | ThreadFault(error: AccessError, address: u32)

  /** One instruction of one running thread. */
  function ThreadStep(program: seq<Instruction>, ctx: LaunchContext, lane: nat, t: Thread, m: Store): ThreadResult
    requires ValidProgram(program) && lane < WARP_SIZE && t.Running? && t.pc < |program|
  {
    var i := program[t.pc];
    var n := |program|;
    var next := AtPc(NextPc(t.pc), t.regs, n);
    if i.op == Bra then Advanced(if GuardHolds(i, t.regs) then AtPc(i.Target(), t.regs, n) else next, m)
    else if i.op == Exit then Advanced(if GuardHolds(i, t.regs) then Retired(t.regs) else next, m)
    else if i.op == BarSync || !GuardHolds(i, t.regs) then Advanced(next, m)
    else if IsMemory(i.op) then
      match AccessLane(i, t.regs, m)
      case Denied(e, address) => ThreadFault(e, address)
      case Accessed(r, after) => Advanced(AtPc(NextPc(t.pc), r, n), after)
    else Advanced(AtPc(NextPc(t.pc), AluLane(i, t.regs, lane, ctx), n), m)
  }

  datatype Machine = Machine(threads: seq<Thread>, store: Store)

  ghost predicate CanStep(program: seq<Instruction>, threads: seq<Thread>, lane: nat) {
    lane < |threads| && lane < WARP_SIZE && threads[lane].Running? && threads[lane].pc < |program|
  }

  /** The machine after the threads listed in `schedule` take one step each, in that order; none if a
      listed thread is not running or faults. */
  ghost function Run(program: seq<Instruction>, ctx: LaunchContext, schedule: seq<nat>, m: Machine): Option<Machine>
    requires ValidProgram(program)
  {
    if schedule == [] then Some(m)
    else if !CanStep(program, m.threads, schedule[0]) then None
    else match ThreadStep(program, ctx, schedule[0], m.threads[schedule[0]], m.store)
      case ThreadFault(_, _) => None
      case Advanced(t, store) =>
        Run(program, ctx, schedule[1..], Machine(m.threads[schedule[0] := t], store))
  }

  /** The lanes of a mask from `k` on, in lane order. */
  ghost function Ascending(mask: Mask, k: nat): seq<nat>
    requires k <= WARP_SIZE
    decreases WARP_SIZE - k
  {
    if k == WARP_SIZE then []
    else if k in mask then [k] + Ascending(mask, k + 1)
    else Ascending(mask, k + 1)
  }
}
