/** What the issue of an instruction does to its warp, written out: the paths of a divergent branch, the
    record of what was executed, and the fault that is reported. */
module Issues {
  import opened Isa
  import opened Alu
  import opened Memory
  import opened WarpSpec
  import opened Meaning
  import opened Refinement

  // ---- the record of an issue ----

  /** Whatever an issue does, it records its opcode and the active lanes on which its guard holds. */
  lemma IssueRecords(program: seq<Instruction>, ctx: LaunchContext, s: WarpState, m: MemoryImage)
    requires ValidProgram(program) && s.pc < |program|
    ensures var i, after := program[s.pc], Issue(program, ctx, s, m).warp;
            && i.guard.pred < PREDICATE_REGISTERS
            && after.lastOp == i.op
            && forall l :: l in after.lastExec
                 <==> l in s.active && (i.guard.present ==> (s.lanes[l].preds[i.guard.pred] <==> !i.guard.negate))
  {
    hide SweepFrom, Observe, AluBank;
    ValidIndices(program[s.pc]);
  }

  // ---- branches ----

  /** The lanes a branch takes with it: all active ones without a guard, else those on which the guard holds. */
  ghost function Taken(i: Instruction, s: WarpState): Mask
    requires Valid(i)
  {
    ValidIndices(i);
    set l | l in s.active && (i.guard.present ==> (s.lanes[l].preds[i.guard.pred] <==> !i.guard.negate))
  }

  /** A branch that splits the active lanes runs the taken path first; the other lanes wait on the stack at
      the next instruction, under the recorded reconvergence PC, and one divergence is counted. A branch
      that does not split them moves all of them and leaves the stack as it is. */
  lemma BranchMeaning(program: seq<Instruction>, ctx: LaunchContext, s: WarpState, m: MemoryImage)
    requires ValidProgram(program) && s.pc < |program| && s.active != {}
    requires program[s.pc].op == Bra
    ensures var i, r := program[s.pc], Issue(program, ctx, s, m);
            var taken, after := Taken(i, s), r.warp;
            && r.Stepped? && r.outcome == Issued && r.memory == m
            && after.lanes == s.lanes && after.live == s.live && after.reconverged == s.reconverged
            && (taken != {} && taken != s.active ==>
                  && after.active == taken && after.pc == i.imm % 0x1_0000
                  && after.stack == s.stack + [Entry(i.imm / 0x1_0000, (s.pc + 1) % 0x1_0000, s.active - taken)]
                  && after.divergent == s.divergent + 1)
            && (taken == {} || taken == s.active ==>
                  && after.active == s.active && after.stack == s.stack && after.divergent == s.divergent
                  && after.pc == if taken == {} then (s.pc + 1) % 0x1_0000 else i.imm % 0x1_0000)
  {
    var i := program[s.pc];
    ExecIsTaken(i, s);
    hide Exec, Taken, Violation, MemoryIssue, AluBank;
    NothingLeft(s.active, Exec(i, s));
    if !i.guard.present { UnguardedTakesAll(i, s); }
  }

  lemma UnguardedTakesAll(i: Instruction, s: WarpState)
    requires Valid(i) && !i.guard.present
    ensures Taken(i, s) == s.active
  {
  }

  // ---- faults ----

  /** The access of a lane cannot be made: its address is misaligned or out of bounds, or there is no such
      parameter. */
  ghost predicate Refused(i: Instruction, r: Lane, m: Store)
    requires Valid(i) && IsMemory(i.op)
  {
    ValidIndices(i);
    if i.op == LdParam then i.imm >= |m.params|
    else
      var x := (r.general[i.src0] + i.imm) % 0x1_0000_0000;
      x % 4 != 0 || x + 4 > |if i.op in {LdGlobal, StGlobal} then m.global else m.shared|
  }

  /** The error and the address of a refused access. */
  ghost predicate Reported(i: Instruction, r: Lane, m: Store, error: AccessError, address: u32)
    requires Valid(i) && IsMemory(i.op)
  {
    ValidIndices(i);
    if i.op == LdParam then address == i.imm && error == ParamOutOfRange
    else
      && address == (r.general[i.src0] + i.imm) % 0x1_0000_0000
      && error == if address % 4 != 0 then Misaligned else OutOfBounds
  }

  lemma RefusedIsDenied(i: Instruction, r: Lane, m: Store)
    requires Valid(i) && IsMemory(i.op)
    ensures Refused(i, r, m) <==> AccessLane(i, r, m).Denied?
    ensures var a := AccessLane(i, r, m); a.Denied? ==> Reported(i, r, m, a.error, a.address)
  {
    hide Violation, StoredBytes, LittleEndian;
    if i.op == LdParam { ParamMeaning(i, r, m); }
    else if i.op in {LdGlobal, LdShared} { LoadMeaning(i, r, m); }
    else { StoreMeaning(i, r, m); }
  }

  ghost predicate SameSizes(m: Store, after: Store) {
    |after.global| == |m.global| && |after.shared| == |m.shared| && after.params == m.params
  }

  lemma AccessKeepsSizes(i: Instruction, r: Lane, m: Store)
    requires Valid(i)
    ensures AccessLane(i, r, m).Accessed? ==> SameSizes(m, AccessLane(i, r, m).store)
  {
  }

  /** A memory instruction faults at the lowest executing lane whose access is refused, and not at all when
      there is none. */
  lemma {:induction false} FirstRefused(i: Instruction, k: nat, exec: Mask, lanes: RegisterBank, m: Store, sizes: Store)
    requires Valid(i) && IsMemory(i.op) && k <= WARP_SIZE && SameSizes(sizes, m)
    ensures var sweep := SweepFrom(i, k, exec, lanes, m);
            if sweep.Swept? then forall l | l in exec && k <= l < WARP_SIZE :: !Refused(i, lanes[l], sizes)
            else
              && k <= sweep.lane < WARP_SIZE && sweep.lane in exec && Refused(i, lanes[sweep.lane], sizes)
              && Reported(i, lanes[sweep.lane], sizes, sweep.error, sweep.address)
              && forall l | l in exec && k <= l < sweep.lane :: !Refused(i, lanes[l], sizes)
    decreases WARP_SIZE - k
  {
    hide AccessLane, Violation, Refused, Reported;
    if k == WARP_SIZE {
    } else if k !in exec {
      FirstRefused(i, k + 1, exec, lanes, m, sizes);
    } else {
      RefusedIsDenied(i, lanes[k], m);
      RefusedBySize(i, lanes[k], m, sizes);
      AccessKeepsSizes(i, lanes[k], m);
      match AccessLane(i, lanes[k], m)
      case Denied(e, address) => ReportedBySize(i, lanes[k], m, sizes, e, address);
      case Accessed(r, after) => FirstRefused(i, k + 1, exec, lanes[k := r], after, sizes);
    }
  }

  lemma RefusedBySize(i: Instruction, r: Lane, m: Store, sizes: Store)
    requires Valid(i) && IsMemory(i.op) && SameSizes(sizes, m)
    ensures Refused(i, r, m) <==> Refused(i, r, sizes)
  {
    hide Violation;
  }

  lemma ReportedBySize(i: Instruction, r: Lane, m: Store, sizes: Store, error: AccessError, address: u32)
    requires Valid(i) && IsMemory(i.op) && Reported(i, r, m, error, address)
    ensures Reported(i, r, sizes, error, address)
  {
    hide Violation;
  }

  /** The fault reports the lowest refused lane with its address and error, the PC of the instruction, the
      warp, and the row-major number of the block in 32 bits. */
  ghost predicate ReportsFirst(i: Instruction, s: WarpState, m: Store, ctx: LaunchContext, f: Fault)
    requires Valid(i) && IsMemory(i.op)
  {
    && f.pc == s.pc && f.warp == ctx.warpId
    && f.block == (ctx.ctaid.y * ctx.nctaid.x + ctx.ctaid.x) % 0x1_0000_0000
    && f.lane in Taken(i, s) && Refused(i, s.lanes[f.lane], m)
    && f.kind.Access? && Reported(i, s.lanes[f.lane], m, f.kind.error, f.address)
    && forall l | l in Taken(i, s) && l < f.lane :: !Refused(i, s.lanes[l], m)
  }

  lemma MemoryFault(i: Instruction, s: WarpState, m: MemoryImage, ctx: LaunchContext)
    requires Valid(i) && IsMemory(i.op)
    ensures var r := MemoryIssue(i, Exec(i, s), s, m, ctx);
            if r.Stepped? then forall l | l in Taken(i, s) :: !Refused(i, s.lanes[l], m.store)
            else ReportsFirst(i, s, m.store, ctx, r.fault)
  {
    ExecIsTaken(i, s);
    FirstRefused(i, 0, Exec(i, s), s.lanes, m.store, m.store);
    hide Exec, Taken, Violation, SweepFrom, Observe, Refused, Reported;
  }

  /** A memory instruction faults exactly when the access of some executing lane is refused. */
  lemma AccessFaultMeaning(program: seq<Instruction>, ctx: LaunchContext, s: WarpState, m: MemoryImage)
    requires ValidProgram(program) && s.pc < |program| && IsMemory(program[s.pc].op)
    ensures var i, r := program[s.pc], Issue(program, ctx, s, m);
            if r.Stepped? then forall l | l in Taken(i, s) :: !Refused(i, s.lanes[l], m.store)
            else ReportsFirst(i, s, m.store, ctx, r.fault)
  {
    var i := program[s.pc];
    var t := s.(lastExec := Exec(i, s), lastOp := i.op);
    assert Exec(i, t) == Exec(i, s);
    MemoryFault(i, t, m, ctx);
    hide Exec, Violation, SweepFrom, Observe, Refused, Reported, AluBank, ControlIssue, MemoryIssue;
  }

  lemma ExecIsTaken(i: Instruction, s: WarpState)
    requires Valid(i)
    ensures Exec(i, s) == Taken(i, s)
  {
  }

  /** The report of a barrier in divergent code names no lane and no address. */
  lemma BarrierFaultMeaning(program: seq<Instruction>, ctx: LaunchContext, s: WarpState, m: MemoryImage)
    requires ValidProgram(program) && s.pc < |program| && program[s.pc].op == BarSync
    ensures var r := Issue(program, ctx, s, m);
            if s.active == s.live then
              && r.Stepped? && r.outcome == Barrier && r.memory == m
              && r.warp.parked && r.warp.pc == (s.pc + 1) % 0x1_0000
            else
              var block := (ctx.ctaid.y * ctx.nctaid.x + ctx.ctaid.x) % 0x1_0000_0000;
              r.Faulted? && r.fault == Fault(DivergentBarrier, block, ctx.warpId, 0, s.pc, 0)
  {
    hide Exec;
  }
}
