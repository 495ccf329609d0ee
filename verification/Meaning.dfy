/** What memory, branch and exit instructions do to one lane, written out; and that the edges of the control
    graph are exactly the moves of threads. */
module Meaning {
  import opened Isa
  import opened Alu
  import opened Memory
  import opened WarpSpec
  import opened Threads
  import opened ControlFlow

  // ---- loads and stores ----

  /** The four bytes from `x` on as a number, the lowest first. */
  function LittleEndian(bytes: seq<u8>, x: nat): int
    requires x + 4 <= |bytes|
  {
    bytes[x] as int + 256 * bytes[x + 1] as int + 65536 * bytes[x + 2] as int + 16777216 * bytes[x + 3] as int
  }

  lemma WordIsLittleEndian(bytes: seq<u8>, x: u32)
    ensures x % 4 != 0 ==> Load32(bytes, x) == Err(Misaligned)
    ensures x % 4 == 0 && x + 4 > |bytes| ==> Load32(bytes, x) == Err(OutOfBounds)
    ensures x % 4 == 0 && x + 4 <= |bytes| ==> 0 <= LittleEndian(bytes, x) < 0x1_0000_0000 && Load32(bytes, x) == Ok(LittleEndian(bytes, x))
  {
  }

  /** A word is the sum of its bytes, the lowest first; a misaligned address is rejected before one that is out
      of bounds. */
  lemma LoadMeaning(i: Instruction, r: Lane, m: Store)
    requires Valid(i) && i.op in {LdGlobal, LdShared}
    ensures i.dst < GENERAL_REGISTERS && i.src0 < GENERAL_REGISTERS
    ensures var bytes := if i.op == LdGlobal then m.global else m.shared;
            var x: u32 := (r.general[i.src0] + i.imm) % 0x1_0000_0000;
            && (x % 4 != 0 ==> AccessLane(i, r, m) == Denied(Misaligned, x))
            && (x % 4 == 0 && x + 4 > |bytes| ==> AccessLane(i, r, m) == Denied(OutOfBounds, x))
            && (x % 4 == 0 && x + 4 <= |bytes| ==>
                  && 0 <= LittleEndian(bytes, x) < 0x1_0000_0000
                  && AccessLane(i, r, m) == Accessed(r.(general := r.general[i.dst := LittleEndian(bytes, x)]), m))
  {
    ValidIndices(i);
    var x: u32 := (r.general[i.src0] + i.imm) % 0x1_0000_0000;
    WordIsLittleEndian(if i.op == LdGlobal then m.global else m.shared, x);
    hide Violation, LittleEndian, Load32, StoreTo, Wrap;
    hide AccessLane;
    LoadedWord(i, r, m);
  }

  lemma LoadedWord(i: Instruction, r: Lane, m: Store)
    requires Valid(i) && i.op in {LdGlobal, LdShared}
    ensures i.dst < GENERAL_REGISTERS && i.src0 < GENERAL_REGISTERS
    ensures var x: u32 := (r.general[i.src0] + i.imm) % 0x1_0000_0000;
            AccessLane(i, r, m) == match Load32(if i.op == LdGlobal then m.global else m.shared, x)
                                   case Err(e) => Denied(e, x)
                                   case Ok(v) => Accessed(r.(general := r.general[i.dst := v]), m)
  {
    ValidIndices(i);
    AddressIs(i, r);
    hide Valid, Load32, StoreTo, AddressOf, SpaceOf, IsStore;
  }

  lemma AddressIs(i: Instruction, r: Lane)
    requires Valid(i) && i.op in {LdGlobal, LdShared}
    ensures i.src0 < GENERAL_REGISTERS
    ensures AddressOf(i, r) == (r.general[i.src0] + i.imm) % 0x1_0000_0000
    ensures SpaceOf(i.op) == (if i.op == LdGlobal then Global else Shared) && !IsStore(i.op)
  {
    ValidIndices(i);
    hide Valid;
  }

  /** A store writes the four bytes of the second source and nothing else. */
  lemma StoreMeaning(i: Instruction, r: Lane, m: Store)
    requires Valid(i) && i.op in {StGlobal, StShared}
    ensures i.src0 < GENERAL_REGISTERS && i.src1 < GENERAL_REGISTERS
    ensures var bytes := if i.op == StGlobal then m.global else m.shared;
            var x: u32 := (r.general[i.src0] + i.imm) % 0x1_0000_0000;
            && (x % 4 != 0 ==> AccessLane(i, r, m) == Denied(Misaligned, x))
            && (x % 4 == 0 && x + 4 > |bytes| ==> AccessLane(i, r, m) == Denied(OutOfBounds, x))
            && (x % 4 == 0 && x + 4 <= |bytes| ==>
                  && AccessLane(i, r, m).Accessed? && AccessLane(i, r, m).regs == r
                  && var after := AccessLane(i, r, m).store;
                     && after.params == m.params
                     && (if i.op == StGlobal then after.shared == m.shared else after.global == m.global)
                     && StoredBytes(bytes, if i.op == StGlobal then after.global else after.shared, x, r.general[i.src1]))
  {
    ValidIndices(i);
    hide Violation;
    var bytes := if i.op == StGlobal then m.global else m.shared;
    var x: u32 := (r.general[i.src0] + i.imm) % 0x1_0000_0000;
    if x % 4 == 0 && x + 4 <= |bytes| { BytesStored(bytes, x, r.general[i.src1]); }
    hide WithWord, StoredBytes;
  }

  /** The bytes of `value` have replaced those at `x`. */
  ghost predicate StoredBytes(before: seq<u8>, after: seq<u8>, x: nat, value: u32)
    requires x + 4 <= |before|
  {
    && |after| == |before|
    && LittleEndian(after, x) == value
    && forall k | 0 <= k < |before| && !(x <= k < x + 4) :: after[k] == before[k]
  }

  lemma BytesStored(bytes: seq<u8>, x: nat, value: u32)
    requires x + 4 <= |bytes|
    ensures StoredBytes(bytes, WithWord(bytes, x, value), x, value)
  {
    BytesOfWord(value);
  }

  /** `ld.param` reads the parameter whose ordinal is its immediate, whatever the registers hold. */
  lemma ParamMeaning(i: Instruction, r: Lane, m: Store)
    requires Valid(i) && i.op == LdParam
    ensures i.dst < GENERAL_REGISTERS
    ensures AccessLane(i, r, m) == if i.imm < |m.params| then Accessed(r.(general := r.general[i.dst := m.params[i.imm]]), m)
                                   else Denied(ParamOutOfRange, i.imm)
  {
    ValidIndices(i);
  }

  /** What the access counters are shown: the addresses of the executing lanes, in the space of the opcode. */
  lemma ObservedMeaning(i: Instruction, exec: Mask, lanes: RegisterBank, l: nat)
    requires Valid(i) && IsMemory(i.op) && l < WARP_SIZE
    ensures i.src0 < GENERAL_REGISTERS
    ensures AddressVector(i, exec, lanes)[l] ==
            if l !in exec then 0
            else if i.op == LdParam then i.imm
            else (lanes[l].general[i.src0] + i.imm) % 0x1_0000_0000
    ensures SpaceOf(i.op) == if i.op in {LdGlobal, StGlobal} then Global else if i.op in {LdShared, StShared} then Shared else Param
    ensures IsStore(i.op) <==> i.op in {StGlobal, StShared}
  {
    ValidIndices(i);
    hide Violation;
  }

  // ---- branches, exits and guards ----

  /** `@p` holds where the predicate is set, `@!p` where it is not, and no guard everywhere. */
  lemma GuardMeaning(i: Instruction, r: Lane)
    requires Valid(i)
    ensures i.guard.pred < PREDICATE_REGISTERS
    ensures !i.guard.present ==> GuardHolds(i, r)
    ensures i.guard.present && !i.guard.negate ==> (GuardHolds(i, r) <==> r.preds[i.guard.pred])
    ensures i.guard.present && i.guard.negate ==> (GuardHolds(i, r) <==> !r.preds[i.guard.pred])
  {
    ValidIndices(i);
  }

  /** The thread at `pc` of a program of `n` instructions, or retired past the end. */
  function At(pc: nat, r: Lane, n: nat): Thread
    requires n < 0x1_0000
  {
    if pc < n then Running(pc, r) else Retired(r)
  }

  /** A branch goes to the low half of its immediate, an exit retires the lane, and a guarded-off instruction of
      any kind but a barrier, or a barrier whatever its guard, moves on to the next one. */
  lemma ControlMeaning(program: seq<Instruction>, ctx: LaunchContext, lane: nat, pc: nat, r: Lane, m: Store)
    requires ValidProgram(program) && lane < WARP_SIZE && pc < |program| < 0x1_0000
    ensures Valid(program[pc])
    ensures var i, n := program[pc], |program|;
            var s := ThreadStep(program, ctx, lane, Running(pc, r), m);
            && (i.op == Bra && GuardHolds(i, r) ==> s == Advanced(At(i.imm % 0x1_0000, r, n), m))
            && (i.op == Exit && GuardHolds(i, r) ==> s == Advanced(Retired(r), m))
            && (i.op == BarSync || !GuardHolds(i, r) ==> s == Advanced(At(pc + 1, r, n), m))
  {
    hide AluLane, AccessLane, GuardHolds, Violation;
  }

  /** Every other instruction does its access or its arithmetic and moves on to the next one. */
  lemma WorkMeaning(program: seq<Instruction>, ctx: LaunchContext, lane: nat, pc: nat, r: Lane, m: Store)
    requires ValidProgram(program) && lane < WARP_SIZE && pc < |program| < 0x1_0000
    requires !IsControl(program[pc].op) && GuardHolds(program[pc], r)
    ensures var i, n := program[pc], |program|;
            ThreadStep(program, ctx, lane, Running(pc, r), m) ==
            if IsMemory(i.op) then
              match AccessLane(i, r, m)
              case Denied(e, address) => ThreadFault(e, address)
              case Accessed(r1, m1) => Advanced(At(pc + 1, r1, n), m1)
            else Advanced(At(pc + 1, AluLane(i, r, lane, ctx), n), m)
  {
    hide AluLane, AccessLane, GuardHolds, Violation;
  }

  // ---- the control graph ----

  /** In this state the thread at `pc` moves to `x`, where `|program|` stands for retiring. */
  ghost predicate StepsTo(program: seq<Instruction>, pc: nat, x: nat, ctx: LaunchContext, lane: nat, r: Lane, m: Store)
    requires ValidProgram(program) && pc < |program| < 0x1_0000
  {
    lane < WARP_SIZE &&
    match ThreadStep(program, ctx, lane, Running(pc, r), m)
    case ThreadFault(_, _) => false
    case Advanced(Running(next, _), _) => next == x
    case Advanced(Retired(_), _) => x == |program|
  }

  ghost predicate CanMove(program: seq<Instruction>, pc: nat, x: nat)
    requires ValidProgram(program) && pc < |program| < 0x1_0000
  {
    exists ctx: LaunchContext, lane: nat, r: Lane, m: Store :: StepsTo(program, pc, x, ctx, lane, r, m)
  }

  lemma CanMoveBy(program: seq<Instruction>, pc: nat, x: nat, ctx: LaunchContext, lane: nat, r: Lane, m: Store)
    requires ValidProgram(program) && pc < |program| < 0x1_0000 && StepsTo(program, pc, x, ctx, lane, r, m)
    ensures CanMove(program, pc, x)
  {
  }

  function SomeContext(): LaunchContext {
    LaunchContext(Dim2(1, 1), Dim2(1, 1), Dim2(0, 0), 0,
                  FloatOps((a, b) => 0, (a, b) => 0, (a, b) => 0, (a, b, c) => 0, (a, b) => 0, (a, b) => 0,
                           a => 0, a => 0, (a, b) => false, (a, b) => false, (a, b) => false))
  }

  /** A lane whose predicates all have one value, and whose accesses are at address zero. */
  function LaneAtZero(i: Instruction, value: bool): Lane {
    LaneRegisters(seq(GENERAL_REGISTERS, _ => (0x1_0000_0000 - i.imm) % 0x1_0000_0000), seq(PREDICATE_REGISTERS, _ => value))
  }

  function RoomyStore(i: Instruction): Store { Store([0, 0, 0, 0], [0, 0, 0, 0], seq(i.imm + 1, _ => 0)) }

  lemma AccessAtZero(i: Instruction, value: bool)
    requires Valid(i) && IsMemory(i.op)
    ensures AccessLane(i, LaneAtZero(i, value), RoomyStore(i)).Accessed?
  {
    ValidIndices(i);
    var r := LaneAtZero(i, value);
    assert (r.general[i.src0] + i.imm) % 0x1_0000_0000 == 0;
    if i.op == LdParam { ParamMeaning(i, r, RoomyStore(i)); }
    else if IsStore(i.op) { StoreMeaning(i, r, RoomyStore(i)); }
    else { LoadMeaning(i, r, RoomyStore(i)); }
  }

  /** An instruction that is no branch and no exit can move to the next one. */
  lemma FallsThrough(program: seq<Instruction>, pc: nat)
    requires ValidProgram(program) && pc < |program| < 0x1_0000
    requires program[pc].op == Bra || program[pc].op == Exit ==> program[pc].guard.present
    ensures CanMove(program, pc, pc + 1)
  {
    hide AluLane, AccessLane, GuardHolds, Violation, ThreadStep, LaneAtZero, RoomyStore;
    var i := program[pc];
    var r, m, ctx := LaneAtZero(i, i.guard.negate), RoomyStore(i), SomeContext();
    GuardMeaning(i, r);
    LaneAtZeroPreds(i, i.guard.negate);
    ControlMeaning(program, ctx, 0, pc, r, m);
    if !IsControl(i.op) && GuardHolds(i, r) {
      WorkMeaning(program, ctx, 0, pc, r, m);
      if IsMemory(i.op) { AccessAtZero(i, i.guard.negate); }
    }
    CanMoveBy(program, pc, pc + 1, ctx, 0, r, m);
  }

  lemma LaneAtZeroPreds(i: Instruction, value: bool)
    ensures forall k | 0 <= k < PREDICATE_REGISTERS :: LaneAtZero(i, value).preds[k] == value
  {
  }

  /** A branch can be taken, and an exit can retire. */
  lemma Takes(program: seq<Instruction>, pc: nat)
    requires ValidProgram(program) && TargetsInRange(program) && pc < |program| < 0x1_0000
    requires program[pc].op == Bra || program[pc].op == Exit
    ensures CanMove(program, pc, if program[pc].op == Bra then program[pc].imm % 0x1_0000 else |program|)
  {
    hide AluLane, AccessLane, GuardHolds, Violation, ThreadStep, LaneAtZero, RoomyStore;
    var i := program[pc];
    var r, m, ctx := LaneAtZero(i, !i.guard.negate), RoomyStore(i), SomeContext();
    GuardMeaning(i, r);
    LaneAtZeroPreds(i, !i.guard.negate);
    ControlMeaning(program, ctx, 0, pc, r, m);
    CanMoveBy(program, pc, if i.op == Bra then i.imm % 0x1_0000 else |program|, ctx, 0, r, m);
  }

  /** Where a step can lead. */
  lemma LeadsAlongEdge(program: seq<Instruction>, pc: nat, x: nat, ctx: LaunchContext, lane: nat, r: Lane, m: Store)
    requires ValidProgram(program) && TargetsInRange(program) && pc < |program| < 0x1_0000
    requires StepsTo(program, pc, x, ctx, lane, r, m)
    ensures x in Successors(program[pc], pc, |program|)
  {
    hide AluLane, AccessLane, GuardHolds, Violation, ThreadStep;
    var i := program[pc];
    GuardMeaning(i, r);
    ControlMeaning(program, ctx, lane, pc, r, m);
    if !IsControl(i.op) && GuardHolds(i, r) { WorkMeaning(program, ctx, lane, pc, r, m); }
  }

  /** There is an edge from one node of the control graph to another exactly when some thread at the first, in
      some state, moves to the second: no edge is missing and none is spurious. */
  lemma EdgeIffMove(program: seq<Instruction>, pc: nat, x: nat)
    requires ValidProgram(program) && TargetsInRange(program) && pc < |program| < 0x1_0000
    ensures |InstructionGraph(program)| == |program| + 1
    ensures x in InstructionGraph(program)[pc] <==> CanMove(program, pc, x)
  {
    assert InstructionGraph(program)[pc] == Successors(program[pc], pc, |program|);
    hide InstructionGraph, CanMove;
    var i := program[pc];
    if x in Successors(i, pc, |program|) {
      if i.op == Bra || i.op == Exit { Takes(program, pc); }
      if x == pc + 1 && (i.op == Bra || i.op == Exit ==> i.guard.present) { FallsThrough(program, pc); }
    }
    MoveIsEdge(program, pc, x);
  }

  lemma MoveIsEdge(program: seq<Instruction>, pc: nat, x: nat)
    requires ValidProgram(program) && TargetsInRange(program) && pc < |program| < 0x1_0000
    ensures CanMove(program, pc, x) ==> x in Successors(program[pc], pc, |program|)
  {
    hide Successors, StepsTo;
    if CanMove(program, pc, x) {
      var ctx: LaunchContext, lane: nat, r: Lane, m: Store :| StepsTo(program, pc, x, ctx, lane, r, m);
      LeadsAlongEdge(program, pc, x, ctx, lane, r, m);
    }
  }
}
