/** The reduction kernel, one thread at a time: what holds at each of its instructions. */
module ReduceKernel {
  import opened Isa
  import opened Powers
  import opened Alu
  import opened Memory
  import opened WarpSpec
  import opened Threads
  import opened ReductionSums

  const SIZE: nat := 37
  const UNGUARDED := Guard(false, false, 0)
  const STAGE: u16 := 12
  const LOOP: u16 := 16
  const SKIP: u16 := 24
  const TAIL: u16 := 28

  function Reg3(op: Opcode, dst: u8, a: u8, b: u8): Instruction { Instruction(op, UNGUARDED, dst, a, b, false, 0) }

  function RegImm(op: Opcode, dst: u8, a: u8, imm: u32): Instruction { Instruction(op, UNGUARDED, dst, a, 0, true, imm) }

  function BranchIf(pred: u8, target: u16, reconvergence: u16): Instruction {
    Instruction(Bra, Guard(true, false, pred), 0, 0, 0, false, BranchImm(target, reconvergence))
  }

  /** kernels/reduce.wisa, with its labels resolved and its branches annotated. */
  function Code(pc: nat): Instruction {
    match pc
    case 0 => Reg3(MovSreg, 0, 0, 0)
    case 1 => Reg3(MovSreg, 1, 4, 0)
    case 2 => RegImm(Shl, 2, 1, 8)
    case 3 => Reg3(Add, 2, 2, 0)
    case 4 => RegImm(Mov, 3, 0, 0)
    case 5 => RegImm(LdParam, 4, 0, 2)
    case 6 => Reg3(SetpGeS32, 0, 2, 4)
    case 7 => BranchIf(0, STAGE, STAGE)
    case 8 => RegImm(Shl, 5, 2, 2)
    case 9 => RegImm(LdParam, 6, 0, 0)
    case 10 => Reg3(Add, 6, 6, 5)
    case 11 => RegImm(LdGlobal, 3, 6, 0)
    case 12 => RegImm(Shl, 7, 0, 2)
    case 13 => Instruction(StShared, UNGUARDED, 0, 7, 3, true, 0)
    case 14 => Reg3(BarSync, 0, 0, 0)
    case 15 => RegImm(Mov, 8, 0, 128)
    case 16 => Reg3(SetpGeS32, 1, 0, 8)
    case 17 => BranchIf(1, SKIP, SKIP)
    case 18 => RegImm(Shl, 9, 8, 2)
    case 19 => Reg3(Add, 9, 9, 7)
    case 20 => RegImm(LdShared, 10, 7, 0)
    case 21 => RegImm(LdShared, 11, 9, 0)
    case 22 => Reg3(Add, 10, 10, 11)
    case 23 => Instruction(StShared, UNGUARDED, 0, 7, 10, true, 0)
    case 24 => Reg3(BarSync, 0, 0, 0)
    case 25 => RegImm(Shr, 8, 8, 1)
    case 26 => RegImm(SetpGtS32, 2, 8, 0)
    case 27 => BranchIf(2, LOOP, TAIL)
    case 28 => RegImm(SetpNeS32, 3, 0, 0)
    case 29 => Instruction(Exit, Guard(true, false, 3), 0, 0, 0, false, 0)
    case 30 => RegImm(Mov, 12, 0, 0)
    case 31 => RegImm(LdShared, 13, 12, 0)
    case 32 => RegImm(Shl, 14, 1, 2)
    case 33 => RegImm(LdParam, 15, 0, 1)
    case 34 => Reg3(Add, 15, 15, 14)
    case 35 => Instruction(StGlobal, UNGUARDED, 0, 15, 13, true, 0)
    case _ => Reg3(Exit, 0, 0, 0)
  }

  function Kernel(): (p: seq<Instruction>)
    ensures |p| == SIZE && forall pc | 0 <= pc < SIZE :: p[pc] == Code(pc)
  {
    seq(SIZE, pc requires 0 <= pc < SIZE => Code(pc))
  }

  lemma StageValid(pc: nat)
    requires pc < 15
    ensures Valid(Code(pc))
  {
  }

  lemma StepValid(pc: nat)
    requires 15 <= pc < 28
    ensures Valid(Code(pc))
  {
  }

  lemma TailValid(pc: nat)
    requires 28 <= pc
    ensures Valid(Code(pc))
  {
  }

  lemma CodeValid(pc: nat)
    ensures Valid(Code(pc))
  {
    hide Code, Valid;
    if pc < 15 { StageValid(pc); } else if pc < 28 { StepValid(pc); } else { TailValid(pc); }
  }

  lemma KernelValid()
    ensures ValidProgram(Kernel())
  {
    hide Kernel, Code, Valid;
    forall i | i in Kernel() ensures Valid(i) {
      var pc :| 0 <= pc < |Kernel()| && Kernel()[pc] == i;
      CodeValid(pc);
    }
  }

  /** What the kernel is launched with, for one block: the input and where it and the result are. */
  datatype Env = Env(block: u32, x: u32, partial: u32, input: seq<u32>)

  /** The buffers are aligned, in bounds of a global memory of `size` bytes, and small enough for the signed
      index arithmetic of the kernel. */
  ghost predicate Launchable(e: Env, size: nat) {
    && |e.input| < 0x8000_0000 && e.block * BLOCK + BLOCK <= 0x8000_0000
    && e.x % 4 == 0 && e.x + 4 * |e.input| <= size
    && e.partial % 4 == 0 && e.partial + 4 * e.block + 4 <= size <= 0x1_0000_0000
  }

  function CellsOf(e: Env): (c: seq<u32>)
    ensures |c| == BLOCK
  {
    Cells(e.input, e.block)
  }

  /** The cells after `a` steps; beyond the last step nothing changes. */
  function After(e: Env, a: nat): (c: seq<u32>)
    ensures |c| == BLOCK
  {
    Level(CellsOf(e), if a > 8 then 8 else a)
  }

  function Index(e: Env, t: nat): nat { e.block * BLOCK + t }

  /** The registers of thread `t` before the instruction at `pc`, when it has issued `a` barriers. */
  ghost predicate Regs(e: Env, t: nat, a: nat, pc: nat, r: Lane) {
    && t < BLOCK && pc < SIZE
    && (pc >= 1 ==> r.general[0] == t) && (pc >= 2 ==> r.general[1] == e.block)
    && (pc > 14 ==> r.general[7] == 4 * t && 1 <= a <= 9)
    && if pc <= 14 then a == 0 && StageRegs(e, t, pc, r)
       else if pc <= 24 then a <= 8 && StepRegs(e, t, a, pc, r)
       else TailRegs(e, t, a, pc, r)
  }

  ghost predicate StageRegs(e: Env, t: nat, pc: nat, r: Lane) {
    && (pc == 3 ==> r.general[2] == e.block * BLOCK) && (pc >= 4 ==> r.general[2] == Index(e, t))
    && (5 <= pc <= 11 ==> r.general[3] == 0) && (pc >= 6 ==> r.general[4] == |e.input|)
    && (pc == 7 ==> (r.preds[0] <==> Index(e, t) >= |e.input|))
    && (8 <= pc <= 11 ==> Index(e, t) < |e.input|)
    && (9 <= pc <= 11 ==> r.general[5] == 4 * Index(e, t))
    && (pc == 10 ==> r.general[6] == e.x) && (pc == 11 ==> r.general[6] == e.x + 4 * Index(e, t))
    && (12 <= pc <= 13 ==> t < BLOCK && r.general[3] == CellsOf(e)[t]) && (pc >= 13 ==> r.general[7] == 4 * t)
  }

  ghost predicate StepRegs(e: Env, t: nat, a: nat, pc: nat, r: Lane)
    requires a >= 1 && t < BLOCK
  {
    && (pc == 15 ==> a == 1) && (pc >= 16 ==> r.general[8] == Stride(a))
    && (pc == 17 ==> (r.preds[1] <==> t >= Stride(a)))
    && (18 <= pc <= 23 ==> t + Stride(a) < BLOCK && t < Stride(a))
    && (pc == 19 ==> r.general[9] == 4 * Stride(a))
    && (20 <= pc <= 21 ==> r.general[9] == 4 * (t + Stride(a)))
    && (21 <= pc <= 22 ==> r.general[10] == After(e, a - 1)[t])
    && (pc == 22 ==> t + Stride(a) < BLOCK && r.general[11] == After(e, a - 1)[t + Stride(a)])
    && (pc == 23 ==> r.general[10] == After(e, a)[t])
  }

  ghost predicate TailRegs(e: Env, t: nat, a: nat, pc: nat, r: Lane)
    requires a >= 1
  {
    && (pc <= 27 ==> a >= 2)
    && (pc == 25 ==> a >= 2 && r.general[8] == Stride(a - 1)) && (26 <= pc <= 27 ==> r.general[8] == Stride(a))
    && (pc == 27 ==> (r.preds[2] <==> Stride(a) > 0))
    && (pc >= 28 ==> a == 9) && (pc == 29 ==> (r.preds[3] <==> t != 0)) && (pc >= 30 ==> t == 0)
    && (pc == 31 ==> r.general[12] == 0) && (32 <= pc <= 35 ==> r.general[13] == After(e, 8)[0])
    && (33 <= pc <= 34 ==> r.general[14] == 4 * e.block) && (pc == 34 ==> r.general[15] == e.partial)
    && (pc == 35 ==> r.general[15] == e.partial + 4 * e.block)
  }

  /** The number of steps that thread `t`'s cell has been through. */
  ghost function StepsDone(a: nat, pc: nat): nat {
    if pc <= 14 then 0 else if pc == 24 then a else if a == 0 then 0 else a - 1
  }

  /** The shared word of thread `t`. */
  ghost predicate Word(e: Env, t: nat, a: nat, pc: nat, m: Store)
    requires t < BLOCK
  {
    pc >= 14 ==> LoadFrom(m, Shared, 4 * t) == Ok(After(e, StepsDone(a, pc))[t])
  }

  /** The sizes and parameters of the memory a block of the kernel sees. */
  ghost predicate Sized(e: Env, m: Store) {
    Launchable(e, |m.global|) && |m.shared| == 1024 && m.params == [e.x, e.partial, |e.input|]
  }

  ghost predicate InputIntact(e: Env, m: Store) {
    forall i | 0 <= i < |e.input| && e.x + 4 * i < 0x1_0000_0000 :: LoadFrom(m, Global, e.x + 4 * i) == Ok(e.input[i])
  }

  /** The result has been stored. */
  ghost predicate ResultStored(e: Env, m: Store) {
    e.partial + 4 * e.block < 0x1_0000_0000 && LoadFrom(m, Global, e.partial + 4 * e.block) == Ok(After(e, 8)[0])
  }

  // ---- one step of one thread ----

  /** The special registers of the thread. */
  ghost predicate Placed(e: Env, t: nat, lane: nat, ctx: LaunchContext) {
    lane < WARP_SIZE && ctx.Special(0, lane) == t && ctx.Special(4, lane) == e.block
  }

  predicate IsPlain(pc: nat) {
    pc <= 36 && pc != 5 && pc != 7 && pc != 9 && pc != 11 && pc != 13 && pc != 14 && pc != 17 && pc != 20 && pc != 21
    && pc != 23 && pc != 24 && pc != 27 && pc != 29 && pc != 31 && pc != 33 && pc != 35 && pc != 36
  }

  lemma AluThread(program: seq<Instruction>, ctx: LaunchContext, lane: nat, pc: u16, r: Lane, m: Store)
    requires ValidProgram(program) && lane < WARP_SIZE && pc + 1 < |program| < 0x1_0000
    requires IsAlu(program[pc].op) && !program[pc].guard.present
    ensures ThreadStep(program, ctx, lane, Running(pc, r), m)
            == Advanced(Running(pc + 1, AluLane(program[pc], r, lane, ctx)), m)
  {
    hide AluLane;
  }

  lemma PlainCode(pc: nat)
    requires IsPlain(pc)
    ensures IsAlu(Code(pc).op) && !Code(pc).guard.present
  {
  }

  lemma PlainStep(pc: nat, lane: nat, ctx: LaunchContext, r: Lane, m: Store)
    requires IsPlain(pc) && lane < WARP_SIZE && ValidProgram(Kernel())
    ensures Valid(Code(pc))
    ensures ThreadStep(Kernel(), ctx, lane, Running(pc, r), m) == Advanced(Running(pc + 1, AluLane(Code(pc), r, lane, ctx)), m)
  {
    hide Kernel, AluLane, Code, ThreadStep, IsAlu;
    CodeValid(pc);
    PlainCode(pc);
    AluThread(Kernel(), ctx, lane, pc, r, m);
  }

  lemma SmallShift(a: u32, n: u32, p: nat)
    requires n < 32 && p == Pow2(n) && a * p < 0x1_0000_0000
    ensures ShiftLeft(a, n) == a * p
  {
  }

  lemma SmallPowers()
    ensures Pow2(1) == 2 && Pow2(2) == 4 && Pow2(8) == 256
  {
  }

  lemma Plain0(e: Env, t: nat, lane: nat, ctx: LaunchContext, a: nat, pc: nat, r: Lane)
    requires Regs(e, t, a, pc, r) && Placed(e, t, lane, ctx) && pc in {0, 1, 4}
    ensures Valid(Code(pc)) && Regs(e, t, a, pc + 1, AluLane(Code(pc), r, lane, ctx))
  {
    CodeValid(pc);
  }

  lemma Plain2(e: Env, t: nat, lane: nat, ctx: LaunchContext, a: nat, pc: nat, r: Lane, size: nat)
    requires Regs(e, t, a, pc, r) && lane < WARP_SIZE && Launchable(e, size) && pc in {2, 3}
    ensures Valid(Code(pc)) && Regs(e, t, a, pc + 1, AluLane(Code(pc), r, lane, ctx))
  {
    CodeValid(pc);
    SmallPowers();
    if pc == 2 { SmallShift(r.general[1], 8, 256); }
  }

  lemma Plain6(e: Env, t: nat, lane: nat, ctx: LaunchContext, a: nat, pc: nat, r: Lane, size: nat)
    requires Regs(e, t, a, pc, r) && lane < WARP_SIZE && Launchable(e, size) && pc == 6
    ensures Valid(Code(pc)) && Regs(e, t, a, pc + 1, AluLane(Code(pc), r, lane, ctx))
  {
    CodeValid(pc);
  }

  lemma Plain8(e: Env, t: nat, lane: nat, ctx: LaunchContext, a: nat, pc: nat, r: Lane, size: nat)
    requires Regs(e, t, a, pc, r) && lane < WARP_SIZE && Launchable(e, size) && pc == 8
    ensures Valid(Code(pc)) && Regs(e, t, a, pc + 1, AluLane(Code(pc), r, lane, ctx))
  {
    hide CellsOf;
    CodeValid(pc);
    SmallPowers();
    SmallShift(r.general[2], 2, 4);
  }

  lemma Plain10(e: Env, t: nat, lane: nat, ctx: LaunchContext, a: nat, pc: nat, r: Lane, size: nat)
    requires Regs(e, t, a, pc, r) && lane < WARP_SIZE && Launchable(e, size) && pc == 10
    ensures Valid(Code(pc)) && Regs(e, t, a, pc + 1, AluLane(Code(pc), r, lane, ctx))
  {
    hide CellsOf, Index;
    CodeValid(pc);
  }

  lemma Plain12(e: Env, t: nat, lane: nat, ctx: LaunchContext, a: nat, pc: nat, r: Lane)
    requires Regs(e, t, a, pc, r) && lane < WARP_SIZE && pc == 12
    ensures Valid(Code(pc)) && Regs(e, t, a, pc + 1, AluLane(Code(pc), r, lane, ctx))
  {
    hide CellsOf, Index;
    CodeValid(pc);
    SmallPowers();
    SmallShift(r.general[0], 2, 4);
  }

  lemma IndexBound(e: Env, t: nat)
    requires t < BLOCK
    ensures Index(e, t) < |e.input| ==> Cells(e.input, e.block)[t] == e.input[Index(e, t)]
    ensures Index(e, t) >= |e.input| ==> Cells(e.input, e.block)[t] == 0
  {
  }

  lemma Plain15(e: Env, t: nat, lane: nat, ctx: LaunchContext, a: nat, pc: nat, r: Lane)
    requires Regs(e, t, a, pc, r) && lane < WARP_SIZE && pc in {15, 16}
    ensures Valid(Code(pc)) && Regs(e, t, a, pc + 1, AluLane(Code(pc), r, lane, ctx))
  {
    CodeValid(pc);
    Strides(a);
  }

  lemma Plain18(e: Env, t: nat, lane: nat, ctx: LaunchContext, a: nat, pc: nat, r: Lane)
    requires Regs(e, t, a, pc, r) && lane < WARP_SIZE && pc == 18
    ensures Valid(Code(pc)) && Regs(e, t, a, pc + 1, AluLane(Code(pc), r, lane, ctx))
  {
    hide After, CellsOf, ReductionSums.Stride;
    CodeValid(pc);
    Strides(a);
    SmallPowers();
    SmallShift(r.general[8], 2, 4);
  }

  lemma Plain19(e: Env, t: nat, lane: nat, ctx: LaunchContext, a: nat, pc: nat, r: Lane)
    requires Regs(e, t, a, pc, r) && lane < WARP_SIZE && pc == 19
    ensures Valid(Code(pc)) && Regs(e, t, a, pc + 1, AluLane(Code(pc), r, lane, ctx))
  {
    hide After, CellsOf, ReductionSums.Stride;
    CodeValid(pc);
  }

  /** A thread below the stride adds the cell above. */
  lemma AfterStep(e: Env, a: nat, t: nat)
    requires 1 <= a <= 8 && t < Stride(a)
    ensures t + Stride(a) < BLOCK && After(e, a)[t] == Added(After(e, a - 1)[t], After(e, a - 1)[t + Stride(a)])
  {
    hide CellsOf, Level;
    Strides(a);
    LevelStep(CellsOf(e), a);
  }

  lemma Plain22(e: Env, t: nat, lane: nat, ctx: LaunchContext, a: nat, pc: nat, r: Lane)
    requires Regs(e, t, a, pc, r) && lane < WARP_SIZE && pc == 22
    ensures Valid(Code(pc)) && Regs(e, t, a, pc + 1, AluLane(Code(pc), r, lane, ctx))
  {
    hide CellsOf, After, Stride;
    CodeValid(pc);
    AfterStep(e, a, t);
  }

  lemma Plain25(e: Env, t: nat, lane: nat, ctx: LaunchContext, a: nat, pc: nat, r: Lane)
    requires Regs(e, t, a, pc, r) && lane < WARP_SIZE && pc == 25
    ensures Valid(Code(pc)) && Regs(e, t, a, pc + 1, AluLane(Code(pc), r, lane, ctx))
  {
    hide Stride, After;
    CodeValid(pc);
    Strides(a);
    Strides(a - 1);
    SmallPowers();
    HalveStride(a);
  }

  lemma HalveStride(a: nat)
    requires 2 <= a <= 9
    ensures Stride(a - 1) <= 128 && ShiftRight(Stride(a - 1), 1) == Stride(a)
  {
    Strides(a - 1);
    SmallPowers();
  }

  lemma Plain26(e: Env, t: nat, lane: nat, ctx: LaunchContext, a: nat, pc: nat, r: Lane)
    requires Regs(e, t, a, pc, r) && lane < WARP_SIZE && pc == 26
    ensures Valid(Code(pc)) && Regs(e, t, a, pc + 1, AluLane(Code(pc), r, lane, ctx))
  {
    hide Stride, After;
    CodeValid(pc);
    Strides(a);
  }

  lemma Plain28(e: Env, t: nat, lane: nat, ctx: LaunchContext, a: nat, pc: nat, r: Lane, size: nat)
    requires Regs(e, t, a, pc, r) && lane < WARP_SIZE && Launchable(e, size) && pc in {28, 30, 32, 34}
    ensures Valid(Code(pc)) && Regs(e, t, a, pc + 1, AluLane(Code(pc), r, lane, ctx))
  {
    CodeValid(pc);
    SmallPowers();
    if pc == 32 { SmallShift(r.general[1], 2, 4); }
  }

  /** Every plain instruction leads to what holds at the next one. */
  lemma PlainRegs(e: Env, t: nat, lane: nat, ctx: LaunchContext, a: nat, pc: nat, r: Lane, size: nat)
    requires IsPlain(pc) && Regs(e, t, a, pc, r) && Placed(e, t, lane, ctx) && Launchable(e, size)
    ensures Valid(Code(pc)) && Regs(e, t, a, pc + 1, AluLane(Code(pc), r, lane, ctx))
  {
    hide Regs, AluLane, Code, Valid, Launchable, Placed;
    PlacedLane(e, t, lane, ctx);
    if pc in {0, 1, 4} { Plain0(e, t, lane, ctx, a, pc, r); }
    else if pc in {2, 3} { Plain2(e, t, lane, ctx, a, pc, r, size); }
    else if pc == 6 { Plain6(e, t, lane, ctx, a, pc, r, size); }
    else if pc == 8 { Plain8(e, t, lane, ctx, a, pc, r, size); }
    else if pc == 10 { Plain10(e, t, lane, ctx, a, pc, r, size); }
    else if pc == 12 { Plain12(e, t, lane, ctx, a, pc, r); }
    else if pc in {15, 16} { Plain15(e, t, lane, ctx, a, pc, r); }
    else if pc == 18 { Plain18(e, t, lane, ctx, a, pc, r); }
    else if pc == 19 { Plain19(e, t, lane, ctx, a, pc, r); }
    else if pc == 22 { Plain22(e, t, lane, ctx, a, pc, r); }
    else if pc == 25 { Plain25(e, t, lane, ctx, a, pc, r); }
    else if pc == 26 { Plain26(e, t, lane, ctx, a, pc, r); }
    else { Plain28(e, t, lane, ctx, a, pc, r, size); }
  }

  lemma PlacedLane(e: Env, t: nat, lane: nat, ctx: LaunchContext)
    requires Placed(e, t, lane, ctx)
    ensures lane < WARP_SIZE
  {
  }

  // ---- memory instructions ----

  lemma LoadThread(program: seq<Instruction>, ctx: LaunchContext, lane: nat, pc: u16, r: Lane, m: Store, v: u32)
    requires ValidProgram(program) && lane < WARP_SIZE && pc + 1 < |program| < 0x1_0000
    requires var i := program[pc];
             && IsMemory(i.op) && !IsStore(i.op) && !i.guard.present
             && i in program && LoadFrom(m, SpaceOf(i.op), AddressOf(i, r)) == Ok(v)
    ensures program[pc].dst < GENERAL_REGISTERS
    ensures ThreadStep(program, ctx, lane, Running(pc, r), m) == Advanced(Running(pc + 1, WriteReg(r, program[pc].dst, v)), m)
  {
    hide LoadFrom, AddressOf, AluLane;
    ValidIndices(program[pc]);
  }

  lemma StoreThread(program: seq<Instruction>, ctx: LaunchContext, lane: nat, pc: u16, r: Lane, m: Store, m1: Store)
    requires ValidProgram(program) && lane < WARP_SIZE && pc + 1 < |program| < 0x1_0000
    requires var i := program[pc];
             && IsStore(i.op) && !i.guard.present && i.src1 < GENERAL_REGISTERS
             && i in program && StoreTo(m, SpaceOf(i.op), AddressOf(i, r), r.general[i.src1]) == Ok(m1)
    ensures ThreadStep(program, ctx, lane, Running(pc, r), m) == Advanced(Running(pc + 1, r), m1)
  {
    hide StoreTo, AddressOf, AluLane;
    ValidIndices(program[pc]);
  }

  /** The word a load reads: a parameter, an input word, or a shared word. */
  ghost predicate LoadsWord(e: Env, t: nat, a: nat, pc: nat, m: Store, v: u32)
    requires a >= 1 || pc < 20
  {
    if pc == 5 then v == |e.input|
    else if pc == 9 then v == e.x
    else if pc == 33 then v == e.partial
    else if pc == 11 then Index(e, t) < |e.input| && v == e.input[Index(e, t)]
    else if pc == 20 then t < BLOCK && v == After(e, a - 1)[t]
    else if pc == 21 then t + Stride(a) < BLOCK && v == After(e, a - 1)[t + Stride(a)]
    else v == After(e, 8)[0]
  }

  predicate IsLoad(pc: nat) { pc in {5, 9, 11, 20, 21, 31, 33} }

  /** The word above the thread's own that step `a` reads. */
  ghost predicate Above(e: Env, t: nat, a: nat, m: Store)
    requires a >= 1
  {
    t + Stride(a) < BLOCK ==> LoadFrom(m, Shared, 4 * (t + Stride(a))) == Ok(After(e, a - 1)[t + Stride(a)])
  }

  lemma SharedAddress(e: Env, t: nat, a: nat, pc: nat, r: Lane, m: Store) returns (v: u32)
    requires pc in {20, 21, 31} && Regs(e, t, a, pc, r) && Word(e, t, a, pc, m)
    requires pc == 21 ==> a >= 1 && Above(e, t, a, m)
    ensures Valid(Code(pc)) && LoadsWord(e, t, a, pc, m, v)
    ensures LoadFrom(m, SpaceOf(Code(pc).op), AddressOf(Code(pc), r)) == Ok(v)
  {
    hide LoadFrom, After, ReductionSums.Stride, StageRegs;
    CodeValid(pc);
    if pc == 20 { v := After(e, a - 1)[t]; }
    else if pc == 21 { v := After(e, a - 1)[t + Stride(a)]; }
    else { v := After(e, 8)[0]; }
  }

  lemma OtherAddress(e: Env, t: nat, a: nat, pc: nat, r: Lane, m: Store) returns (v: u32)
    requires pc in {5, 9, 11, 33} && Regs(e, t, a, pc, r) && Sized(e, m)
    requires pc == 11 ==> InputIntact(e, m)
    ensures Valid(Code(pc)) && LoadsWord(e, t, a, pc, m, v)
    ensures LoadFrom(m, SpaceOf(Code(pc).op), AddressOf(Code(pc), r)) == Ok(v)
  {
    hide Load32, StepRegs, TailRegs;
    CodeValid(pc);
    if pc == 5 { v := |e.input|; }
    else if pc == 9 { v := e.x; }
    else if pc == 33 { v := e.partial; }
    else { v := e.input[Index(e, t)]; }
  }

  lemma LoadAddress(e: Env, t: nat, a: nat, pc: nat, r: Lane, m: Store) returns (v: u32)
    requires IsLoad(pc) && Regs(e, t, a, pc, r) && Sized(e, m) && Word(e, t, a, pc, m)
    requires pc == 11 ==> InputIntact(e, m)
    requires pc == 21 ==> a >= 1 && Above(e, t, a, m)
    ensures Valid(Code(pc)) && LoadsWord(e, t, a, pc, m, v)
    ensures LoadFrom(m, SpaceOf(Code(pc).op), AddressOf(Code(pc), r)) == Ok(v)
  {
    hide Code, Valid, Regs, LoadFrom, Word, Sized, InputIntact, Above, AddressOf;
    if pc in {20, 21, 31} {
      v := SharedAddress(e, t, a, pc, r, m);
    } else {
      v := OtherAddress(e, t, a, pc, r, m);
    }
  }

  lemma LoadRegs(e: Env, t: nat, a: nat, pc: nat, r: Lane, m: Store, v: u32, dst: u8)
    requires IsLoad(pc) && Regs(e, t, a, pc, r) && LoadsWord(e, t, a, pc, m, v) && dst == Code(pc).dst
    ensures dst < GENERAL_REGISTERS && Regs(e, t, a, pc + 1, WriteReg(r, dst, v))
  {
    hide After, Stride, CellsOf;
    if pc == 11 { IndexBound(e, t); CellsAre(e); }
  }

  lemma CellsAre(e: Env)
    ensures CellsOf(e) == Cells(e.input, e.block)
  {
  }

  // ---- the whole step ----

  /** What holds of thread `t` after `a` barriers. */
  ghost predicate ThreadInv(e: Env, t: nat, a: nat, thread: Thread, m: Store) {
    t < BLOCK &&
    match thread
    case Running(pc, r) => Regs(e, t, a, pc, r) && Word(e, t, a, pc, m) && (pc == 36 ==> ResultStored(e, m))
    case Retired(_) => a == 9 && LoadFrom(m, Shared, 4 * t) == Ok(After(e, 8)[t]) && (t == 0 ==> ResultStored(e, m))
  }

  /** A step of thread `t` touches no shared word but its own; only thread 0 writes global memory, at the end,
      and only the result word of the block. */
  ghost predicate Kept(e: Env, t: nat, a: nat, m: Store, m1: Store) {
    && |m1.global| == |m.global| && |m1.shared| == |m.shared| && m1.params == m.params
    && (forall x: u32 | x != 4 * t :: LoadFrom(m1, Shared, x) == LoadFrom(m, Shared, x))
    && (forall x: u32 | a < 9 || t != 0 || x != e.partial + 4 * e.block :: LoadFrom(m1, Global, x) == LoadFrom(m, Global, x))
  }

  ghost predicate StepGood(e: Env, t: nat, a: nat, m: Store, s: ThreadResult) {
    s.Advanced? && ThreadInv(e, t, a, s.thread, s.store) && Kept(e, t, a, m, s.store)
  }

  lemma KeptSelf(e: Env, t: nat, a: nat, m: Store)
    ensures Kept(e, t, a, m, m)
  {
  }

  lemma PlainGood(e: Env, t: nat, lane: nat, ctx: LaunchContext, a: nat, pc: nat, r: Lane, m: Store)
    requires IsPlain(pc) && ThreadInv(e, t, a, Running(pc, r), m) && Placed(e, t, lane, ctx) && Sized(e, m)
    requires ValidProgram(Kernel()) && lane < WARP_SIZE
    ensures StepGood(e, t, a, m, ThreadStep(Kernel(), ctx, lane, Running(pc, r), m))
  {
    hide Kernel, Regs, AluLane, Code, Valid, ThreadStep, LoadFrom, After;
    PlainRegs(e, t, lane, ctx, a, pc, r, |m.global|);
    PlainStep(pc, lane, ctx, r, m);
    KeptSelf(e, t, a, m);
    PlainRange(e, t, a, pc, r);
  }

  /** A plain instruction does not change how many steps the thread's cell has been through. */
  lemma PlainRange(e: Env, t: nat, a: nat, pc: nat, r: Lane)
    requires Regs(e, t, a, pc, r) && (IsPlain(pc) || IsLoad(pc))
    ensures pc + 1 < SIZE && pc + 1 != 36 && (pc + 1 >= 14 ==> pc >= 14)
    ensures StepsDone(a, pc + 1) == StepsDone(a, pc)
  {
  }

  lemma LoadGood(e: Env, t: nat, lane: nat, ctx: LaunchContext, a: nat, pc: nat, r: Lane, m: Store)
    requires IsLoad(pc) && ThreadInv(e, t, a, Running(pc, r), m) && Sized(e, m)
    requires ValidProgram(Kernel()) && lane < WARP_SIZE
    requires (a == 0 ==> InputIntact(e, m)) && (1 <= a <= 8 ==> Above(e, t, a, m))
    ensures StepGood(e, t, a, m, ThreadStep(Kernel(), ctx, lane, Running(pc, r), m))
  {
    hide Kernel, AluLane, Code, Valid, ThreadStep, LoadFrom, After, AddressOf, StageRegs, StepRegs, TailRegs, LoadsWord, InputIntact, Above;
    var v := LoadAddress(e, t, a, pc, r, m);
    LoadCode(pc);
    LoadThread(Kernel(), ctx, lane, pc, r, m, v);
    LoadRegs(e, t, a, pc, r, m, v, Code(pc).dst);
    KeptSelf(e, t, a, m);
    PlainRange(e, t, a, pc, r);
  }

  lemma LoadCode(pc: nat)
    requires IsLoad(pc)
    ensures pc + 1 < SIZE && IsMemory(Code(pc).op) && !IsStore(Code(pc).op) && !Code(pc).guard.present && Code(pc) in Kernel()
  {
    assert Kernel()[pc] == Code(pc);
  }

  // ---- stores ----

  /** A store of the thread's own shared word. */
  lemma OwnStore(e: Env, t: nat, a: nat, m: Store, v: u32)
    requires t < BLOCK && |m.shared| == 1024
    ensures StoreTo(m, Shared, 4 * t, v).Ok?
    ensures var m1 := StoreTo(m, Shared, 4 * t, v).value; LoadFrom(m1, Shared, 4 * t) == Ok(v) && Kept(e, t, a, m, m1)
  {
    OwnStoreFits(t, m, v);
    hide StoreTo, LoadFrom;
    var m1 := StoreTo(m, Shared, 4 * t, v).value;
    forall at: Space, x: u32 ensures LoadFrom(m1, at, x) == if at == Shared && x == 4 * t then Ok(v) else LoadFrom(m, at, x) {
      LoadAfterStoreTo(m, Shared, 4 * t, v, m1, at, x);
    }
    LoadAfterStoreTo(m, Shared, 4 * t, v, m1, Shared, 4 * t);
  }

  lemma OwnStoreFits(t: nat, m: Store, v: u32)
    requires t < BLOCK && |m.shared| == 1024
    ensures StoreTo(m, Shared, 4 * t, v).Ok?
  {
  }

  /** What storing the thread's cell leaves behind. */
  lemma CellInv(e: Env, t: nat, a: nat, pc: nat, r: Lane, m: Store, v: u32) returns (m1: Store)
    requires pc in {13, 23} && ThreadInv(e, t, a, Running(pc, r), m) && Sized(e, m)
    requires v == r.general[if pc == 13 then 3 else 10]
    ensures r.general[7] == 4 * t && StoreTo(m, Shared, 4 * t, v) == Ok(m1)
    ensures ThreadInv(e, t, a, Running(pc + 1, r), m1) && Kept(e, t, a, m, m1)
  {
    hide LoadFrom, StoreTo, CellsOf, Stride, Launchable, Level;
    OwnStore(e, t, a, m, v);
    m1 := StoreTo(m, Shared, 4 * t, v).value;
    AtStart(e);
  }

  lemma AtStart(e: Env)
    ensures After(e, 0) == CellsOf(e)
  {
  }

  lemma CellStore(e: Env, t: nat, lane: nat, ctx: LaunchContext, a: nat, pc: nat, r: Lane, m: Store)
    requires pc in {13, 23} && ThreadInv(e, t, a, Running(pc, r), m) && Sized(e, m)
    requires ValidProgram(Kernel()) && lane < WARP_SIZE
    ensures StepGood(e, t, a, m, ThreadStep(Kernel(), ctx, lane, Running(pc, r), m))
  {
    hide Kernel, AluLane, Valid, ThreadStep, ThreadInv, Kept, StoreTo, Sized;
    CodeValid(pc);
    assert Kernel()[pc] == Code(pc);
    var m1 := CellInv(e, t, a, pc, r, m, r.general[Code(pc).src1]);
    StoreThread(Kernel(), ctx, lane, pc, r, m, m1);
  }

  lemma ResultFits(e: Env, m: Store, v: u32)
    requires Launchable(e, |m.global|)
    ensures e.partial + 4 * e.block < 0x1_0000_0000 && StoreTo(m, Global, e.partial + 4 * e.block, v).Ok?
  {
  }

  lemma ResultStore(e: Env, a: nat, m: Store, v: u32)
    requires Launchable(e, |m.global|) && a == 9
    ensures e.partial + 4 * e.block < 0x1_0000_0000 && StoreTo(m, Global, e.partial + 4 * e.block, v).Ok?
    ensures var m1 := StoreTo(m, Global, e.partial + 4 * e.block, v).value;
            && Kept(e, 0, a, m, m1) && LoadFrom(m1, Global, e.partial + 4 * e.block) == Ok(v)
            && forall x: u32 :: LoadFrom(m1, Shared, x) == LoadFrom(m, Shared, x)
  {
    ResultFits(e, m, v);
    hide StoreTo, LoadFrom, Launchable;
    var p := e.partial + 4 * e.block;
    var m1 := StoreTo(m, Global, p, v).value;
    forall x: u32
      ensures LoadFrom(m1, Shared, x) == LoadFrom(m, Shared, x)
      ensures x != p ==> LoadFrom(m1, Global, x) == LoadFrom(m, Global, x)
    {
      LoadAfterStoreTo(m, Global, p, v, m1, Shared, x);
      LoadAfterStoreTo(m, Global, p, v, m1, Global, x);
    }
    LoadAfterStoreTo(m, Global, p, v, m1, Global, p);
  }

  /** What storing the result leaves behind. */
  lemma FinalInv(e: Env, t: nat, a: nat, r: Lane, m: Store) returns (m1: Store)
    requires ThreadInv(e, t, a, Running(35, r), m) && Sized(e, m)
    ensures e.partial + 4 * e.block < 0x1_0000_0000 && r.general[15] == e.partial + 4 * e.block
    ensures StoreTo(m, Global, r.general[15], r.general[13]) == Ok(m1)
    ensures ThreadInv(e, t, a, Running(36, r), m1) && Kept(e, t, a, m, m1)
  {
    hide LoadFrom, StoreTo, After, Stride, Launchable, StageRegs, StepRegs;
    ResultStore(e, a, m, r.general[13]);
    m1 := StoreTo(m, Global, e.partial + 4 * e.block, r.general[13]).value;
  }

  lemma FinalStore(e: Env, t: nat, lane: nat, ctx: LaunchContext, a: nat, pc: nat, r: Lane, m: Store)
    requires pc == 35 && ThreadInv(e, t, a, Running(pc, r), m) && Sized(e, m)
    requires ValidProgram(Kernel()) && lane < WARP_SIZE
    ensures StepGood(e, t, a, m, ThreadStep(Kernel(), ctx, lane, Running(pc, r), m))
  {
    hide Kernel, AluLane, Valid, ThreadStep, ThreadInv, Kept, StoreTo, Sized;
    CodeValid(pc);
    assert Kernel()[pc] == Code(pc);
    var m1 := FinalInv(e, t, a, r, m);
    StoreThread(Kernel(), ctx, lane, pc, r, m, m1);
  }

  // ---- branches and exits ----

  lemma BranchThread(program: seq<Instruction>, ctx: LaunchContext, lane: nat, pc: u16, r: Lane, m: Store)
    requires ValidProgram(program) && lane < WARP_SIZE && pc + 1 < |program| < 0x1_0000
    requires var i := program[pc]; i.op == Bra && i.guard.present && !i.guard.negate && i.Target() < |program|
    ensures program[pc].guard.pred < PREDICATE_REGISTERS
    ensures ThreadStep(program, ctx, lane, Running(pc, r), m)
            == Advanced(Running(if r.preds[program[pc].guard.pred] then program[pc].Target() else pc + 1, r), m)
  {
    hide AluLane, AccessLane;
    ValidIndices(program[pc]);
  }

  lemma BranchCode(pc: nat)
    requires pc in {7, 17, 27}
    ensures Code(pc).op == Bra && Code(pc).guard == Guard(true, false, if pc == 7 then 0 else if pc == 17 then 1 else 2)
    ensures Code(pc).Target() == if pc == 7 then STAGE else if pc == 17 then SKIP else LOOP
    ensures Code(pc).Reconvergence() == if pc == 7 then STAGE else if pc == 17 then SKIP else TAIL
  {
    BranchImmHalves(STAGE, STAGE);
    BranchImmHalves(SKIP, SKIP);
    BranchImmHalves(LOOP, TAIL);
  }

  /** Where a branch goes is where its condition says, and what holds there. */
  lemma BranchInv(e: Env, t: nat, a: nat, pc: nat, r: Lane, m: Store)
    requires pc in {7, 17, 27} && ThreadInv(e, t, a, Running(pc, r), m)
    ensures var taken := r.preds[if pc == 7 then 0 else if pc == 17 then 1 else 2];
            var target := if pc == 7 then STAGE else if pc == 17 then SKIP else LOOP;
            ThreadInv(e, t, a, Running(if taken then target else pc + 1, r), m)
  {
    hide LoadFrom, Level, Cells;
    if pc == 7 { IndexBound(e, t); CellsAre(e); }
    if pc == 17 && t >= Stride(a) { AfterStays(e, a, t); }
    if pc != 7 { Strides(a); }
  }

  lemma BranchGood(e: Env, t: nat, lane: nat, ctx: LaunchContext, a: nat, pc: nat, r: Lane, m: Store)
    requires pc in {7, 17, 27} && ThreadInv(e, t, a, Running(pc, r), m)
    requires ValidProgram(Kernel()) && lane < WARP_SIZE
    ensures StepGood(e, t, a, m, ThreadStep(Kernel(), ctx, lane, Running(pc, r), m))
  {
    hide Kernel, Valid, ThreadStep, Code, ThreadInv, Kept;
    BranchCode(pc);
    BranchThread(Kernel(), ctx, lane, pc, r, m);
    KeptSelf(e, t, a, m);
    BranchInv(e, t, a, pc, r, m);
  }

  lemma AfterStays(e: Env, a: nat, t: nat)
    requires 1 <= a <= 8 && Stride(a) <= t < BLOCK
    ensures After(e, a)[t] == After(e, a - 1)[t]
  {
    LevelStays(CellsOf(e), a, t);
  }

  lemma ExitThread(program: seq<Instruction>, ctx: LaunchContext, lane: nat, pc: u16, r: Lane, m: Store)
    requires ValidProgram(program) && lane < WARP_SIZE && pc < |program| < 0x1_0000 && program[pc].op == Exit
    ensures program[pc].guard.pred < PREDICATE_REGISTERS
    ensures ThreadStep(program, ctx, lane, Running(pc, r), m) ==
            Advanced(if !program[pc].guard.present || r.preds[program[pc].guard.pred] != program[pc].guard.negate then Retired(r)
                     else AtPc(NextPc(pc), r, |program|), m)
  {
    hide AluLane, AccessLane;
    ValidIndices(program[pc]);
  }

  lemma ExitGood(e: Env, t: nat, lane: nat, ctx: LaunchContext, a: nat, pc: nat, r: Lane, m: Store)
    requires pc in {29, 36} && ThreadInv(e, t, a, Running(pc, r), m) && Sized(e, m)
    requires ValidProgram(Kernel()) && lane < WARP_SIZE
    ensures StepGood(e, t, a, m, ThreadStep(Kernel(), ctx, lane, Running(pc, r), m))
  {
    hide Kernel, AluLane, Valid, ThreadStep, LoadFrom, After, Stride;
    ExitThread(Kernel(), ctx, lane, pc, r, m);
    KeptSelf(e, t, a, m);
  }

  /** Every step of every thread, apart from barriers, keeps what holds of it and disturbs no other thread. */
  lemma ThreadGood(e: Env, t: nat, lane: nat, ctx: LaunchContext, a: nat, pc: nat, r: Lane, m: Store)
    requires pc < SIZE && pc != 14 && pc != 24 && ThreadInv(e, t, a, Running(pc, r), m)
    requires Placed(e, t, lane, ctx) && Sized(e, m) && lane < WARP_SIZE && ValidProgram(Kernel())
    requires (a == 0 ==> InputIntact(e, m)) && (1 <= a <= 8 ==> Above(e, t, a, m))
    ensures StepGood(e, t, a, m, ThreadStep(Kernel(), ctx, lane, Running(pc, r), m))
  {
    hide Kernel, ThreadStep, ThreadInv, StepGood, Above, InputIntact, Sized, Placed;
    if IsLoad(pc) { LoadGood(e, t, lane, ctx, a, pc, r, m); }
    else if pc in {13, 23} { CellStore(e, t, lane, ctx, a, pc, r, m); }
    else if pc == 35 { FinalStore(e, t, lane, ctx, a, pc, r, m); }
    else if pc in {7, 17, 27} { BranchGood(e, t, lane, ctx, a, pc, r, m); }
    else if pc in {29, 36} { ExitGood(e, t, lane, ctx, a, pc, r, m); }
    else { PlainGood(e, t, lane, ctx, a, pc, r, m); }
  }

  // ---- races ----

  /** The shared word that a thread accesses. */
  lemma SharedAccess(e: Env, t: nat, a: nat, pc: nat, r: Lane)
    requires pc in {13, 20, 21, 23, 31} && Regs(e, t, a, pc, r)
    ensures Valid(Code(pc)) && SpaceOf(Code(pc).op) == Shared
    ensures a >= 1 || pc == 13
    ensures AddressOf(Code(pc), r) == if pc == 31 then 0 else if pc == 21 then 4 * (t + Stride(a)) else 4 * t
    ensures pc == 13 ==> a == 0
    ensures pc in {20, 21, 23} ==> 1 <= a <= 8 && t < Stride(a)
    ensures pc == 31 ==> a == 9 && t == 0
  {
    hide ReductionSums.Stride, After, CellsOf;
    CodeValid(pc);
  }

  lemma GlobalAccess(e: Env, t: nat, a: nat, pc: nat, r: Lane)
    requires pc in {11, 35} && Regs(e, t, a, pc, r)
    ensures Valid(Code(pc)) && SpaceOf(Code(pc).op) == Global && (pc == 11 ==> a == 0) && (pc == 35 ==> a == 9 && t == 0)
  {
    hide ReductionSums.Stride, After, CellsOf;
    CodeValid(pc);
  }

  lemma MemoryCode(pc: nat)
    requires pc < SIZE && IsMemory(Code(pc).op)
    ensures IsStore(Code(pc).op) <==> pc in {13, 23, 35}
    ensures SpaceOf(Code(pc).op) == if pc in {5, 9, 33} then Param else if pc in {11, 35} then Global else Shared
    ensures pc in {5, 9, 11, 13, 20, 21, 23, 31, 33, 35}
  {
  }

  /** Between two barriers no thread accesses, at whatever point, a word that another thread stores to: the
      threads `t` and `u` have issued the same number of barriers. */
  lemma RaceFree(e: Env, t: nat, u: nat, a: nat, pc: nat, r: Lane, pc1: nat, r1: Lane)
    requires t != u && Regs(e, t, a, pc, r) && Regs(e, u, a, pc1, r1)
    requires IsMemory(Code(pc).op) && IsStore(Code(pc1).op) && SpaceOf(Code(pc).op) == SpaceOf(Code(pc1).op)
    ensures Valid(Code(pc)) && Valid(Code(pc1)) && AddressOf(Code(pc), r) != AddressOf(Code(pc1), r1)
  {
    InKernel(e, t, a, pc, r);
    InKernel(e, u, a, pc1, r1);
    MemoryCode(pc);
    StoresAccess(pc1);
    MemoryCode(pc1);
    hide Code, Regs, Valid, AddressOf, ReductionSums.Stride;
    if SpaceOf(Code(pc).op) == Global {
      GlobalAccess(e, t, a, pc, r);
      GlobalAccess(e, u, a, pc1, r1);
      assert false;
    } else {
      SharedAccess(e, t, a, pc, r);
      SharedAccess(e, u, a, pc1, r1);
    }
  }

  lemma StoresAccess(pc: nat)
    requires pc < SIZE && IsStore(Code(pc).op)
    ensures IsMemory(Code(pc).op)
  {
  }

  lemma InKernel(e: Env, t: nat, a: nat, pc: nat, r: Lane)
    requires Regs(e, t, a, pc, r)
    ensures t < BLOCK && pc < SIZE
  {
  }
}
