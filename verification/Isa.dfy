/** The WISA instruction set: opcodes, operand shapes, instructions, and the 64-bit codec. */
module Isa {
  type u8 = x: int | 0 <= x < 0x100
  type u16 = x: int | 0 <= x < 0x1_0000
  type u32 = x: int | 0 <= x < 0x1_0000_0000
  type u64 = x: int | 0 <= x < 0x1_0000_0000_0000_0000

  datatype Option<+T> = None | Some(value: T)
  datatype Result<+T, +E> = Ok(value: T) | Err(error: E)

  const GENERAL_REGISTERS: nat := 64
  const PREDICATE_REGISTERS: nat := 8
  const SPECIAL_REGISTERS: nat := 10
  const NO_RECONVERGENCE: u16 := 0xFFFF

  datatype Opcode =
    | Add | Sub | Mul | Div | Rem | Min | Max | Neg
    | And | Or | Xor | Not | Shl | Shr | Sra | Mov
    | FAdd | FSub | FMul | FFma | FMin | FMax | FNeg | CvtF32S32 | CvtS32F32
    | SetpEqS32 | SetpNeS32 | SetpLtS32 | SetpLeS32 | SetpGtS32 | SetpGeS32
    | SetpEqF32 | SetpNeF32 | SetpLtF32 | SetpLeF32 | SetpGtF32 | SetpGeF32
    | MovSreg | Bra | Exit | BarSync
    | LdGlobal | StGlobal | LdShared | StShared | LdParam

  datatype Shape = Rrr | Rr | Acc | Prr | Sreg | BraShape | NoOperands | Ld | St | Ldp

  /** The opcode numbers of the instruction table; zero is invalid. */
  function Number(op: Opcode): u8 {
    match op
    case Add => 0x01 case Sub => 0x02 case Mul => 0x03 case Div => 0x04
    case Rem => 0x05 case Min => 0x06 case Max => 0x07 case Neg => 0x08
    case And => 0x09 case Or => 0x0A case Xor => 0x0B case Not => 0x0C
    case Shl => 0x0D case Shr => 0x0E case Sra => 0x0F case Mov => 0x10
    case FAdd => 0x11 case FSub => 0x12 case FMul => 0x13 case FFma => 0x14
    case FMin => 0x15 case FMax => 0x16 case FNeg => 0x17
    case CvtF32S32 => 0x18 case CvtS32F32 => 0x19
    case SetpEqS32 => 0x1A case SetpNeS32 => 0x1B case SetpLtS32 => 0x1C
    case SetpLeS32 => 0x1D case SetpGtS32 => 0x1E case SetpGeS32 => 0x1F
    case SetpEqF32 => 0x20 case SetpNeF32 => 0x21 case SetpLtF32 => 0x22
    case SetpLeF32 => 0x23 case SetpGtF32 => 0x24 case SetpGeF32 => 0x25
    case MovSreg => 0x26 case Bra => 0x27 case Exit => 0x28 case BarSync => 0x29
    case LdGlobal => 0x2A case StGlobal => 0x2B case LdShared => 0x2C
    case StShared => 0x2D case LdParam => 0x2E
  }

  /** The table lookup by number; every number outside the table has no opcode. */
  function FromNumber(n: u8): Option<Opcode> {
    match n
    case 0x01 => Some(Add) case 0x02 => Some(Sub) case 0x03 => Some(Mul) case 0x04 => Some(Div)
    case 0x05 => Some(Rem) case 0x06 => Some(Min) case 0x07 => Some(Max) case 0x08 => Some(Neg)
    case 0x09 => Some(And) case 0x0A => Some(Or) case 0x0B => Some(Xor) case 0x0C => Some(Not)
    case 0x0D => Some(Shl) case 0x0E => Some(Shr) case 0x0F => Some(Sra) case 0x10 => Some(Mov)
    case 0x11 => Some(FAdd) case 0x12 => Some(FSub) case 0x13 => Some(FMul) case 0x14 => Some(FFma)
    case 0x15 => Some(FMin) case 0x16 => Some(FMax) case 0x17 => Some(FNeg)
    case 0x18 => Some(CvtF32S32) case 0x19 => Some(CvtS32F32)
    case 0x1A => Some(SetpEqS32) case 0x1B => Some(SetpNeS32) case 0x1C => Some(SetpLtS32)
    case 0x1D => Some(SetpLeS32) case 0x1E => Some(SetpGtS32) case 0x1F => Some(SetpGeS32)
    case 0x20 => Some(SetpEqF32) case 0x21 => Some(SetpNeF32) case 0x22 => Some(SetpLtF32)
    case 0x23 => Some(SetpLeF32) case 0x24 => Some(SetpGtF32) case 0x25 => Some(SetpGeF32)
    case 0x26 => Some(MovSreg) case 0x27 => Some(Bra) case 0x28 => Some(Exit) case 0x29 => Some(BarSync)
    case 0x2A => Some(LdGlobal) case 0x2B => Some(StGlobal) case 0x2C => Some(LdShared)
    case 0x2D => Some(StShared) case 0x2E => Some(LdParam)
    case _ => None
  }

  function ShapeOf(op: Opcode): Shape {
    match op
    case Add | Sub | Mul | Div | Rem | Min | Max | And | Or | Xor | Shl | Shr | Sra => Rrr
    case FAdd | FSub | FMul | FMin | FMax => Rrr
    case Neg | Not | Mov | FNeg | CvtF32S32 | CvtS32F32 => Rr
    case FFma => Acc
    case SetpEqS32 | SetpNeS32 | SetpLtS32 | SetpLeS32 | SetpGtS32 | SetpGeS32 => Prr
    case SetpEqF32 | SetpNeF32 | SetpLtF32 | SetpLeF32 | SetpGtF32 | SetpGeF32 => Prr
    case MovSreg => Sreg
    case Bra => BraShape
    case Exit | BarSync => NoOperands
    case LdGlobal | LdShared => Ld
    case StGlobal | StShared => St
    case LdParam => Ldp
  }

  datatype Guard = Guard(present: bool, negate: bool, pred: u8)

  datatype Instruction = Instruction(op: Opcode, guard: Guard, dst: u8, src0: u8, src1: u8,
                                     immFlag: bool, imm: u32) {
    function Target(): u16 { imm % 0x1_0000 }
    function Reconvergence(): u16 { imm / 0x1_0000 }
  }

  function BranchImm(target: u16, reconvergence: u16): u32 {
    reconvergence * 0x1_0000 + target
  }

  datatype IsaError =
    | InvalidOpcode | GuardFieldsWithoutGuard | UnusedFieldNotZero
    | PredicateOutOfRange | SpecialRegisterOutOfRange | ImmediateFlagMismatch

  /** Which fields a shape uses; an unused field must be zero. */
  datatype FieldUse = FieldUse(dst: bool, src0: bool, src1: bool,
                               immOptional: bool, immAlways: bool, immRaw: bool)

  function UseOf(shape: Shape): FieldUse {
    match shape
    case Rrr | Prr => FieldUse(true, true, true, true, false, false)
    case Rr => FieldUse(true, true, false, true, false, false)
    case Acc => FieldUse(true, true, true, false, false, false)
    case Sreg => FieldUse(true, true, false, false, false, false)
    case BraShape => FieldUse(false, false, false, false, false, true)
    case NoOperands => FieldUse(false, false, false, false, false, false)
    case Ld => FieldUse(true, true, false, false, true, false)
    case St => FieldUse(false, true, true, false, true, false)
    case Ldp => FieldUse(true, false, false, false, true, false)
  }

  /** The first rule an instruction breaks, in the order the checks are made. */
  function Violation(i: Instruction): Option<IsaError> {
    var shape := ShapeOf(i.op);
    var use := UseOf(shape);
    if !i.guard.present && (i.guard.negate || i.guard.pred != 0) then Some(GuardFieldsWithoutGuard)
    else if i.guard.pred >= PREDICATE_REGISTERS then Some(PredicateOutOfRange)
    else if i.dst >= GENERAL_REGISTERS || i.src0 >= GENERAL_REGISTERS || i.src1 >= GENERAL_REGISTERS then
      Some(UnusedFieldNotZero)
    else if (!use.dst && i.dst != 0) || (!use.src0 && i.src0 != 0) || (!use.src1 && i.src1 != 0) then
      Some(UnusedFieldNotZero)
    else if use.immAlways && !i.immFlag then Some(ImmediateFlagMismatch)
    else if use.immRaw && i.immFlag then Some(ImmediateFlagMismatch)
    else if use.immOptional && i.immFlag && (if shape == Rr then i.src0 else i.src1) != 0 then
      Some(UnusedFieldNotZero)
    else if use.immOptional && !i.immFlag && i.imm != 0 then Some(UnusedFieldNotZero)
    else if !use.immAlways && !use.immRaw && !use.immOptional && i.immFlag then Some(ImmediateFlagMismatch)
    else if !use.immAlways && !use.immRaw && !use.immOptional && i.imm != 0 then Some(UnusedFieldNotZero)
    else if shape == Prr && i.dst >= PREDICATE_REGISTERS then Some(PredicateOutOfRange)
    else if shape == Sreg && i.src0 >= SPECIAL_REGISTERS then Some(SpecialRegisterOutOfRange)
    else None
  }

  predicate Valid(i: Instruction) {
    Violation(i) == None
  }

  function Bit(b: bool): nat { if b then 1 else 0 }

  /** The word with the given field values. The fields occupy disjoint bits, so the source's `|=` of
      shifted fields is a sum. */
  function Pack(op: nat, present: nat, negate: nat, pred: nat, dst: nat, src0: nat, src1: nat,
                flag: nat, imm: nat): nat {
    op * 0x100_0000_0000_0000 + present * 0x80_0000_0000_0000 + negate * 0x40_0000_0000_0000
    + pred * 0x8_0000_0000_0000 + dst * 0x2000_0000_0000 + src0 * 0x80_0000_0000
    + src1 * 0x2_0000_0000 + flag * 0x1_0000_0000 + imm
  }

  function Encode(i: Instruction): Result<u64, IsaError> {
    match Violation(i)
    case Some(e) => Err(e)
    case None =>
      assert i.guard.pred < 8 && i.dst < 64 && i.src0 < 64 && i.src1 < 64;
      Ok(Pack(Number(i.op), Bit(i.guard.present), Bit(i.guard.negate), i.guard.pred,
              i.dst, i.src0, i.src1, Bit(i.immFlag), i.imm))
  }

  function Decode(word: u64): Result<Instruction, IsaError> {
    match FromNumber(word / 0x100_0000_0000_0000)
    case None => Err(InvalidOpcode)
    case Some(op) =>
      var i := Instruction(op,
                           Guard(word / 0x80_0000_0000_0000 % 2 == 1,
                                 word / 0x40_0000_0000_0000 % 2 == 1,
                                 word / 0x8_0000_0000_0000 % 8),
                           word / 0x2000_0000_0000 % 64,
                           word / 0x80_0000_0000 % 64,
                           word / 0x2_0000_0000 % 64,
                           word / 0x1_0000_0000 % 2 == 1,
                           word % 0x1_0000_0000);
      match Violation(i)
      case Some(e) => Err(e)
      case None => Ok(i)
  }

  lemma NumberRoundTrip(op: Opcode)
    ensures FromNumber(Number(op)) == Some(op)
  {
    match op { case _ => }
  }

  lemma LowNumberExact(n: u8, op: Opcode)
    requires FromNumber(n) == Some(op) && n < 0x18
    ensures Number(op) == n
  {
  }

  lemma HighNumberExact(n: u8, op: Opcode)
    requires FromNumber(n) == Some(op) && n >= 0x18
    ensures Number(op) == n
  {
  }

  lemma FromNumberExact(n: u8, op: Opcode)
    requires FromNumber(n) == Some(op)
    ensures Number(op) == n
  {
    hide FromNumber, Number;
    if n < 0x18 { LowNumberExact(n, op); } else { HighNumberExact(n, op); }
  }

  /** Quotient and remainder are determined by `a == q * m + r` with `0 <= r < m`. */
  lemma Quotient(a: int, m: nat, q: int, r: nat)
    requires r < m && a == q * m + r
    ensures a / m == q && a % m == r
  {
    var d := a / m - q;
    assert a == (a / m) * m + a % m;
    assert d * m == r - a % m;
  }

  /** Every field of a packed word is read back by its shift and mask. */
  lemma Unpack(word: nat, op: nat, present: nat, negate: nat, pred: nat, dst: nat, src0: nat,
               src1: nat, flag: nat, imm: nat)
    requires present < 2 && negate < 2 && pred < 8 && dst < 64 && src0 < 64 && src1 < 64
    requires flag < 2 && imm < 0x1_0000_0000
    requires word == Pack(op, present, negate, pred, dst, src0, src1, flag, imm)
    ensures word / 0x100_0000_0000_0000 == op
    ensures word / 0x80_0000_0000_0000 % 2 == present
    ensures word / 0x40_0000_0000_0000 % 2 == negate
    ensures word / 0x8_0000_0000_0000 % 8 == pred
    ensures word / 0x2000_0000_0000 % 64 == dst
    ensures word / 0x80_0000_0000 % 64 == src0
    ensures word / 0x2_0000_0000 % 64 == src1
    ensures word / 0x1_0000_0000 % 2 == flag
    ensures word % 0x1_0000_0000 == imm
  {
    var q8 := op;
    var q7 := q8 * 2 + present;
    var q6 := q7 * 2 + negate;
    var q5 := q6 * 8 + pred;
    var q4 := q5 * 64 + dst;
    var q3 := q4 * 64 + src0;
    var q2 := q3 * 64 + src1;
    var q1 := q2 * 2 + flag;
    var r2 := flag * 0x1_0000_0000 + imm;
    var r3 := src1 * 0x2_0000_0000 + r2;
    var r4 := src0 * 0x80_0000_0000 + r3;
    var r5 := dst * 0x2000_0000_0000 + r4;
    var r6 := pred * 0x8_0000_0000_0000 + r5;
    var r7 := negate * 0x40_0000_0000_0000 + r6;
    var r8 := present * 0x80_0000_0000_0000 + r7;
    Quotient(word, 0x1_0000_0000, q1, imm);
    Quotient(word, 0x2_0000_0000, q2, r2);
    Quotient(word, 0x80_0000_0000, q3, r3);
    Quotient(word, 0x2000_0000_0000, q4, r4);
    Quotient(word, 0x8_0000_0000_0000, q5, r5);
    Quotient(word, 0x40_0000_0000_0000, q6, r6);
    Quotient(word, 0x80_0000_0000_0000, q7, r7);
    Quotient(word, 0x100_0000_0000_0000, q8, r8);
    Quotient(q7, 2, q8, present);
    Quotient(q6, 2, q7, negate);
    Quotient(q5, 8, q6, pred);
    Quotient(q4, 64, q5, dst);
    Quotient(q3, 64, q4, src0);
    Quotient(q2, 64, q3, src1);
    Quotient(q1, 2, q2, flag);
  }

  /** A word is the packing of the fields read from it. */
  lemma Repack(word: nat)
    ensures word == Pack(word / 0x100_0000_0000_0000, word / 0x80_0000_0000_0000 % 2,
                         word / 0x40_0000_0000_0000 % 2, word / 0x8_0000_0000_0000 % 8,
                         word / 0x2000_0000_0000 % 64, word / 0x80_0000_0000 % 64,
                         word / 0x2_0000_0000 % 64, word / 0x1_0000_0000 % 2,
                         word % 0x1_0000_0000)
  {
    var q1 := word / 0x1_0000_0000;
    var q2 := q1 / 2;
    var q3 := q2 / 64;
    var q4 := q3 / 64;
    var q5 := q4 / 64;
    var q6 := q5 / 8;
    var q7 := q6 / 2;
    var q8 := q7 / 2;
    Unpack(word, q8, q7 % 2, q6 % 2, q5 % 8, q4 % 64, q3 % 64, q2 % 64, q1 % 2, word % 0x1_0000_0000);
  }

  /** `decode` accepts a word exactly when it is the encoding of the instruction it returns. */
  lemma DecodeInvertsEncode(i: Instruction, word: u64)
    ensures Encode(i) == Ok(word) <==> Decode(word) == Ok(i)
  {
    if Encode(i) == Ok(word) {
      NumberRoundTrip(i.op);
      Unpack(word, Number(i.op), Bit(i.guard.present), Bit(i.guard.negate), i.guard.pred,
             i.dst, i.src0, i.src1, Bit(i.immFlag), i.imm);
    }
    if Decode(word) == Ok(i) {
      FromNumberExact(word / 0x100_0000_0000_0000, i.op);
      Repack(word);
    }
  }

  /** A branch immediate holds both of its halves. */
  lemma BranchImmHalves(target: u16, reconvergence: u16)
    ensures BranchImm(target, reconvergence) % 0x1_0000 == target
    ensures BranchImm(target, reconvergence) / 0x1_0000 == reconvergence
  {
    Quotient(BranchImm(target, reconvergence), 0x1_0000, reconvergence, target);
  }
}
