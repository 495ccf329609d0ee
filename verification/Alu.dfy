/** Lane registers, launch context, and the arithmetic of one lane. */
module Alu {
  import opened Isa
  import opened Powers
  import opened Bits

  const WARP_SIZE: nat := 32

  predicate IsLane(l: nat) { l < WARP_SIZE }

  /** Every lane of a warp. */
  function FullMask(): set<nat> { set l | 0 <= l < WARP_SIZE && IsLane(l) }

  /** The registers of one lane. */
  datatype LaneRegisters = LaneRegisters(general: seq<u32>, preds: seq<bool>)

  type Lane = r: LaneRegisters | |r.general| == GENERAL_REGISTERS && |r.preds| == PREDICATE_REGISTERS
    witness LaneRegisters(seq(GENERAL_REGISTERS, _ => 0), seq(PREDICATE_REGISTERS, _ => false))

  /** A lane mask: one bit per lane in the source. */
  type Mask = m: set<nat> | forall l | l in m :: l < WARP_SIZE

  /** The registers of the lanes of one warp. */
  type RegisterBank = b: seq<Lane> | |b| == WARP_SIZE witness seq(WARP_SIZE, _ => ZeroLane())

  function ZeroLane(): Lane {
    LaneRegisters(seq(GENERAL_REGISTERS, _ => 0), seq(PREDICATE_REGISTERS, _ => false))
  }

  function WriteReg(r: Lane, index: u8, value: u32): Lane
    requires index < GENERAL_REGISTERS
  {
    r.(general := r.general[index := value])
  }

  function WritePred(r: Lane, index: u8, value: bool): Lane
    requires index < PREDICATE_REGISTERS
  {
    r.(preds := r.preds[index := value])
  }

  datatype Dim2 = Dim2(x: u32, y: u32) {
    /** The source multiplies in 32 bits. */
    function Count(): u32 { x * y % 0x1_0000_0000 }
  }

  /** IEEE binary32 operations on bit patterns, left uninterpreted. */
  datatype FloatOps = FloatOps(add: (u32, u32) -> u32, sub: (u32, u32) -> u32, mul: (u32, u32) -> u32,
                               fma: (u32, u32, u32) -> u32, min: (u32, u32) -> u32, max: (u32, u32) -> u32,
                               fromS32: u32 -> u32, toS32: u32 -> u32,
                               eq: (u32, u32) -> bool, lt: (u32, u32) -> bool, le: (u32, u32) -> bool)

  datatype LaunchContext = LaunchContext(ntid: Dim2, nctaid: Dim2, ctaid: Dim2, warpId: nat, floats: FloatOps) {
    function LinearIndex(lane: nat): u32 { (warpId * WARP_SIZE + lane) % 0x1_0000_0000 }

    function BlockNumber(): u32 { (ctaid.y * nctaid.x + ctaid.x) % 0x1_0000_0000 }

    /** The value of a special register; the block width is positive for every launched block. */
    function Special(index: u8, lane: nat): u32
      requires lane < WARP_SIZE
    {
      match index
      case 0 => if ntid.x == 0 then 0 else LinearIndex(lane) % ntid.x
      case 1 => if ntid.x == 0 then 0 else (QuotientFits(LinearIndex(lane), ntid.x); LinearIndex(lane) / ntid.x)
      case 2 => ntid.x
      case 3 => ntid.y
      case 4 => ctaid.x
      case 5 => ctaid.y
      case 6 => nctaid.x
      case 7 => nctaid.y
      case 8 => lane
      case 9 => warpId % 0x1_0000_0000
      case _ => 0
    }
  }

  // ---- 32-bit arithmetic ----

  function Wrap(x: int): u32 { x % 0x1_0000_0000 }

  /** The two's complement value of a 32-bit pattern. */
  function Signed(a: u32): int { if a < 0x8000_0000 then a else a - 0x1_0000_0000 }

  /** Truncating division, as `/` on signed integers in the source. */
  function TruncDiv(x: int, y: int): int
    requires y != 0
  {
    if x >= 0 then (if y > 0 then x / y else -(x / -y))
    else (if y > 0 then -(-x / y) else -x / -y)
  }

  function DivS32(a: u32, b: u32): u32 {
    if Signed(b) == 0 then 0
    else if Signed(a) == -0x8000_0000 && Signed(b) == -1 then a
    else Wrap(TruncDiv(Signed(a), Signed(b)))
  }

  function RemS32(a: u32, b: u32): u32 {
    if Signed(b) == 0 || (Signed(a) == -0x8000_0000 && Signed(b) == -1) then 0
    else Wrap(Signed(a) - TruncDiv(Signed(a), Signed(b)) * Signed(b))
  }

  function ShiftLeft(a: u32, count: u32): u32 { Wrap(a * Pow2(count % 32)) }

  function ShiftRight(a: u32, count: u32): u32 {
    QuotientFits(a, Pow2(count % 32));
    a / Pow2(count % 32)
  }

  lemma QuotientFits(a: nat, p: nat)
    requires p > 0
    ensures 0 <= a / p <= a
  {
    var q := a / p;
    assert a == q * p + a % p;
    MulMonotone(q, -1, p);
    MulMonotone(1, p, q);
  }

  lemma MulMonotone(x: int, y: int, p: nat)
    ensures x <= y ==> x * p <= y * p
  {
    assert (y - x) * p == y * p - x * p;
  }

  /** The logical shift, with the vacated high bits set when the operand is negative. */
  function ShiftRightArithmetic(a: u32, count: u32): u32 {
    var n := count % 32;
    if Signed(a) < 0 && n > 0 then Wrap(ShiftRight(a, count) + (0x1_0000_0000 - Pow2(32 - n)))
    else ShiftRight(a, count)
  }

  function BitAnd(a: u32, b: u32): u32 {
    AndFits(a, b);
    AndBits(a, b)
  }

  function BitOr(a: u32, b: u32): u32 {
    Fits32(a, b, 32);
    OrBits(a, b)
  }

  function BitXor(a: u32, b: u32): u32 {
    Fits32(a, b, 32);
    XorBits(a, b)
  }

  lemma Fits32(a: u32, b: u32, k: nat)
    requires k == 32
    ensures OrBits(a, b) < 0x1_0000_0000 && XorBits(a, b) < 0x1_0000_0000
  {
    hide Pow2;
    Pow2Of32();
    OrFits(a, b, k);
    XorFits(a, b, k);
  }

  // ---- one lane of an arithmetic instruction ----

  predicate IsSetp(op: Opcode) { 0x1A <= Number(op) <= 0x25 }

  predicate IsMemory(op: Opcode) {
    op == LdGlobal || op == StGlobal || op == LdShared || op == StShared || op == LdParam
  }

  predicate IsAlu(op: Opcode) {
    !IsMemory(op) && op != Bra && op != Exit && op != BarSync
  }

  predicate IsStore(op: Opcode) { op == StGlobal || op == StShared }

  function Compare(op: Opcode, a: u32, b: u32, f: FloatOps): bool {
    match op
    case SetpEqS32 => Signed(a) == Signed(b)
    case SetpNeS32 => Signed(a) != Signed(b)
    case SetpLtS32 => Signed(a) < Signed(b)
    case SetpLeS32 => Signed(a) <= Signed(b)
    case SetpGtS32 => Signed(a) > Signed(b)
    case SetpGeS32 => Signed(a) >= Signed(b)
    case SetpEqF32 => f.eq(a, b)
    case SetpNeF32 => !f.eq(a, b)
    case SetpLtF32 => f.lt(a, b)
    case SetpLeF32 => f.le(a, b)
    case SetpGtF32 => f.lt(b, a)
    case SetpGeF32 => f.le(b, a)
    case _ => false
  }

  function Evaluate(i: Instruction, a: u32, b: u32, old_dst: u32, lane: nat, ctx: LaunchContext): u32
    requires lane < WARP_SIZE
  {
    match i.op
    case Add => Wrap(a + b)
    case Sub => Wrap(a - b)
    case Mul => Wrap(a * b)
    case Div => DivS32(a, b)
    case Rem => RemS32(a, b)
    case Min => if Signed(b) < Signed(a) then b else a
    case Max => if Signed(a) < Signed(b) then b else a
    case Neg => Wrap(0 - a)
    case And => BitAnd(a, b)
    case Or => BitOr(a, b)
    case Xor => BitXor(a, b)
    case Not => 0xFFFF_FFFF - a
    case Shl => ShiftLeft(a, b)
    case Shr => ShiftRight(a, b)
    case Sra => ShiftRightArithmetic(a, b)
    case Mov => a
    case FAdd => ctx.floats.add(a, b)
    case FSub => ctx.floats.sub(a, b)
    case FMul => ctx.floats.mul(a, b)
    case FFma => ctx.floats.fma(a, b, old_dst)
    case FMin => ctx.floats.min(a, b)
    case FMax => ctx.floats.max(a, b)
    case FNeg => BitXor(a, 0x8000_0000)
    case CvtF32S32 => ctx.floats.fromS32(a)
    case CvtS32F32 => ctx.floats.toS32(a)
    case MovSreg => ctx.Special(i.src0, lane)
    case _ => 0
  }

  function OperandA(i: Instruction, r: Lane): u32
    requires Valid(i)
  {
    if ShapeOf(i.op) == Rr && i.immFlag then i.imm else r.general[i.src0]
  }

  function OperandB(i: Instruction, r: Lane): u32
    requires Valid(i)
  {
    if ShapeOf(i.op) == Rr then 0 else if i.immFlag then i.imm else r.general[i.src1]
  }

  lemma ValidIndices(i: Instruction)
    requires Valid(i)
    ensures i.dst < GENERAL_REGISTERS && i.src0 < GENERAL_REGISTERS && i.src1 < GENERAL_REGISTERS
    ensures i.guard.pred < PREDICATE_REGISTERS
    ensures IsSetp(i.op) ==> i.dst < PREDICATE_REGISTERS
  {
    match i.op { case _ => }
  }

  /** The registers of one lane after an arithmetic instruction. */
  function AluLane(i: Instruction, r: Lane, lane: nat, ctx: LaunchContext): Lane
    requires Valid(i) && lane < WARP_SIZE
  {
    ValidIndices(i);
    var a := OperandA(i, r);
    var b := OperandB(i, r);
    if IsSetp(i.op) then WritePred(r, i.dst, Compare(i.op, a, b, ctx.floats))
    else WriteReg(r, i.dst, Evaluate(i, a, b, r.general[i.dst], lane, ctx))
  }

  // ---- what the arithmetic means ----

  lemma SignedWrap(x: int)
    requires -0x8000_0000 <= x < 0x8000_0000
    ensures Signed(Wrap(x)) == x
  {
  }

  lemma TruncDivBounds(x: int, y: int)
    requires y != 0 && -0x8000_0000 <= x < 0x8000_0000 && -0x8000_0000 <= y < 0x8000_0000
    requires !(x == -0x8000_0000 && y == -1)
    ensures -0x8000_0000 <= TruncDiv(x, y) < 0x8000_0000
  {
    var m := if x < 0 then -x else x;
    var k := if y < 0 then -y else y;
    QuotientFits(m, k);
    if m == 0x8000_0000 && k >= 2 {
      assert (m / k) * k <= m;
    }
  }

  /** `div` truncates and `rem` is its remainder: it has the sign of the dividend and is smaller than
      the divisor, except for the two cases that are defined to give zero or to wrap. */
  lemma DivRem(a: u32, b: u32)
    ensures Signed(b) == 0 ==> DivS32(a, b) == 0 && RemS32(a, b) == 0
    ensures Signed(a) == -0x8000_0000 && Signed(b) == -1 ==> DivS32(a, b) == a && RemS32(a, b) == 0
    ensures Signed(b) != 0 && !(Signed(a) == -0x8000_0000 && Signed(b) == -1) ==>
              var q := Signed(DivS32(a, b));
              var r := Signed(RemS32(a, b));
              && Signed(a) == q * Signed(b) + r
              && (r != 0 ==> (r < 0) == (Signed(a) < 0))
              && (if r < 0 then -r else r) < (if Signed(b) < 0 then -Signed(b) else Signed(b))
  {
    var x, y := Signed(a), Signed(b);
    if y != 0 && !(x == -0x8000_0000 && y == -1) {
      TruncDivBounds(x, y);
      SignedWrap(TruncDiv(x, y));
      TruncRemainder(x, y);
      SignedWrap(x - TruncDiv(x, y) * y);
    }
  }

  lemma TruncRemainder(x: int, y: int)
    requires y != 0
    ensures var r := x - TruncDiv(x, y) * y;
            && (r != 0 ==> (r < 0) == (x < 0))
            && (if r < 0 then -r else r) < (if y < 0 then -y else y)
  {
    var m := if x < 0 then -x else x;
    var k := if y < 0 then -y else y;
    assert m == (m / k) * k + m % k;
    var q := m / k;
    assert TruncDiv(x, y) == q || TruncDiv(x, y) == -q;
    assert TruncDiv(x, y) * y == q * k || TruncDiv(x, y) * y == -(q * k);
  }

  /** The arithmetic shift is division by a power of two rounded towards minus infinity. */
  lemma SraIsFloorDivision(a: u32, count: u32)
    ensures Signed(ShiftRightArithmetic(a, count)) == Signed(a) / Pow2(count % 32)
  {
    var n := count % 32;
    var p := Pow2(n);
    Pow2Adds(n, 32 - n);
    Pow2Of32();
    var k := Pow2(32 - n);
    assert p * k == 0x1_0000_0000;
    QuotientFits(a, p);
    if n > 0 {
      Pow2Monotone(1, n);
      Pow2Adds(n, 31 - n);
      HalfShift(a, p, Pow2(31 - n));
      if Signed(a) < 0 {
        Floor(a, p, k);
      }
    } else {
      assert p == 1;
    }
  }

  /** Shifting right by at least one clears the sign bit. */
  lemma HalfShift(a: u32, p: nat, h: nat)
    requires p >= 2 && p * h == 0x8000_0000
    ensures a / p < 0x8000_0000
    ensures a >= 0x8000_0000 ==> a / p >= h
    ensures a < 0x8000_0000 ==> a / p < h
  {
    assert (a / p) * p <= a < (a / p) * p + p;
    MulMonotone(h, a / p, p);
    MulMonotone(2 * h, a / p, p);
    MulMonotone(a / p + 1, h, p);
    assert 2 * h * p == 2 * (p * h);
  }

  lemma Floor(a: nat, p: nat, k: nat)
    requires p > 0
    ensures (a - p * k) / p == a / p - k
  {
    assert a == (a / p) * p + a % p;
    assert (a / p - k) * p == (a / p) * p - p * k;
    Quotient(a - p * k, p, a / p - k, a % p);
  }
}
