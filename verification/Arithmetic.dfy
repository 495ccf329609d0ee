/** What each arithmetic opcode leaves in its destination, for every operand. */
module Arithmetic {
  import opened Isa
  import opened Powers
  import opened Bits
  import opened Alu

  const MODULUS: nat := 0x1_0000_0000

  /** Two's complement: the value is in range and congruent to the bit pattern. */
  lemma SignedIs(a: u32)
    ensures -0x8000_0000 <= Signed(a) < 0x8000_0000 && Same32(Signed(a), a)
  {
  }

  // ---- congruence modulo 2^32 ----

  predicate Same32(x: int, y: int) { (x - y) % MODULUS == 0 }

  lemma MultipleApart(x: int, y: int, m: nat, k: int)
    requires m > 0 && x == y + k * m
    ensures (x - y) % m == 0
  {
    Quotient(x - y, m, k, 0);
  }

  lemma WrapCongruent(x: int) returns (k: int)
    ensures Wrap(x) == x + k * MODULUS
  {
    k := -(x / MODULUS);
  }

  lemma SignedCongruent(a: u32) returns (k: int)
    ensures Signed(a) == a + k * MODULUS
  {
    k := if a < 0x8000_0000 then 0 else -1;
  }

  lemma SignedOfWrap(x: int, y: int, k: int)
    requires x == y + k * MODULUS
    ensures Same32(Signed(Wrap(x)), y)
  {
    var j := WrapCongruent(x);
    var l := SignedCongruent(Wrap(x));
    MultipleApart(Signed(Wrap(x)), y, MODULUS, j + k + l);
  }

  lemma ProductCongruent(a: u32, b: u32) returns (k: int)
    ensures a * b == Signed(a) * Signed(b) + k * MODULUS
  {
    var x: int, y: int := a, b;
    var s, t := Signed(a), Signed(b);
    var c, d := if s == x then 0 else 1, if t == y then 0 else 1;
    assert x == s + c * MODULUS && y == t + d * MODULUS;
    k := c * y + s * d;
    Expand(x, y, s, t, c, d);
  }

  lemma Expand(x: int, y: int, s: int, t: int, c: int, d: int)
    requires x == s + c * MODULUS && y == t + d * MODULUS
    ensures x * y == s * t + (c * y + s * d) * MODULUS
  {
    assert x * y == s * y + (c * MODULUS) * y;
    assert s * y == s * t + s * (d * MODULUS);
    assert (c * y + s * d) * MODULUS == (c * MODULUS) * y + s * (d * MODULUS);
  }

  // ---- the destination of one lane ----

  /** The indices of a valid instruction are in range. */
  ghost predicate Indexed(i: Instruction) {
    i.dst < GENERAL_REGISTERS && i.src0 < GENERAL_REGISTERS && i.src1 < GENERAL_REGISTERS
  }

  /** The register a general instruction leaves in its destination. */
  ghost function Left(i: Instruction, r: Lane, lane: nat, ctx: LaunchContext): (d: u32)
    requires Valid(i) && lane < WARP_SIZE
  {
    ValidIndices(i);
    AluLane(i, r, lane, ctx).general[i.dst]
  }

  /** An arithmetic instruction changes its destination and nothing else: a predicate for a comparison, a
      general register for every other. */
  lemma OnlyDestination(i: Instruction, r: Lane, lane: nat, ctx: LaunchContext)
    requires Valid(i) && IsAlu(i.op) && lane < WARP_SIZE
    ensures var after := AluLane(i, r, lane, ctx);
            if 0x1A <= Number(i.op) <= 0x25
            then after.general == r.general && forall k | 0 <= k < PREDICATE_REGISTERS && k != i.dst :: after.preds[k] == r.preds[k]
            else after.preds == r.preds && forall k | 0 <= k < GENERAL_REGISTERS && k != i.dst :: after.general[k] == r.general[k]
  {
    ValidIndices(i);
    hide Compare, Evaluate, OperandA, OperandB, Number;
  }

  lemma ThreeOperands(i: Instruction, r: Lane)
    requires Valid(i)
    requires i.op in {Add, Sub, Mul, Div, Rem, Min, Max, And, Or, Xor, Shl, Shr, Sra, FAdd, FSub, FMul, FMin, FMax, FFma,
                      SetpEqS32, SetpNeS32, SetpLtS32, SetpLeS32, SetpGtS32, SetpGeS32,
                      SetpEqF32, SetpNeF32, SetpLtF32, SetpLeF32, SetpGtF32, SetpGeF32}
    ensures Indexed(i)
    ensures OperandA(i, r) == r.general[i.src0]
    ensures OperandB(i, r) == if i.immFlag then i.imm else r.general[i.src1]
  {
    ValidIndices(i);
  }

  lemma TwoOperands(i: Instruction, r: Lane)
    requires Valid(i) && i.op in {Neg, Not, Mov, FNeg, CvtF32S32, CvtS32F32}
    ensures Indexed(i)
    ensures OperandA(i, r) == if i.immFlag then i.imm else r.general[i.src0]
  {
    ValidIndices(i);
  }

  /** The value of an instruction that is not a comparison. */
  lemma LeftIs(i: Instruction, r: Lane, lane: nat, ctx: LaunchContext)
    requires Valid(i) && lane < WARP_SIZE && !IsSetp(i.op)
    ensures Indexed(i) && Left(i, r, lane, ctx) == Evaluate(i, OperandA(i, r), OperandB(i, r), r.general[i.dst], lane, ctx)
  {
    ValidIndices(i);
    hide Evaluate, OperandA, OperandB, IsSetp;
  }

  // ---- opcode by opcode ----

  /** `add`, `sub` and `mul` are exact on signed values modulo 2^32. */
  lemma RingMeaning(i: Instruction, r: Lane, lane: nat, ctx: LaunchContext)
    requires Valid(i) && lane < WARP_SIZE && i.op in {Add, Sub, Mul}
    ensures Indexed(i)
    ensures var x, y := Signed(r.general[i.src0]), Signed(if i.immFlag then i.imm else r.general[i.src1]);
            var d := Signed(Left(i, r, lane, ctx));
            && (i.op == Add ==> Same32(d, x + y))
            && (i.op == Sub ==> Same32(d, x - y))
            && (i.op == Mul ==> Same32(d, x * y))
  {
    RingValue(i, r, lane, ctx);
    hide Signed, Wrap, Left, Valid, Same32;
    RingOf(r.general[i.src0], if i.immFlag then i.imm else r.general[i.src1]);
  }

  lemma RingValue(i: Instruction, r: Lane, lane: nat, ctx: LaunchContext)
    requires Valid(i) && lane < WARP_SIZE && i.op in {Add, Sub, Mul}
    ensures Indexed(i)
    ensures var a: int, b: int := r.general[i.src0], if i.immFlag then i.imm else r.general[i.src1];
            Left(i, r, lane, ctx) == Wrap(if i.op == Add then a + b else if i.op == Sub then a - b else a * b)
  {
    ThreeOperands(i, r);
    LeftIs(i, r, lane, ctx);
    hide Left, OperandA, OperandB, Valid, Wrap;
  }

  lemma RingOf(a: int, b: int)
    requires 0 <= a < MODULUS && 0 <= b < MODULUS
    ensures Same32(Signed(Wrap(a + b)), Signed(a) + Signed(b))
    ensures Same32(Signed(Wrap(a - b)), Signed(a) - Signed(b))
    ensures Same32(Signed(Wrap(a * b)), Signed(a) * Signed(b))
  {
    var j := SignedCongruent(a);
    var k := SignedCongruent(b);
    var l := ProductCongruent(a, b);
    hide Signed, Wrap, Same32;
    SignedOfWrap(a + b, Signed(a) + Signed(b), -j - k);
    SignedOfWrap(a - b, Signed(a) - Signed(b), k - j);
    SignedOfWrap(a * b, Signed(a) * Signed(b), l);
  }

  lemma NegMeaning(i: Instruction, r: Lane, lane: nat, ctx: LaunchContext)
    requires Valid(i) && lane < WARP_SIZE && i.op in {Neg, Mov}
    ensures Indexed(i)
    ensures var a := if i.immFlag then i.imm else r.general[i.src0];
            && (i.op == Neg ==> Same32(Signed(Left(i, r, lane, ctx)), -Signed(a)))
            && (i.op == Mov ==> Left(i, r, lane, ctx) == a)
  {
    TwoOperands(i, r);
    LeftIs(i, r, lane, ctx);
    var a: int := OperandA(i, r);
    if i.op == Neg {
      var j := SignedCongruent(a);
      SignedOfWrap(0 - a, -Signed(a), j);
    }
  }

  /** `rest` is what truncating division of `x` by `y` leaves over: it differs from `x` by a multiple of `y`, is
      smaller than `y`, and has the sign of `x`. */
  ghost predicate LeftOver(x: int, y: int, rest: int)
    requires y != 0
  {
    var size := if y < 0 then -y else y;
    (x - rest) % size == 0 && -size < rest < size && (rest != 0 ==> (rest < 0 <==> x < 0))
  }

  /** `div` truncates: what is left over is smaller than the divisor and has the dividend's sign. `rem` is what
      is left over. Division by zero gives zero, and the one quotient that does not fit wraps. */
  lemma DivisionMeaning(i: Instruction, r: Lane, lane: nat, ctx: LaunchContext)
    requires Valid(i) && lane < WARP_SIZE && i.op in {Div, Rem}
    ensures Indexed(i)
    ensures var x, y := Signed(r.general[i.src0]), Signed(if i.immFlag then i.imm else r.general[i.src1]);
            var d := Signed(Left(i, r, lane, ctx));
            && (y == 0 ==> d == 0)
            && (x == -0x8000_0000 && y == -1 ==> d == if i.op == Div then x else 0)
            && (y != 0 && !(x == -0x8000_0000 && y == -1) ==>
                  LeftOver(x, y, if i.op == Div then x - d * y else d))
  {
    ThreeOperands(i, r);
    LeftIs(i, r, lane, ctx);
    DivisionOf(OperandA(i, r), OperandB(i, r));
    hide DivS32, RemS32, Signed, Left, OperandA, OperandB;
  }

  lemma DivisionOf(a: u32, b: u32)
    ensures var x, y, q, rest := Signed(a), Signed(b), Signed(DivS32(a, b)), Signed(RemS32(a, b));
            && (y == 0 ==> q == 0 && rest == 0)
            && (x == -0x8000_0000 && y == -1 ==> q == x && rest == 0)
            && (y != 0 && !(x == -0x8000_0000 && y == -1) ==> LeftOver(x, y, x - q * y) && LeftOver(x, y, rest))
  {
    DivRem(a, b);
    hide DivS32, RemS32;
    var x, y := Signed(a), Signed(b);
    if y != 0 && !(x == -0x8000_0000 && y == -1) {
      var q, rest := Signed(DivS32(a, b)), Signed(RemS32(a, b));
      assert x == q * y + rest;
      QuotientLeavesOver(x, y, q, rest);
    }
  }

  lemma QuotientLeavesOver(x: int, y: int, q: int, rest: int)
    requires y != 0 && x == q * y + rest && (rest != 0 ==> (rest < 0 <==> x < 0))
    requires (if rest < 0 then -rest else rest) < (if y < 0 then -y else y)
    ensures LeftOver(x, y, rest)
  {
    var size := if y < 0 then -y else y;
    var k := if y < 0 then -q else q;
    assert q * y == k * size;
    MultipleApart(x, rest, size, k);
  }

  /** `min` and `max` are the bound of the two signed values that is one of them. */
  lemma BoundMeaning(i: Instruction, r: Lane, lane: nat, ctx: LaunchContext)
    requires Valid(i) && lane < WARP_SIZE && i.op in {Min, Max}
    ensures Indexed(i)
    ensures var a, b := r.general[i.src0], if i.immFlag then i.imm else r.general[i.src1];
            var d := Left(i, r, lane, ctx);
            && (d == a || d == b)
            && (i.op == Min ==> Signed(d) <= Signed(a) && Signed(d) <= Signed(b))
            && (i.op == Max ==> Signed(d) >= Signed(a) && Signed(d) >= Signed(b))
  {
    ThreeOperands(i, r);
    LeftIs(i, r, lane, ctx);
  }

  /** Bit `k` of a word. */
  predicate BitOf(w: u32, k: nat) { w / Pow2(k) % 2 == 1 }

  /** The bitwise operations, bit by bit; `fneg` flips the sign bit. */
  lemma BitwiseMeaning(i: Instruction, r: Lane, lane: nat, ctx: LaunchContext, k: nat)
    requires Valid(i) && lane < WARP_SIZE && k < 32 && i.op in {And, Or, Xor, Not, FNeg}
    ensures Indexed(i)
    ensures var a := BitOf(if i.immFlag && i.op in {Not, FNeg} then i.imm else r.general[i.src0], k);
            var b := BitOf(if i.immFlag then i.imm else r.general[i.src1], k);
            var d := BitOf(Left(i, r, lane, ctx), k);
            && (i.op == And ==> (d <==> (a && b)))
            && (i.op == Or ==> (d <==> (a || b)))
            && (i.op == Xor ==> (d <==> (a != b)))
            && (i.op == Not ==> (d <==> (!a)))
            && (i.op == FNeg ==> (d <==> (a != (k == 31))))
  {
    if i.op in {Not, FNeg} { TwoOperands(i, r); } else { ThreeOperands(i, r); }
    LeftIs(i, r, lane, ctx);
    var a, b := OperandA(i, r), OperandB(i, r);
    BitIsDigit(a, k);
    BitIsDigit(b, k);
    BitIsDigit(Left(i, r, lane, ctx), k);
    hide TestBit, Left, Pow2, AndBits, OrBits, XorBits;
    if i.op == And { TestAnd(a, b, k); }
    else if i.op == Or { TestOr(a, b, k); }
    else if i.op == Xor { TestXor(a, b, k); }
    else if i.op == Not { TestNot(a, k, 32); }
    else { TestSign(a, k, 31); }
  }

  lemma TestNot(a: u32, k: nat, width: nat)
    requires k < width == 32
    ensures TestBit(0xFFFF_FFFF - a, k) <==> !TestBit(a, k)
  {
    hide TestBit, Pow2;
    Pow2Of32();
    TestComplement(a, width, k);
  }

  lemma TestSign(a: u32, k: nat, sign: nat)
    requires sign == 31
    ensures TestBit(BitXor(a, 0x8000_0000), k) <==> TestBit(a, k) != (k == sign)
  {
    hide TestBit, Pow2;
    Pow2Of32();
    TestXor(a, 0x8000_0000, k);
    TestPower(sign, k);
  }

  /** Shifts take the low five bits of their count: left shifts multiply, logical right shifts divide the
      unsigned value and arithmetic ones the signed value, rounding down. */
  lemma ShiftMeaning(i: Instruction, r: Lane, lane: nat, ctx: LaunchContext)
    requires Valid(i) && lane < WARP_SIZE && i.op in {Shl, Shr, Sra}
    ensures Indexed(i)
    ensures var a := r.general[i.src0];
            var p := Pow2((if i.immFlag then i.imm else r.general[i.src1]) % 32);
            var d := Left(i, r, lane, ctx);
            && (i.op == Shl ==> d == a * p % MODULUS)
            && (i.op == Shr ==> d == a / p)
            && (i.op == Sra ==> Signed(d) == Signed(a) / p)
  {
    ThreeOperands(i, r);
    LeftIs(i, r, lane, ctx);
    if i.op == Sra { SraIsFloorDivision(OperandA(i, r), OperandB(i, r)); }
    hide Pow2, ShiftRightArithmetic;
  }

  /** Comparisons order signed values; the ones on floats are the library's, with `gt` and `ge` its `lt` and
      `le` the other way round, and `ne` the negation of `eq`. */
  lemma CompareMeaning(i: Instruction, r: Lane, lane: nat, ctx: LaunchContext)
    requires Valid(i) && lane < WARP_SIZE && 0x1A <= Number(i.op) <= 0x25
    ensures Indexed(i) && i.dst < PREDICATE_REGISTERS
    ensures var a, b := r.general[i.src0], if i.immFlag then i.imm else r.general[i.src1];
            var x, y := Signed(a), Signed(b);
            var f := ctx.floats;
            var p := AluLane(i, r, lane, ctx).preds[i.dst];
            && (i.op == SetpEqS32 ==> (p <==> x == y))
            && (i.op == SetpNeS32 ==> (p <==> (x < y || y < x)))
            && (i.op == SetpLtS32 ==> (p <==> x < y))
            && (i.op == SetpLeS32 ==> (p <==> (x < y || x == y)))
            && (i.op == SetpGtS32 ==> (p <==> y < x))
            && (i.op == SetpGeS32 ==> (p <==> (y < x || x == y)))
            && (i.op == SetpEqF32 ==> (p <==> f.eq(a, b)))
            && (i.op == SetpNeF32 ==> (p <==> !f.eq(a, b)))
            && (i.op == SetpLtF32 ==> (p <==> f.lt(a, b)))
            && (i.op == SetpLeF32 ==> (p <==> f.le(a, b)))
            && (i.op == SetpGtF32 ==> (p <==> f.lt(b, a)))
            && (i.op == SetpGeF32 ==> (p <==> f.le(b, a)))
  {
    ValidIndices(i);
    ThreeOperands(i, r);
  }

  /** The float operations, with their operands in order: `ffma` multiplies its sources and adds the old
      destination. */
  lemma FloatMeaning(i: Instruction, r: Lane, lane: nat, ctx: LaunchContext)
    requires Valid(i) && lane < WARP_SIZE && i.op in {FAdd, FSub, FMul, FMin, FMax, FFma}
    ensures Indexed(i)
    ensures var a, b := r.general[i.src0], if i.immFlag then i.imm else r.general[i.src1];
            var c := r.general[i.dst];
            var f := ctx.floats;
            var d := Left(i, r, lane, ctx);
            && (i.op == FAdd ==> d == f.add(a, b))
            && (i.op == FSub ==> d == f.sub(a, b))
            && (i.op == FMul ==> d == f.mul(a, b))
            && (i.op == FMin ==> d == f.min(a, b))
            && (i.op == FMax ==> d == f.max(a, b))
            && (i.op == FFma ==> d == f.fma(a, b, c))
    ensures i.op == FFma ==> !i.immFlag
  {
    ThreeOperands(i, r);
    LeftIs(i, r, lane, ctx);
  }

  lemma ConvertMeaning(i: Instruction, r: Lane, lane: nat, ctx: LaunchContext)
    requires Valid(i) && lane < WARP_SIZE && i.op in {CvtF32S32, CvtS32F32, MovSreg}
    ensures Indexed(i)
    ensures var a := if i.immFlag then i.imm else r.general[i.src0];
            && (i.op == CvtF32S32 ==> Left(i, r, lane, ctx) == ctx.floats.fromS32(a))
            && (i.op == CvtS32F32 ==> Left(i, r, lane, ctx) == ctx.floats.toS32(a))
            && (i.op == MovSreg ==> Left(i, r, lane, ctx) == ctx.Special(i.src0, lane))
  {
    if i.op != MovSreg { TwoOperands(i, r); }
    LeftIs(i, r, lane, ctx);
  }
}
