/** Which operand of each mnemonic goes to which field of its instruction, token by token, and the
    number of every opcode and special register. */
module Syntax {
  import opened Isa
  import opened Lexing
  import opened Mnemonics
  import opened Parsing
  import Numerals
  import Pieces

  // ---- numbers of the tables ----

  const INTEGER_NAMES: seq<string> :=
    ["add", "sub", "mul", "div", "rem", "min", "max", "neg", "and", "or", "xor", "not", "shl", "shr", "sra", "mov"]

  const FLOAT_NAMES: seq<string> :=
    ["fadd", "fsub", "fmul", "ffma", "fmin", "fmax", "fneg", "cvt.f32.s32", "cvt.s32.f32"]

  const COMPARISON_NAMES: seq<string> :=
    ["setp.eq.s32", "setp.ne.s32", "setp.lt.s32", "setp.le.s32", "setp.gt.s32", "setp.ge.s32",
     "setp.eq.f32", "setp.ne.f32", "setp.lt.f32", "setp.le.f32", "setp.gt.f32", "setp.ge.f32"]

  const OTHER_NAMES: seq<string> :=
    ["mov.sreg", "bra", "exit", "bar.sync", "ld.global", "st.global", "ld.shared", "st.shared", "ld.param"]

  /** The mnemonics in the order of their opcode bytes, from byte 1 on. */
  const MNEMONICS: seq<string> := INTEGER_NAMES + FLOAT_NAMES + COMPARISON_NAMES + OTHER_NAMES

  lemma IntegerByte(op: Opcode)
    requires Number(op) <= 0x10
    ensures 1 <= Number(op) && INTEGER_NAMES[Number(op) - 1] == Mnemonic(op)
  {
    match op { case _ => }
  }

  lemma FloatByte(op: Opcode)
    requires 0x10 < Number(op) <= 0x19
    ensures FLOAT_NAMES[Number(op) - 0x11] == Mnemonic(op)
  {
    match op { case _ => }
  }

  lemma ComparisonByte(op: Opcode)
    requires 0x19 < Number(op) <= 0x25
    ensures COMPARISON_NAMES[Number(op) - 0x1A] == Mnemonic(op)
  {
    match op { case _ => }
  }

  lemma OtherByte(op: Opcode)
    requires Number(op) > 0x25
    ensures Number(op) <= 0x2E && OTHER_NAMES[Number(op) - 0x26] == Mnemonic(op)
  {
    match op { case _ => }
  }

  /** The opcode byte of a mnemonic is its place in the list. */
  lemma OpcodeByte(op: Opcode)
    ensures |MNEMONICS| == 46 && 1 <= Number(op) <= 46 && MNEMONICS[Number(op) - 1] == Mnemonic(op)
  {
    hide Number, Mnemonic;
    if Number(op) <= 0x10 { IntegerByte(op); }
    else if Number(op) <= 0x19 { FloatByte(op); }
    else if Number(op) <= 0x25 { ComparisonByte(op); }
    else { OtherByte(op); }
  }

  /** The name at each place of the list is the mnemonic of the opcode with that byte; no other byte has one. */
  lemma MnemonicByte(n: u8)
    ensures FromNumber(n).Some? <==> 1 <= n <= 46
    ensures 1 <= n <= 46 ==> FromMnemonic(MNEMONICS[n - 1]) == FromNumber(n)
  {
    hide FromMnemonic, Mnemonic;
    if FromNumber(n).Some? {
      FromNumberExact(n, FromNumber(n).value);
      OpcodeByte(FromNumber(n).value);
      MnemonicRoundTrip(FromNumber(n).value);
    }
  }

  /** The special registers in the order of their numbers. */
  const SPECIALS: seq<string> :=
    ["%tid.x", "%tid.y", "%ntid.x", "%ntid.y", "%ctaid.x", "%ctaid.y", "%nctaid.x", "%nctaid.y", "%laneid", "%warpid"]

  lemma SpecialNumber(n: u8)
    ensures |SPECIALS| == SPECIAL_REGISTERS && (n < |SPECIALS| ==> FromSpecialName(SPECIALS[n]) == Some(n))
  {
    if n < SPECIAL_REGISTERS {
      assert "%" + SpecialName(n) == SPECIALS[n];
      SpecialRoundTrip(n);
    }
  }

  // ---- characters ----

  predicate IsLetter(c: char) { 'a' <= c <= 'z' || 'A' <= c <= 'Z' }

  /** Names start with a letter or an underscore and go on with these, digits and dots. */
  lemma NameMeaning(c: char)
    ensures Numerals.IsIdentStart(c) <==> IsLetter(c) || c == '_'
    ensures Numerals.IsIdentChar(c) <==> IsLetter(c) || c in "_.0123456789"
  {
  }

  /** Spaces, tabs and carriage returns separate tokens, a line feed is one, and a comment reaches up to it. */
  lemma LayoutMeaning(c: char, comment: string, s: string)
    requires forall k | 0 <= k < |comment| :: comment[k] != '\n'
    ensures c in " \t\r" ==> Scan([c] + s) == Scan(s)
    ensures c == '\n' ==> Scan([c] + s) == Prepend([Plain(Newline, "\n")], Scan(s))
    ensures s == "" || s[0] == '\n' ==> Scan("//" + comment + s) == Scan(s)
  {
    assert ([c] + s)[1..] == s;
    if s == "" || s[0] == '\n' { Pieces.CommentLexed(comment, s); }
  }

  /** The one-character tokens; and no token starts with any other character. */
  lemma MarkMeaning(c: char, s: string)
    ensures c in ",[]+-:" ==>
              NextToken([c] + s) == Some(Scanned(Plain(
                if c == ',' then Comma else if c == '[' then LBracket else if c == ']' then RBracket
                else if c == '+' then Plus else if c == '-' then Minus else Colon, [c]), 1))
    ensures c !in ",[]+-:" && !IsLetter(c) && c !in "_.@%0123456789" ==> NextToken([c] + s).None?
  {
    hide NumberToken, GuardToken, Prefixed, Numerals.Run;
  }

  // ---- operands ----

  predicate IsRegister(t: Token, n: u8) {
    t.kind == Identifier && RegisterIndex(t.text, 'r', GENERAL_REGISTERS) == Some(n)
  }

  predicate IsPredicate(t: Token, n: u8) {
    t.kind == Identifier && RegisterIndex(t.text, 'p', PREDICATE_REGISTERS) == Some(n)
  }

  lemma StepThen(step: Step, steps: seq<Step>, ts: Tokens, i: Instruction, params: seq<string>, floats: FloatText)
    requires ParseStep(step, ts, i, params, floats).Some?
    ensures var r := ParseStep(step, ts, i, params, floats).value;
            ParseSteps([step] + steps, ts, i, params, floats) == ParseSteps(steps, r.rest, r.value, params, floats)
  {
    hide ParseStep;
    assert ([step] + steps)[1..] == steps;
  }

  lemma CommaStep(steps: seq<Step>, ts: Tokens, i: Instruction, params: seq<string>, floats: FloatText)
    requires At(ts, Comma)
    ensures ParseSteps([Separator] + steps, ts, i, params, floats) == ParseSteps(steps, Next(ts), i, params, floats)
  {
    hide ParseSteps;
    StepThen(Separator, steps, ts, i, params, floats);
  }

  /** Two operands around a comma. */
  lemma ThreeThen(a: Step, b: Step, ts: Tokens, i: Instruction, params: seq<string>, floats: FloatText)
    requires var r := ParseStep(a, ts, i, params, floats); r.Some? && At(r.value.rest, Comma)
    ensures var r := ParseStep(a, ts, i, params, floats).value;
            ParseSteps([a, Separator, b], ts, i, params, floats) == ParseStep(b, Next(r.rest), r.value, params, floats)
  {
    hide Next, At, ParseStep, ParseSteps;
    var r := ParseStep(a, ts, i, params, floats).value;
    assert [a, Separator, b] == [a] + ([Separator] + [b]);
    StepThen(a, [Separator] + [b], ts, i, params, floats);
    CommaStep([b], r.rest, r.value, params, floats);
    OneStep(b, Next(r.rest), r.value, params, floats);
  }

  /** Three operands between two commas are read one after the other. */
  lemma FiveThen(a: Step, b: Step, c: Step, ts: Tokens, i: Instruction, params: seq<string>, floats: FloatText)
    requires var r := ParseStep(a, ts, i, params, floats);
             && r.Some? && At(r.value.rest, Comma)
             && var s := ParseStep(b, Next(r.value.rest), r.value.value, params, floats);
             s.Some? && At(s.value.rest, Comma)
    ensures var r := ParseStep(a, ts, i, params, floats).value;
            var s := ParseStep(b, Next(r.rest), r.value, params, floats).value;
            ParseSteps([a, Separator, b, Separator, c], ts, i, params, floats)
            == ParseStep(c, Next(s.rest), s.value, params, floats)
  {
    hide Next, At, ParseStep, ParseSteps;
    var r := ParseStep(a, ts, i, params, floats).value;
    assert [a, Separator, b, Separator, c] == [a] + ([Separator] + [b, Separator, c]);
    StepThen(a, [Separator] + [b, Separator, c], ts, i, params, floats);
    CommaStep([b, Separator, c], r.rest, r.value, params, floats);
    ThreeThen(b, c, Next(r.rest), r.value, params, floats);
  }

  lemma OneStep(step: Step, ts: Tokens, i: Instruction, params: seq<string>, floats: FloatText)
    ensures ParseSteps([step], ts, i, params, floats) == ParseStep(step, ts, i, params, floats)
  {
    hide ParseStep;
    assert [step][1..] == [];
  }

  predicate TakesThree(op: Opcode) {
    op in {Add, Sub, Mul, Div, Rem, Min, Max, And, Or, Xor, Shl, Shr, Sra, FAdd, FSub, FMul, FMin, FMax}
  }

  predicate Compares(op: Opcode) {
    op in {SetpEqS32, SetpNeS32, SetpLtS32, SetpLeS32, SetpGtS32, SetpGeS32,
           SetpEqF32, SetpNeF32, SetpLtF32, SetpLeF32, SetpGtF32, SetpGeF32}
  }

  predicate TakesTwo(op: Opcode) { op in {Neg, Not, Mov, FNeg, CvtF32S32, CvtS32F32} }

  lemma Shapes(op: Opcode)
    ensures TakesThree(op) <==> ShapeOf(op) == Rrr
    ensures Compares(op) <==> ShapeOf(op) == Prr
    ensures TakesTwo(op) <==> ShapeOf(op) == Rr
    ensures op == FFma <==> ShapeOf(op) == Acc
  {
    match op { case _ => }
  }

  /** The instructions that can be encoded, by mnemonic: what each takes, and zero in every other field. */
  lemma ValidMeaning(i: Instruction)
    ensures Valid(i) <==>
              && i.guard.pred < 8 && (!i.guard.present ==> !i.guard.negate && i.guard.pred == 0)
              && i.dst < 64 && i.src0 < 64 && i.src1 < 64
              && (TakesThree(i.op) || Compares(i.op) ==> if i.immFlag then i.src1 == 0 else i.imm == 0)
              && (Compares(i.op) ==> i.dst < 8)
              && (TakesTwo(i.op) ==> i.src1 == 0 && if i.immFlag then i.src0 == 0 else i.imm == 0)
              && (i.op == FFma ==> !i.immFlag && i.imm == 0)
              && (i.op == MovSreg ==> i.src0 < 10 && i.src1 == 0 && !i.immFlag && i.imm == 0)
              && (i.op == Bra ==> i.dst == i.src0 == i.src1 == 0 && !i.immFlag)
              && (i.op == Exit || i.op == BarSync ==> i.dst == i.src0 == i.src1 == 0 && !i.immFlag && i.imm == 0)
              && (i.op == LdGlobal || i.op == LdShared ==> i.src1 == 0 && i.immFlag)
              && (i.op == StGlobal || i.op == StShared ==> i.dst == 0 && i.immFlag)
              && (i.op == LdParam ==> i.src0 == i.src1 == 0 && i.immFlag)
  {
    hide TakesThree, Compares, TakesTwo, ShapeOf;
    Shapes(i.op);
    ControlShapes(i.op);
    MemoryShapes(i.op);
  }

  lemma ControlShapes(op: Opcode)
    ensures op == MovSreg <==> ShapeOf(op) == Sreg
    ensures op == Bra <==> ShapeOf(op) == BraShape
    ensures op == Exit || op == BarSync <==> ShapeOf(op) == NoOperands
  {
  }

  lemma MemoryShapes(op: Opcode)
    ensures op == LdGlobal || op == LdShared <==> ShapeOf(op) == Ld
    ensures op == StGlobal || op == StShared <==> ShapeOf(op) == St
    ensures op == LdParam <==> ShapeOf(op) == Ldp
  {
  }

  /** `d, a, b`: destination, first source, second source. The destination of a comparison is a predicate. */
  lemma RegisterOperands(op: Opcode, guard: Guard, ts: Tokens, d: u8, a: u8, b: u8, params: seq<string>, floats: FloatText)
    requires TakesThree(op) || op == FFma || Compares(op)
    requires |ts| >= 5 && ts[1].kind == Comma && ts[3].kind == Comma
    requires if Compares(op) then IsPredicate(ts[0], d) else IsRegister(ts[0], d)
    requires IsRegister(ts[2], a) && IsRegister(ts[4], b)
    ensures Operands(ts, Bare(op, guard), params, floats)
            == Some(Read(Draft(Instruction(op, guard, d, a, b, false, 0), None), ts[5..]))
  {
    hide RegisterIndex, ParseSteps, Immediate, ShapeOf, TakesThree, Compares, TakesTwo;
    Shapes(op);
    Suffixes(ts);
    var first := if Compares(op) then DstPred else DstReg;
    FiveThen(first, Src0Reg, if op == FFma then Src1Reg else Src1RegOrImm, ts, Bare(op, guard), params, floats);
  }

  lemma Suffixes(ts: Tokens)
    requires |ts| >= 5
    ensures Next(Next(ts)) == ts[2..] && Next(Next(Next(ts))) == ts[3..]
    ensures Next(Next(Next(Next(ts)))) == ts[4..] && Next(Next(Next(Next(Next(ts))))) == ts[5..]
  {
  }

  /** `d, a, immediate`: what follows the second comma is read as an immediate. */
  lemma ImmediateOperand(op: Opcode, guard: Guard, ts: Tokens, d: u8, a: u8, params: seq<string>, floats: FloatText)
    requires TakesThree(op) || Compares(op)
    requires |ts| >= 5 && ts[1].kind == Comma && ts[3].kind == Comma && ts[4].kind != Identifier
    requires if Compares(op) then IsPredicate(ts[0], d) else IsRegister(ts[0], d)
    requires IsRegister(ts[2], a)
    ensures var r := Immediate(ts[4..], Instruction(op, guard, d, a, 0, false, 0), floats);
            Operands(ts, Bare(op, guard), params, floats)
            == if r.Some? then Some(Read(Draft(r.value.value, None), r.value.rest)) else None
  {
    hide RegisterIndex, ParseSteps, Immediate, ShapeOf, TakesThree, Compares, TakesTwo;
    Shapes(op);
    Suffixes(ts);
    FiveThen(if Compares(op) then DstPred else DstReg, Src0Reg, Src1RegOrImm, ts, Bare(op, guard), params, floats);
  }

  /** `d, a` or `d, immediate`: destination and only source. */
  lemma SourceOperand(op: Opcode, guard: Guard, ts: Tokens, d: u8, params: seq<string>, floats: FloatText)
    requires TakesTwo(op) && |ts| >= 3 && ts[1].kind == Comma && IsRegister(ts[0], d)
    ensures forall a: u8 | IsRegister(ts[2], a) ::
              Operands(ts, Bare(op, guard), params, floats)
              == Some(Read(Draft(Instruction(op, guard, d, a, 0, false, 0), None), ts[3..]))
    ensures var r := Immediate(ts[2..], Instruction(op, guard, d, 0, 0, false, 0), floats);
            ts[2].kind != Identifier ==>
              Operands(ts, Bare(op, guard), params, floats)
              == if r.Some? then Some(Read(Draft(r.value.value, None), r.value.rest)) else None
  {
    hide RegisterIndex, ParseSteps, Immediate, ShapeOf, TakesThree, Compares, TakesTwo;
    Shapes(op);
    assert Next(Next(ts)) == ts[2..] && Next(Next(Next(ts))) == ts[3..];
    ThreeThen(DstReg, Src0RegOrImm, ts, Bare(op, guard), params, floats);
  }

  lemma DestinationStep(ts: Tokens, i: Instruction, d: u8, params: seq<string>, floats: FloatText)
    requires ts != [] && IsRegister(ts[0], d)
    ensures ParseStep(DstReg, ts, i, params, floats) == Some(Read(i.(dst := d), ts[1..]))
  {
    hide RegisterIndex;
  }

  lemma SpecialStep(ts: Tokens, i: Instruction, n: u8, params: seq<string>, floats: FloatText)
    requires ts != [] && n < |SPECIALS| && ts[0] == Plain(Special, SPECIALS[n])
    ensures ParseStep(SpecialReg, ts, i, params, floats) == Some(Read(i.(src0 := n), ts[1..]))
  {
    hide FromSpecialName;
    SpecialNumber(n);
  }

  /** `d, %special`: the number of the special register is the first source. */
  lemma SpecialOperand(guard: Guard, ts: Tokens, d: u8, n: u8, params: seq<string>, floats: FloatText)
    requires |ts| >= 3 && IsRegister(ts[0], d) && ts[1].kind == Comma
    requires n < |SPECIALS| && ts[2] == Plain(Special, SPECIALS[n])
    ensures Operands(ts, Bare(MovSreg, guard), params, floats)
            == Some(Read(Draft(Instruction(MovSreg, guard, d, n, 0, false, 0), None), ts[3..]))
  {
    hide RegisterIndex, ParseSteps, ParseStep;
    var i := Bare(MovSreg, guard);
    DestinationStep(ts, i, d, params, floats);
    SpecialStep(ts[2..], i.(dst := d), n, params, floats);
    ThreeThen(DstReg, SpecialReg, ts, i, params, floats);
  }

  lemma AddressStep(ts: Tokens, i: Instruction, base: u8, params: seq<string>, floats: FloatText)
    requires |ts| >= 2 && ts[0].kind == LBracket && IsRegister(ts[1], base)
    ensures ParseStep(Address, ts, i, params, floats) == AddressTail(ts[2..], i.(src0 := base, immFlag := true, imm := 0))
  {
    hide RegisterIndex, AddressTail;
    assert ts[1..][1..] == ts[2..];
  }

  /** `d, [base ...`: a load puts the value into its first operand and takes the address from the second. */
  lemma LoadOperands(op: Opcode, guard: Guard, ts: Tokens, d: u8, base: u8, params: seq<string>, floats: FloatText)
    requires (op == LdGlobal || op == LdShared) && |ts| >= 4
    requires IsRegister(ts[0], d) && ts[1].kind == Comma && ts[2].kind == LBracket && IsRegister(ts[3], base)
    ensures var r := AddressTail(ts[4..], Instruction(op, guard, d, base, 0, true, 0));
            Operands(ts, Bare(op, guard), params, floats)
            == if r.Some? then Some(Read(Draft(r.value.value, None), r.value.rest)) else None
  {
    hide RegisterIndex, ParseSteps, ParseStep, AddressTail;
    var i := Bare(op, guard);
    DestinationStep(ts, i, d, params, floats);
    AddressStep(ts[2..], i.(dst := d), base, params, floats);
    ThreeThen(DstReg, Address, ts, i, params, floats);
    assert ts[2..][2..] == ts[4..] && ts[1..][1..] == ts[2..];
  }

  /** `[base ...], b`: a store takes the address from its first operand and the value from the second. */
  lemma StoreOperands(op: Opcode, guard: Guard, ts: Tokens, base: u8, b: u8, params: seq<string>, floats: FloatText)
    requires (op == StGlobal || op == StShared) && |ts| >= 2 && ts[0].kind == LBracket && IsRegister(ts[1], base)
    requires var r := AddressTail(ts[2..], Instruction(op, guard, 0, base, 0, true, 0));
             r.Some? && At(r.value.rest, Comma) && IsRegister(Head(Next(r.value.rest)), b)
    ensures var r := AddressTail(ts[2..], Instruction(op, guard, 0, base, 0, true, 0)).value;
            Operands(ts, Bare(op, guard), params, floats)
            == Some(Read(Draft(r.value.(src1 := b), None), Next(Next(r.rest))))
  {
    hide RegisterIndex, ParseSteps, ParseStep, AddressTail, Next, Head, IsRegister;
    AddressStep(ts, Bare(op, guard), base, params, floats);
    AddressThenValue(ts, Bare(op, guard), b, params, floats);
  }

  lemma AddressThenValue(ts: Tokens, i: Instruction, b: u8, params: seq<string>, floats: FloatText)
    requires var r := ParseStep(Address, ts, i, params, floats);
             r.Some? && At(r.value.rest, Comma) && IsRegister(Head(Next(r.value.rest)), b)
    ensures var r := ParseStep(Address, ts, i, params, floats).value;
            ParseSteps([Address, Separator, Src1Reg], ts, i, params, floats)
            == Some(Read(r.value.(src1 := b), Next(Next(r.rest))))
  {
    hide ParseSteps, ParseStep, Next, Head, IsRegister;
    var r := ParseStep(Address, ts, i, params, floats).value;
    ThreeThen(Address, Src1Reg, ts, i, params, floats);
    ValueStep(Next(r.rest), r.value, b, params, floats);
  }

  lemma ValueStep(ts: Tokens, i: Instruction, b: u8, params: seq<string>, floats: FloatText)
    requires IsRegister(Head(ts), b)
    ensures ParseStep(Src1Reg, ts, i, params, floats) == Some(Read(i.(src1 := b), Next(ts)))
  {
    hide RegisterIndex;
  }

  lemma FirstParam(name: string, k: nat, params: seq<string>)
    requires k < |params| && params[k] == name && forall j | 0 <= j < |params| :: params[j] == params[k] ==> j == k
    ensures FindParam(params, name, 0) == Some(k)
  {
    hide FindParam;
    var r := FindParam(params, name, 0);
  }

  lemma ParamStep(ts: Tokens, i: Instruction, k: nat, params: seq<string>, floats: FloatText)
    requires |ts| >= 3 && ts[0].kind == LBracket && ts[1].kind == Identifier && ts[2].kind == RBracket
    requires FindParam(params, ts[1].text, 0) == Some(k)
    ensures ParseStep(ParamRef, ts, i, params, floats)
            == Some(Read(i.(immFlag := true, imm := k % 0x1_0000_0000), ts[3..]))
  {
    hide FindParam;
    assert Next(Next(ts)) == ts[2..] && Next(Next(Next(ts))) == ts[3..];
  }

  /** `d, [name]`: the immediate is the position of the declared parameter. */
  lemma ParamOperands(guard: Guard, ts: Tokens, d: u8, k: nat, params: seq<string>, floats: FloatText)
    requires |ts| >= 5 && IsRegister(ts[0], d) && ts[1].kind == Comma && ts[2].kind == LBracket
    requires ts[3].kind == Identifier && ts[4].kind == RBracket
    requires k < |params| && params[k] == ts[3].text && forall j | 0 <= j < |params| :: params[j] == params[k] ==> j == k
    ensures Operands(ts, Bare(LdParam, guard), params, floats)
            == Some(Read(Draft(Instruction(LdParam, guard, d, 0, 0, true, k % 0x1_0000_0000), None), ts[5..]))
  {
    hide RegisterIndex, ParseSteps, ParseStep, FindParam;
    var i := Bare(LdParam, guard);
    FirstParam(ts[3].text, k, params);
    DestinationStep(ts, i, d, params, floats);
    ParamStep(ts[2..], i.(dst := d), k, params, floats);
    ThreeThen(DstReg, ParamRef, ts, i, params, floats);
    assert ts[2..][3..] == ts[5..] && ts[1..][1..] == ts[2..];
  }

  /** A branch takes a label and nothing else; its immediate is filled in later. */
  lemma BranchOperand(guard: Guard, ts: Tokens, params: seq<string>, floats: FloatText)
    requires At(ts, Identifier)
    ensures Operands(ts, Bare(Bra, guard), params, floats)
            == Some(Read(Draft(Instruction(Bra, guard, 0, 0, 0, false, 0xFFFF_0000), Some(Head(ts).text)), Next(ts)))
  {
    hide ParseSteps;
  }

  /** `exit` and `bar.sync` take nothing. */
  lemma NoOperand(op: Opcode, guard: Guard, ts: Tokens, params: seq<string>, floats: FloatText)
    requires op == Exit || op == BarSync
    ensures Operands(ts, Bare(op, guard), params, floats)
            == Some(Read(Draft(Instruction(op, guard, 0, 0, 0, false, 0), None), ts))
  {
    hide ParseStep;
  }

  /** `@p` asks for a predicate to hold and `@!p` for it not to hold. */
  lemma GuardOperand(ts: Tokens, mark: string, name: string, rest: string, n: u8)
    requires mark in ["@", "@!"] && Delimited(rest) && Numerals.IsIdent(name)
    requires ts != [] && RegisterIndex(name, 'p', PREDICATE_REGISTERS) == Some(n)
    requires NextToken(mark + name + rest).Some? && ts[0] == NextToken(mark + name + rest).value.token
    ensures GuardPart(ts) == Some(Read(Guard(true, mark == "@!", n), ts[1..]))
  {
    hide RegisterIndex, NextToken;
    Pieces.GuardLexed(mark == "@!", name, rest);
  }
}
