/** Every printed operand reads back as the fields it was printed from. */
module OperandRoundTrip {
  import opened Isa
  import opened Numerals
  import opened Lexing
  import opened Pieces
  import opened Mnemonics
  import opened Parsing
  import opened Printing

  // ---- numerals and registers ----

  lemma RegisterReads(prefix: char, index: u8, count: u8)
    requires index < count
    ensures RegisterIndex([prefix] + Numeral(index, 10), prefix, count) == Some(index)
  {
    hide Value, Numeral;
    var text := [prefix] + Numeral(index, 10);
    assert text[1..] == Numeral(index, 10);
    ValueOfNumeral(index, 10);
    NoLeadingZero(index, 10);
  }

  lemma RegisterIsIdent(prefix: char, index: nat)
    requires IsIdentStart(prefix)
    ensures IsIdent([prefix] + Numeral(index, 10))
  {
    hide Numeral;
  }

  lemma DecimalReads(value: u32, rest: Tokens)
    ensures IntegerLiteral([Plain(Integer, Numeral(value, 10))] + rest) == Some(Read(value, rest))
  {
    hide Value, Numeral;
    ValueOfNumeral(value, 10);
    var text := Numeral(value, 10);
    assert |text| > 1 ==> IsDigit(text[1]);
  }

  lemma HexReads(value: u32, rest: Tokens)
    ensures IntegerLiteral([Plain(Integer, "0x" + Numeral(value, 16))] + rest) == Some(Read(value, rest))
  {
    hide Value, Numeral;
    ValueOfNumeral(value, 16);
    var text := "0x" + Numeral(value, 16);
    assert text[2..] == Numeral(value, 16);
    assert "0x" <= text;
  }

  // ---- operands ----

  /** The instruction `j` with the fields that `step` reads taken from `i`. */
  function Filled(step: Step, i: Instruction, j: Instruction): Instruction {
    match step
    case DstReg => j.(dst := i.dst)
    case DstPred => j.(dst := i.dst)
    case Src0Reg => j.(src0 := i.src0)
    case SpecialReg => j.(src0 := i.src0)
    case Src1Reg => j.(src1 := i.src1)
    case Src1RegOrImm => if i.immFlag then j.(immFlag := true, imm := i.imm) else j.(src1 := i.src1)
    case Src0RegOrImm => if i.immFlag then j.(immFlag := true, imm := i.imm) else j.(src0 := i.src0)
    case Address => j.(src0 := i.src0, immFlag := true, imm := i.imm)
    case ParamRef => j.(immFlag := true, imm := i.imm)
    case Separator => j
  }

  /** The fields that `step` prints are in range. */
  ghost predicate InRange(step: Step, i: Instruction, params: seq<string>) {
    match step
    case DstReg => i.dst < GENERAL_REGISTERS
    case DstPred => i.dst < PREDICATE_REGISTERS
    case Src0Reg => i.src0 < GENERAL_REGISTERS
    case SpecialReg => i.src0 < SPECIAL_REGISTERS
    case Src1Reg => i.src1 < GENERAL_REGISTERS
    case Src1RegOrImm => i.src1 < GENERAL_REGISTERS
    case Src0RegOrImm => i.src0 < GENERAL_REGISTERS
    case Address => i.src0 < GENERAL_REGISTERS
    case ParamRef => i.imm < |params|
    case Separator => true
  }

  ghost predicate GoodParams(params: seq<string>) {
    && (forall k | 0 <= k < |params| :: IsIdent(params[k]))
    && (forall j, k | 0 <= j < k < |params| :: params[j] != params[k])
  }

  lemma One<T>(x: T, rest: seq<T>)
    ensures ([x] + rest)[0] == x && ([x] + rest)[1..] == rest
  {
  }

  lemma Tokens1(p: Piece)
    ensures AllTokens([p]) == TokensOf(p)
  {
    hide TokensOf;
    assert AllTokens([p]) == TokensOf(p) + AllTokens([]);
  }

  lemma Tokens2(p: Piece, q: Piece)
    ensures AllTokens([p, q]) == TokensOf(p) + TokensOf(q)
  {
    hide TokensOf;
    Tokens1(q);
    assert [p, q][1..] == [q];
  }

  lemma Tokens3(p: Piece, q: Piece, r: Piece)
    ensures AllTokens([p, q, r]) == TokensOf(p) + TokensOf(q) + TokensOf(r)
  {
    hide TokensOf;
    Tokens2(q, r);
    assert [p, q, r][1..] == [q, r];
  }

  lemma RegStepReads(step: Step, i: Instruction, j: Instruction, index: u8, rest: Tokens)
    requires step.DstReg? || step.Src0Reg? || step.Src1Reg?
    requires index < GENERAL_REGISTERS
    requires index == if step.DstReg? then i.dst else if step.Src0Reg? then i.src0 else i.src1
    ensures RegisterStep(step, [Plain(Identifier, Reg(index))] + rest, j) == Some(Read(Filled(step, i, j), rest))
    ensures At([Plain(Identifier, Reg(index))] + rest, Identifier)
  {
    hide RegisterIndex;
    RegisterReads('r', index, GENERAL_REGISTERS);
    One(Plain(Identifier, Reg(index)), rest);
  }

  lemma HexImmediateReads(i: Instruction, j: Instruction, floats: FloatText, rest: Tokens)
    ensures Immediate([Plain(Integer, Hex(i.imm))] + rest, j, floats) == Some(Read(j.(immFlag := true, imm := i.imm), rest))
  {
    hide IntegerLiteral, Numeral;
    HexReads(i.imm, rest);
    One(Plain(Integer, Hex(i.imm)), rest);
  }

  lemma DecimalImmediateReads(i: Instruction, j: Instruction, floats: FloatText, rest: Tokens)
    ensures Immediate(AllTokens(MinusPieces(IsNegative(i.imm)) + [Decimal(Numeral(Magnitude(i.imm), 10))]) + rest, j, floats)
            == Some(Read(j.(immFlag := true, imm := i.imm), rest))
  {
    hide IntegerLiteral, Numeral;
    var t := Plain(Integer, Numeral(Magnitude(i.imm), 10));
    DecimalReads(Magnitude(i.imm), rest);
    SignedTokens(IsNegative(i.imm), Decimal(Numeral(Magnitude(i.imm), 10)), t, rest);
    One(t, rest);
    if IsNegative(i.imm) {
      One(Plain(Minus, "-"), [t] + rest);
    }
  }

  /** The tokens of an optional minus sign and one more piece. */
  lemma SignedTokens(negative: bool, p: Piece, t: Token, rest: Tokens)
    requires TokensOf(p) == [t]
    ensures AllTokens(MinusPieces(negative) + [p]) + rest
            == if negative then [Plain(Minus, "-")] + ([t] + rest) else [t] + rest
  {
    hide TokensOf;
    RenderAppend(MinusPieces(negative), [p]);
    assert AllTokens([p]) == [t] + AllTokens([]);
    if negative {
      MinusToken();
      assert AllTokens([Mark('-')]) == TokensOf(Mark('-')) + AllTokens([]);
    }
  }

  lemma MinusToken()
    ensures TokensOf(Mark('-')) == [Plain(Minus, "-")]
  {
  }

  lemma FloatImmediateReads(i: Instruction, j: Instruction, floats: FloatText, rest: Tokens)
    requires Faithful(floats) && PrintsFloat(i.op) && j.op == i.op && IsFinite(i.imm)
    ensures IsFinite(i.imm % 0x8000_0000)
    ensures Immediate(AllTokens(MinusPieces(IsNegative(i.imm)) + [FloatPiece(floats, i.imm % 0x8000_0000)]) + rest, j, floats)
            == Some(Read(j.(immFlag := true, imm := i.imm), rest))
  {
    hide Faithful, IsFinite, TokensOf, Text, FloatPiece, IntegerLiteral, AllTokens, MinusPieces, NegateWord;
    FiniteMagnitude(i.imm);
    var m := i.imm % 0x8000_0000;
    var p := FloatPiece(floats, m);
    var t := Plain(Float, Text(p));
    SignedTokens(IsNegative(i.imm), p, t, rest);
    One(t, rest);
    if IsNegative(i.imm) {
      One(Plain(Minus, "-"), [t] + rest);
    }
  }

  lemma ImmediateReads(i: Instruction, j: Instruction, floats: FloatText, rest: Tokens)
    requires Faithful(floats) && j.op == i.op
    ensures Immediate(AllTokens(ImmediatePieces(i, floats)) + rest, j, floats)
            == Some(Read(j.(immFlag := true, imm := i.imm), rest))
    ensures !At(AllTokens(ImmediatePieces(i, floats)) + rest, Identifier)
  {
    hide Immediate, Faithful, IsFinite, Numeral, FloatPiece;
    if PrintsFloat(i.op) && IsFinite(i.imm) {
      FloatImmediateReads(i, j, floats, rest);
      var p := FloatPiece(floats, i.imm % 0x8000_0000);
      SignedTokens(IsNegative(i.imm), p, Plain(Float, Text(p)), rest);
    } else if PrintsFloat(i.op) || i.op == Mov {
      HexImmediateReads(i, j, floats, rest);
      assert AllTokens([Hexadecimal(Numeral(i.imm, 16))]) == [Plain(Integer, Hex(i.imm))];
    } else {
      DecimalImmediateReads(i, j, floats, rest);
      var n := Numeral(Magnitude(i.imm), 10);
      SignedTokens(IsNegative(i.imm), Decimal(n), Plain(Integer, n), rest);
    }
  }

  ghost function SignToken(bits: u32): Token {
    if IsNegative(bits) then Plain(Minus, "-") else Plain(Plus, "+")
  }

  lemma PlainAddressReads(i: Instruction, j: Instruction, rest: Tokens)
    requires i.src0 < GENERAL_REGISTERS && i.imm == 0
    ensures AddressOperand([Plain(LBracket, "[")] + ([Plain(Identifier, Reg(i.src0))] + ([Plain(RBracket, "]")] + rest)), j)
            == Some(Read(j.(src0 := i.src0, immFlag := true, imm := i.imm), rest))
  {
    hide RegisterIndex, IntegerLiteral, Numeral;
    var reg := Plain(Identifier, Reg(i.src0));
    var close := [Plain(RBracket, "]")] + rest;
    RegisterReads('r', i.src0, GENERAL_REGISTERS);
    One(Plain(LBracket, "["), [reg] + close);
    One(reg, close);
    One(Plain(RBracket, "]"), rest);
  }

  lemma OffsetReads(bits: u32, j: Instruction, n: Token, rest: Tokens)
    requires bits != 0 && n == Plain(Integer, Numeral(Magnitude(bits), 10))
    ensures AddressTail([SignToken(bits)] + ([n] + ([Plain(RBracket, "]")] + rest)), j) == Some(Read(j.(imm := bits), rest))
  {
    hide IntegerLiteral, Numeral;
    var close := [Plain(RBracket, "]")] + rest;
    DecimalReads(Magnitude(bits), close);
    One(SignToken(bits), [n] + close);
    One(n, close);
    One(Plain(RBracket, "]"), rest);
  }

  lemma OffsetAddressReads(i: Instruction, j: Instruction, n: Token, rest: Tokens)
    requires i.src0 < GENERAL_REGISTERS && i.imm != 0 && n == Plain(Integer, Numeral(Magnitude(i.imm), 10))
    ensures AddressOperand([Plain(LBracket, "[")] + ([Plain(Identifier, Reg(i.src0))]
                           + ([SignToken(i.imm)] + ([n] + ([Plain(RBracket, "]")] + rest)))), j)
            == Some(Read(j.(src0 := i.src0, immFlag := true, imm := i.imm), rest))
  {
    hide RegisterIndex, AddressTail, Numeral;
    var reg := Plain(Identifier, Reg(i.src0));
    var tail := [SignToken(i.imm)] + ([n] + ([Plain(RBracket, "]")] + rest));
    RegisterReads('r', i.src0, GENERAL_REGISTERS);
    One(Plain(LBracket, "["), [reg] + tail);
    One(reg, tail);
    OffsetReads(i.imm, j.(src0 := i.src0, immFlag := true, imm := 0), n, rest);
  }

  lemma AddressReads(i: Instruction, j: Instruction, rest: Tokens)
    requires i.src0 < GENERAL_REGISTERS
    ensures AddressOperand(AllTokens(AddressPieces(i)) + rest, j)
            == Some(Read(j.(src0 := i.src0, immFlag := true, imm := i.imm), rest))
  {
    hide AddressOperand, Numeral, AddressPieces, AllTokens;
    var reg := Plain(Identifier, Reg(i.src0));
    var close := [Plain(RBracket, "]")] + rest;
    AddressTokens(i);
    if i.imm == 0 {
      assert AllTokens(AddressPieces(i)) + rest == [Plain(LBracket, "[")] + ([reg] + close);
      PlainAddressReads(i, j, rest);
    } else {
      var n := Plain(Integer, Numeral(Magnitude(i.imm), 10));
      assert AllTokens(AddressPieces(i)) + rest == [Plain(LBracket, "[")] + ([reg] + ([SignToken(i.imm)] + ([n] + close)));
      OffsetAddressReads(i, j, n, rest);
    }
  }

  lemma AddressTokens(i: Instruction)
    ensures AllTokens(AddressPieces(i)) ==
            [Plain(LBracket, "["), Plain(Identifier, Reg(i.src0))]
            + (if i.imm == 0 then [] else [SignToken(i.imm), Plain(Integer, Numeral(Magnitude(i.imm), 10))])
            + [Plain(RBracket, "]")]
  {
    hide Numeral, AllTokens;
    var sign := Mark(if IsNegative(i.imm) then '-' else '+');
    var n := Decimal(Numeral(Magnitude(i.imm), 10));
    var middle := if i.imm == 0 then [] else [sign, n];
    RenderAppend([Mark('['), RegPiece(i.src0)] + middle, [Mark(']')]);
    RenderAppend([Mark('['), RegPiece(i.src0)], middle);
    Tokens2(Mark('['), RegPiece(i.src0));
    Tokens1(Mark(']'));
    Tokens2(sign, n);
    NoTokens();
  }

  lemma NoTokens()
    ensures AllTokens([]) == []
  {
  }

  lemma ParamReads(i: Instruction, j: Instruction, params: seq<string>, rest: Tokens)
    requires GoodParams(params) && i.imm < |params|
    ensures ParamOperand(AllTokens([Mark('['), Name(params[i.imm]), Mark(']')]) + rest, j, params)
            == Some(Read(j.(immFlag := true, imm := i.imm), rest))
  {
    hide FindParam, AllTokens;
    var name := Plain(Identifier, params[i.imm]);
    var close := [Plain(RBracket, "]")] + rest;
    Tokens3(Mark('['), Name(params[i.imm]), Mark(']'));
    assert AllTokens([Mark('['), Name(params[i.imm]), Mark(']')]) + rest == [Plain(LBracket, "[")] + ([name] + close);
    One(Plain(LBracket, "["), [name] + close);
    One(name, close);
    One(Plain(RBracket, "]"), rest);
    ParamFound(params, i.imm);
  }

  lemma ParamFound(params: seq<string>, k: nat)
    requires GoodParams(params) && k < |params|
    ensures FindParam(params, params[k], 0) == Some(k)
  {
    hide FindParam, IsIdent;
    var r := FindParam(params, params[k], 0);
  }

  /** The tokens of the operands that are one piece. */
  lemma StepTokens(step: Step, i: Instruction, params: seq<string>)
    ensures AllTokens([RegPiece(i.dst)]) == [Plain(Identifier, Reg(i.dst))]
    ensures AllTokens([RegPiece(i.src0)]) == [Plain(Identifier, Reg(i.src0))]
    ensures AllTokens([RegPiece(i.src1)]) == [Plain(Identifier, Reg(i.src1))]
    ensures AllTokens([Name(Pred(i.dst))]) == [Plain(Identifier, Pred(i.dst))]
    ensures i.src0 < SPECIAL_REGISTERS ==>
              AllTokens([Prefix(Special, SpecialName(i.src0))]) == [Plain(Special, "%" + SpecialName(i.src0))]
    ensures AllTokens([Mark(','), Blank]) == [Plain(Comma, ",")]
  {
    hide AllTokens, Numeral, SpecialName;
    Tokens1(RegPiece(i.dst));
    Tokens1(RegPiece(i.src0));
    Tokens1(RegPiece(i.src1));
    Tokens1(Name(Pred(i.dst)));
    if i.src0 < SPECIAL_REGISTERS { Tokens1(Prefix(Special, SpecialName(i.src0))); }
    Tokens2(Mark(','), Blank);
  }

  /** Each operand, parsed from its own tokens, restores its fields. */
  lemma StepReads(step: Step, i: Instruction, j: Instruction, params: seq<string>, floats: FloatText, rest: Tokens)
    requires Faithful(floats) && GoodParams(params) && j.op == i.op && InRange(step, i, params)
    ensures ParseStep(step, AllTokens(StepPieces(step, i, params, floats)) + rest, j, params, floats)
            == Some(Read(Filled(step, i, j), rest))
  {
    hide Faithful, GoodParams, RegisterStep, Immediate, AddressOperand, ParamOperand, RegisterIndex, Numeral,
      ImmediatePieces, AddressPieces, FindSpecial, SpecialName;
    hide AllTokens;
    StepTokens(step, i, params);
    match step
    case DstReg => RegStepReads(DstReg, i, j, i.dst, rest);
    case Src0Reg => RegStepReads(Src0Reg, i, j, i.src0, rest);
    case Src1Reg => RegStepReads(Src1Reg, i, j, i.src1, rest);
    case Src1RegOrImm =>
      if i.immFlag { ImmediateReads(i, j, floats, rest); } else { RegStepReads(Src1Reg, i, j, i.src1, rest); }
    case Src0RegOrImm =>
      if i.immFlag { ImmediateReads(i, j, floats, rest); } else { RegStepReads(Src0Reg, i, j, i.src0, rest); }
    case DstPred => RegisterReads('p', i.dst, PREDICATE_REGISTERS); One(Plain(Identifier, Pred(i.dst)), rest);
    case SpecialReg => SpecialRoundTrip(i.src0); One(Plain(Special, "%" + SpecialName(i.src0)), rest);
    case Address => AddressReads(i, j, rest);
    case ParamRef => ParamReads(i, j, params, rest);
    case Separator => One(Plain(Comma, ","), rest);
  }
}
