/** Every printed instruction reads back as itself; a branch reads back as its target's name. */
module InstructionRoundTrip {
  import opened Isa
  import opened Numerals
  import opened Lexing
  import opened Pieces
  import opened Mnemonics
  import opened Parsing
  import opened Assembling
  import opened Printing
  import opened OperandRoundTrip

  // ---- the text of operands ----

  function StepText(step: Step, i: Instruction, params: seq<string>, floats: FloatText): string {
    match step
    case DstReg => Reg(i.dst)
    case Src0Reg => Reg(i.src0)
    case Src1Reg => Reg(i.src1)
    case Src1RegOrImm => if i.immFlag then ImmediateText(i, floats) else Reg(i.src1)
    case Src0RegOrImm => if i.immFlag then ImmediateText(i, floats) else Reg(i.src0)
    case DstPred => Pred(i.dst)
    case SpecialReg => if i.src0 < SPECIAL_REGISTERS then "%" + SpecialName(i.src0) else ""
    case Address => AddressText(i)
    case ParamRef => if i.imm < |params| then "[" + params[i.imm] + "]" else ""
    case Separator => ", "
  }

  function StepsText(steps: seq<Step>, i: Instruction, params: seq<string>, floats: FloatText): string {
    if steps == [] then "" else StepText(steps[0], i, params, floats) + StepsText(steps[1..], i, params, floats)
  }

  lemma Render1(p: Piece)
    ensures Render([p]) == Text(p)
  {
    hide Text;
    assert Render([p]) == Text(p) + Render([]);
  }

  lemma Render2(p: Piece, q: Piece)
    ensures Render([p, q]) == Text(p) + Text(q)
  {
    hide Text;
    Render1(q);
    assert [p, q][1..] == [q];
  }

  lemma Render3(p: Piece, q: Piece, r: Piece)
    ensures Render([p, q, r]) == Text(p) + Text(q) + Text(r)
  {
    hide Text;
    Render2(q, r);
    assert [p, q, r][1..] == [q, r];
  }

  lemma SignedRenders(negative: bool, p: Piece)
    ensures Render(MinusPieces(negative) + [p]) == (if negative then "-" else "") + Text(p)
  {
    hide Text, Render;
    if negative {
      Render2(Mark('-'), p);
      MinusText();
      assert MinusPieces(negative) + [p] == [Mark('-'), p];
    } else {
      Render1(p);
      assert MinusPieces(negative) + [p] == [p];
    }
  }

  lemma MinusText()
    ensures Text(Mark('-')) == "-"
  {
  }

  lemma WithPointOfMinus(s: string)
    ensures WithPoint("-" + s) == "-" + WithPoint(s)
  {
    assert forall c :: c in "-" + s <==> c == '-' || c in s;
  }

  lemma ImmediateRenders(i: Instruction, floats: FloatText)
    requires Faithful(floats)
    ensures Render(ImmediatePieces(i, floats)) == ImmediateText(i, floats)
  {
    hide Render, Numeral, WithPoint, IsFinite, FloatPiece, HasShape;
    if PrintsFloat(i.op) && IsFinite(i.imm) {
      var m := i.imm % 0x8000_0000;
      FiniteMagnitude(i.imm);
      SignedRenders(IsNegative(i.imm), FloatPiece(floats, m));
      WithPointOfMinus(floats.show(m));
    } else if PrintsFloat(i.op) || i.op == Mov {
      Render1(Hexadecimal(Numeral(i.imm, 16)));
    } else {
      SignedRenders(IsNegative(i.imm), Decimal(Numeral(Magnitude(i.imm), 10)));
    }
  }

  lemma AddressRenders(i: Instruction)
    ensures Render(AddressPieces(i)) == AddressText(i)
  {
    hide Render, Numeral;
    var sign := Mark(if IsNegative(i.imm) then '-' else '+');
    var n := Decimal(Numeral(Magnitude(i.imm), 10));
    var middle := if i.imm == 0 then [] else [sign, n];
    RenderAppend([Mark('['), RegPiece(i.src0)] + middle, [Mark(']')]);
    RenderAppend([Mark('['), RegPiece(i.src0)], middle);
    Render2(Mark('['), RegPiece(i.src0));
    Render2(sign, n);
    Render1(Mark(']'));
    RenderNothing();
  }

  lemma RenderNothing()
    ensures Render([]) == ""
  {
  }

  lemma StepRenders(step: Step, i: Instruction, params: seq<string>, floats: FloatText)
    requires Faithful(floats)
    ensures Render(StepPieces(step, i, params, floats)) == StepText(step, i, params, floats)
  {
    hide Render, Numeral, Faithful, ImmediatePieces, ImmediateText, AddressPieces, AddressText, SpecialName;
    match step
    case DstReg => Render1(RegPiece(i.dst));
    case Src0Reg => Render1(RegPiece(i.src0));
    case Src1Reg => Render1(RegPiece(i.src1));
    case Src1RegOrImm => ImmediateRenders(i, floats); Render1(RegPiece(i.src1));
    case Src0RegOrImm => ImmediateRenders(i, floats); Render1(RegPiece(i.src0));
    case DstPred => Render1(Name(Pred(i.dst)));
    case SpecialReg => if i.src0 < SPECIAL_REGISTERS { Render1(Prefix(Special, SpecialName(i.src0))); } else { RenderNothing(); }
    case Address => AddressRenders(i);
    case ParamRef => if i.imm < |params| { Render3(Mark('['), Name(params[i.imm]), Mark(']')); } else { RenderNothing(); }
    case Separator => Render2(Mark(','), Blank);
  }

  lemma {:induction false} StepsRender(steps: seq<Step>, i: Instruction, params: seq<string>, floats: FloatText)
    requires Faithful(floats)
    ensures Render(StepsPieces(steps, i, params, floats)) == StepsText(steps, i, params, floats)
  {
    hide Render, Faithful, StepPieces, StepText;
    if steps == [] {
      RenderNothing();
    } else {
      StepRenders(steps[0], i, params, floats);
      StepsRender(steps[1..], i, params, floats);
      RenderAppend(StepPieces(steps[0], i, params, floats), StepsPieces(steps[1..], i, params, floats));
    }
  }

  lemma Text3(steps: seq<Step>, i: Instruction, params: seq<string>, floats: FloatText)
    requires |steps| == 3
    ensures var t := k requires 0 <= k < 3 => StepText(steps[k], i, params, floats);
            StepsText(steps, i, params, floats) == t(0) + (t(1) + t(2))
  {
    hide StepText;
    var s1 := steps[1..];
    var s2 := s1[1..];
    assert s2[1..] == [];
    assert StepsText(s2, i, params, floats) == StepText(s2[0], i, params, floats) + StepsText([], i, params, floats);
    assert StepsText(s1, i, params, floats) == StepText(s1[0], i, params, floats) + StepsText(s2, i, params, floats);
  }

  lemma Text5(steps: seq<Step>, i: Instruction, params: seq<string>, floats: FloatText)
    requires |steps| == 5
    ensures var t := k requires 0 <= k < 5 => StepText(steps[k], i, params, floats);
            StepsText(steps, i, params, floats) == t(0) + (t(1) + (t(2) + (t(3) + t(4))))
  {
    hide StepText;
    var s1 := steps[1..];
    assert s1[1..] == steps[2..];
    Text3(steps[2..], i, params, floats);
  }

  lemma Join3(a: string, b: string, c: string)
    ensures " " + a + b + c == " " + (a + (b + c))
  {
  }

  lemma Join5(a: string, b: string, c: string, d: string, e: string)
    ensures " " + a + b + c + d + e == " " + (a + (b + (c + (d + e))))
  {
    Join3(a, b, c + d + e);
    assert " " + a + b + c + d + e == " " + a + b + (c + d + e);
    assert c + d + e == c + (d + e);
  }

  lemma ThreeSteps(i: Instruction, names: map<u16, string>, params: seq<string>, floats: FloatText)
    requires ShapeOf(i.op) != BraShape && Valid(i) && ParamInRange(i, |params|) && |StepsOf(ShapeOf(i.op))| == 3
    ensures OperandsText(i, names, params, floats) == Some(" " + StepsText(StepsOf(ShapeOf(i.op)), i, params, floats))
  {
    hide Numeral, ImmediateText, AddressText, SpecialName, StepsText, Violation;
    var steps := StepsOf(ShapeOf(i.op));
    if ShapeOf(i.op) == Sreg { SpecialInRange(i); }
    Text3(steps, i, params, floats);
    Join3(StepText(steps[0], i, params, floats), StepText(steps[1], i, params, floats), StepText(steps[2], i, params, floats));
    if ShapeOf(i.op) == Ldp { BracketJoin(Reg(i.dst), params[i.imm]); }
  }

  lemma FiveSteps(i: Instruction, names: map<u16, string>, params: seq<string>, floats: FloatText)
    requires ShapeOf(i.op) != BraShape && Valid(i) && ParamInRange(i, |params|) && |StepsOf(ShapeOf(i.op))| == 5
    ensures OperandsText(i, names, params, floats) == Some(" " + StepsText(StepsOf(ShapeOf(i.op)), i, params, floats))
  {
    hide Numeral, ImmediateText, AddressText, SpecialName, StepsText, Violation;
    var steps := StepsOf(ShapeOf(i.op));
    Text5(steps, i, params, floats);
    Join5(StepText(steps[0], i, params, floats), StepText(steps[1], i, params, floats), StepText(steps[2], i, params, floats),
          StepText(steps[3], i, params, floats), StepText(steps[4], i, params, floats));
  }

  /** The operands are printed in the order they are read, each separated as the reader expects. */
  lemma OperandsBySteps(i: Instruction, names: map<u16, string>, params: seq<string>, floats: FloatText)
    requires ShapeOf(i.op) != BraShape && Valid(i) && ParamInRange(i, |params|)
    ensures var steps := StepsOf(ShapeOf(i.op));
            OperandsText(i, names, params, floats)
            == Some(if steps == [] then "" else " " + StepsText(steps, i, params, floats))
  {
    hide ShapeOf, Valid, StepsText, StepText;
    var steps := StepsOf(ShapeOf(i.op));
    if |steps| == 3 { ThreeSteps(i, names, params, floats); }
    if |steps| == 5 { FiveSteps(i, names, params, floats); }
  }

  lemma BracketJoin(a: string, b: string)
    ensures " " + a + ", [" + b + "]" == " " + a + ", " + ("[" + b + "]")
  {
  }

  lemma SpecialInRange(i: Instruction)
    requires Valid(i) && ShapeOf(i.op) == Sreg
    ensures i.src0 < SPECIAL_REGISTERS
  {
  }

  // ---- the fields that are read back ----

  function FilledAll(steps: seq<Step>, i: Instruction, j: Instruction): Instruction {
    if steps == [] then j else FilledAll(steps[1..], i, Filled(steps[0], i, j))
  }

  lemma FilledOp(step: Step, i: Instruction, j: Instruction)
    ensures Filled(step, i, j).op == j.op
  {
  }

  lemma {:induction false} StepsRead(steps: seq<Step>, i: Instruction, j: Instruction, params: seq<string>, floats: FloatText, rest: Tokens)
    requires Faithful(floats) && GoodParams(params) && j.op == i.op
    requires forall k | 0 <= k < |steps| :: InRange(steps[k], i, params)
    ensures ParseSteps(steps, AllTokens(StepsPieces(steps, i, params, floats)) + rest, j, params, floats)
            == Some(Read(FilledAll(steps, i, j), rest))
  {
    hide Faithful, GoodParams, ParseStep, Filled, InRange, StepPieces, AllTokens;
    if steps == [] {
      NoTokens();
      assert [] + rest == rest;
    } else {
      var first, tail := StepPieces(steps[0], i, params, floats), StepsPieces(steps[1..], i, params, floats);
      RenderAppend(first, tail);
      assert AllTokens(first) + AllTokens(tail) + rest == AllTokens(first) + (AllTokens(tail) + rest);
      StepReads(steps[0], i, j, params, floats, AllTokens(tail) + rest);
      FilledOp(steps[0], i, j);
      StepsRead(steps[1..], i, Filled(steps[0], i, j), params, floats, rest);
    }
  }

  lemma ThreeAreWhole(i: Instruction)
    requires Valid(i) && ShapeOf(i.op) != BraShape && |StepsOf(ShapeOf(i.op))| == 3
    ensures FilledAll(StepsOf(ShapeOf(i.op)), i, Bare(i.op, i.guard)) == i
  {
    Filled3(StepsOf(ShapeOf(i.op)), i, Bare(i.op, i.guard));
    hide FilledAll, ShapeOf;
  }

  lemma FiveAreWhole(i: Instruction)
    requires Valid(i) && ShapeOf(i.op) != BraShape && |StepsOf(ShapeOf(i.op))| == 5
    ensures FilledAll(StepsOf(ShapeOf(i.op)), i, Bare(i.op, i.guard)) == i
  {
    Filled5(StepsOf(ShapeOf(i.op)), i, Bare(i.op, i.guard));
    hide FilledAll, ShapeOf;
  }

  lemma NoneAreWhole(i: Instruction)
    requires Valid(i) && ShapeOf(i.op) != BraShape && StepsOf(ShapeOf(i.op)) == []
    ensures FilledAll(StepsOf(ShapeOf(i.op)), i, Bare(i.op, i.guard)) == i
  {
    Filled0(i, Bare(i.op, i.guard));
    hide FilledAll, ShapeOf;
  }

  lemma StepCounts(shape: Shape)
    requires shape != BraShape
    ensures |StepsOf(shape)| in {0, 3, 5}
  {
  }

  /** A valid instruction is made of its opcode, its guard and the fields its operands fill in. */
  lemma FilledIsWhole(i: Instruction)
    requires Valid(i) && ShapeOf(i.op) != BraShape
    ensures FilledAll(StepsOf(ShapeOf(i.op)), i, Bare(i.op, i.guard)) == i
  {
    hide FilledAll, ShapeOf, StepsOf, Valid, Bare;
    StepCounts(ShapeOf(i.op));
    if |StepsOf(ShapeOf(i.op))| == 0 { NoneAreWhole(i); }
    if |StepsOf(ShapeOf(i.op))| == 3 { ThreeAreWhole(i); }
    if |StepsOf(ShapeOf(i.op))| == 5 { FiveAreWhole(i); }
  }

  lemma Filled0(i: Instruction, j: Instruction)
    ensures FilledAll([], i, j) == j
  {
  }

  lemma Filled3(steps: seq<Step>, i: Instruction, j: Instruction)
    requires |steps| == 3
    ensures FilledAll(steps, i, j) == Filled(steps[2], i, Filled(steps[1], i, Filled(steps[0], i, j)))
  {
    hide Filled;
    var s1 := steps[1..];
    var s2 := s1[1..];
    assert s2[1..] == [];
    var j2 := Filled(steps[1], i, Filled(steps[0], i, j));
    assert FilledAll(s2, i, j2) == FilledAll([], i, Filled(s2[0], i, j2));
  }

  lemma Filled5(steps: seq<Step>, i: Instruction, j: Instruction)
    requires |steps| == 5
    ensures FilledAll(steps, i, j) ==
            Filled(steps[4], i, Filled(steps[3], i, Filled(steps[2], i, Filled(steps[1], i, Filled(steps[0], i, j)))))
  {
    hide Filled;
    var s1 := steps[1..];
    assert s1[1..] == steps[2..];
    Filled3(steps[2..], i, Filled(steps[1], i, Filled(steps[0], i, j)));
  }

  lemma StepsInRange(i: Instruction, params: seq<string>, k: nat)
    requires Valid(i) && ShapeOf(i.op) != BraShape && ParamInRange(i, |params|) && k < |StepsOf(ShapeOf(i.op))|
    ensures InRange(StepsOf(ShapeOf(i.op))[k], i, params)
  {
  }

  // ---- a whole instruction ----

  function GuardPieces(guard: Guard): seq<Piece> {
    if guard.present then [Guarded(guard.negate, Pred(guard.pred)), Blank] else []
  }

  function ReconvergePieces(i: Instruction, names: map<u16, string>): seq<Piece> {
    if i.Reconvergence() != NO_RECONVERGENCE
    then [Blank, Blank, Blank, Blank, Comment(" reconverge " + LabelFor(i.Reconvergence(), names))]
    else []
  }

  ghost function OperandPieces(i: Instruction, names: map<u16, string>, params: seq<string>, floats: FloatText): seq<Piece>
    requires Faithful(floats)
  {
    if ShapeOf(i.op) == BraShape then [Blank, Name(LabelFor(i.Target(), names))] + ReconvergePieces(i, names)
    else if StepsOf(ShapeOf(i.op)) == [] then []
    else [Blank] + StepsPieces(StepsOf(ShapeOf(i.op)), i, params, floats)
  }

  ghost function InstructionPieces(i: Instruction, names: map<u16, string>, params: seq<string>, floats: FloatText): seq<Piece>
    requires Faithful(floats)
  {
    GuardPieces(i.guard) + ([Name(Mnemonic(i.op))] + OperandPieces(i, names, params, floats))
  }

  /** What the reader makes of a printed instruction: a branch is still without its target. */
  function DraftOf(i: Instruction, names: map<u16, string>): Draft {
    if i.op == Bra then Draft(i.(imm := BranchImm(0, NO_RECONVERGENCE)), Some(LabelFor(i.Target(), names)))
    else Draft(i, None)
  }

  lemma GuardRenders(guard: Guard)
    ensures Render(GuardPieces(guard)) == GuardText(guard)
  {
    hide Numeral, Render;
    if guard.present {
      Render2(Guarded(guard.negate, Pred(guard.pred)), Blank);
    } else {
      RenderNothing();
    }
  }

  lemma CommentText(name: string)
    ensures (" " + " ") + (" " + " " + ("//" + (" reconverge " + name))) == "    // reconverge " + name
  {
    assert "    // reconverge " == (" " + " ") + (" " + " " + ("//" + " reconverge "));
    var a, b := "//", " reconverge ";
    assert a + (b + name) == (a + b) + name;
    assert " " + " " + ((a + b) + name) == (" " + " " + (a + b)) + name;
  }

  lemma ReconvergeRenders(i: Instruction, names: map<u16, string>)
    requires i.Reconvergence() != NO_RECONVERGENCE
    ensures Render(ReconvergePieces(i, names)) == "    // reconverge " + LabelFor(i.Reconvergence(), names)
  {
    hide Render, LabelFor;
    var name := LabelFor(i.Reconvergence(), names);
    var comment := Comment(" reconverge " + name);
    Render2(Blank, Blank);
    Render3(Blank, Blank, comment);
    RenderAppend([Blank, Blank], [Blank, Blank, comment]);
    assert [Blank, Blank] + [Blank, Blank, comment] == ReconvergePieces(i, names);
    CommentText(name);
  }

  lemma BranchRenders(i: Instruction, names: map<u16, string>)
    ensures Render([Blank, Name(LabelFor(i.Target(), names))] + ReconvergePieces(i, names)) == BranchText(i, names)
  {
    hide Render, LabelFor;
    var target := Name(LabelFor(i.Target(), names));
    RenderAppend([Blank, target], ReconvergePieces(i, names));
    Render2(Blank, target);
    RenderNothing();
    if i.Reconvergence() != NO_RECONVERGENCE { ReconvergeRenders(i, names); }
  }

  lemma OperandsRender(i: Instruction, names: map<u16, string>, params: seq<string>, floats: FloatText)
    requires Faithful(floats) && Valid(i) && ParamInRange(i, |params|)
    ensures OperandsText(i, names, params, floats) == Some(Render(OperandPieces(i, names, params, floats)))
  {
    hide Render, Faithful, BranchText, StepsPieces, StepsText, Valid, ReconvergePieces, StepsOf;
    if ShapeOf(i.op) == BraShape {
      BranchRenders(i, names);
    } else {
      hide OperandsText;
      OperandsBySteps(i, names, params, floats);
      var steps := StepsOf(ShapeOf(i.op));
      StepsRender(steps, i, params, floats);
      RenderAppend([Blank], StepsPieces(steps, i, params, floats));
      Render1(Blank);
      RenderNothing();
    }
  }

  /** The printed text of an instruction is the text of its pieces. */
  lemma FormatRenders(i: Instruction, names: map<u16, string>, params: seq<string>, floats: FloatText)
    requires Faithful(floats) && Valid(i) && ParamInRange(i, |params|)
    ensures FormatInstruction(i, names, params, floats) == Some(Render(InstructionPieces(i, names, params, floats)))
  {
    hide Render, Faithful, OperandsText, OperandPieces, GuardPieces, GuardText, Valid, Mnemonic;
    var operands := OperandPieces(i, names, params, floats);
    OperandsRender(i, names, params, floats);
    GuardRenders(i.guard);
    Render1(Name(Mnemonic(i.op)));
    RenderAppend([Name(Mnemonic(i.op))], operands);
    RenderAppend(GuardPieces(i.guard), [Name(Mnemonic(i.op))] + operands);
    assert GuardText(i.guard) + Mnemonic(i.op) + Render(operands) == GuardText(i.guard) + (Mnemonic(i.op) + Render(operands));
  }

  // ---- reading it back ----

  lemma BranchTokens(i: Instruction, names: map<u16, string>)
    ensures AllTokens([Blank, Name(LabelFor(i.Target(), names))] + ReconvergePieces(i, names))
            == [Plain(Identifier, LabelFor(i.Target(), names))]
  {
    hide LabelFor, AllTokens;
    var target := Name(LabelFor(i.Target(), names));
    RenderAppend([Blank, target], ReconvergePieces(i, names));
    Tokens2(Blank, target);
    NoTokens();
    if i.Reconvergence() != NO_RECONVERGENCE {
      var comment := Comment(" reconverge " + LabelFor(i.Reconvergence(), names));
      Tokens2(Blank, Blank);
      Tokens3(Blank, Blank, comment);
      RenderAppend([Blank, Blank], [Blank, Blank, comment]);
      assert [Blank, Blank] + [Blank, Blank, comment] == ReconvergePieces(i, names);
    }
  }

  lemma OperandsRead(i: Instruction, names: map<u16, string>, params: seq<string>, floats: FloatText, rest: Tokens)
    requires Faithful(floats) && Valid(i) && GoodParams(params) && ParamInRange(i, |params|)
    ensures Operands(AllTokens(OperandPieces(i, names, params, floats)) + rest, Bare(i.op, i.guard), params, floats)
            == Some(Read(DraftOf(i, names), rest))
  {
    hide Faithful, GoodParams, AllTokens, ParseSteps, StepsPieces, LabelFor, ReconvergePieces, FilledAll, StepsOf, ParamInRange;
    if ShapeOf(i.op) == BraShape {
      BranchTokens(i, names);
      One(Plain(Identifier, LabelFor(i.Target(), names)), rest);
      BareBranch(i);
    } else {
      hide Valid;
      var steps := StepsOf(ShapeOf(i.op));
      forall k | 0 <= k < |steps| ensures InRange(steps[k], i, params) {
        StepsInRange(i, params, k);
      }
      StepsRead(steps, i, Bare(i.op, i.guard), params, floats, rest);
      FilledIsWhole(i);
      var pieces := StepsPieces(steps, i, params, floats);
      RenderAppend([Blank], pieces);
      Tokens1(Blank);
      assert AllTokens([Blank] + pieces) == AllTokens(pieces);
      NoSteps(i, params, floats);
      assert AllTokens(OperandPieces(i, names, params, floats)) == AllTokens(pieces);
    }
  }

  lemma NoSteps(i: Instruction, params: seq<string>, floats: FloatText)
    requires Faithful(floats)
    ensures StepsPieces([], i, params, floats) == []
  {
  }

  lemma BareBranch(i: Instruction)
    requires Valid(i) && i.op == Bra
    ensures Bare(i.op, i.guard).(imm := i.imm) == i
  {
  }

  lemma GuardReads(guard: Guard, rest: Tokens)
    requires guard.present && guard.pred < PREDICATE_REGISTERS
    ensures var ts := AllTokens(GuardPieces(guard)) + rest;
            At(ts, GuardMark) && PredicateName(Head(ts).text) == Some(guard.pred) && Head(ts).negate == guard.negate && Next(ts) == rest
  {
    hide AllTokens, Numeral, RegisterIndex;
    Tokens2(Guarded(guard.negate, Pred(guard.pred)), Blank);
    RegisterReads('p', guard.pred, PREDICATE_REGISTERS);
    One(Token(GuardMark, Pred(guard.pred), guard.negate), rest);
  }

  lemma ValidGuard(i: Instruction)
    requires Valid(i)
    ensures i.guard.pred < PREDICATE_REGISTERS && (!i.guard.present ==> i.guard == Guard(false, false, 0))
  {
  }

  /** The tokens of an instruction are those of its guard, its mnemonic and its operands. */
  lemma InstructionTokens(i: Instruction, names: map<u16, string>, params: seq<string>, floats: FloatText, rest: Tokens)
    requires Faithful(floats)
    ensures AllTokens(InstructionPieces(i, names, params, floats)) + rest
            == AllTokens(GuardPieces(i.guard))
               + ([Plain(Identifier, Mnemonic(i.op))] + (AllTokens(OperandPieces(i, names, params, floats)) + rest))
  {
    hide AllTokens, OperandPieces, Mnemonic, GuardPieces, Faithful;
    var operands := OperandPieces(i, names, params, floats);
    RenderAppend(GuardPieces(i.guard), [Name(Mnemonic(i.op))] + operands);
    RenderAppend([Name(Mnemonic(i.op))], operands);
    Tokens1(Name(Mnemonic(i.op)));
  }

  lemma GuardStep(guard: Guard, name: Token, tail: Tokens)
    requires guard.pred < PREDICATE_REGISTERS && (!guard.present ==> guard == Guard(false, false, 0)) && name.kind == Identifier
    ensures GuardPart(AllTokens(GuardPieces(guard)) + ([name] + tail)) == Some(Read(guard, [name] + tail))
  {
    hide AllTokens, PredicateName;
    if guard.present {
      GuardReads(guard, [name] + tail);
    } else {
      NoTokens();
      assert [] + ([name] + tail) == [name] + tail;
    }
    One(name, tail);
  }

  /** A printed instruction reads back as itself. */
  lemma InstructionReads(i: Instruction, names: map<u16, string>, params: seq<string>, floats: FloatText, rest: Tokens)
    requires Faithful(floats) && Valid(i) && GoodParams(params) && ParamInRange(i, |params|) && AtLineEnd(rest)
    ensures InstructionLine(AllTokens(InstructionPieces(i, names, params, floats)) + rest, params, floats)
            == Some(Read(DraftOf(i, names), rest))
  {
    hide Faithful, GoodParams, AllTokens, Operands, OperandPieces, DraftOf, Mnemonic, FindMnemonic, Valid, RegisterIndex, ParamInRange;
    var operands := OperandPieces(i, names, params, floats);
    var name := Plain(Identifier, Mnemonic(i.op));
    var tail := AllTokens(operands) + rest;
    InstructionTokens(i, names, params, floats, rest);
    ValidGuard(i);
    GuardStep(i.guard, name, tail);
    One(name, tail);
    MnemonicRoundTrip(i.op);
    OperandsRead(i, names, params, floats, rest);
  }

  // ---- spacing ----

  lemma RegPieceWellFormed(index: nat)
    ensures WellFormed(RegPiece(index)) && WellFormed(Name(Pred(index)))
    ensures WellFormed(Guarded(true, Pred(index))) && WellFormed(Guarded(false, Pred(index)))
  {
    RegisterIsIdent('r', index);
    RegisterIsIdent('p', index);
  }

  lemma NumeralsWellFormed(value: nat)
    ensures WellFormed(Decimal(Numeral(value, 10))) && WellFormed(Hexadecimal(Numeral(value, 16)))
  {
    hide Numeral;
  }

  lemma ImmediateLoose(i: Instruction, floats: FloatText)
    requires Faithful(floats)
    ensures Loose(ImmediatePieces(i, floats)) && ImmediatePieces(i, floats) != []
  {
    hide WellFormed, Numeral, Faithful, IsFinite, FloatPiece;
    NumeralsWellFormed(i.imm);
    NumeralsWellFormed(Magnitude(i.imm));
    MarksWellFormed();
    if IsFinite(i.imm) { FiniteMagnitude(i.imm); }
  }

  lemma MarksWellFormed()
    ensures WellFormed(Mark('-')) && WellFormed(Mark('+')) && WellFormed(Mark('[')) && WellFormed(Mark(']'))
    ensures WellFormed(Mark(',')) && WellFormed(Mark(':')) && WellFormed(Blank) && WellFormed(Line)
  {
  }

  /** The pieces of an operand are well spaced; only a separator may follow them. */
  lemma StepLoose(step: Step, i: Instruction, params: seq<string>, floats: FloatText)
    requires Faithful(floats) && GoodParams(params) && InRange(step, i, params)
    ensures var ps := StepPieces(step, i, params, floats);
            Loose(ps) && ps != [] && (step.Separator? ==> ps[0] == Mark(',') && ps[|ps| - 1] == Blank)
    ensures forall p | p in StepPieces(step, i, params, floats) :: !p.Comment?
  {
    hide WellFormed, Numeral, ImmediatePieces, SpecialName, Faithful;
    RegPieceWellFormed(i.dst);
    RegPieceWellFormed(i.src0);
    RegPieceWellFormed(i.src1);
    NumeralsWellFormed(Magnitude(i.imm));
    MarksWellFormed();
    match step
    case SpecialReg => SpecialPieceWellFormed(i.src0);
    case ParamRef => NameWellFormed(params[i.imm]);
    case Src1RegOrImm => ImmediateLoose(i, floats); ImmediateNoComment(i, floats);
    case Src0RegOrImm => ImmediateLoose(i, floats); ImmediateNoComment(i, floats);
    case _ =>
  }

  lemma ImmediateNoComment(i: Instruction, floats: FloatText)
    requires Faithful(floats)
    ensures forall p | p in ImmediatePieces(i, floats) :: !p.Comment?
  {
    hide Numeral, Faithful, IsFinite, FloatPiece;
    if IsFinite(i.imm) { FiniteMagnitude(i.imm); }
  }

  lemma SpecialPieceWellFormed(index: nat)
    requires index < SPECIAL_REGISTERS
    ensures WellFormed(Prefix(Special, SpecialName(index)))
  {
    SpecialIsName(index);
  }

  lemma NameWellFormed(name: string)
    requires IsIdent(name)
    ensures WellFormed(Name(name))
  {
  }

  /** Two operands never touch. */
  predicate Alternates(steps: seq<Step>) {
    forall k | 0 <= k < |steps| - 1 :: steps[k].Separator? || steps[k + 1].Separator?
  }

  lemma {:induction false} StepsLoose(steps: seq<Step>, i: Instruction, params: seq<string>, floats: FloatText)
    requires Faithful(floats) && GoodParams(params) && Alternates(steps)
    requires forall k | 0 <= k < |steps| :: InRange(steps[k], i, params)
    ensures var ps := StepsPieces(steps, i, params, floats);
            && Loose(ps) && (forall p | p in ps :: !p.Comment?)
            && (steps != [] ==> ps != [] && (steps[0].Separator? ==> ps[0] == Mark(',')))
  {
    hide Faithful, GoodParams, InRange, Loose, StepPieces;
    if steps == [] {
      assert Loose([]) by { NothingLoose(); }
    } else {
      var first, tail := StepPieces(steps[0], i, params, floats), StepsPieces(steps[1..], i, params, floats);
      StepLoose(steps[0], i, params, floats);
      assert Alternates(steps[1..]) by {
        forall k | 0 <= k < |steps[1..]| - 1 ensures steps[1..][k].Separator? || steps[1..][k + 1].Separator? {
          assert steps[k + 1].Separator? || steps[k + 2].Separator?;
        }
      }
      StepsLoose(steps[1..], i, params, floats);
      if |steps| > 1 {
        assert steps[0].Separator? || steps[1].Separator?;
        assert first[|first| - 1] in first;
      }
      LooseAppend(first, tail);
    }
  }

  lemma NothingLoose()
    ensures Loose([])
  {
  }

  lemma StepsAlternate(shape: Shape)
    requires shape != BraShape
    ensures Alternates(StepsOf(shape))
  {
  }

  ghost predicate GoodNames(names: map<u16, string>) {
    forall pc | pc in names :: IsIdent(names[pc])
  }

  lemma LabelIsIdent(pc: u16, names: map<u16, string>)
    requires GoodNames(names)
    ensures IsIdent(LabelFor(pc, names)) && All(NotNewline, LabelFor(pc, names))
  {
    RegisterIsIdent('L', pc);
  }

  lemma BranchLoose(i: Instruction, names: map<u16, string>)
    requires GoodNames(names)
    ensures Loose([Blank, Name(LabelFor(i.Target(), names))] + ReconvergePieces(i, names))
  {
    hide LabelFor, IsIdent;
    LabelIsIdent(i.Target(), names);
    LabelIsIdent(i.Reconvergence(), names);
    MarksWellFormed();
    assert Loose([Blank, Name(LabelFor(i.Target(), names))]);
    assert Loose(ReconvergePieces(i, names));
    LooseAppend([Blank, Name(LabelFor(i.Target(), names))], ReconvergePieces(i, names));
  }

  /** The pieces of an instruction are well spaced. */
  lemma OperandsLoose(i: Instruction, names: map<u16, string>, params: seq<string>, floats: FloatText)
    requires Faithful(floats) && Valid(i) && GoodParams(params) && GoodNames(names) && ParamInRange(i, |params|)
    ensures Loose(OperandPieces(i, names, params, floats))
    ensures var ps := OperandPieces(i, names, params, floats); ps != [] ==> ps[0] == Blank
  {
    hide Faithful, GoodParams, GoodNames, Loose, StepsPieces, ReconvergePieces, LabelFor, StepsOf, ParamInRange, Valid;
    if ShapeOf(i.op) == BraShape {
      BranchLoose(i, names);
    } else {
      var steps := StepsOf(ShapeOf(i.op));
      forall k | 0 <= k < |steps| ensures InRange(steps[k], i, params) {
        StepsInRange(i, params, k);
      }
      StepsAlternate(ShapeOf(i.op));
      StepsLoose(steps, i, params, floats);
      assert Loose([Blank]) by { OneLoose(Blank); }
      LooseAppend([Blank], StepsPieces(steps, i, params, floats));
      NothingLoose();
    }
  }

  lemma OneLoose(p: Piece)
    requires WellFormed(p)
    ensures Loose([p])
  {
  }

  lemma InstructionLoose(i: Instruction, names: map<u16, string>, params: seq<string>, floats: FloatText)
    requires Faithful(floats) && Valid(i) && GoodParams(params) && GoodNames(names) && ParamInRange(i, |params|)
    ensures Loose(InstructionPieces(i, names, params, floats))
  {
    hide Faithful, GoodParams, GoodNames, Loose, OperandPieces, ParamInRange, Valid, Mnemonic;
    var operands := OperandPieces(i, names, params, floats);
    var name := Name(Mnemonic(i.op));
    OperandsLoose(i, names, params, floats);
    MnemonicIsIdent(i.op);
    NameWellFormed(Mnemonic(i.op));
    OneLoose(name);
    LooseAppend([name], operands);
    GuardLoose(i.guard);
    LooseAppend(GuardPieces(i.guard), [name] + operands);
  }

  lemma GuardLoose(guard: Guard)
    ensures Loose(GuardPieces(guard))
    ensures GuardPieces(guard) != [] ==> GuardPieces(guard)[|GuardPieces(guard)| - 1] == Blank
  {
    hide WellFormed, Numeral;
    RegPieceWellFormed(guard.pred);
    MarksWellFormed();
  }
}
