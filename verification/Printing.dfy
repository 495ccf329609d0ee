/** The disassembler: the text it prints, and the same text as pieces. */
module Printing {
  import opened Isa
  import opened Numerals
  import opened Lexing
  import opened Pieces
  import opened Mnemonics
  import opened Parsing
  import opened Assembling

  function Reg(index: nat): string { "r" + Numeral(index, 10) }

  function Pred(index: nat): string { "p" + Numeral(index, 10) }

  predicate IsNegative(bits: u32) { bits >= 0x8000_0000 }

  function SignedDecimal(bits: u32): string {
    if IsNegative(bits) then "-" + Numeral(0x1_0000_0000 - bits, 10) else Numeral(bits, 10)
  }

  function Hex(bits: u32): string { "0x" + Numeral(bits, 16) }

  /** Opcodes whose immediate is printed as a float literal when it is finite. */
  predicate PrintsFloat(op: Opcode) { AcceptsFloat(op) && op != Mov }

  /** A binary32 pattern that is neither infinite nor a NaN. */
  predicate IsFinite(bits: u32) { bits / 0x80_0000 % 0x100 != 0xFF }

  function WithPoint(text: string): string {
    if '.' in text || 'e' in text then text else text + ".0"
  }

  function ImmediateText(i: Instruction, floats: FloatText): string {
    if PrintsFloat(i.op) then
      if IsFinite(i.imm) then WithPoint(floats.show(i.imm)) else Hex(i.imm)
    else if i.op == Mov then Hex(i.imm)
    else SignedDecimal(i.imm)
  }

  function AddressText(i: Instruction): string {
    if i.imm == 0 then "[" + Reg(i.src0) + "]"
    else if IsNegative(i.imm) then "[" + Reg(i.src0) + "-" + Numeral(0x1_0000_0000 - i.imm, 10) + "]"
    else "[" + Reg(i.src0) + "+" + Numeral(i.imm, 10) + "]"
  }

  function LabelFor(pc: u16, names: map<u16, string>): string {
    if pc in names then names[pc] else "L" + Numeral(pc, 10)
  }

  function LastText(i: Instruction, floats: FloatText): string {
    if i.immFlag then ImmediateText(i, floats) else Reg(i.src1)
  }

  function GuardText(guard: Guard): string {
    if guard.present then (if guard.negate then "@!" else "@") + Pred(guard.pred) + " " else ""
  }

  function BranchText(i: Instruction, names: map<u16, string>): string {
    " " + LabelFor(i.Target(), names)
    + (if i.Reconvergence() != NO_RECONVERGENCE then "    // reconverge " + LabelFor(i.Reconvergence(), names) else "")
  }

  /** The operands; a special register or a parameter out of range cannot be printed. */
  function OperandsText(i: Instruction, names: map<u16, string>, params: seq<string>, floats: FloatText): Option<string> {
    match ShapeOf(i.op)
    case Rrr => Some(" " + Reg(i.dst) + ", " + Reg(i.src0) + ", " + LastText(i, floats))
    case Prr => Some(" " + Pred(i.dst) + ", " + Reg(i.src0) + ", " + LastText(i, floats))
    case Rr => Some(" " + Reg(i.dst) + ", " + (if i.immFlag then ImmediateText(i, floats) else Reg(i.src0)))
    case Acc => Some(" " + Reg(i.dst) + ", " + Reg(i.src0) + ", " + Reg(i.src1))
    case Sreg =>
      if i.src0 >= SPECIAL_REGISTERS then None else Some(" " + Reg(i.dst) + ", " + ("%" + SpecialName(i.src0)))
    case BraShape => Some(BranchText(i, names))
    case NoOperands => Some("")
    case Ld => Some(" " + Reg(i.dst) + ", " + AddressText(i))
    case St => Some(" " + AddressText(i) + ", " + Reg(i.src1))
    case Ldp => if i.imm >= |params| then None else Some(" " + Reg(i.dst) + ", [" + params[i.imm] + "]")
  }

  function FormatInstruction(i: Instruction, names: map<u16, string>, params: seq<string>, floats: FloatText): Option<string> {
    match OperandsText(i, names, params, floats)
    case None => None
    case Some(operands) => Some(GuardText(i.guard) + Mnemonic(i.op) + operands)
  }

  // ---- the whole program ----

  function ParamLines(params: seq<string>): string {
    if params == [] then "" else ".param " + params[0] + "\n" + ParamLines(params[1..])
  }

  /** Names for the branch targets among the words from `pc` on that have none; an undecodable word stops. */
  function NameTargets(words: seq<u64>, pc: nat, names: map<u16, string>): Option<map<u16, string>>
    requires pc <= |words|
    decreases |words| - pc
  {
    if pc == |words| then Some(names)
    else match Decode(words[pc])
      case Err(_) => None
      case Ok(i) =>
        NameTargets(words, pc + 1,
                    if i.op == Bra && i.Target() !in names then names[i.Target() := "L" + Numeral(i.Target(), 10)] else names)
  }

  function LabelLine(pc: nat, names: map<u16, string>): string {
    var key: u16 := pc % 0x1_0000;
    if key in names then names[key] + ":\n" else ""
  }

  /** The lines of the instructions from `pc` on. */
  function CodeLines(words: seq<u64>, pc: nat, names: map<u16, string>, params: seq<string>, floats: FloatText): Option<string>
    requires pc <= |words|
    decreases |words| - pc
  {
    if pc == |words| then Some("")
    else match Decode(words[pc])
      case Err(_) => None
      case Ok(i) =>
        match FormatInstruction(i, names, params, floats)
        case None => None
        case Some(text) =>
          match CodeLines(words, pc + 1, names, params, floats)
          case None => None
          case Some(rest) => Some(LabelLine(pc, names) + ("    " + text + "\n" + rest))
  }

  function Header(p: AsmProgram): string {
    ".entry " + p.entry + "\n" + ParamLines(p.params) + (".shared " + Numeral(p.shared, 10) + "\n\n")
  }

  function Disassemble(p: AsmProgram, floats: FloatText): Option<string> {
    match NameTargets(p.words, 0, p.names)
    case None => None
    case Some(names) =>
      match CodeLines(p.words, 0, names, p.params, floats)
      case None => None
      case Some(code) => Some(Header(p) + code)
  }

  // ---- the same text as pieces ----

  /** What `std::to_chars` and `std::from_chars` are assumed to do with a finite binary32 value: a minus
      sign and a decimal magnitude, which reads back to the same bits. */
  ghost predicate Faithful(floats: FloatText) {
    forall m: u32 | m < 0x8000_0000 && IsFinite(m) ::
      && HasShape(floats.show(m))
      && floats.value(WithPoint(floats.show(m))) == Some(m)
      && floats.show(m + 0x8000_0000) == "-" + floats.show(m)
  }

  ghost predicate IsShape(s: string, p: Piece) {
    p.FloatLiteral? && IsDigits(p.whole) && IsFraction(p.fraction) && IsExponent(p.exponent) && s == Text(p)
  }

  ghost predicate HasShape(s: string) {
    exists p :: IsShape(s, p)
  }

  /** The literal printed for a finite magnitude. */
  ghost function FloatPiece(floats: FloatText, m: u32): (p: Piece)
    requires Faithful(floats) && m < 0x8000_0000 && IsFinite(m)
    ensures WellFormed(p) && Text(p) == WithPoint(floats.show(m)) && Sticks(p)
    ensures floats.value(Text(p)) == Some(m) && TokensOf(p) == [Plain(Float, Text(p))]
  {
    assert HasShape(floats.show(m));
    var p :| IsShape(floats.show(m), p);
    PointShape(floats.show(m), p);
    if p.fraction == "" && p.exponent == "" then FloatLiteral(p.whole, ".0", "") else p
  }

  /** A point is missing exactly when there is neither a fraction nor an exponent. */
  lemma PointShape(s: string, p: Piece)
    requires IsShape(s, p)
    ensures '.' in s || 'e' in s <==> p.fraction + p.exponent != ""
    ensures p.fraction + p.exponent == "" ==> s == p.whole && WithPoint(s) == p.whole + ".0" + ""
  {
    if p.fraction != "" {
      assert s[|p.whole|] == '.';
    } else if p.exponent != "" {
      assert s[|p.whole|] == 'e';
    } else {
      assert s == p.whole;
      assert p.whole + ".0" + "" == p.whole + ".0";
    }
  }

  function RegPiece(index: nat): Piece { Name(Reg(index)) }

  function MinusPieces(negative: bool): seq<Piece> { if negative then [Mark('-')] else [] }

  function Magnitude(bits: u32): u32 { if IsNegative(bits) then 0x1_0000_0000 - bits else bits }

  ghost function ImmediatePieces(i: Instruction, floats: FloatText): seq<Piece>
    requires Faithful(floats)
  {
    if PrintsFloat(i.op) && IsFinite(i.imm) then
      FiniteMagnitude(i.imm);
      MinusPieces(IsNegative(i.imm)) + [FloatPiece(floats, i.imm % 0x8000_0000)]
    else if PrintsFloat(i.op) || i.op == Mov then [Hexadecimal(Numeral(i.imm, 16))]
    else MinusPieces(IsNegative(i.imm)) + [Decimal(Numeral(Magnitude(i.imm), 10))]
  }

  lemma FiniteMagnitude(bits: u32)
    ensures IsFinite(bits % 0x8000_0000) <==> IsFinite(bits)
  {
    if IsNegative(bits) {
      var m := bits - 0x8000_0000;
      var q, r := m / 0x80_0000, m % 0x80_0000;
      Quotient(bits, 0x80_0000, q + 0x100, r);
    }
  }

  function AddressPieces(i: Instruction): seq<Piece> {
    [Mark('['), RegPiece(i.src0)]
    + (if i.imm == 0 then [] else [Mark(if IsNegative(i.imm) then '-' else '+'), Decimal(Numeral(Magnitude(i.imm), 10))])
    + [Mark(']')]
  }

  ghost function StepPieces(step: Step, i: Instruction, params: seq<string>, floats: FloatText): seq<Piece>
    requires Faithful(floats)
  {
    match step
    case DstReg => [RegPiece(i.dst)]
    case Src0Reg => [RegPiece(i.src0)]
    case Src1Reg => [RegPiece(i.src1)]
    case Src1RegOrImm => if i.immFlag then ImmediatePieces(i, floats) else [RegPiece(i.src1)]
    case Src0RegOrImm => if i.immFlag then ImmediatePieces(i, floats) else [RegPiece(i.src0)]
    case DstPred => [Name(Pred(i.dst))]
    case SpecialReg => if i.src0 < SPECIAL_REGISTERS then [Prefix(Special, SpecialName(i.src0))] else []
    case Address => AddressPieces(i)
    case ParamRef => if i.imm < |params| then [Mark('['), Name(params[i.imm]), Mark(']')] else []
    case Separator => [Mark(','), Blank]
  }

  ghost function StepsPieces(steps: seq<Step>, i: Instruction, params: seq<string>, floats: FloatText): seq<Piece>
    requires Faithful(floats)
  {
    if steps == [] then [] else StepPieces(steps[0], i, params, floats) + StepsPieces(steps[1..], i, params, floats)
  }
}
