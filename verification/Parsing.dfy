/** The assembler's grammar as functions on the tokens that are left. */
module Parsing {
  import opened Isa
  import opened Numerals
  import opened Lexing
  import opened Mnemonics

  /** Conversions between binary32 bit patterns and text, left to the C++ library. */
  datatype FloatText = FloatText(show: u32 -> string, value: string -> Option<u32>)

  type Tokens = seq<Token>

  function Head(ts: Tokens): Token {
    if ts == [] then Plain(End, "") else ts[0]
  }

  function Next(ts: Tokens): Tokens {
    if ts == [] then [] else ts[1..]
  }

  predicate At(ts: Tokens, kind: TokenKind) { Head(ts).kind == kind }

  predicate AtLineEnd(ts: Tokens) { At(ts, Newline) || At(ts, End) }

  // ---- words of the language ----

  predicate AllDigits(s: string) { forall k | 0 <= k < |s| :: IsDigit(s[k]) }

  predicate AllHexDigits(s: string) { forall k | 0 <= k < |s| :: IsHexDigit(s[k]) }

  /** A numeral without leading zeros after a one-letter prefix, below `count`. */
  function RegisterIndex(text: string, prefix: char, count: u8): (r: Option<u8>)
    ensures r.Some? ==> r.value < count
  {
    if |text| < 2 || text[0] != prefix || !AllDigits(text[1..]) then None
    else
      var value := Value(text[1..], 10);
      if value >= count || (|text| > 2 && text[1] == '0') then None else Some(value)
  }

  function PredicateName(text: string): Option<u8> {
    RegisterIndex(text, 'p', PREDICATE_REGISTERS)
  }

  predicate AcceptsFloat(op: Opcode) {
    match op
    case FAdd | FSub | FMul | FMin | FMax | FNeg | CvtS32F32 | Mov => true
    case SetpEqF32 | SetpNeF32 | SetpLtF32 | SetpLeF32 | SetpGtF32 | SetpGeF32 => true
    case _ => false
  }

  datatype Read<+T> = Read(value: T, rest: Tokens)

  /** An unsigned integer literal that fits in 32 bits. */
  function IntegerLiteral(ts: Tokens): (r: Option<Read<u32>>)
    ensures r.Some? ==> r.value.rest == Next(ts) && At(ts, Integer)
  {
    if !At(ts, Integer) then None
    else
      var text := Head(ts).text;
      var hex := "0x" <= text;
      var digits := if hex then text[2..] else text;
      if digits == "" || !(if hex then AllHexDigits(digits) else AllDigits(digits)) then None
      else
        var value := Value(digits, if hex then 16 else 10);
        if value > 0xFFFF_FFFF then None else Some(Read(value, Next(ts)))
  }

  function GeneralRegister(ts: Tokens): (r: Option<Read<u8>>)
    ensures r.Some? ==> r.value.rest == Next(ts) && At(ts, Identifier)
  {
    if !At(ts, Identifier) then None
    else match RegisterIndex(Head(ts).text, 'r', GENERAL_REGISTERS)
      case None => None
      case Some(index) => Some(Read(index, Next(ts)))
  }

  // ---- operands ----

  datatype Step =
    | DstReg | Src0Reg | Src1Reg | Src1RegOrImm | Src0RegOrImm | DstPred | SpecialReg
    | Address | ParamRef | Separator

  function StepsOf(shape: Shape): seq<Step>
    requires shape != BraShape
  {
    match shape
    case Rrr => [DstReg, Separator, Src0Reg, Separator, Src1RegOrImm]
    case Rr => [DstReg, Separator, Src0RegOrImm]
    case Acc => [DstReg, Separator, Src0Reg, Separator, Src1Reg]
    case Prr => [DstPred, Separator, Src0Reg, Separator, Src1RegOrImm]
    case Sreg => [DstReg, Separator, SpecialReg]
    case NoOperands => []
    case Ld => [DstReg, Separator, Address]
    case St => [Address, Separator, Src1Reg]
    case Ldp => [DstReg, Separator, ParamRef]
  }

  function NegateFloat(bits: u32): u32 {
    if bits >= 0x8000_0000 then bits - 0x8000_0000 else bits + 0x8000_0000
  }

  function NegateWord(value: u32): u32 { (0x1_0000_0000 - value) % 0x1_0000_0000 }

  /** `[-]integer` or, where the opcode takes one, `[-]float`. */
  function Immediate(ts: Tokens, i: Instruction, floats: FloatText): (r: Option<Read<Instruction>>)
    ensures r.Some? ==> |r.value.rest| <= |ts|
  {
    var negative := At(ts, Minus);
    var ts := if negative then Next(ts) else ts;
    if At(ts, Float) then
      if !AcceptsFloat(i.op) then None
      else match floats.value(Head(ts).text)
        case None => None
        case Some(bits) =>
          Some(Read(i.(immFlag := true, imm := if negative then NegateFloat(bits) else bits), Next(ts)))
    else match IntegerLiteral(ts)
      case None => None
      case Some(Read(magnitude, rest)) =>
        if negative && magnitude > 0x8000_0000 then None
        else Some(Read(i.(immFlag := true, imm := if negative then NegateWord(magnitude) else magnitude), rest))
  }

  /** The optional offset of an address. */
  function OffsetPart(ts: Tokens, i: Instruction): (r: Option<Read<Instruction>>)
    ensures r.Some? ==> |r.value.rest| <= |ts|
  {
    if At(ts, Plus) || At(ts, Minus) then
      match IntegerLiteral(Next(ts))
      case None => None
      case Some(Read(offset, rest)) => Some(Read(i.(imm := if At(ts, Minus) then NegateWord(offset) else offset), rest))
    else Some(Read(i, ts))
  }

  /** The rest of an address after its register: an offset, and the closing bracket. */
  function AddressTail(ts: Tokens, i: Instruction): (r: Option<Read<Instruction>>)
    ensures r.Some? ==> |r.value.rest| <= |ts|
  {
    match OffsetPart(ts, i)
    case None => None
    case Some(Read(i1, rest)) => if At(rest, RBracket) then Some(Read(i1, Next(rest))) else None
  }

  /** `[register]`, `[register+offset]` or `[register-offset]`. */
  function AddressOperand(ts: Tokens, i: Instruction): (r: Option<Read<Instruction>>)
    ensures r.Some? ==> |r.value.rest| <= |ts|
  {
    if !At(ts, LBracket) then None
    else match GeneralRegister(Next(ts))
      case None => None
      case Some(Read(base, rest)) => AddressTail(rest, i.(src0 := base, immFlag := true, imm := 0))
  }

  /** The position of the first parameter with the given name. */
  function FindParam(params: seq<string>, name: string, k: nat): (r: Option<nat>)
    requires k <= |params|
    ensures r.Some? ==> r.value < |params| && params[r.value] == name
    ensures r.None? ==> forall j | k <= j < |params| :: params[j] != name
    decreases |params| - k
  {
    if k == |params| then None else if params[k] == name then Some(k) else FindParam(params, name, k + 1)
  }

  /** `[parameter]`, by its position; the ordinal is stored in 32 bits. */
  function ParamOperand(ts: Tokens, i: Instruction, params: seq<string>): (r: Option<Read<Instruction>>)
    ensures r.Some? ==> |r.value.rest| <= |ts|
  {
    if !At(ts, LBracket) || !At(Next(ts), Identifier) then None
    else match FindParam(params, Head(Next(ts)).text, 0)
      case None => None
      case Some(k) =>
        var rest := Next(Next(ts));
        if !At(rest, RBracket) then None
        else Some(Read(i.(immFlag := true, imm := k % 0x1_0000_0000), Next(rest)))
  }

  function RegisterStep(step: Step, ts: Tokens, i: Instruction): (r: Option<Read<Instruction>>)
    ensures r.Some? ==> |r.value.rest| <= |ts|
    requires step.DstReg? || step.Src0Reg? || step.Src1Reg?
  {
    match GeneralRegister(ts)
    case None => None
    case Some(Read(r, rest)) =>
      Some(Read(if step.DstReg? then i.(dst := r) else if step.Src0Reg? then i.(src0 := r) else i.(src1 := r), rest))
  }

  function ParseStep(step: Step, ts: Tokens, i: Instruction, params: seq<string>, floats: FloatText): (r: Option<Read<Instruction>>)
    ensures r.Some? ==> |r.value.rest| <= |ts|
  {
    match step
    case DstReg => RegisterStep(DstReg, ts, i)
    case Src0Reg => RegisterStep(Src0Reg, ts, i)
    case Src1Reg => RegisterStep(Src1Reg, ts, i)
    case Src1RegOrImm => if At(ts, Identifier) then RegisterStep(Src1Reg, ts, i) else Immediate(ts, i, floats)
    case Src0RegOrImm => if At(ts, Identifier) then RegisterStep(Src0Reg, ts, i) else Immediate(ts, i, floats)
    case DstPred =>
      if !At(ts, Identifier) then None
      else (match PredicateName(Head(ts).text)
            case None => None
            case Some(p) => Some(Read(i.(dst := p), Next(ts))))
    case SpecialReg =>
      if !At(ts, Special) then None
      else (match FromSpecialName(Head(ts).text)
            case None => None
            case Some(s) => Some(Read(i.(src0 := s), Next(ts))))
    case Address => AddressOperand(ts, i)
    case ParamRef => ParamOperand(ts, i, params)
    case Separator => if At(ts, Comma) then Some(Read(i, Next(ts))) else None
  }

  function ParseSteps(steps: seq<Step>, ts: Tokens, i: Instruction, params: seq<string>, floats: FloatText): (r: Option<Read<Instruction>>)
    ensures r.Some? ==> |r.value.rest| <= |ts|
  {
    if steps == [] then Some(Read(i, ts))
    else match ParseStep(steps[0], ts, i, params, floats)
      case None => None
      case Some(Read(i1, rest)) => ParseSteps(steps[1..], rest, i1, params, floats)
  }

  // ---- one instruction ----

  datatype Draft = Draft(i: Instruction, target: Option<string>)

  function Bare(op: Opcode, guard: Guard): Instruction { Instruction(op, guard, 0, 0, 0, false, 0) }

  function Operands(ts: Tokens, i: Instruction, params: seq<string>, floats: FloatText): (r: Option<Read<Draft>>)
    ensures r.Some? ==> |r.value.rest| <= |ts|
  {
    if ShapeOf(i.op) == BraShape then
      if !At(ts, Identifier) then None
      else Some(Read(Draft(i.(imm := BranchImm(0, NO_RECONVERGENCE)), Some(Head(ts).text)), Next(ts)))
    else match ParseSteps(StepsOf(ShapeOf(i.op)), ts, i, params, floats)
      case None => None
      case Some(Read(i1, rest)) => Some(Read(Draft(i1, None), rest))
  }

  /** The optional guard in front of a mnemonic. */
  function GuardPart(ts: Tokens): (r: Option<Read<Guard>>)
    ensures r.Some? ==> |r.value.rest| <= |ts|
  {
    if !At(ts, GuardMark) then Some(Read(Guard(false, false, 0), ts))
    else match PredicateName(Head(ts).text)
      case None => None
      case Some(pred) => Some(Read(Guard(true, Head(ts).negate, pred), Next(ts)))
  }

  /** `mnemonic operands` up to the end of its line. */
  function OperationPart(ts: Tokens, guard: Guard, params: seq<string>, floats: FloatText): (r: Option<Read<Draft>>)
    ensures r.Some? ==> |r.value.rest| < |ts|
  {
    if !At(ts, Identifier) then None
    else match FromMnemonic(Head(ts).text)
      case None => None
      case Some(op) =>
        match Operands(Next(ts), Bare(op, guard), params, floats)
        case None => None
        case Some(Read(draft, rest)) => if AtLineEnd(rest) then Some(Read(draft, rest)) else None
  }

  /** `[guard] mnemonic operands` up to the end of its line. */
  function InstructionLine(ts: Tokens, params: seq<string>, floats: FloatText): (r: Option<Read<Draft>>)
    ensures r.Some? ==> |r.value.rest| < |ts|
  {
    match GuardPart(ts)
    case None => None
    case Some(Read(guard, rest)) => OperationPart(rest, guard, params, floats)
  }

  // ---- lines ----

  datatype State = State(entry: string, params: seq<string>, shared: u32, words: seq<u64>,
                         names: map<u16, string>, labels: map<string, u16>, pending: seq<(nat, string)>)

  const EMPTY := State("", [], 0, [], map[], map[], [])

  /** `.entry name`, once and before the first instruction. */
  function EntryDirective(ts: Tokens, st: State): (r: Option<Read<State>>)
    ensures r.Some? ==> |r.value.rest| <= |ts|
  {
    if st.entry != "" || st.words != [] || !At(ts, Identifier) || !AtLineEnd(Next(ts)) then None
    else Some(Read(st.(entry := Head(ts).text), Next(ts)))
  }

  /** `.param name`, with a new name. */
  function ParamDirective(ts: Tokens, st: State): (r: Option<Read<State>>)
    ensures r.Some? ==> |r.value.rest| <= |ts|
  {
    if !At(ts, Identifier) || Head(ts).text in st.params || !AtLineEnd(Next(ts)) then None
    else Some(Read(st.(params := st.params + [Head(ts).text]), Next(ts)))
  }

  /** `.shared bytes`. */
  function SizeDirective(ts: Tokens, st: State): (r: Option<Read<State>>)
    ensures r.Some? ==> |r.value.rest| <= |ts|
  {
    match IntegerLiteral(ts)
    case None => None
    case Some(Read(value, rest)) => if AtLineEnd(rest) then Some(Read(st.(shared := value), rest)) else None
  }

  function DirectiveLine(ts: Tokens, st: State): (r: Option<Read<State>>)
    requires ts != []
    ensures r.Some? ==> |r.value.rest| < |ts|
  {
    var name := Head(ts).text;
    if name == ".entry" then EntryDirective(Next(ts), st)
    else if name == ".param" then ParamDirective(Next(ts), st)
    else if name == ".shared" then SizeDirective(Next(ts), st)
    else None
  }

  /** Gives the next instruction a label; the first label of a PC names it. */
  function AddLabel(st: State, name: string): State {
    var pc := |st.words| % 0x1_0000;
    st.(labels := st.labels[name := pc],
        names := if pc in st.names then st.names else st.names[pc := name])
  }

  function AddInstruction(st: State, draft: Draft): Option<State> {
    match Encode(draft.i)
    case Err(_) => None
    case Ok(word) =>
      Some(st.(words := st.words + [word],
               pending := if draft.target.Some? then st.pending + [(|st.words|, draft.target.value)] else st.pending))
  }

  predicate AtLabel(ts: Tokens) { At(ts, Identifier) && At(Next(ts), Colon) }

  function StatementLine(ts: Tokens, st: State, floats: FloatText): (r: Option<Read<State>>)
    ensures r.Some? ==> |r.value.rest| < |ts|
  {
    if AtLabel(ts) && Head(ts).text in st.labels then None
    else
      var st1 := if AtLabel(ts) then AddLabel(st, Head(ts).text) else st;
      var ts1 := if AtLabel(ts) then Next(Next(ts)) else ts;
      if AtLabel(ts) && At(ts1, Newline) then Some(Read(st1, ts1))
      else match InstructionLine(ts1, st1.params, floats)
        case None => None
        case Some(Read(draft, rest)) =>
          match AddInstruction(st1, draft)
          case None => None
          case Some(st2) => Some(Read(st2, rest))
  }

  function ParseLine(ts: Tokens, st: State, floats: FloatText): (r: Option<Read<State>>)
    requires !At(ts, End)
    ensures r.Some? ==> |r.value.rest| < |ts|
  {
    if At(ts, Newline) then Some(Read(st, Next(ts)))
    else if At(ts, Directive) then DirectiveLine(ts, st)
    else StatementLine(ts, st, floats)
  }

  /** Every line until the end of the tokens. */
  function ParseLines(ts: Tokens, st: State, floats: FloatText): Option<State>
    decreases |ts|
  {
    if At(ts, End) then Some(st)
    else match ParseLine(ts, st, floats)
      case None => None
      case Some(Read(st1, rest)) => ParseLines(rest, st1, floats)
  }
}
