/** The assembler and the disassembler as the objects and loops that do the work. */
module Assembler {
  import opened Isa
  import opened Numerals
  import opened Lexing
  import opened Mnemonics
  import opened ControlFlow
  import opened Annotation
  import Grammar = Parsing
  import opened Parsing
  import opened Assembling
  import opened Printing

  class Parser {
    const tokens: seq<Token>
    const floats: FloatText
    var index: nat
    var entry: string
    var params: seq<string>
    var shared: u32
    var words: seq<u64>
    var names: map<u16, string>
    var labels: map<string, u16>
    var pending: seq<(nat, string)>

    /** The token stream ends with its only end mark. */
    ghost predicate Ended() {
      && tokens != [] && tokens[|tokens| - 1].kind == End
      && forall k | 0 <= k < |tokens| - 1 :: tokens[k].kind != End
    }

    ghost predicate Valid()
      reads this
    {
      Ended() && index < |tokens|
    }

    ghost function Rest(): Tokens
      requires Valid()
      reads this
    {
      tokens[index..]
    }

    ghost function Value(): State
      reads this
    {
      State(entry, params, shared, words, names, labels, pending)
    }

    constructor (tokens: seq<Token>, floats: FloatText)
      requires tokens != [] && tokens[|tokens| - 1].kind == End
      requires forall k | 0 <= k < |tokens| - 1 :: tokens[k].kind != End
      ensures Valid() && this.tokens == tokens && this.floats == floats && Value() == EMPTY && Rest() == tokens
    {
      this.tokens, this.floats := tokens, floats;
      index, entry, params, shared, words := 0, "", [], 0, [];
      names, labels, pending := map[], map[], [];
    }

    function Current(): (t: Token)
      requires Valid()
      reads this
      ensures t == Head(Rest())
    {
      tokens[index]
    }

    predicate At(kind: TokenKind)
      requires Valid()
      reads this
    {
      tokens[index].kind == kind
    }

    method Next()
      requires Valid() && !At(End)
      modifies this`index
      ensures Valid() && Rest() == Grammar.Next(old(Rest()))
    {
      index := index + 1;
    }

    /** What a reading method did: it returned what the grammar reads, and moved past it. */
    ghost predicate Reads<T>(r: Option<T>, expected: Option<Read<T>>)
      reads this
    {
      match expected
      case None => r == None
      case Some(Read(value, rest)) => r == Some(value) && Valid() && Rest() == rest
    }

    method ReadInteger() returns (r: Option<u32>)
      requires Valid()
      modifies this`index
      ensures Reads(r, IntegerLiteral(old(Rest())))
    {
      if !At(Integer) { return None; }
      var text := Current().text;
      var hex := "0x" <= text;
      var digits := if hex then text[2..] else text;
      if digits == "" || !(if hex then AllHexDigits(digits) else AllDigits(digits)) { return None; }
      var value := Numerals.Value(digits, if hex then 16 else 10);
      if value > 0xFFFF_FFFF { return None; }
      Next();
      return Some(value);
    }

    method ReadRegister() returns (r: Option<u8>)
      requires Valid()
      modifies this`index
      ensures Reads(r, GeneralRegister(old(Rest())))
    {
      if At(Identifier) {
        var found := RegisterIndex(Current().text, 'r', GENERAL_REGISTERS);
        if found.Some? {
          Next();
          return found;
        }
      }
      return None;
    }

    method ReadRegisterInto(step: Step, i: Instruction) returns (r: Option<Instruction>)
      requires Valid() && (step.DstReg? || step.Src0Reg? || step.Src1Reg?)
      modifies this`index
      ensures Reads(r, RegisterStep(step, old(Rest()), i))
    {
      var found := ReadRegister();
      if found == None { return None; }
      if step.DstReg? { return Some(i.(dst := found.value)); }
      if step.Src0Reg? { return Some(i.(src0 := found.value)); }
      return Some(i.(src1 := found.value));
    }

    method ReadImmediate(i: Instruction) returns (r: Option<Instruction>)
      requires Valid()
      modifies this`index
      ensures Reads(r, Immediate(old(Rest()), i, floats))
    {
      hide IntegerLiteral;
      var negative := false;
      if At(Minus) {
        negative := true;
        Next();
      }
      if At(Float) {
        if !AcceptsFloat(i.op) { return None; }
        var bits := floats.value(Current().text);
        if bits == None { return None; }
        Next();
        return Some(i.(immFlag := true, imm := if negative then NegateFloat(bits.value) else bits.value));
      }
      var magnitude := ReadInteger();
      if magnitude == None { return None; }
      if negative {
        if magnitude.value > 0x8000_0000 { return None; }
        return Some(i.(immFlag := true, imm := NegateWord(magnitude.value)));
      }
      return Some(i.(immFlag := true, imm := magnitude.value));
    }

    method ReadOffset(i: Instruction) returns (r: Option<Instruction>)
      requires Valid()
      modifies this`index
      ensures Reads(r, OffsetPart(old(Rest()), i))
    {
      hide IntegerLiteral;
      if !At(Plus) && !At(Minus) { return Some(i); }
      var negative := At(Minus);
      Next();
      var offset := ReadInteger();
      if offset == None { return None; }
      return Some(i.(imm := if negative then NegateWord(offset.value) else offset.value));
    }

    method ReadAddressTail(i: Instruction) returns (r: Option<Instruction>)
      requires Valid()
      modifies this`index
      ensures Reads(r, AddressTail(old(Rest()), i))
    {
      hide OffsetPart;
      r := ReadOffset(i);
      if r == None { return; }
      if !At(RBracket) { return None; }
      Next();
    }

    method ReadAddress(i: Instruction) returns (r: Option<Instruction>)
      requires Valid()
      modifies this`index
      ensures Reads(r, AddressOperand(old(Rest()), i))
    {
      hide AddressTail, GeneralRegister;
      if !At(LBracket) { return None; }
      Next();
      var base := ReadRegister();
      if base == None { return None; }
      r := ReadAddressTail(i.(src0 := base.value, immFlag := true, imm := 0));
    }

    /** The position of the named parameter, by a scan from the first. */
    method SearchParam(name: string) returns (k: Option<nat>)
      ensures k == FindParam(params, name, 0)
    {
      for j := 0 to |params|
        invariant FindParam(params, name, 0) == FindParam(params, name, j)
      {
        if params[j] == name { return Some(j); }
      }
      return None;
    }

    method ReadParam(i: Instruction) returns (r: Option<Instruction>)
      requires Valid()
      modifies this`index
      ensures Reads(r, ParamOperand(old(Rest()), i, params))
    {
      hide FindParam;
      ghost var ts := Rest();
      if !At(LBracket) { return None; }
      Next();
      assert Rest() == Grammar.Next(ts);
      if !At(Identifier) { return None; }
      var k := SearchParam(Current().text);
      assert k == FindParam(params, Head(Grammar.Next(ts)).text, 0);
      if k == None { return None; }
      Next();
      if !At(RBracket) { return None; }
      Next();
      return Some(i.(immFlag := true, imm := k.value % 0x1_0000_0000));
    }

    method ReadStep(step: Step, i: Instruction) returns (r: Option<Instruction>)
      requires Valid()
      modifies this`index
      ensures Reads(r, ParseStep(step, old(Rest()), i, params, floats))
    {
      hide RegisterStep, Immediate, AddressOperand, ParamOperand, RegisterIndex, FindSpecial;
      match step {
        case DstReg => r := ReadRegisterInto(DstReg, i);
        case Src0Reg => r := ReadRegisterInto(Src0Reg, i);
        case Src1Reg => r := ReadRegisterInto(Src1Reg, i);
        case Src1RegOrImm => if At(Identifier) { r := ReadRegisterInto(Src1Reg, i); } else { r := ReadImmediate(i); }
        case Src0RegOrImm => if At(Identifier) { r := ReadRegisterInto(Src0Reg, i); } else { r := ReadImmediate(i); }
        case DstPred =>
          if !At(Identifier) { return None; }
          var p := PredicateName(Current().text);
          if p == None { return None; }
          Next();
          r := Some(i.(dst := p.value));
        case SpecialReg =>
          if !At(Special) { return None; }
          var s := FromSpecialName(Current().text);
          if s == None { return None; }
          Next();
          r := Some(i.(src0 := s.value));
        case Address => r := ReadAddress(i);
        case ParamRef => r := ReadParam(i);
        case Separator =>
          if !At(Comma) { return None; }
          Next();
          r := Some(i);
      }
    }

    /** The operands of a shape, one after the other. */
    method ReadSequence(steps: seq<Step>, i: Instruction) returns (r: Option<Instruction>)
      requires Valid()
      modifies this`index
      ensures Reads(r, ParseSteps(steps, old(Rest()), i, params, floats))
    {
      hide ParseStep;
      var now := i;
      assert steps[0..] == steps;
      for k := 0 to |steps|
        invariant Valid()
        invariant ParseSteps(steps, old(Rest()), i, params, floats) == ParseSteps(steps[k..], Rest(), now, params, floats)
      {
        ghost var left := steps[k..];
        assert left[0] == steps[k] && left[1..] == steps[k + 1..];
        var next := ReadStep(steps[k], now);
        if next == None { return None; }
        now := next.value;
      }
      return Some(now);
    }

    method ReadOperands(i: Instruction) returns (r: Option<Draft>)
      requires Valid()
      modifies this`index
      ensures Reads(r, Operands(old(Rest()), i, params, floats))
    {
      hide ParseSteps;
      if ShapeOf(i.op) == BraShape {
        if !At(Identifier) { return None; }
        var target := Current().text;
        Next();
        return Some(Draft(i.(imm := BranchImm(0, NO_RECONVERGENCE)), Some(target)));
      }
      var done := ReadSequence(StepsOf(ShapeOf(i.op)), i);
      if done == None { return None; }
      return Some(Draft(done.value, None));
    }

    method ReadGuard() returns (r: Option<Guard>)
      requires Valid()
      modifies this`index
      ensures Reads(r, GuardPart(old(Rest())))
    {
      hide RegisterIndex;
      if !At(GuardMark) { return Some(Guard(false, false, 0)); }
      var pred := PredicateName(Current().text);
      if pred == None { return None; }
      var negate := Current().negate;
      Next();
      return Some(Guard(true, negate, pred.value));
    }

    method ReadOperation(guard: Guard) returns (r: Option<Draft>)
      requires Valid()
      modifies this`index
      ensures Reads(r, OperationPart(old(Rest()), guard, params, floats))
    {
      hide Operands, FindMnemonic;
      if !At(Identifier) { return None; }
      var op := FromMnemonic(Current().text);
      if op == None { return None; }
      Next();
      r := ReadOperands(Bare(op.value, guard));
      if r.Some? && !At(Newline) && !At(End) { return None; }
    }

    method ReadInstruction() returns (r: Option<Draft>)
      requires Valid()
      modifies this`index
      ensures Reads(r, InstructionLine(old(Rest()), params, floats))
    {
      hide GuardPart, OperationPart;
      var guard := ReadGuard();
      if guard == None { return None; }
      r := ReadOperation(guard.value);
    }

    /** A line changed the parser as the grammar says. */
    ghost predicate Did(ok: bool, expected: Option<Read<State>>)
      reads this
    {
      match expected
      case None => !ok
      case Some(Read(st, rest)) => ok && Valid() && Rest() == rest && Value() == st
    }

    method ReadEntry() returns (ok: bool)
      requires Valid()
      modifies this
      ensures Did(ok, EntryDirective(old(Rest()), old(Value())))
    {
      if entry != "" || words != [] || !At(Identifier) { return false; }
      entry := Current().text;
      Next();
      return At(Newline) || At(End);
    }

    method ReadParamName() returns (ok: bool)
      requires Valid()
      modifies this
      ensures Did(ok, ParamDirective(old(Rest()), old(Value())))
    {
      if !At(Identifier) || Current().text in params { return false; }
      params := params + [Current().text];
      Next();
      return At(Newline) || At(End);
    }

    method ReadShared() returns (ok: bool)
      requires Valid()
      modifies this
      ensures Did(ok, SizeDirective(old(Rest()), old(Value())))
    {
      hide IntegerLiteral;
      var value := ReadInteger();
      if value == None { return false; }
      shared := value.value;
      return At(Newline) || At(End);
    }

    method ReadDirective() returns (ok: bool)
      requires Valid() && At(Directive)
      modifies this
      ensures Did(ok, DirectiveLine(old(Rest()), old(Value())))
    {
      hide EntryDirective, ParamDirective, SizeDirective;
      var name := Current().text;
      Next();
      if name == ".entry" {
        ok := ReadEntry();
      } else if name == ".param" {
        ok := ReadParamName();
      } else if name == ".shared" {
        ok := ReadShared();
      } else {
        ok := false;
      }
    }

    /** Gives the next instruction the label in front of it. */
    method ReadLabel() returns (ok: bool)
      requires Valid() && AtLabel(Rest())
      modifies this
      ensures ok <==> Head(old(Rest())).text !in old(labels)
      ensures ok ==> Valid() && Rest() == Grammar.Next(Grammar.Next(old(Rest())))
                     && Value() == AddLabel(old(Value()), Head(old(Rest())).text)
    {
      var name := Current().text;
      if name in labels { return false; }
      var pc: u16 := |words| % 0x1_0000;
      labels := labels[name := pc];
      if pc !in names {
        names := names[pc := name];
      }
      Next();
      Next();
      return true;
    }

    /** Appends an instruction; a branch waits for its target. */
    method Append(draft: Draft) returns (ok: bool)
      requires Valid()
      modifies this`words, this`pending
      ensures match AddInstruction(old(Value()), draft) case None => !ok case Some(st) => ok && Value() == st
    {
      hide Encode;
      match Encode(draft.i) {
        case Err(_) => return false;
        case Ok(word) =>
          if draft.target.Some? {
            pending := pending + [(|words|, draft.target.value)];
          }
          words := words + [word];
          return true;
      }
    }

    /** A label: an identifier with a colon behind it. */
    predicate LabelAhead()
      requires Valid()
      reads this
      ensures LabelAhead() <==> AtLabel(Rest())
    {
      ghost var next := Grammar.Next(Rest());
      assert next == tokens[index + 1..];
      At(Identifier) && index + 1 < |tokens| && tokens[index + 1].kind == Colon
    }

    method ReadStatement() returns (ok: bool)
      requires Valid() && !At(End)
      modifies this
      ensures Did(ok, StatementLine(old(Rest()), old(Value()), floats))
    {
      hide InstructionLine, AddLabel, AddInstruction;
      if LabelAhead() {
        var labelled := ReadLabel();
        if !labelled { return false; }
        if At(Newline) { return true; }
      }
      var draft := ReadInstruction();
      if draft == None { return false; }
      ok := Append(draft.value);
    }

    method ReadLine() returns (ok: bool)
      requires Valid() && !At(End)
      modifies this
      ensures Did(ok, ParseLine(old(Rest()), old(Value()), floats))
    {
      hide DirectiveLine, StatementLine;
      if At(Newline) {
        Next();
        return true;
      }
      if At(Directive) {
        ok := ReadDirective();
      } else {
        ok := ReadStatement();
      }
    }

    method ReadLines() returns (ok: bool)
      requires Valid()
      modifies this
      ensures match ParseLines(old(Rest()), old(Value()), floats) case None => !ok case Some(st) => ok && Value() == st
    {
      hide ParseLine;
      while !At(End)
        invariant Valid() && ParseLines(Rest(), Value(), floats) == ParseLines(old(Rest()), old(Value()), floats)
        decreases |tokens| - index
      {
        ghost var left := |Rest()|;
        ok := ReadLine();
        if !ok { return false; }
        assert |Rest()| < left;
      }
      return true;
    }

    /** Patches every branch with the PC of its label. */
    method ResolveBranches() returns (ok: bool)
      modifies this`words
      ensures match Resolve(pending, labels, old(words)) case None => !ok case Some(w) => ok && words == w
    {
      hide Patch;
      assert pending[0..] == pending;
      for k := 0 to |pending|
        invariant Resolve(pending[k..], labels, words) == Resolve(pending, labels, old(words))
      {
        ghost var left := pending[k..];
        assert left[0] == pending[k] && left[1..] == pending[k + 1..];
        var (pc, name) := pending[k];
        if name !in labels || pc >= |words| { return false; }
        words := words[pc := Patch(words[pc], labels[name])];
      }
      return true;
    }

    /** Decodes all words, writes the reconvergence halves, and encodes them again. */
    method Annotate() returns (ok: bool)
      modifies this`words
      ensures match AnnotatedWords(old(words)) case None => !ok case Some(w) => ok && words == w
    {
      hide Decode, Encode, AnnotationOf, TargetsInRange, WordOf;
      var program: seq<Instruction> := [];
      for pc := 0 to |words|
        invariant |program| == pc && forall k | 0 <= k < pc :: Decode(words[k]) == Ok(program[k])
      {
        match Decode(words[pc]) {
          case Err(_) => return false;
          case Ok(i) => program := program + [i];
        }
      }
      assert program == Instructions(words);
      var decoded := new Instruction[|program|](k requires 0 <= k < |program| => program[k]);
      assert decoded[..] == program;
      var annotated := AnnotateReconvergence(decoded);
      if annotated.Err? { return false; }
      AnnotationUnique(program, decoded[..], AnnotationOf(program));
      var encoded: seq<u64> := [];
      for pc := 0 to decoded.Length
        invariant decoded[..] == AnnotationOf(program) && encoded == Words(decoded[..])[..pc]
      {
        encoded := encoded + [WordOf(decoded[pc])];
      }
      words := encoded;
      return true;
    }

    /** The checks and passes after the last line. */
    method Conclude() returns (r: Option<AsmProgram>)
      modifies this`words
      ensures r == Complete(old(Value()))
    {
      hide Resolve, AnnotatedWords, Complete;
      CompleteInParts(Value());
      if entry == "" || |words| > MAX_INSTRUCTIONS { return None; }
      var resolved := ResolveBranches();
      if !resolved { return None; }
      var annotated := Annotate();
      if !annotated { return None; }
      return Some(AsmProgram(entry, params, shared, words, names));
    }

    method Parse() returns (r: Option<AsmProgram>)
      requires Valid() && Value() == EMPTY && Rest() == tokens
      modifies this
      ensures r == match ParseLines(tokens, EMPTY, floats) case None => None case Some(st) => Complete(st)
    {
      hide ParseLines, Complete;
      var parsed := ReadLines();
      if !parsed { return None; }
      r := Conclude();
    }
  }

  /** What the last pass makes of the words. */
  ghost function AnnotatedWords(words: seq<u64>): Option<seq<u64>> {
    if !AllDecode(words) || !TargetsInRange(Instructions(words)) then None
    else Some(Words(AnnotationOf(Instructions(words))))
  }

  lemma CompleteInParts(st: State)
    ensures Complete(st) ==
            if st.entry == "" || |st.words| > MAX_INSTRUCTIONS then None
            else match Resolve(st.pending, st.labels, st.words)
              case None => None
              case Some(words) =>
                match AnnotatedWords(words)
                case None => None
                case Some(annotated) => Some(AsmProgram(st.entry, st.params, st.shared, annotated, st.names))
  {
    hide Resolve, Words, AnnotationOf, TargetsInRange;
  }

  /** The end mark is the only one. */
  lemma {:induction false} ScanHasNoEnd(s: string)
    ensures Scan(s).Some? ==> forall k | 0 <= k < |Scan(s).value| :: Scan(s).value[k].kind != End
    decreases |s|
  {
    hide NumberToken, Prefixed, GuardToken, Run;
    if s == [] {
    } else if s[0] == '\n' || IsBlank(s[0]) {
      ScanHasNoEnd(s[1..]);
    } else if StartsComment(s) {
      CommentLength(s);
      ScanHasNoEnd(s[Run(NotNewline, s)..]);
    } else if NextToken(s).Some? {
      TokenIsNotEnd(s);
      ScanHasNoEnd(s[NextToken(s).value.length..]);
    }
  }

  lemma TokenIsNotEnd(s: string)
    requires s != [] && NextToken(s).Some?
    ensures NextToken(s).value.token.kind != End
  {
    hide Run, Mantissa, Exponent;
  }

  /** `assemble`. */
  method AssembleText(source: string, floats: FloatText) returns (r: Option<AsmProgram>)
    ensures r == Assemble(source, floats)
  {
    hide Scan, ParseLines, Complete;
    var lexer := new Lexer(source);
    var tokens := lexer.Tokenize();
    if tokens == None { return None; }
    ScanHasNoEnd(source);
    var parser := new Parser(tokens.value, floats);
    r := parser.Parse();
  }

  // ---- the disassembler's loops ----

  /** Names every branch target; fails at a word that does not decode. */
  method LabelTargets(p: AsmProgram) returns (r: Option<map<u16, string>>)
    ensures r == NameTargets(p.words, 0, p.names)
  {
    hide Decode, Numeral;
    var names: map<u16, string> := p.names;
    for pc := 0 to |p.words|
      invariant NameTargets(p.words, 0, p.names) == NameTargets(p.words, pc, names)
    {
      match Decode(p.words[pc]) {
        case Err(_) => return None;
        case Ok(i) =>
          if i.op == Bra && i.Target() !in names {
            names := names[i.Target() := "L" + Numeral(i.Target(), 10)];
          }
      }
    }
    return Some(names);
  }

  /** `out` followed by a text that may not exist. */
  ghost function After(out: string, rest: Option<string>): Option<string> {
    match rest case None => None case Some(text) => Some(out + text)
  }

  method PrintCode(p: AsmProgram, names: map<u16, string>, floats: FloatText) returns (r: Option<string>)
    ensures r == CodeLines(p.words, 0, names, p.params, floats)
  {
    hide Decode, FormatInstruction;
    var out := "";
    AfterNothing(CodeLines(p.words, 0, names, p.params, floats));
    for pc := 0 to |p.words|
      invariant CodeLines(p.words, 0, names, p.params, floats) == After(out, CodeLines(p.words, pc, names, p.params, floats))
    {
      ghost var before := out;
      var key: u16 := pc % 0x1_0000;
      if key in names {
        out := out + (names[key] + ":\n");
      }
      match Decode(p.words[pc]) {
        case Err(_) => return None;
        case Ok(i) =>
          var text := FormatInstruction(i, names, p.params, floats);
          if text == None { return None; }
          AfterMore(before, LabelLine(pc, names), "    " + text.value + "\n", CodeLines(p.words, pc + 1, names, p.params, floats));
          out := out + ("    " + text.value + "\n");
      }
    }
    assert out + "" == out;
    return Some(out);
  }

  lemma AfterNothing(rest: Option<string>)
    ensures After("", rest) == rest
  {
    if rest.Some? { assert "" + rest.value == rest.value; }
  }

  lemma AfterMore(out: string, first: string, line: string, rest: Option<string>)
    ensures rest.Some? ==> After(out, Some(first + (line + rest.value))) == After(out + first + line, rest)
    ensures first == "" ==> out + first == out
  {
    if rest.Some? { assert out + (first + (line + rest.value)) == out + first + line + rest.value; }
  }

  method PrintParams(params: seq<string>) returns (out: string)
    ensures out == ParamLines(params)
  {
    out := "";
    assert params[0..] == params;
    for k := 0 to |params|
      invariant out + ParamLines(params[k..]) == ParamLines(params)
    {
      ghost var left := params[k..];
      assert left[0] == params[k] && left[1..] == params[k + 1..];
      ghost var line := ".param " + params[k] + "\n";
      assert out + (line + ParamLines(params[k + 1..])) == out + line + ParamLines(params[k + 1..]);
      out := out + (".param " + params[k] + "\n");
    }
    assert out + "" == out;
  }

  /** `disassemble`. */
  method DisassembleProgram(p: AsmProgram, floats: FloatText) returns (r: Option<string>)
    ensures r == Disassemble(p, floats)
  {
    hide NameTargets, CodeLines, Numeral;
    var params := PrintParams(p.params);
    var header := ".entry " + p.entry + "\n" + params + (".shared " + Numeral(p.shared, 10) + "\n\n");
    var names := LabelTargets(p);
    if names == None { return None; }
    var code := PrintCode(p, names.value, floats);
    if code == None { return None; }
    return Some(header + code.value);
  }
}
