/** Reassembling the printed text of an assembled program gives the program back. */
module ProgramRoundTrip {
  import opened Isa
  import opened Numerals
  import opened Lexing
  import opened Pieces
  import opened Mnemonics
  import opened ControlFlow
  import opened Annotation
  import opened Parsing
  import opened Assembling
  import opened Printing
  import opened OperandRoundTrip
  import opened InstructionRoundTrip

  const NEWLINE := Plain(Newline, "\n")
  const END := Plain(End, "")

  // ---- the pieces of a program ----

  function DirectivePieces(name: string, argument: Piece): seq<Piece> {
    [Prefix(Directive, name), Blank, argument, Line]
  }

  function ParamPieces(params: seq<string>): seq<Piece> {
    if params == [] then [] else DirectivePieces("param", Name(params[0])) + ParamPieces(params[1..])
  }

  function HeaderPieces(p: AsmProgram): seq<Piece> {
    DirectivePieces("entry", Name(p.entry)) + ParamPieces(p.params)
    + (DirectivePieces("shared", Decimal(Numeral(p.shared, 10))) + [Line])
  }

  function LabelPieces(pc: nat, names: map<u16, string>): seq<Piece> {
    var key: u16 := pc % 0x1_0000;
    if key in names then [Name(names[key]), Mark(':'), Line] else []
  }

  ghost function LinePieces(i: Instruction, names: map<u16, string>, params: seq<string>, floats: FloatText): seq<Piece>
    requires Faithful(floats)
  {
    [Blank, Blank, Blank, Blank] + InstructionPieces(i, names, params, floats) + [Line]
  }

  ghost function CodePieces(p: seq<Instruction>, pc: nat, names: map<u16, string>, params: seq<string>, floats: FloatText): seq<Piece>
    requires Faithful(floats) && pc <= |p|
    decreases |p| - pc
  {
    if pc == |p| then []
    else LabelPieces(pc, names) + (LinePieces(p[pc], names, params, floats) + CodePieces(p, pc + 1, names, params, floats))
  }

  // ---- their text ----

  lemma DirectiveRenders(name: string, argument: Piece)
    ensures Render(DirectivePieces(name, argument)) == "." + name + " " + Text(argument) + "\n"
  {
    var first := Prefix(Directive, name);
    DirectiveText(name);
    hide Render, Text;
    Render2(first, Blank);
    Render2(argument, Line);
    RenderAppend([first, Blank], [argument, Line]);
    assert [first, Blank] + [argument, Line] == DirectivePieces(name, argument);
    FourJoined("." + name, " ", Text(argument), "\n");
  }

  lemma DirectiveText(name: string)
    ensures Text(Prefix(Directive, name)) == "." + name && Text(Blank) == " " && Text(Line) == "\n"
  {
  }

  lemma FourJoined(a: string, b: string, c: string, d: string)
    ensures (a + b) + (c + d) == a + b + c + d
  {
  }

  lemma {:induction false} ParamsRender(params: seq<string>)
    ensures Render(ParamPieces(params)) == ParamLines(params)
  {
    hide Render, DirectivePieces;
    if params == [] {
      RenderNothing();
    } else {
      DirectiveRenders("param", Name(params[0]));
      ParamsRender(params[1..]);
      RenderAppend(DirectivePieces("param", Name(params[0])), ParamPieces(params[1..]));
      assert "." + "param" + " " == ".param ";
    }
  }

  lemma HeaderRenders(p: AsmProgram)
    ensures Render(HeaderPieces(p)) == Header(p)
  {
    hide Render, DirectivePieces, ParamPieces, ParamLines, Numeral;
    var entry := DirectivePieces("entry", Name(p.entry));
    var shared := DirectivePieces("shared", Decimal(Numeral(p.shared, 10)));
    DirectiveRenders("entry", Name(p.entry));
    DirectiveRenders("shared", Decimal(Numeral(p.shared, 10)));
    ParamsRender(p.params);
    RenderAppend(entry, ParamPieces(p.params));
    RenderAppend(shared, [Line]);
    RenderAppend(entry + ParamPieces(p.params), shared + [Line]);
    Render1(Line);
    assert "." + "entry" + " " == ".entry ";
    assert "." + "shared" + " " == ".shared ";
    assert ".shared " + Numeral(p.shared, 10) + "\n" + "\n" == ".shared " + Numeral(p.shared, 10) + "\n\n";
  }

  lemma LabelRenders(pc: nat, names: map<u16, string>)
    ensures Render(LabelPieces(pc, names)) == LabelLine(pc, names)
  {
    hide Render;
    var key: u16 := pc % 0x1_0000;
    RenderNothing();
    if key in names {
      Render3(Name(names[key]), Mark(':'), Line);
      assert names[key] + ":" + "\n" == names[key] + ":\n";
    }
  }

  lemma LineRenders(i: Instruction, names: map<u16, string>, params: seq<string>, floats: FloatText)
    requires Faithful(floats)
    ensures Render(LinePieces(i, names, params, floats)) == "    " + Render(InstructionPieces(i, names, params, floats)) + "\n"
  {
    hide Render, InstructionPieces, Faithful;
    var text := InstructionPieces(i, names, params, floats);
    RenderAppend([Blank, Blank, Blank, Blank] + text, [Line]);
    RenderAppend([Blank, Blank, Blank, Blank], text);
    RenderAppend([Blank, Blank], [Blank, Blank]);
    Render2(Blank, Blank);
    Render1(Line);
    assert [Blank, Blank] + [Blank, Blank] == [Blank, Blank, Blank, Blank];
    assert " " + " " + (" " + " ") == "    ";
  }

  ghost predicate Printed(words: seq<u64>, names: map<u16, string>, params: seq<string>) {
    AllDecode(words) && GoodParams(params) && GoodNames(names)
    && forall pc | 0 <= pc < |words| :: OperandsNamed(Instructions(words)[pc], |params|, names)
  }

  /** One instruction with its label, before the text of the rest. */
  lemma OneLineRenders(i: Instruction, pc: nat, names: map<u16, string>, params: seq<string>, floats: FloatText, rest: seq<Piece>)
    requires Faithful(floats)
    ensures Render(LabelPieces(pc, names) + (LinePieces(i, names, params, floats) + rest))
            == LabelLine(pc, names) + ("    " + Render(InstructionPieces(i, names, params, floats)) + "\n" + Render(rest))
  {
    hide Render, Faithful, LabelPieces, LinePieces, InstructionPieces, LabelLine;
    LabelRenders(pc, names);
    LineRenders(i, names, params, floats);
    RenderAppend(LinePieces(i, names, params, floats), rest);
    RenderAppend(LabelPieces(pc, names), LinePieces(i, names, params, floats) + rest);
  }

  lemma {:induction false} CodeRenders(words: seq<u64>, pc: nat, names: map<u16, string>, params: seq<string>, floats: FloatText)
    requires Faithful(floats) && Printed(words, names, params) && pc <= |words|
    ensures CodeLines(words, pc, names, params, floats)
            == Some(Render(CodePieces(Instructions(words), pc, names, params, floats)))
    decreases |words| - pc
  {
    hide Render, Faithful, LabelPieces, LinePieces, FormatInstruction, Decode, InstructionPieces, LabelLine, GoodParams, GoodNames;
    if pc == |words| {
      RenderNothing();
    } else {
      var i := Instructions(words)[pc];
      DecodedValid(words[pc]);
      assert OperandsNamed(i, |params|, names);
      FormatRenders(i, names, params, floats);
      CodeRenders(words, pc + 1, names, params, floats);
      OneLineRenders(i, pc, names, params, floats, CodePieces(Instructions(words), pc + 1, names, params, floats));
    }
  }

  /** In an assembled program every branch target already has a name. */
  lemma {:induction false} TargetsNamed(words: seq<u64>, pc: nat, names: map<u16, string>, params: seq<string>)
    requires Printed(words, names, params) && pc <= |words|
    ensures NameTargets(words, pc, names) == Some(names)
    decreases |words| - pc
  {
    hide Decode, GoodParams, GoodNames;
    if pc < |words| {
      assert OperandsNamed(Instructions(words)[pc], |params|, names);
      TargetsNamed(words, pc + 1, names, params);
    }
  }

  ghost function ProgramPieces(p: AsmProgram, floats: FloatText): seq<Piece>
    requires Faithful(floats) && AllDecode(p.words)
  {
    HeaderPieces(p) + CodePieces(Instructions(p.words), 0, p.names, p.params, floats)
  }

  lemma PrintableIsPrinted(p: AsmProgram)
    requires Printable(p)
    ensures Printed(p.words, p.names, p.params)
  {
    hide Annotated, IsIdent;
  }

  /** The disassembly is the text of its pieces. */
  lemma DisassemblyRenders(p: AsmProgram, floats: FloatText)
    requires Faithful(floats) && Printable(p)
    ensures Disassemble(p, floats) == Some(Render(ProgramPieces(p, floats)))
  {
    hide Render, Faithful, Printable, Printed, CodeLines, CodePieces, Header, HeaderPieces, NameTargets;
    PrintableIsPrinted(p);
    PrintedDecodes(p.words, p.names, p.params);
    TargetsNamed(p.words, 0, p.names, p.params);
    CodeRenders(p.words, 0, p.names, p.params, floats);
    HeaderRenders(p);
    RenderAppend(HeaderPieces(p), CodePieces(Instructions(p.words), 0, p.names, p.params, floats));
  }

  lemma PrintedDecodes(words: seq<u64>, names: map<u16, string>, params: seq<string>)
    requires Printed(words, names, params)
    ensures AllDecode(words) && GoodParams(params) && GoodNames(names)
  {
  }

  // ---- their tokens ----

  lemma DirectiveLoose(name: string, argument: Piece)
    requires name != "" && All(IsIdentChar, name) && WellFormed(argument) && !argument.Comment?
    ensures Loose(DirectivePieces(name, argument))
  {
    hide WellFormed;
    MarksWellFormed();
    PrefixWellFormed(name);
  }

  lemma PrefixWellFormed(name: string)
    requires name != "" && All(IsIdentChar, name)
    ensures WellFormed(Prefix(Directive, name))
  {
  }

  ghost predicate LooseLines(ps: seq<Piece>) {
    Loose(ps) && (ps != [] ==> ps[|ps| - 1].Line?)
  }

  lemma LinesAppend(a: seq<Piece>, b: seq<Piece>)
    requires LooseLines(a) && LooseLines(b)
    ensures LooseLines(a + b)
  {
    hide Loose;
    LooseAppend(a, b);
  }

  lemma {:induction false} ParamsLoose(params: seq<string>)
    requires forall k | 0 <= k < |params| :: IsIdent(params[k])
    ensures LooseLines(ParamPieces(params))
  {
    hide Loose, IsIdent;
    if params == [] {
      NothingLoose();
    } else {
      NameWellFormed(params[0]);
      DirectiveLoose("param", Name(params[0]));
      ParamsLoose(params[1..]);
      LinesAppend(DirectivePieces("param", Name(params[0])), ParamPieces(params[1..]));
    }
  }

  lemma HeaderLoose(p: AsmProgram)
    requires IsIdent(p.entry) && GoodParams(p.params)
    ensures LooseLines(HeaderPieces(p))
  {
    hide Loose, IsIdent, ParamPieces, Numeral;
    var entry := DirectivePieces("entry", Name(p.entry));
    var shared := DirectivePieces("shared", Decimal(Numeral(p.shared, 10)));
    NameWellFormed(p.entry);
    NumeralsWellFormed(p.shared);
    DirectiveLoose("entry", Name(p.entry));
    DirectiveLoose("shared", Decimal(Numeral(p.shared, 10)));
    ParamsLoose(p.params);
    OneLoose(Line);
    LinesAppend(shared, [Line]);
    LinesAppend(entry, ParamPieces(p.params));
    LinesAppend(entry + ParamPieces(p.params), shared + [Line]);
  }

  lemma LabelLoose(pc: nat, names: map<u16, string>)
    requires GoodNames(names)
    ensures LooseLines(LabelPieces(pc, names))
  {
    hide IsIdent, WellFormed;
    var key: u16 := pc % 0x1_0000;
    MarksWellFormed();
    if key in names { NameWellFormed(names[key]); }
  }

  lemma LineLoose(i: Instruction, names: map<u16, string>, params: seq<string>, floats: FloatText)
    requires Faithful(floats) && Valid(i) && GoodParams(params) && GoodNames(names) && ParamInRange(i, |params|)
    ensures LooseLines(LinePieces(i, names, params, floats))
  {
    hide Loose, Faithful, Valid, GoodParams, GoodNames, ParamInRange, InstructionPieces;
    var text := InstructionPieces(i, names, params, floats);
    InstructionLoose(i, names, params, floats);
    BlanksLoose();
    LooseAppend([Blank, Blank, Blank, Blank], text);
    OneLoose(Line);
    LooseAppend([Blank, Blank, Blank, Blank] + text, [Line]);
  }

  lemma BlanksLoose()
    ensures Loose([Blank, Blank, Blank, Blank])
  {
  }

  lemma {:induction false} CodeLoose(words: seq<u64>, pc: nat, names: map<u16, string>, params: seq<string>, floats: FloatText)
    requires Faithful(floats) && Printed(words, names, params) && pc <= |words|
    ensures LooseLines(CodePieces(Instructions(words), pc, names, params, floats))
    decreases |words| - pc
  {
    hide Faithful, LabelPieces, LinePieces, LooseLines, Decode, GoodParams, GoodNames;
    if pc == |words| {
      NothingLines();
    } else {
      var i := Instructions(words)[pc];
      DecodedValid(words[pc]);
      assert OperandsNamed(i, |params|, names);
      LabelLoose(pc, names);
      LineLoose(i, names, params, floats);
      CodeLoose(words, pc + 1, names, params, floats);
      var rest := CodePieces(Instructions(words), pc + 1, names, params, floats);
      LinesAppend(LinePieces(i, names, params, floats), rest);
      LinesAppend(LabelPieces(pc, names), LinePieces(i, names, params, floats) + rest);
    }
  }

  lemma NothingLines()
    ensures LooseLines([])
  {
  }

  /** Tokens of whole lines end with a newline token. */
  lemma LinesEndWithNewline(ps: seq<Piece>)
    requires LooseLines(ps) && ps != []
    ensures AllTokens(ps) != [] && AllTokens(ps)[|AllTokens(ps)| - 1] == NEWLINE
  {
    hide AllTokens, Loose;
    var front := ps[..|ps| - 1];
    assert ps == front + [Line];
    RenderAppend(front, [Line]);
    Tokens1(Line);
  }

  /** The tokenizer returns the tokens of the pieces and the end mark. */
  lemma DisassemblyLexed(p: AsmProgram, floats: FloatText)
    requires Faithful(floats) && Printable(p)
    ensures Lex(Render(ProgramPieces(p, floats))) == Some(AllTokens(ProgramPieces(p, floats)) + [END])
  {
    hide Render, AllTokens, Faithful, Printed, CodePieces, HeaderPieces, LooseLines, Scan, Annotated;
    PrintableIsPrinted(p);
    PrintedDecodes(p.words, p.names, p.params);
    HeaderLoose(p);
    CodeLoose(p.words, 0, p.names, p.params, floats);
    LinesAppend(HeaderPieces(p), CodePieces(Instructions(p.words), 0, p.names, p.params, floats));
    LinesLexed(ProgramPieces(p, floats));
    HeaderNotEmpty(p);
  }

  lemma HeaderNotEmpty(p: AsmProgram)
    ensures HeaderPieces(p) != []
  {
  }

  lemma LinesLexed(ps: seq<Piece>)
    requires LooseLines(ps)
    ensures ps != [] ==> Lex(Render(ps)) == Some(AllTokens(ps) + [END])
  {
    hide Render, AllTokens, Loose;
    LooseSpaced(ps);
    RenderLexed(ps, "");
    assert Render(ps) + "" == Render(ps);
    ScanNothing();
    assert AllTokens(ps) + [] == AllTokens(ps);
    if ps != [] { LinesEndWithNewline(ps); }
  }

  lemma ScanNothing()
    ensures Scan("") == Some([])
  {
  }

  // ---- reading the lines back ----

  lemma DirectiveTokens(name: string, argument: Piece, t: Token)
    requires TokensOf(argument) == [t]
    ensures AllTokens(DirectivePieces(name, argument)) == [Plain(Directive, "." + name), t, NEWLINE]
  {
    hide AllTokens;
    var first := Prefix(Directive, name);
    Tokens2(first, Blank);
    Tokens2(argument, Line);
    RenderAppend([first, Blank], [argument, Line]);
    assert [first, Blank] + [argument, Line] == DirectivePieces(name, argument);
  }

  /** A line that parses to `st1` is followed by the lines after its newline. */
  lemma AfterLine(ts: Tokens, st: State, st1: State, rest: Tokens, floats: FloatText)
    requires !At(ts, End) && ParseLine(ts, st, floats) == Some(Read(st1, [NEWLINE] + rest))
    ensures ParseLines(ts, st, floats) == ParseLines(rest, st1, floats)
  {
    hide DirectiveLine, StatementLine;
    var line := [NEWLINE] + rest;
    One(NEWLINE, rest);
    assert ParseLine(line, st1, floats) == Some(Read(st1, rest));
    assert ParseLines(ts, st, floats) == ParseLines(line, st1, floats);
  }

  lemma EntryReads(name: string, st: State, rest: Tokens, floats: FloatText)
    requires IsIdent(name) && st.entry == "" && st.words == []
    ensures ParseLines(AllTokens(DirectivePieces("entry", Name(name))) + rest, st, floats)
            == ParseLines(rest, st.(entry := name), floats)
  {
    hide AllTokens, ParseLines;
    var t := Plain(Identifier, name);
    DirectiveTokens("entry", Name(name), t);
    var d := Plain(Directive, ".entry");
    assert "." + "entry" == ".entry";
    var ts := [d] + ([t] + ([NEWLINE] + rest));
    assert AllTokens(DirectivePieces("entry", Name(name))) + rest == ts;
    One(d, [t] + ([NEWLINE] + rest));
    One(t, [NEWLINE] + rest);
    One(NEWLINE, rest);
    AfterLine(ts, st, st.(entry := name), rest, floats);
  }

  lemma ParamReadsLine(name: string, st: State, rest: Tokens, floats: FloatText)
    requires name !in st.params
    ensures ParseLines(AllTokens(DirectivePieces("param", Name(name))) + rest, st, floats)
            == ParseLines(rest, st.(params := st.params + [name]), floats)
  {
    hide AllTokens, ParseLines;
    var t := Plain(Identifier, name);
    DirectiveTokens("param", Name(name), t);
    var d := Plain(Directive, ".param");
    assert "." + "param" == ".param";
    var ts := [d] + ([t] + ([NEWLINE] + rest));
    assert AllTokens(DirectivePieces("param", Name(name))) + rest == ts;
    One(d, [t] + ([NEWLINE] + rest));
    One(t, [NEWLINE] + rest);
    One(NEWLINE, rest);
    AfterLine(ts, st, st.(params := st.params + [name]), rest, floats);
  }

  lemma SharedLine(value: u32, st: State, tail: Tokens)
    requires AtLineEnd(tail)
    ensures DirectiveLine([Plain(Directive, ".shared")] + ([Plain(Integer, Numeral(value, 10))] + tail), st)
            == Some(Read(st.(shared := value), tail))
  {
    hide Numeral, IntegerLiteral;
    var t := Plain(Integer, Numeral(value, 10));
    DecimalReads(value, tail);
    One(Plain(Directive, ".shared"), [t] + tail);
  }

  lemma SharedTokens(d: Token, t: Token, rest: Tokens)
    ensures [d, t, NEWLINE] + [NEWLINE] + rest == [d] + ([t] + ([NEWLINE] + ([NEWLINE] + rest)))
  {
  }

  lemma SharedReads(value: u32, st: State, rest: Tokens, floats: FloatText)
    ensures ParseLines(AllTokens(DirectivePieces("shared", Decimal(Numeral(value, 10))) + [Line]) + rest, st, floats)
            == ParseLines(rest, st.(shared := value), floats)
  {
    hide AllTokens, ParseLines, Numeral, DirectiveLine, StatementLine;
    var t := Plain(Integer, Numeral(value, 10));
    var pieces := DirectivePieces("shared", Decimal(Numeral(value, 10)));
    DirectiveTokens("shared", Decimal(Numeral(value, 10)), t);
    RenderAppend(pieces, [Line]);
    Tokens1(Line);
    var d := Plain(Directive, ".shared");
    assert "." + "shared" == ".shared";
    var tail := [NEWLINE] + ([NEWLINE] + rest);
    var ts := [d] + ([t] + tail);
    assert AllTokens(pieces + [Line]) == [d, t, NEWLINE] + [NEWLINE];
    SharedTokens(d, t, rest);
    assert AllTokens(pieces + [Line]) + rest == ts;
    One(d, [t] + tail);
    One(NEWLINE, [NEWLINE] + rest);
    SharedLine(value, st, tail);
    AfterLine(ts, st, st.(shared := value), [NEWLINE] + rest, floats);
    NewlineReads(st.(shared := value), rest, floats);
  }

  lemma NewlineReads(st: State, rest: Tokens, floats: FloatText)
    ensures ParseLines([NEWLINE] + rest, st, floats) == ParseLines(rest, st, floats)
  {
    hide DirectiveLine, StatementLine;
    One(NEWLINE, rest);
    assert ParseLine([NEWLINE] + rest, st, floats) == Some(Read(st, rest));
  }

  lemma {:induction false} ParamsRead(params: seq<string>, k: nat, st: State, rest: Tokens, floats: FloatText)
    requires GoodParams(params) && k <= |params| && st.params == params[..k]
    ensures ParseLines(AllTokens(ParamPieces(params[k..])) + rest, st, floats)
            == ParseLines(rest, st.(params := params), floats)
    decreases |params| - k
  {
    hide AllTokens, ParseLines, DirectivePieces, IsIdent;
    if k == |params| {
      NoTokens();
      assert [] + rest == rest;
      assert params[..k] == params;
    } else {
      var first, tail := DirectivePieces("param", Name(params[k])), ParamPieces(params[k + 1..]);
      assert params[k..][1..] == params[k + 1..];
      assert ParamPieces(params[k..]) == first + tail;
      assert params[k] !in params[..k];
      hide ParamPieces, GoodParams;
      RenderAppend(first, tail);
      assert AllTokens(first) + AllTokens(tail) + rest == AllTokens(first) + (AllTokens(tail) + rest);
      ParamReadsLine(params[k], st, AllTokens(tail) + rest, floats);
      assert params[..k] + [params[k]] == params[..k + 1];
      ParamsRead(params, k + 1, st.(params := params[..k + 1]), rest, floats);
    }
  }

  lemma Regroup(a: Tokens, b: Tokens, c: Tokens, d: Tokens)
    ensures a + b + c + d == a + (b + (c + d))
  {
  }

  lemma HeaderReads(p: AsmProgram, rest: Tokens, floats: FloatText)
    requires IsIdent(p.entry) && GoodParams(p.params)
    ensures ParseLines(AllTokens(HeaderPieces(p)) + rest, EMPTY, floats)
            == ParseLines(rest, EMPTY.(entry := p.entry, params := p.params, shared := p.shared), floats)
  {
    hide AllTokens, ParseLines, DirectivePieces, IsIdent, ParamPieces, Numeral, GoodParams;
    var entry := DirectivePieces("entry", Name(p.entry));
    var shared := DirectivePieces("shared", Decimal(Numeral(p.shared, 10))) + [Line];
    RenderAppend(entry, ParamPieces(p.params));
    RenderAppend(entry + ParamPieces(p.params), shared);
    var ts := AllTokens(shared) + rest;
    Regroup(AllTokens(entry), AllTokens(ParamPieces(p.params)), AllTokens(shared), rest);
    EntryReads(p.entry, EMPTY, AllTokens(ParamPieces(p.params)) + ts, floats);
    assert p.params[0..] == p.params && p.params[..0] == [];
    ParamsRead(p.params, 0, EMPTY.(entry := p.entry), ts, floats);
    SharedReads(p.shared, EMPTY.(entry := p.entry, params := p.params), rest, floats);
  }

  // ---- reading the code back ----

  ghost function NamesBelow(names: map<u16, string>, bound: nat): map<u16, string> {
    map k | k in names && k < bound :: names[k]
  }

  ghost function LabelsBelow(names: map<u16, string>, bound: nat): map<string, u16>
    requires Distinct(names)
  {
    map s | s in NamesBelow(names, bound).Values :: (var k :| k in names && k < bound && names[k] == s; k)
  }

  ghost predicate Distinct(names: map<u16, string>) {
    forall a, b | a in names && b in names && names[a] == names[b] :: a == b
  }

  /** The word of an instruction before its branch target is known. */
  ghost function RawWord(i: Instruction, names: map<u16, string>): u64 { WordOf(DraftOf(i, names).i) }

  ghost function PendingBelow(p: seq<Instruction>, names: map<u16, string>, bound: nat): seq<(nat, string)>
    requires bound <= |p|
  {
    if bound == 0 then []
    else PendingBelow(p, names, bound - 1)
         + (if p[bound - 1].op == Bra then [(bound - 1, LabelFor(p[bound - 1].Target(), names))] else [])
  }

  /** The parser state when the lines of the first `pc` instructions have been read. */
  ghost function StateAt(q: AsmProgram, p: seq<Instruction>, pc: nat): State
    requires pc <= |p| && Distinct(q.names)
  {
    State(q.entry, q.params, q.shared, seq(pc, k requires 0 <= k < pc => RawWord(p[k], q.names)),
          NamesBelow(q.names, pc), LabelsBelow(q.names, pc), PendingBelow(p, q.names, pc))
  }

  /** The state once the label line of `pc`, if there is one, has been read too. */
  ghost function Labelled(q: AsmProgram, p: seq<Instruction>, pc: nat): State
    requires pc < |p| && |p| <= MAX_INSTRUCTIONS && Distinct(q.names)
  {
    StateAt(q, p, pc).(names := NamesBelow(q.names, pc + 1), labels := LabelsBelow(q.names, pc + 1))
  }

  lemma LabelsOf(names: map<u16, string>, bound: nat, k: u16)
    requires Distinct(names) && k in names && k < bound
    ensures names[k] in LabelsBelow(names, bound) && LabelsBelow(names, bound)[names[k]] == k
  {
    assert NamesBelow(names, bound)[k] == names[k];
    assert names[k] in NamesBelow(names, bound).Values;
  }

  lemma LabelsGrow(names: map<u16, string>, pc: u16)
    requires Distinct(names) && pc in names
    ensures names[pc] !in LabelsBelow(names, pc)
    ensures LabelsBelow(names, pc + 1) == LabelsBelow(names, pc)[names[pc] := pc]
    ensures NamesBelow(names, pc + 1) == NamesBelow(names, pc)[pc := names[pc]]
  {
    hide LabelsBelow;
    LabelKeys(names, pc);
    LabelKeys(names, pc + 1);
    assert NamesBelow(names, pc + 1) == NamesBelow(names, pc)[pc := names[pc]];
    forall s ensures s in LabelsBelow(names, pc + 1) <==> s == names[pc] || s in LabelsBelow(names, pc) {}
    assert LabelsBelow(names, pc + 1).Keys == LabelsBelow(names, pc)[names[pc] := pc].Keys;
  }

  lemma LabelsStay(names: map<u16, string>, pc: u16)
    requires Distinct(names) && pc !in names
    ensures LabelsBelow(names, pc + 1) == LabelsBelow(names, pc) && NamesBelow(names, pc + 1) == NamesBelow(names, pc)
  {
    hide LabelsBelow;
    LabelKeys(names, pc);
    LabelKeys(names, pc + 1);
    assert NamesBelow(names, pc + 1) == NamesBelow(names, pc);
    assert LabelsBelow(names, pc + 1).Keys == LabelsBelow(names, pc).Keys;
  }

  lemma LabelKeys(names: map<u16, string>, bound: nat)
    requires Distinct(names)
    ensures forall s :: s in LabelsBelow(names, bound) <==> exists k :: k in names && k < bound && names[k] == s
    ensures forall s | s in LabelsBelow(names, bound) ::
              var k := LabelsBelow(names, bound)[s]; k in names && k < bound && names[k] == s
  {
    forall s ensures s in LabelsBelow(names, bound) <==> exists k :: k in names && k < bound && names[k] == s {
      if k :| k in names && k < bound && names[k] == s { LabelsOf(names, bound, k); }
    }
  }

  lemma LabelStatement(name: string, st: State, rest: Tokens, floats: FloatText)
    requires name !in st.labels
    ensures var ts := [Plain(Identifier, name)] + ([Plain(Colon, ":")] + ([NEWLINE] + rest));
            StatementLine(ts, st, floats) == Some(Read(AddLabel(st, name), [NEWLINE] + rest))
  {
    hide InstructionLine, AddLabel;
    var colon := Plain(Colon, ":");
    One(Plain(Identifier, name), [colon] + ([NEWLINE] + rest));
    One(colon, [NEWLINE] + rest);
    One(NEWLINE, rest);
  }

  /** Reading the label line of an instruction. */
  lemma LabelReads(q: AsmProgram, p: seq<Instruction>, pc: nat, rest: Tokens, floats: FloatText)
    requires pc < |p| <= MAX_INSTRUCTIONS && Distinct(q.names)
    ensures ParseLines(AllTokens(LabelPieces(pc, q.names)) + rest, StateAt(q, p, pc), floats)
            == ParseLines(rest, Labelled(q, p, pc), floats)
  {
    hide AllTokens, ParseLines, LabelsBelow, PendingBelow, RawWord, StatementLine, Distinct;
    var st := StateAt(q, p, pc);
    if pc in q.names {
      LabelsGrow(q.names, pc);
      var name := q.names[pc];
      var ts := [Plain(Identifier, name)] + ([Plain(Colon, ":")] + ([NEWLINE] + rest));
      Tokens3(Name(name), Mark(':'), Line);
      assert AllTokens(LabelPieces(pc, q.names)) + rest == ts;
      LabelStatement(name, st, rest, floats);
      assert AddLabel(st, name) == Labelled(q, p, pc);
      AfterLine(ts, st, Labelled(q, p, pc), rest, floats);
    } else {
      LabelsStay(q.names, pc);
      NoTokens();
      assert [] + rest == rest;
    }
  }

  /** Operands never start with a colon. */
  lemma NoColon(ts: Tokens, i: Instruction, params: seq<string>, floats: FloatText)
    requires At(ts, Colon) && Operands(ts, i, params, floats).Some?
    ensures Operands(ts, i, params, floats).value.rest == ts
  {
    var steps := StepsOf(ShapeOf(i.op));
  }

  lemma NotALabel(i: Instruction, names: map<u16, string>, params: seq<string>, floats: FloatText, rest: Tokens)
    requires Faithful(floats) && Valid(i) && GoodParams(params) && ParamInRange(i, |params|) && AtLineEnd(rest)
    ensures !AtLabel(AllTokens(InstructionPieces(i, names, params, floats)) + rest)
  {
    hide Faithful, GoodParams, AllTokens, Operands, OperandPieces, DraftOf, Mnemonic, Valid, RegisterIndex, ParamInRange;
    var operands := OperandPieces(i, names, params, floats);
    var name := Plain(Identifier, Mnemonic(i.op));
    var tail := AllTokens(operands) + rest;
    RenderAppend(GuardPieces(i.guard), [Name(Mnemonic(i.op))] + operands);
    RenderAppend([Name(Mnemonic(i.op))], operands);
    Tokens1(Name(Mnemonic(i.op)));
    assert AllTokens(InstructionPieces(i, names, params, floats)) + rest == AllTokens(GuardPieces(i.guard)) + ([name] + tail);
    ValidGuard(i);
    if i.guard.present {
      GuardReads(i.guard, [name] + tail);
    } else {
      NoTokens();
      assert [] + ([name] + tail) == [name] + tail;
      One(name, tail);
      OperandsRead(i, names, params, floats, rest);
      if At(tail, Colon) { NoColon(tail, Bare(i.op, i.guard), params, floats); }
    }
  }

  lemma DraftValid(i: Instruction, names: map<u16, string>)
    requires Valid(i)
    ensures Valid(DraftOf(i, names).i)
    ensures Encode(DraftOf(i, names).i) == Ok(RawWord(i, names)) && Decode(RawWord(i, names)) == Ok(DraftOf(i, names).i)
  {
    hide Encode, Decode, Valid;
    if i.op == Bra { BranchImmValid(i, BranchImm(0, NO_RECONVERGENCE)); }
    WordRoundTrip(DraftOf(i, names).i);
  }

  lemma LineTokens(i: Instruction, names: map<u16, string>, params: seq<string>, floats: FloatText)
    requires Faithful(floats)
    ensures AllTokens(LinePieces(i, names, params, floats)) == AllTokens(InstructionPieces(i, names, params, floats)) + [NEWLINE]
  {
    hide AllTokens, InstructionPieces, Faithful;
    var text := InstructionPieces(i, names, params, floats);
    RenderAppend([Blank, Blank, Blank, Blank] + text, [Line]);
    RenderAppend([Blank, Blank, Blank, Blank], text);
    RenderAppend([Blank, Blank], [Blank, Blank]);
    Tokens2(Blank, Blank);
    Tokens1(Line);
    assert [Blank, Blank] + [Blank, Blank] == [Blank, Blank, Blank, Blank];
  }

  /** The state after one more instruction. */
  lemma InstructionAdds(q: AsmProgram, p: seq<Instruction>, pc: nat)
    requires pc < |p| <= MAX_INSTRUCTIONS && Distinct(q.names) && Valid(p[pc])
    ensures AddInstruction(Labelled(q, p, pc), DraftOf(p[pc], q.names)) == Some(StateAt(q, p, pc + 1))
  {
    hide Encode, Decode, Valid, LabelsBelow, NamesBelow, Distinct, LabelFor;
    DraftValid(p[pc], q.names);
    var words := seq(pc, k requires 0 <= k < pc => RawWord(p[k], q.names)) + [RawWord(p[pc], q.names)];
    assert words == seq(pc + 1, k requires 0 <= k < pc + 1 => RawWord(p[k], q.names));
    if p[pc].op != Bra { assert PendingBelow(p, q.names, pc) + [] == PendingBelow(p, q.names, pc); }
  }

  lemma InstructionStatement(i: Instruction, names: map<u16, string>, st: State, st1: State, rest: Tokens, floats: FloatText)
    requires Faithful(floats) && Valid(i) && GoodParams(st.params) && ParamInRange(i, |st.params|) && AtLineEnd(rest)
    requires AddInstruction(st, DraftOf(i, names)) == Some(st1)
    ensures var ts := AllTokens(InstructionPieces(i, names, st.params, floats)) + rest;
            && StatementLine(ts, st, floats) == Some(Read(st1, rest))
            && (At(ts, Identifier) || At(ts, GuardMark))
  {
    hide Faithful, GoodParams, AllTokens, InstructionPieces, AddInstruction, DraftOf, Valid, ParamInRange, AtLabel, AddLabel;
    InstructionReads(i, names, st.params, floats, rest);
    NotALabel(i, names, st.params, floats, rest);
  }

  lemma CodeLineReads(q: AsmProgram, p: seq<Instruction>, pc: nat, rest: Tokens, floats: FloatText)
    requires Faithful(floats) && pc < |p| <= MAX_INSTRUCTIONS && Distinct(q.names)
    requires Valid(p[pc]) && GoodParams(q.params) && ParamInRange(p[pc], |q.params|)
    ensures ParseLines(AllTokens(LinePieces(p[pc], q.names, q.params, floats)) + rest, Labelled(q, p, pc), floats)
            == ParseLines(rest, StateAt(q, p, pc + 1), floats)
  {
    hide Faithful, GoodParams, AllTokens, InstructionPieces, LinePieces, AddInstruction, Valid, ParamInRange, ParseLines,
      LabelsBelow, NamesBelow, PendingBelow, RawWord, StatementLine, Distinct;
    var i := p[pc];
    var text := AllTokens(InstructionPieces(i, q.names, q.params, floats));
    LineTokens(i, q.names, q.params, floats);
    assert AllTokens(LinePieces(i, q.names, q.params, floats)) + rest == text + ([NEWLINE] + rest);
    One(NEWLINE, rest);
    InstructionAdds(q, p, pc);
    InstructionStatement(i, q.names, Labelled(q, p, pc), StateAt(q, p, pc + 1), [NEWLINE] + rest, floats);
    AfterLine(text + ([NEWLINE] + rest), Labelled(q, p, pc), StateAt(q, p, pc + 1), rest, floats);
  }

  /** Reading the lines of one instruction. */
  lemma CodeStep(q: AsmProgram, p: seq<Instruction>, pc: nat, tail: seq<Piece>, rest: Tokens, floats: FloatText)
    requires Faithful(floats) && pc < |p| <= MAX_INSTRUCTIONS && Distinct(q.names)
    requires Valid(p[pc]) && GoodParams(q.params) && ParamInRange(p[pc], |q.params|)
    ensures var lines := LabelPieces(pc, q.names) + (LinePieces(p[pc], q.names, q.params, floats) + tail);
            ParseLines(AllTokens(lines) + rest, StateAt(q, p, pc), floats)
            == ParseLines(AllTokens(tail) + rest, StateAt(q, p, pc + 1), floats)
  {
    hide Faithful, AllTokens, LinePieces, LabelPieces, ParseLines, StateAt, Labelled, Distinct, GoodParams, Valid, ParamInRange;
    var first, line := LabelPieces(pc, q.names), LinePieces(p[pc], q.names, q.params, floats);
    RenderAppend(first, line + tail);
    RenderAppend(line, tail);
    Regroup(AllTokens(first), AllTokens(line), AllTokens(tail), rest);
    assert AllTokens(first) + (AllTokens(line) + AllTokens(tail)) == AllTokens(first) + AllTokens(line) + AllTokens(tail);
    LabelReads(q, p, pc, AllTokens(line) + (AllTokens(tail) + rest), floats);
    CodeLineReads(q, p, pc, AllTokens(tail) + rest, floats);
  }

  /** Reading the lines of the instructions from `pc` on. */
  lemma {:induction false} CodeReads(q: AsmProgram, pc: nat, rest: Tokens, floats: FloatText)
    requires Faithful(floats) && Printed(q.words, q.names, q.params) && Distinct(q.names)
    requires pc <= |q.words| <= MAX_INSTRUCTIONS
    ensures var p := Instructions(q.words);
            ParseLines(AllTokens(CodePieces(p, pc, q.names, q.params, floats)) + rest, StateAt(q, p, pc), floats)
            == ParseLines(rest, StateAt(q, p, |p|), floats)
    decreases |q.words| - pc
  {
    hide Faithful, AllTokens, LinePieces, LabelPieces, ParseLines, StateAt, Distinct, Decode, GoodParams, GoodNames, Valid;
    var p := Instructions(q.words);
    if pc == |p| {
      NoTokens();
      assert [] + rest == rest;
    } else {
      assert OperandsNamed(p[pc], |q.params|, q.names);
      DecodedValid(q.words[pc]);
      CodeStep(q, p, pc, CodePieces(p, pc + 1, q.names, q.params, floats), rest, floats);
      CodeReads(q, pc + 1, rest, floats);
    }
  }

  // ---- the end of assembly ----

  /** Resolution reaches words that no patch changes any more. */
  lemma {:induction false} ResolveReaches(pending: seq<(nat, string)>, labels: map<string, u16>, words: seq<u64>, goal: seq<u64>)
    requires |words| == |goal|
    requires forall k | 0 <= k < |pending| ::
               && pending[k].0 < |words| && pending[k].1 in labels
               && Patch(words[pending[k].0], labels[pending[k].1]) == goal[pending[k].0]
               && Patch(goal[pending[k].0], labels[pending[k].1]) == goal[pending[k].0]
    requires forall pc | 0 <= pc < |words| :: words[pc] == goal[pc] || exists k :: 0 <= k < |pending| && pending[k].0 == pc
    ensures Resolve(pending, labels, words) == Some(goal)
  {
    hide Patch;
    if pending == [] {
      assert words == goal;
    } else {
      var at := pending[0].0;
      var next := words[at := goal[at]];
      forall k | 0 <= k < |pending[1..]|
        ensures pending[1..][k].0 < |next| && pending[1..][k].1 in labels
        ensures Patch(next[pending[1..][k].0], labels[pending[1..][k].1]) == goal[pending[1..][k].0]
        ensures Patch(goal[pending[1..][k].0], labels[pending[1..][k].1]) == goal[pending[1..][k].0]
      {
        assert pending[1..][k] == pending[k + 1];
      }
      forall pc | 0 <= pc < |next| && next[pc] != goal[pc] ensures exists k :: 0 <= k < |pending[1..]| && pending[1..][k].0 == pc {
        var k :| 0 <= k < |pending| && pending[k].0 == pc;
        assert pending[1..][k - 1].0 == pc;
      }
      ResolveReaches(pending[1..], labels, next, goal);
    }
  }

  /** A branch with its target and no reconvergence PC. */
  function Unannotated(i: Instruction): Instruction {
    if i.op == Bra then i.(imm := BranchImm(i.Target(), NO_RECONVERGENCE)) else i
  }

  lemma PatchReaches(i: Instruction, names: map<u16, string>)
    requires Valid(i)
    ensures Valid(Unannotated(i)) && Decode(WordOf(Unannotated(i))) == Ok(Unannotated(i))
    ensures i.op == Bra ==> Patch(RawWord(i, names), i.Target()) == WordOf(Unannotated(i))
    ensures i.op == Bra ==> Patch(WordOf(Unannotated(i)), i.Target()) == WordOf(Unannotated(i))
    ensures i.op != Bra ==> RawWord(i, names) == WordOf(Unannotated(i))
  {
    hide Encode, Decode, Valid;
    DraftValid(i, names);
    if i.op == Bra { BranchImmValid(i, BranchImm(i.Target(), NO_RECONVERGENCE)); }
    WordRoundTrip(Unannotated(i));
  }

  lemma {:induction false} PendingMeans(p: seq<Instruction>, names: map<u16, string>, bound: nat)
    requires bound <= |p|
    ensures forall k | 0 <= k < |PendingBelow(p, names, bound)| ::
              var (pc, name) := PendingBelow(p, names, bound)[k];
              pc < bound && p[pc].op == Bra && name == LabelFor(p[pc].Target(), names)
    ensures forall pc | 0 <= pc < bound && p[pc].op == Bra ::
              exists k :: 0 <= k < |PendingBelow(p, names, bound)| && PendingBelow(p, names, bound)[k].0 == pc
  {
    hide LabelFor;
    if bound > 0 {
      PendingMeans(p, names, bound - 1);
      var shorter, longer := PendingBelow(p, names, bound - 1), PendingBelow(p, names, bound);
      forall pc | 0 <= pc < bound && p[pc].op == Bra ensures exists k :: 0 <= k < |longer| && longer[k].0 == pc {
        if pc == bound - 1 {
          assert longer[|shorter|].0 == pc;
        } else {
          var k :| 0 <= k < |shorter| && shorter[k].0 == pc;
          assert longer[k].0 == pc;
        }
      }
    }
  }

  ghost function Plain0(p: seq<Instruction>): seq<Instruction> {
    seq(|p|, k requires 0 <= k < |p| => Unannotated(p[k]))
  }

  lemma ResolvesToPlain(q: AsmProgram)
    requires Printable(q)
    ensures Distinct(q.names)
    ensures var p := Instructions(q.words);
            var st := StateAt(q, p, |p|);
            Resolve(st.pending, st.labels, st.words) == Some(Words(Plain0(p)))
  {
    hide Encode, Decode, Valid, Patch, RawWord, LabelsBelow, Annotated, IsIdent, Unannotated, WordOf;
    var p := Instructions(q.words);
    var st := StateAt(q, p, |p|);
    var goal := Words(Plain0(p));
    forall pc | 0 <= pc < |p|
      ensures p[pc].op == Bra ==>
                Patch(st.words[pc], p[pc].Target()) == goal[pc] && Patch(goal[pc], p[pc].Target()) == goal[pc]
      ensures p[pc].op != Bra ==> st.words[pc] == goal[pc]
    {
      DecodedValid(q.words[pc]);
      PatchReaches(p[pc], q.names);
    }
    PendingMeans(p, q.names, |p|);
    forall k | 0 <= k < |st.pending|
      ensures st.pending[k].0 < |st.words| && st.pending[k].1 in st.labels
      ensures st.labels[st.pending[k].1] == p[st.pending[k].0].Target()
    {
      var (pc, name) := st.pending[k];
      assert OperandsNamed(p[pc], |q.params|, q.names);
      LabelsOf(q.names, |p|, p[pc].Target());
    }
    ResolveReaches(st.pending, st.labels, st.words, goal);
  }

  /** Annotating the resolved words gives back the annotated program. */
  lemma PlainAnnotates(p: seq<Instruction>)
    requires TargetsInRange(p) && Annotated(p, p)
    ensures TargetsInRange(Plain0(p)) && AnnotationOf(Plain0(p)) == p
  {
    hide IsReconvergence, AnnotationOf;
    var r := Plain0(p);
    forall pc | 0 <= pc < |p| ensures r[pc].op == p[pc].op && r[pc].guard == p[pc].guard
                              ensures p[pc].op == Bra ==> r[pc].Target() == p[pc].Target()
    {
      if p[pc].op == Bra { BranchImmHalves(p[pc].Target(), NO_RECONVERGENCE); }
    }
    assert InstructionGraph(r) == InstructionGraph(p) by {
      assert forall pc | 0 <= pc < |p| :: Successors(r[pc], pc, |p|) == Successors(p[pc], pc, |p|);
    }
    hide InstructionGraph;
    forall pc | 0 <= pc < |p| ensures AnnotatedAt(r, pc, p[pc]) {
      assert AnnotatedAt(p, pc, p[pc]);
      if p[pc].op == Bra {
        var h: u16 :| p[pc] == p[pc].(imm := BranchImm(p[pc].Target(), h))
                      && if p[pc].guard.present then IsReconvergence(p, pc, h) else h == NO_RECONVERGENCE;
        if p[pc].guard.present { ReconvergenceByGraph(p, r, pc, h); }
        assert p[pc] == r[pc].(imm := BranchImm(r[pc].Target(), h));
      }
    }
    AnnotationUnique(r, AnnotationOf(r), p);
  }

  lemma WordsOfInstructions(words: seq<u64>)
    requires AllDecode(words)
    ensures Words(Instructions(words)) == words
  {
    hide Encode, Decode;
    forall pc | 0 <= pc < |words| ensures WordOf(Instructions(words)[pc]) == words[pc] {
      DecodeInvertsEncode(Instructions(words)[pc], words[pc]);
    }
  }

  lemma PlainValid(q: AsmProgram)
    requires Printable(q)
    ensures AllDecode(Words(Plain0(Instructions(q.words)))) && Instructions(Words(Plain0(Instructions(q.words)))) == Plain0(Instructions(q.words))
  {
    hide Encode, Decode, Valid, Annotated, IsIdent, Unannotated, Words;
    var p := Instructions(q.words);
    forall pc | 0 <= pc < |p| ensures Valid(Plain0(p)[pc]) {
      DecodedValid(q.words[pc]);
      PatchReaches(p[pc], q.names);
    }
    WordsRoundTrip(Plain0(p));
  }

  lemma CompletesToItself(q: AsmProgram)
    requires Printable(q)
    ensures Distinct(q.names)
    ensures Complete(StateAt(q, Instructions(q.words), |q.words|))
            == Some(q.(names := NamesBelow(q.names, |q.words|)))
  {
    hide Encode, Decode, Valid, Annotated, Words, Plain0, Resolve, LabelsBelow, NamesBelow, PendingBelow, RawWord, AnnotationOf,
      OperandsNamed, IsIdent, TargetsInRange;
    var p := Instructions(q.words);
    ResolvesToPlain(q);
    PlainValid(q);
    PlainAnnotates(p);
    WordsOfInstructions(q.words);
    EntryNotEmpty(q.entry);
  }

  lemma EntryNotEmpty(s: string)
    requires IsIdent(s)
    ensures s != ""
  {
  }

  /** For every assembled program, disassembling succeeds and assembling the text succeeds with the same
      entry, parameters, shared size and words, and the same label names for its instructions. */
  lemma DisassembleRoundTrip(source: string, floats: FloatText)
    requires Faithful(floats) && Assemble(source, floats).Some?
    ensures var p := Assemble(source, floats).value;
            && Disassemble(p, floats).Some?
            && Assemble(Disassemble(p, floats).value, floats) == Some(p.(names := NamesBelow(p.names, |p.words|)))
  {
    hide Assemble, Disassemble, NamesBelow, Faithful, Printable;
    AssembledPrintable(source, floats);
    PrintableRoundTrip(Assemble(source, floats).value, floats);
  }

  /** After one round trip the program no longer changes at all. */
  lemma SecondRoundTrip(source: string, floats: FloatText)
    requires Faithful(floats) && Assemble(source, floats).Some?
    ensures var p := Assemble(source, floats).value;
            && Disassemble(p, floats).Some?
            && var q := Assemble(Disassemble(p, floats).value, floats);
               q.Some? && Disassemble(q.value, floats).Some?
               && Assemble(Disassemble(q.value, floats).value, floats) == q
  {
    hide Assemble, Disassemble, Faithful;
    var p := Assemble(source, floats).value;
    DisassembleRoundTrip(source, floats);
    DisassembleRoundTrip(Disassemble(p, floats).value, floats);
    assert NamesBelow(NamesBelow(p.names, |p.words|), |p.words|) == NamesBelow(p.names, |p.words|);
  }

  lemma PrintableRoundTrip(p: AsmProgram, floats: FloatText)
    requires Faithful(floats) && Printable(p)
    ensures Disassemble(p, floats).Some?
    ensures Assemble(Disassemble(p, floats).value, floats) == Some(p.(names := NamesBelow(p.names, |p.words|)))
  {
    hide Lex, Disassemble, NamesBelow, Faithful, AllTokens, HeaderPieces, CodePieces, ParseLines, Complete, Render, Annotated,
      StateAt, TargetsInRange, OperandsNamed;
    var q := Instructions(p.words);
    var code := CodePieces(q, 0, p.names, p.params, floats);
    PrintableIsPrinted(p);
    PrintedDecodes(p.words, p.names, p.params);
    DisassemblyRenders(p, floats);
    DisassemblyLexed(p, floats);
    RenderAppend(HeaderPieces(p), code);
    assert AllTokens(HeaderPieces(p)) + AllTokens(code) + [END] == AllTokens(HeaderPieces(p)) + (AllTokens(code) + [END]);
    HeaderReads(p, AllTokens(code) + [END], floats);
    CompletesToItself(p);
    StateAtStart(p, q);
    CodeReads(p, 0, [END], floats);
    EndReads(StateAt(p, q, |q|), floats);
  }

  lemma StateAtStart(q: AsmProgram, p: seq<Instruction>)
    requires Distinct(q.names)
    ensures StateAt(q, p, 0) == EMPTY.(entry := q.entry, params := q.params, shared := q.shared)
  {
    assert NamesBelow(q.names, 0) == map[];
    assert LabelsBelow(q.names, 0) == map[] by { LabelKeys(q.names, 0); }
  }

  lemma EndReads(st: State, floats: FloatText)
    ensures ParseLines([END], st, floats) == Some(st)
  {
  }
}
