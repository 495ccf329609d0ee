/** From parsed lines to a program: labels resolved, branches annotated, and what every result satisfies. */
module Assembling {
  import opened Isa
  import opened Numerals
  import opened Lexing
  import opened Mnemonics
  import opened Parsing
  import opened ControlFlow
  import opened Annotation

  /** An assembled kernel; `names` are the label names kept for printing. */
  datatype AsmProgram = AsmProgram(entry: string, params: seq<string>, shared: u32, words: seq<u64>, names: map<u16, string>)

  const MAX_INSTRUCTIONS: nat := 0xFFFF

  /** The word of a branch with its target filled in and no reconvergence PC yet. */
  function Patch(word: u64, target: u16): u64 {
    match Decode(word)
    case Err(_) => word
    case Ok(i) =>
      match Encode(i.(imm := BranchImm(target, NO_RECONVERGENCE)))
      case Err(_) => word
      case Ok(patched) => patched
  }

  /** Every branch gets the PC of its label; an undefined label is an error. */
  function Resolve(pending: seq<(nat, string)>, labels: map<string, u16>, words: seq<u64>): (r: Option<seq<u64>>)
    ensures r.Some? ==> |r.value| == |words|
  {
    if pending == [] then Some(words)
    else
      var (pc, name) := pending[0];
      if name !in labels || pc >= |words| then None
      else Resolve(pending[1..], labels, words[pc := Patch(words[pc], labels[name])])
  }

  predicate AllDecode(words: seq<u64>) {
    forall pc | 0 <= pc < |words| :: Decode(words[pc]).Ok?
  }

  function Instructions(words: seq<u64>): (p: seq<Instruction>)
    requires AllDecode(words)
    ensures |p| == |words| && forall pc | 0 <= pc < |words| :: Decode(words[pc]) == Ok(p[pc])
  {
    seq(|words|, pc requires 0 <= pc < |words| => Decode(words[pc]).value)
  }

  function WordOf(i: Instruction): u64 {
    match Encode(i)
    case Err(_) => 0
    case Ok(word) => word
  }

  function Words(p: seq<Instruction>): seq<u64> {
    seq(|p|, pc requires 0 <= pc < |p| => WordOf(p[pc]))
  }

  /** What is left to do when all lines are parsed. */
  ghost function Complete(st: State): Option<AsmProgram> {
    if st.entry == "" || |st.words| > MAX_INSTRUCTIONS then None
    else match Resolve(st.pending, st.labels, st.words)
      case None => None
      case Some(words) =>
        if !AllDecode(words) || !TargetsInRange(Instructions(words)) then None
        else Some(AsmProgram(st.entry, st.params, st.shared, Words(AnnotationOf(Instructions(words))), st.names))
  }

  ghost function Assemble(source: string, floats: FloatText): Option<AsmProgram> {
    match Lex(source)
    case None => None
    case Some(tokens) =>
      match ParseLines(tokens, EMPTY, floats)
      case None => None
      case Some(st) => Complete(st)
  }

  // ---- what parsing keeps ----

  ghost predicate GoodTokens(ts: Tokens) {
    forall k | 0 <= k < |ts| && ts[k].kind == Identifier :: IsIdent(ts[k].text)
  }

  /** Identifier tokens are identifiers. */
  lemma {:induction false} ScanGood(s: string)
    ensures Scan(s).Some? ==> GoodTokens(Scan(s).value)
    decreases |s|
  {
    hide NumberToken, Prefixed, GuardToken;
    if s == [] {
    } else if s[0] == '\n' || IsBlank(s[0]) {
      ScanGood(s[1..]);
    } else if StartsComment(s) {
      CommentLength(s);
      ScanGood(s[Run(NotNewline, s)..]);
    } else if NextToken(s).Some? {
      TokenGood(s);
      ScanGood(s[NextToken(s).value.length..]);
    }
  }

  lemma TokenGood(s: string)
    requires s != [] && NextToken(s).Some?
    ensures NextToken(s).value.token.kind == Identifier ==> IsIdent(NextToken(s).value.token.text)
  {
    hide Run, Mantissa, Exponent;
    if IsIdentStart(s[0]) { assert s[..Run(IsIdentChar, s)][0] == s[0]; }
  }

  /** The names of a state, and the branches that wait for their targets. */
  ghost predicate NamesOk(st: State) {
    && (forall name | name in st.labels :: IsIdent(name) && st.labels[name] in st.names)
    && (forall pc | pc in st.names :: st.names[pc] in st.labels && st.labels[st.names[pc]] == pc)
    && (st.entry != "" ==> IsIdent(st.entry))
    && (forall k | 0 <= k < |st.params| :: IsIdent(st.params[k]))
    && (forall j, k | 0 <= j < k < |st.params| :: st.params[j] != st.params[k])
  }

  predicate IsBranch(word: u64) {
    Decode(word).Ok? && Decode(word).value.op == Bra
  }

  /** Each branch is pending once, and nothing else is; parameter ordinals are in range. */
  ghost predicate WordsOk(st: State) {
    && AllDecode(st.words)
    && (forall k | 0 <= k < |st.pending| :: st.pending[k].0 < |st.words| && IsBranch(st.words[st.pending[k].0]))
    && (forall pc | 0 <= pc < |st.words| && IsBranch(st.words[pc]) :: exists k :: 0 <= k < |st.pending| && st.pending[k].0 == pc)
    && (forall pc | 0 <= pc < |st.words| :: ParamInRange(Decode(st.words[pc]).value, |st.params|))
  }

  predicate ParamInRange(i: Instruction, params: nat) { i.op == LdParam ==> i.imm < params }

  lemma GoodRest(ts: Tokens)
    requires GoodTokens(ts)
    ensures GoodTokens(Next(ts))
    ensures At(ts, Identifier) ==> IsIdent(Head(ts).text)
  {
  }

  /** Reading operands keeps the opcode, and stays within good tokens. */
  lemma StepKeeps(step: Step, ts: Tokens, i: Instruction, params: seq<string>, floats: FloatText)
    requires GoodTokens(ts)
    ensures match ParseStep(step, ts, i, params, floats)
            case None => true
            case Some(Read(i1, rest)) =>
              i1.op == i.op && GoodTokens(rest) && (step.ParamRef? ==> i1.imm < |params|)
  {
    hide Value, AllDigits, AllHexDigits, FindSpecial, GoodTokens, Next;
    var ts1 := Next(ts);
    var ts2 := Next(ts1);
    var ts3 := Next(ts2);
    var ts4 := Next(ts3);
    GoodRest(ts);
    GoodRest(ts1);
    GoodRest(ts2);
    GoodRest(ts3);
    GoodRest(ts4);
  }

  lemma {:induction false} StepsKeep(steps: seq<Step>, ts: Tokens, i: Instruction, params: seq<string>, floats: FloatText)
    requires GoodTokens(ts)
    ensures match ParseSteps(steps, ts, i, params, floats)
            case None => true
            case Some(Read(i1, rest)) =>
              i1.op == i.op && GoodTokens(rest)
              && (steps != [] && steps[|steps| - 1].ParamRef? ==> i1.imm < |params|)
  {
    hide ParseStep;
    if steps != [] {
      StepKeeps(steps[0], ts, i, params, floats);
      match ParseStep(steps[0], ts, i, params, floats)
      case None =>
      case Some(Read(i1, rest)) => StepsKeep(steps[1..], rest, i1, params, floats);
    }
  }

  ghost predicate DraftOk(draft: Draft, params: nat) {
    && (draft.target.Some? <==> draft.i.op == Bra)
    && (draft.target.Some? ==> IsIdent(draft.target.value))
    && ParamInRange(draft.i, params)
  }

  lemma OperandsKeep(ts: Tokens, i: Instruction, params: seq<string>, floats: FloatText)
    requires GoodTokens(ts)
    ensures match Operands(ts, i, params, floats)
            case None => true
            case Some(Read(draft, rest)) => GoodTokens(rest) && DraftOk(draft, |params|)
  {
    hide ParseSteps;
    if ShapeOf(i.op) == BraShape {
      GoodRest(ts);
    } else {
      StepsKeep(StepsOf(ShapeOf(i.op)), ts, i, params, floats);
    }
  }

  lemma OperationKeeps(ts: Tokens, guard: Guard, params: seq<string>, floats: FloatText)
    requires GoodTokens(ts)
    ensures match OperationPart(ts, guard, params, floats)
            case None => true
            case Some(Read(draft, rest)) => GoodTokens(rest) && DraftOk(draft, |params|)
  {
    hide Operands, FindMnemonic, DraftOk;
    GoodRest(ts);
    match FromMnemonic(Head(ts).text)
    case None =>
    case Some(op) => OperandsKeep(Next(ts), Bare(op, guard), params, floats);
  }

  lemma InstructionKeeps(ts: Tokens, params: seq<string>, floats: FloatText)
    requires GoodTokens(ts)
    ensures match InstructionLine(ts, params, floats)
            case None => true
            case Some(Read(draft, rest)) => GoodTokens(rest) && DraftOk(draft, |params|)
  {
    hide OperationPart, RegisterIndex, DraftOk;
    GoodRest(ts);
    match GuardPart(ts)
    case None =>
    case Some(Read(guard, rest)) => OperationKeeps(rest, guard, params, floats);
  }

  ghost predicate StateOk(st: State) { NamesOk(st) && WordsOk(st) }

  lemma LabelKeeps(st: State, name: string)
    requires StateOk(st) && IsIdent(name) && name !in st.labels
    ensures StateOk(AddLabel(st, name))
  {
    hide IsIdent, IsBranch, ParamInRange;
  }

  lemma NewWord(st: State, draft: Draft)
    requires Encode(draft.i).Ok?
    ensures Decode(Encode(draft.i).value) == Ok(draft.i)
  {
    DecodeInvertsEncode(draft.i, Encode(draft.i).value);
  }

  lemma PendingGrows(st: State, draft: Draft, st1: State, pc: nat)
    requires WordsOk(st) && DraftOk(draft, |st.params|) && AddInstruction(st, draft) == Some(st1)
    requires pc < |st1.words| && IsBranch(st1.words[pc])
    ensures exists k :: 0 <= k < |st1.pending| && st1.pending[k].0 == pc
  {
    hide Encode, Decode, IsIdent;
    NewWord(st, draft);
    if pc < |st.words| {
      assert IsBranch(st.words[pc]);
      var k :| 0 <= k < |st.pending| && st.pending[k].0 == pc;
      assert st1.pending[k].0 == pc;
    } else {
      assert st1.pending[|st.pending|].0 == pc;
    }
  }

  lemma DraftParam(st: State, draft: Draft)
    requires DraftOk(draft, |st.params|)
    ensures ParamInRange(draft.i, |st.params|) && (draft.target.Some? <==> draft.i.op == Bra)
  {
  }

  lemma AddKeeps(st: State, draft: Draft)
    requires StateOk(st) && DraftOk(draft, |st.params|) && Encode(draft.i).Ok?
    ensures StateOk(AddInstruction(st, draft).value)
  {
    hide Encode, Decode, NamesOk, IsIdent, DraftOk;
    NewWord(st, draft);
    DraftParam(st, draft);
    var st1 := AddInstruction(st, draft).value;
    forall pc | 0 <= pc < |st1.words| && IsBranch(st1.words[pc])
      ensures exists k :: 0 <= k < |st1.pending| && st1.pending[k].0 == pc
    {
      PendingGrows(st, draft, st1, pc);
    }
    SameNames(st, st1);
  }

  lemma SameNames(st: State, st1: State)
    requires NamesOk(st) && st1 == st.(words := st1.words, pending := st1.pending)
    ensures NamesOk(st1)
  {
  }

  lemma DirectiveKeeps(ts: Tokens, st: State)
    requires ts != [] && GoodTokens(ts) && StateOk(st)
    ensures match DirectiveLine(ts, st)
            case None => true
            case Some(Read(st1, rest)) => StateOk(st1) && GoodTokens(rest)
  {
    hide IsIdent, IsBranch, Decode, IntegerLiteral;
    GoodRest(ts);
    GoodRest(Next(ts));
  }

  lemma StatementKeeps(ts: Tokens, st: State, floats: FloatText)
    requires GoodTokens(ts) && StateOk(st)
    ensures match StatementLine(ts, st, floats)
            case None => true
            case Some(Read(st1, rest)) => StateOk(st1) && GoodTokens(rest)
  {
    hide IsIdent, Decode, Encode, InstructionLine, NamesOk, WordsOk, DraftOk, GoodTokens;
    GoodRest(ts);
    GoodRest(Next(ts));
    if !(AtLabel(ts) && Head(ts).text in st.labels) {
      var st1 := if AtLabel(ts) then AddLabel(st, Head(ts).text) else st;
      var ts1 := if AtLabel(ts) then Next(Next(ts)) else ts;
      if AtLabel(ts) { LabelKeeps(st, Head(ts).text); }
      InstructionKeeps(ts1, st1.params, floats);
      match InstructionLine(ts1, st1.params, floats)
      case None =>
      case Some(Read(draft, rest)) =>
        if Encode(draft.i).Ok? { AddKeeps(st1, draft); }
    }
  }

  lemma {:induction false} LinesKeep(ts: Tokens, st: State, floats: FloatText)
    requires GoodTokens(ts) && StateOk(st)
    ensures ParseLines(ts, st, floats).Some? ==> StateOk(ParseLines(ts, st, floats).value)
    decreases |ts|
  {
    hide StateOk, DirectiveLine, StatementLine, GoodTokens;
    if !At(ts, End) {
      GoodRest(ts);
      if At(ts, Directive) { DirectiveKeeps(ts, st); } else { StatementKeeps(ts, st, floats); }
      match ParseLine(ts, st, floats)
      case None =>
      case Some(Read(st1, rest)) => LinesKeep(rest, st1, floats);
    }
  }

  // ---- what completion makes of it ----

  /** The immediate of a branch may hold anything. */
  lemma BranchImmValid(i: Instruction, imm: u32)
    requires Valid(i) && i.op == Bra
    ensures Valid(i.(imm := imm))
  {
  }

  lemma EncodeValid(i: Instruction)
    ensures Encode(i).Ok? <==> Valid(i)
  {
  }

  lemma WordRoundTrip(i: Instruction)
    requires Valid(i)
    ensures Encode(i) == Ok(WordOf(i)) && Decode(WordOf(i)) == Ok(i)
  {
    hide Decode;
    EncodeValid(i);
    DecodeInvertsEncode(i, WordOf(i));
  }

  lemma DecodedValid(word: u64)
    ensures Decode(word).Ok? ==> Valid(Decode(word).value)
  {
  }

  lemma PatchBranch(word: u64, target: u16)
    requires IsBranch(word)
    ensures Decode(Patch(word, target)) == Ok(Decode(word).value.(imm := BranchImm(target, NO_RECONVERGENCE)))
    ensures IsBranch(Patch(word, target))
  {
    hide Decode, Encode, Valid;
    var i := Decode(word).value.(imm := BranchImm(target, NO_RECONVERGENCE));
    DecodedValid(word);
    BranchImmValid(Decode(word).value, i.imm);
    WordRoundTrip(i);
  }

  /** Two words of the same instruction, up to the target of a branch. */
  ghost predicate Resolved(before: u64, after: u64, targets: set<u16>) {
    && Decode(before).Ok? && Decode(after).Ok?
    && (if IsBranch(before)
        then exists t | t in targets :: Decode(after) == Ok(Decode(before).value.(imm := BranchImm(t, NO_RECONVERGENCE)))
        else after == before)
  }

  ghost predicate AllPending(pending: seq<(nat, string)>, words: seq<u64>) {
    forall k | 0 <= k < |pending| :: pending[k].0 < |words| && IsBranch(words[pending[k].0])
  }

  /** Resolution gives every pending branch the PC of a label and changes nothing else. */
  lemma {:induction false} ResolveGives(pending: seq<(nat, string)>, labels: map<string, u16>, words: seq<u64>, pc: nat)
    requires AllDecode(words) && AllPending(pending, words) && pc < |words|
    requires Resolve(pending, labels, words).Some?
    ensures var r := Resolve(pending, labels, words).value;
            && Decode(r[pc]).Ok?
            && ((forall k | 0 <= k < |pending| :: pending[k].0 != pc) ==> r[pc] == words[pc])
            && ((exists k :: 0 <= k < |pending| && pending[k].0 == pc) ==> Resolved(words[pc], r[pc], labels.Values))
  {
    hide Decode, Patch, IsBranch, Resolved;
    if pending != [] {
      var (at, name) := pending[0];
      var next := words[at := Patch(words[at], labels[name])];
      BranchDecodes(words[at]);
      PatchBranch(words[at], labels[name]);
      BranchDecodes(next[at]);
      assert AllPending(pending[1..], next);
      ResolveGives(pending[1..], labels, next, pc);
      ResolveStep(pending, labels, words, pc);
    }
  }

  lemma BranchDecodes(word: u64)
    requires IsBranch(word)
    ensures Decode(word).Ok?
  {
  }

  lemma ResolveStep(pending: seq<(nat, string)>, labels: map<string, u16>, words: seq<u64>, pc: nat)
    requires AllPending(pending, words) && pending != [] && pc < |words| && pending[0].1 in labels
    requires Resolve(pending, labels, words).Some?
    requires var next := words[pending[0].0 := Patch(words[pending[0].0], labels[pending[0].1])];
             var r := Resolve(pending, labels, words).value;
             && r == Resolve(pending[1..], labels, next).value
             && ((forall k | 0 <= k < |pending[1..]| :: pending[1..][k].0 != pc) ==> r[pc] == next[pc])
             && ((exists k :: 0 <= k < |pending[1..]| && pending[1..][k].0 == pc) ==> Resolved(next[pc], r[pc], labels.Values))
    ensures var r := Resolve(pending, labels, words).value;
            (exists k :: 0 <= k < |pending| && pending[k].0 == pc) ==> Resolved(words[pc], r[pc], labels.Values)
  {
    hide Decode, Patch, Resolve;
    var r := Resolve(pending, labels, words).value;
    var (at, name) := pending[0];
    assert labels[name] in labels.Values;
    PatchBranch(words[at], labels[name]);
    if k :| 0 <= k < |pending| && pending[k].0 == pc {
      if pc != at {
        assert pending[1..][k - 1].0 == pc;
      }
    }
  }

  /** What every assembled program satisfies. */
  ghost predicate Printable(p: AsmProgram) {
    && IsIdent(p.entry)
    && (forall k | 0 <= k < |p.params| :: IsIdent(p.params[k]))
    && (forall j, k | 0 <= j < k < |p.params| :: p.params[j] != p.params[k])
    && (forall pc | pc in p.names :: IsIdent(p.names[pc]))
    && (forall a, b | a in p.names && b in p.names && p.names[a] == p.names[b] :: a == b)
    && |p.words| <= MAX_INSTRUCTIONS && AllDecode(p.words)
    && TargetsInRange(Instructions(p.words)) && Annotated(Instructions(p.words), Instructions(p.words))
    && (forall pc | 0 <= pc < |p.words| :: OperandsNamed(Instructions(p.words)[pc], |p.params|, p.names))
  }

  /** Branch targets have names and parameter ordinals have parameters. */
  predicate OperandsNamed(i: Instruction, params: nat, names: map<u16, string>) {
    ParamInRange(i, params) && (i.op == Bra ==> i.Target() in names)
  }

  lemma WordsRoundTrip(p: seq<Instruction>)
    requires forall pc | 0 <= pc < |p| :: Valid(p[pc])
    ensures AllDecode(Words(p)) && Instructions(Words(p)) == p
  {
    hide Decode, Encode, Valid;
    forall pc | 0 <= pc < |p| ensures Decode(Words(p)[pc]) == Ok(p[pc]) {
      WordRoundTrip(p[pc]);
    }
  }

  lemma AnnotatedValid(a: seq<Instruction>, b: seq<Instruction>, pc: nat)
    requires Annotated(a, b) && pc < |a| && Valid(a[pc])
    ensures Valid(b[pc])
  {
    hide IsReconvergence, Valid;
    assert AnnotatedAt(a, pc, b[pc]);
    if a[pc].op == Bra { BranchImmValid(a[pc], b[pc].imm); }
  }

  lemma ResolvedOperands(st: State, words: seq<u64>, pc: nat)
    requires StateOk(st) && Resolve(st.pending, st.labels, st.words) == Some(words) && pc < |words|
    ensures Decode(words[pc]).Ok? && OperandsNamed(Decode(words[pc]).value, |st.params|, st.names)
  {
    hide Decode, Resolve, IsIdent;
    ResolveGives(st.pending, st.labels, st.words, pc);
    if IsBranch(st.words[pc]) {
      var k :| 0 <= k < |st.pending| && st.pending[k].0 == pc;
      var t :| t in st.labels.Values && Decode(words[pc]) == Ok(Decode(st.words[pc]).value.(imm := BranchImm(t, NO_RECONVERGENCE)));
      BranchImmHalves(t, NO_RECONVERGENCE);
    } else {
      assert forall k | 0 <= k < |st.pending| :: st.pending[k].0 != pc;
    }
  }

  /** Every program that assembly produces is printable: names are distinct identifiers, every branch target
      has a name, and its branches carry the annotation of the program. */
  lemma CompletePrintable(st: State)
    requires StateOk(st) && Complete(st).Some?
    ensures Printable(Complete(st).value)
  {
    hide Decode, Encode, Resolve, IsIdent, Annotated, Valid, AnnotationOf, WordsOk, OperandsNamed;
    var words := Resolve(st.pending, st.labels, st.words).value;
    var pre := Instructions(words);
    var post := AnnotationOf(pre);
    AnnotationKeepsOperands(pre, post);
    forall pc | 0 <= pc < |pre| ensures Valid(post[pc]) && OperandsNamed(post[pc], |st.params|, st.names) {
      DecodedValid(words[pc]);
      AnnotatedValid(pre, post, pc);
      ResolvedOperands(st, words, pc);
      SameOperands(pre[pc], post[pc], |st.params|, st.names);
    }
    WordsRoundTrip(post);
    AnnotatedOnce(pre, post);
    AnnotationKeepsGraph(pre, post);
  }

  /** Annotation changes nothing but the reconvergence half of branches. */
  lemma AnnotationKeepsOperands(a: seq<Instruction>, b: seq<Instruction>)
    requires Annotated(a, b)
    ensures |b| == |a| && forall pc | 0 <= pc < |a| ::
              b[pc].op == a[pc].op && (a[pc].op != Bra ==> b[pc] == a[pc]) && (a[pc].op == Bra ==> b[pc].Target() == a[pc].Target())
  {
    hide IsReconvergence;
    AnnotationKeepsGraph(a, b);
    forall pc | 0 <= pc < |a| ensures a[pc].op != Bra ==> b[pc] == a[pc] {
      assert AnnotatedAt(a, pc, b[pc]);
    }
  }

  lemma SameOperands(i: Instruction, j: Instruction, params: nat, names: map<u16, string>)
    requires OperandsNamed(i, params, names) && j.op == i.op
    requires if i.op == Bra then j.Target() == i.Target() else j == i
    ensures OperandsNamed(j, params, names)
  {
  }

  lemma AssembledPrintable(source: string, floats: FloatText)
    requires Assemble(source, floats).Some?
    ensures Printable(Assemble(source, floats).value)
  {
    hide Scan, ParseLines, StateOk, Printable, Complete;
    ScanGood(source);
    var tokens := Lex(source).value;
    FinishGood(Scan(source).value);
    EmptyOk();
    LinesKeep(tokens, EMPTY, floats);
    CompletePrintable(ParseLines(tokens, EMPTY, floats).value);
  }

  lemma FinishGood(tokens: Tokens)
    requires GoodTokens(tokens)
    ensures GoodTokens(Finish(tokens))
  {
  }

  lemma EmptyOk()
    ensures StateOk(EMPTY)
  {
  }
}
