/** The names of opcodes and special registers, and their lookup by table scan. */
module Mnemonics {
  import opened Isa
  import opened Numerals

  datatype Table = ComparisonTable | DottedTable | PlainTable

  /** The names fall into three tables: comparisons, other names with a dot, and names without. */
  function TableOf(op: Opcode): Table {
    match op
    case SetpEqS32 | SetpNeS32 | SetpLtS32 | SetpLeS32 | SetpGtS32 | SetpGeS32 => ComparisonTable
    case SetpEqF32 | SetpNeF32 | SetpLtF32 | SetpLeF32 | SetpGtF32 | SetpGeF32 => ComparisonTable
    case CvtF32S32 | CvtS32F32 | MovSreg | BarSync => DottedTable
    case LdGlobal | StGlobal | LdShared | StShared | LdParam => DottedTable
    case _ => PlainTable
  }

  function Mnemonic(op: Opcode): string {
    match TableOf(op)
    case ComparisonTable => ComparisonName(op)
    case DottedTable => DottedName(op)
    case PlainTable => PlainName(op)
  }

  function ComparisonName(op: Opcode): string {
    match op
    case SetpEqS32 => "setp.eq.s32" case SetpNeS32 => "setp.ne.s32" case SetpLtS32 => "setp.lt.s32"
    case SetpLeS32 => "setp.le.s32" case SetpGtS32 => "setp.gt.s32" case SetpGeS32 => "setp.ge.s32"
    case SetpEqF32 => "setp.eq.f32" case SetpNeF32 => "setp.ne.f32" case SetpLtF32 => "setp.lt.f32"
    case SetpLeF32 => "setp.le.f32" case SetpGtF32 => "setp.gt.f32" case _ => "setp.ge.f32"
  }

  function DottedName(op: Opcode): string {
    match op
    case CvtF32S32 => "cvt.f32.s32" case CvtS32F32 => "cvt.s32.f32" case MovSreg => "mov.sreg" case BarSync => "bar.sync"
    case LdGlobal => "ld.global" case StGlobal => "st.global" case LdShared => "ld.shared"
    case StShared => "st.shared" case _ => "ld.param"
  }

  function PlainName(op: Opcode): string {
    match op
    case Add => "add" case Sub => "sub" case Mul => "mul" case Div => "div" case Rem => "rem"
    case Min => "min" case Max => "max" case Neg => "neg" case And => "and" case Or => "or"
    case Xor => "xor" case Not => "not" case Shl => "shl" case Shr => "shr" case Sra => "sra"
    case Mov => "mov" case FAdd => "fadd" case FSub => "fsub" case FMul => "fmul" case FFma => "ffma"
    case FMin => "fmin" case FMax => "fmax" case FNeg => "fneg" case Bra => "bra" case _ => "exit"
  }

  lemma ComparisonIs(op: Opcode)
    ensures var s := ComparisonName(op);
            |s| == 11 && s[1] == 'e' && IsIdentStart(s[0]) && forall k | 0 <= k < |s| :: IsIdentChar(s[k])
  {
  }

  lemma DottedIs(op: Opcode)
    ensures var s := DottedName(op);
            8 <= |s| <= 11 && s[1] != 'e' && IsIdentStart(s[0]) && forall k | 0 <= k < |s| :: IsIdentChar(s[k])
  {
  }

  lemma PlainIs(op: Opcode)
    ensures var s := PlainName(op);
            2 <= |s| <= 4 && IsIdentStart(s[0]) && forall k | 0 <= k < |s| :: IsIdentChar(s[k])
  {
  }

  lemma ComparisonInjective(a: Opcode, b: Opcode)
    requires TableOf(a) == TableOf(b) == ComparisonTable && ComparisonName(a) == ComparisonName(b)
    ensures a == b
  {
  }

  lemma DottedInjective(a: Opcode, b: Opcode)
    requires TableOf(a) == TableOf(b) == DottedTable && DottedName(a) == DottedName(b)
    ensures a == b
  {
  }

  lemma PlainInjective(a: Opcode, b: Opcode)
    requires TableOf(a) == TableOf(b) == PlainTable && PlainName(a) == PlainName(b)
    ensures a == b
  {
  }

  lemma MnemonicInjective(a: Opcode, b: Opcode)
    requires Mnemonic(a) == Mnemonic(b)
    ensures a == b
  {
    hide ComparisonName, DottedName, PlainName, TableOf;
    ComparisonIs(a);
    ComparisonIs(b);
    DottedIs(a);
    DottedIs(b);
    PlainIs(a);
    PlainIs(b);
    match TableOf(a)
    case ComparisonTable => ComparisonInjective(a, b);
    case DottedTable => DottedInjective(a, b);
    case PlainTable => PlainInjective(a, b);
  }

  /** A mnemonic is an identifier. */
  lemma MnemonicIsIdent(op: Opcode)
    ensures IsIdent(Mnemonic(op))
  {
    hide ComparisonName, DottedName, PlainName, TableOf;
    ComparisonIs(op);
    DottedIs(op);
    PlainIs(op);
  }

  /** The first entry of the opcode table, from number `n` on, that has the name `s`. */
  function FindMnemonic(s: string, n: nat): (r: Option<Opcode>)
    requires n <= 0x100
    ensures r.Some? ==> Mnemonic(r.value) == s
    ensures r.None? ==> forall m: nat | n <= m < 0x100 && FromNumber(m).Some? :: Mnemonic(FromNumber(m).value) != s
    decreases 0x100 - n
  {
    if n == 0x100 then None
    else match FromNumber(n)
      case Some(op) => if Mnemonic(op) == s then Some(op) else FindMnemonic(s, n + 1)
      case None => FindMnemonic(s, n + 1)
  }

  function FromMnemonic(s: string): Option<Opcode> {
    FindMnemonic(s, 0)
  }

  lemma MnemonicRoundTrip(op: Opcode)
    ensures FromMnemonic(Mnemonic(op)) == Some(op)
  {
    hide Mnemonic, FindMnemonic, FromNumber, Number;
    NumberRoundTrip(op);
    var r := FromMnemonic(Mnemonic(op));
    if r.Some? {
      MnemonicInjective(op, r.value);
    } else {
      assert false;
    }
  }

  function SpecialName(index: nat): string
    requires index < SPECIAL_REGISTERS
  {
    match index
    case 0 => "tid.x" case 1 => "tid.y" case 2 => "ntid.x" case 3 => "ntid.y"
    case 4 => "ctaid.x" case 5 => "ctaid.y" case 6 => "nctaid.x" case 7 => "nctaid.y"
    case 8 => "laneid" case _ => "warpid"
  }

  /** The first special register, from `n` on, whose name with its percent sign is `s`. */
  function FindSpecial(s: string, n: nat): (r: Option<u8>)
    requires n <= SPECIAL_REGISTERS
    ensures r.Some? ==> r.value < SPECIAL_REGISTERS && "%" + SpecialName(r.value) == s
    ensures r.None? ==> forall m: nat | n <= m < SPECIAL_REGISTERS :: "%" + SpecialName(m) != s
    decreases SPECIAL_REGISTERS - n
  {
    if n == SPECIAL_REGISTERS then None
    else if "%" + SpecialName(n) == s then Some(n)
    else FindSpecial(s, n + 1)
  }

  lemma SpecialInjective(a: nat, b: nat)
    requires a < SPECIAL_REGISTERS && b < SPECIAL_REGISTERS && "%" + SpecialName(a) == "%" + SpecialName(b)
    ensures a == b
  {
    var s, t := SpecialName(a), SpecialName(b);
    assert s == ("%" + s)[1..] && t == ("%" + t)[1..];
    assert |s| == |t|;
  }

  function FromSpecialName(s: string): Option<u8> { FindSpecial(s, 0) }

  lemma SpecialRoundTrip(index: nat)
    requires index < SPECIAL_REGISTERS
    ensures FromSpecialName("%" + SpecialName(index)) == Some(index)
  {
    hide FindSpecial, SpecialName;
    var r := FromSpecialName("%" + SpecialName(index));
    if r.Some? { SpecialInjective(index, r.value); }
  }

  lemma SpecialIsName(index: nat)
    requires index < SPECIAL_REGISTERS
    ensures SpecialName(index) != [] && All(IsIdentChar, SpecialName(index))
  {
  }
}
