/** What number each accepted spelling of a literal stands for, by position and place value, and where
    that number goes: immediates, address offsets, register indices and the shared memory size. */
module Literals {
  import opened Isa
  import opened Numerals
  import opened Lexing
  import opened Pieces
  import opened Parsing

  const LOWER_DIGITS := "0123456789abcdef"
  const UPPER_DIGITS := "0123456789ABCDEF"

  /** `c` is the digit `d`, in either case. */
  predicate IsDigitOf(c: char, d: nat) {
    d < 16 && (LOWER_DIGITS[d] == c || UPPER_DIGITS[d] == c)
  }

  /** The characters of `s` are the digits `digits`, each below the radix. */
  ghost predicate Spells(s: string, digits: seq<nat>, radix: nat) {
    |s| == |digits| && forall k | 0 <= k < |s| :: digits[k] < radix && IsDigitOf(s[k], digits[k])
  }

  function Power(radix: nat, n: nat): nat {
    if n == 0 then 1 else radix * Power(radix, n - 1)
  }

  /** The first digit has the highest place value. */
  function PlaceValues(digits: seq<nat>, radix: nat): nat {
    if digits == [] then 0 else digits[0] * Power(radix, |digits| - 1) + PlaceValues(digits[1..], radix)
  }

  /** The digits of a numeral in `radix`, at least one, stand for `n`. */
  ghost predicate Reads(s: string, radix: nat, n: nat) {
    exists digits: seq<nat> :: digits != [] && Spells(s, digits, radix) && n == PlaceValues(digits, radix)
  }

  /** A literal is decimal, or hexadecimal after `0x`. */
  ghost predicate Denotes(text: string, n: nat) {
    if "0x" <= text then Reads(text[2..], 16, n) else Reads(text, 10, n)
  }

  // ---- digits ----

  lemma DigitMeaning(c: char)
    ensures IsHexDigit(c) <==> exists d: nat :: IsDigitOf(c, d)
    ensures IsDigit(c) <==> exists d: nat :: d < 10 && IsDigitOf(c, d)
    ensures IsHexDigit(c) ==> IsDigitOf(c, DigitValue(c)) && (IsDigit(c) ==> DigitValue(c) < 10)
  {
    if IsHexDigit(c) {
      assert IsDigitOf(c, DigitValue(c));
    }
  }

  lemma DigitUnique(c: char, d: nat)
    requires IsDigitOf(c, d)
    ensures IsHexDigit(c) && DigitValue(c) == d && (IsDigit(c) <==> d < 10)
  {
  }

  // ---- place values ----

  lemma PowerStep(d: nat, radix: nat, n: nat)
    ensures d * Power(radix, n + 1) == (d * Power(radix, n)) * radix
  {
    assert Power(radix, n + 1) == radix * Power(radix, n);
  }

  /** A digit put at the end moves every other digit up one place. */
  lemma {:induction false} PlaceValuesStep(digits: seq<nat>, d: nat, radix: nat)
    ensures PlaceValues(digits + [d], radix) == PlaceValues(digits, radix) * radix + d
  {
    var all := digits + [d];
    if digits == [] {
      assert all[1..] == [];
      assert Power(radix, 0) == 1;
    } else {
      assert all[1..] == digits[1..] + [d];
      PlaceValuesStep(digits[1..], d, radix);
      PowerStep(digits[0], radix, |digits| - 1);
    }
  }

  /** The value of a digit text is the sum of its digits times their place values. */
  lemma {:induction false} ValueIsPlaceValues(s: string, digits: seq<nat>, radix: nat)
    requires Spells(s, digits, radix) && radix <= 16
    ensures All(IsHexDigit, s) && Value(s, radix) == PlaceValues(digits, radix)
  {
    forall k | 0 <= k < |s| ensures IsHexDigit(s[k]) && DigitValue(s[k]) == digits[k] {
      DigitUnique(s[k], digits[k]);
    }
    if s != [] {
      var n := |s| - 1;
      ValueIsPlaceValues(s[..n], digits[..n], radix);
      PlaceValuesStep(digits[..n], digits[n], radix);
      assert digits[..n] + [digits[n]] == digits;
    }
  }

  ghost function DigitsOf(s: string): (digits: seq<nat>)
    requires All(IsHexDigit, s)
    ensures Spells(s, digits, 16) && (All(IsDigit, s) ==> Spells(s, digits, 10))
  {
    forall c: char ensures IsHexDigit(c) ==> IsDigitOf(c, DigitValue(c)) && (IsDigit(c) ==> DigitValue(c) < 10) {
      DigitMeaning(c);
    }
    seq(|s|, k requires 0 <= k < |s| => DigitValue(s[k]))
  }

  lemma HexReads(s: string, n: nat)
    ensures Reads(s, 16, n) <==> s != [] && AllHexDigits(s) && n == Value(s, 16)
  {
    if Reads(s, 16, n) {
      var digits :| digits != [] && Spells(s, digits, 16) && n == PlaceValues(digits, 16);
      ValueIsPlaceValues(s, digits, 16);
    }
    if s != [] && AllHexDigits(s) && n == Value(s, 16) {
      ValueIsPlaceValues(s, DigitsOf(s), 16);
    }
  }

  lemma DecimalReads(s: string, n: nat)
    ensures Reads(s, 10, n) <==> s != [] && AllDigits(s) && n == Value(s, 10)
  {
    if Reads(s, 10, n) {
      var digits :| digits != [] && Spells(s, digits, 10) && n == PlaceValues(digits, 10);
      ValueIsPlaceValues(s, digits, 10);
      forall k | 0 <= k < |s| ensures IsDigit(s[k]) { DigitUnique(s[k], digits[k]); }
    }
    if s != [] && AllDigits(s) && n == Value(s, 10) {
      ValueIsPlaceValues(s, DigitsOf(s), 10);
    }
  }

  // ---- literals ----

  /** An integer token is read as the number its text stands for, exactly when that number fits in
      32 bits. */
  lemma LiteralMeaning(ts: Tokens, n: nat)
    ensures IntegerLiteral(ts).Some? && IntegerLiteral(ts).value.value == n
            <==> At(ts, Integer) && Denotes(Head(ts).text, n) && n <= 0xFFFF_FFFF
  {
    hide Reads, Value, AllDigits, AllHexDigits;
    var text := Head(ts).text;
    if "0x" <= text { HexReads(text[2..], n); } else { DecimalReads(text, n); }
  }

  /** A token that stands for no number, or for one that is too large, is refused. */
  lemma LiteralRefused(ts: Tokens)
    ensures IntegerLiteral(ts).None?
            <==> !At(ts, Integer) || forall n: nat | Denotes(Head(ts).text, n) :: n > 0xFFFF_FFFF
  {
    hide IntegerLiteral, Denotes;
    if IntegerLiteral(ts).Some? {
      LiteralMeaning(ts, IntegerLiteral(ts).value.value);
    } else {
      forall n: nat | At(ts, Integer) && Denotes(Head(ts).text, n) ensures n > 0xFFFF_FFFF {
        LiteralMeaning(ts, n);
      }
    }
  }

  /** A literal in the text, with either case of the hexadecimal mark, is one token that stands for the
      number of its digits. */
  lemma LiteralLexed(mark: string, digits: string, rest: string, n: nat)
    requires mark in ["", "0x", "0X"] && Delimited(rest)
    requires Reads(digits, if mark == "" then 10 else 16, n)
    ensures var r := NextToken(mark + digits + rest);
            && r.Some? && r.value.length == |mark + digits|
            && r.value.token.kind == Integer && Denotes(r.value.token.text, n)
  {
    hide Reads, Value, NextToken;
    if mark == "" {
      DecimalReads(digits, n);
      assert mark + digits == digits;
      DecimalLexed(digits, rest);
      assert |digits| >= 2 ==> IsDigit(digits[1]) && "0x"[1] == 'x';
    } else {
      HexReads(digits, n);
      MarkedLexed(mark, digits, rest);
      assert ("0x" + digits)[2..] == digits;
    }
  }

  lemma MarkedLexed(mark: string, digits: string, rest: string)
    requires mark in ["0x", "0X"] && IsHexDigits(digits) && Delimited(rest)
    ensures NextToken(mark + digits + rest) == Some(Scanned(Plain(Integer, "0x" + digits), 2 + |digits|))
  {
    hide Run, Mantissa, Exponent, GuardToken, Prefixed;
    var s := mark + digits + rest;
    assert s[2..] == digits + rest;
    RunAppend(IsHexDigit, digits, rest);
    assert StartsHex(s);
  }

  // ---- where literals go ----

  /** An integer immediate is the number itself, below 2^32. */
  lemma PlainImmediate(ts: Tokens, i: Instruction, floats: FloatText, n: nat)
    requires At(ts, Integer) && Denotes(Head(ts).text, n)
    ensures Immediate(ts, i, floats)
            == if n < 0x1_0000_0000 then Some(Read(i.(immFlag := true, imm := n), Next(ts))) else None
  {
    hide IntegerLiteral, Denotes, Next;
    LiteralMeaning(ts, n);
    LiteralOnly(ts, n);
  }

  /** An integer immediate after a minus is the word whose signed value is the negated number, down to
      -2^31; zero stays zero. */
  lemma NegatedImmediate(ts: Tokens, i: Instruction, floats: FloatText, n: nat)
    requires At(ts, Minus) && At(Next(ts), Integer) && Denotes(Head(Next(ts)).text, n)
    ensures var r := Immediate(ts, i, floats);
            && (r.Some? <==> n <= 0x8000_0000)
            && (r.Some? ==>
                  && r.value.rest == Next(Next(ts))
                  && r.value.value == i.(immFlag := true, imm := r.value.value.imm)
                  && r.value.value.imm == if n == 0 then 0 else 0x1_0000_0000 - n)
  {
    hide IntegerLiteral, Denotes, Next;
    LiteralMeaning(Next(ts), n);
    LiteralOnly(Next(ts), n);
  }

  /** A token stands for one number at most. */
  lemma LiteralOnly(ts: Tokens, n: nat)
    requires At(ts, Integer) && Denotes(Head(ts).text, n)
    ensures IntegerLiteral(ts).None? <==> n > 0xFFFF_FFFF
  {
    hide Reads, Value, AllDigits, AllHexDigits;
    var text := Head(ts).text;
    if "0x" <= text { HexReads(text[2..], n); } else { DecimalReads(text, n); }
  }

  const FLOAT_IMMEDIATES: set<Opcode> :=
    {FAdd, FSub, FMul, FMin, FMax, FNeg, CvtS32F32, Mov,
     SetpEqF32, SetpNeF32, SetpLtF32, SetpLeF32, SetpGtF32, SetpGeF32}

  /** A floating-point immediate is taken by the opcodes that read floats and by `mov`; a minus changes
      the sign bit and no other. */
  lemma FloatImmediate(ts: Tokens, i: Instruction, floats: FloatText, minus: bool)
    requires var fs := if minus then Next(ts) else ts; At(fs, Float) && (minus ==> At(ts, Minus))
    ensures var fs := if minus then Next(ts) else ts;
            var bits := floats.value(Head(fs).text);
            var r := Immediate(ts, i, floats);
            && (r.Some? <==> i.op in FLOAT_IMMEDIATES && bits.Some?)
            && (r.Some? ==>
                  && r.value.rest == Next(fs)
                  && r.value.value == i.(immFlag := true, imm := r.value.value.imm)
                  && r.value.value.imm % 0x8000_0000 == bits.value % 0x8000_0000
                  && (r.value.value.imm / 0x8000_0000 == bits.value / 0x8000_0000 <==> !minus))
  {
  }

  /** The offset of an address: the number itself after a plus, its negation modulo 2^32 after a minus,
      and none without a sign. The closing bracket must follow. */
  lemma OffsetMeaning(ts: Tokens, i: Instruction, n: nat)
    requires At(ts, Plus) || At(ts, Minus) ==> At(Next(ts), Integer) && Denotes(Head(Next(ts)).text, n)
    ensures At(ts, Plus) ==>
              AddressTail(ts, i)
              == if n < 0x1_0000_0000 && At(Next(Next(ts)), RBracket) then Some(Read(i.(imm := n), Next(Next(Next(ts))))) else None
    ensures At(ts, Minus) ==>
              AddressTail(ts, i)
              == if n < 0x1_0000_0000 && At(Next(Next(ts)), RBracket)
                 then Some(Read(i.(imm := (0x1_0000_0000 - n) % 0x1_0000_0000), Next(Next(Next(ts))))) else None
    ensures !At(ts, Plus) && !At(ts, Minus) ==>
              AddressTail(ts, i) == if At(ts, RBracket) then Some(Read(i, Next(ts))) else None
  {
    hide IntegerLiteral, Denotes, Next;
    if At(ts, Plus) || At(ts, Minus) {
      LiteralMeaning(Next(ts), n);
      LiteralOnly(Next(ts), n);
    }
  }

  /** The directive for the shared memory size stores the number it is given. */
  lemma SizeMeaning(ts: Tokens, st: State, n: nat)
    requires At(ts, Integer) && Denotes(Head(ts).text, n)
    ensures SizeDirective(ts, st)
            == if n < 0x1_0000_0000 && AtLineEnd(Next(ts)) then Some(Read(st.(shared := n), Next(ts))) else None
  {
    hide IntegerLiteral, Denotes, Next;
    LiteralMeaning(ts, n);
    LiteralOnly(ts, n);
  }

  /** A register is its prefix and its index in decimal without leading zeros, below the register count. */
  lemma RegisterMeaning(text: string, prefix: char, count: u8, n: u8)
    ensures RegisterIndex(text, prefix, count) == Some(n)
            <==> && n < count && |text| >= 2 && text[0] == prefix
                 && Reads(text[1..], 10, n) && (text[1] == '0' ==> |text| == 2)
  {
    hide Reads, Value, AllDigits;
    if |text| >= 2 { DecimalReads(text[1..], n); }
  }
}
