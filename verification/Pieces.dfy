/** Text built from pieces that the tokenizer takes apart again. */
module Pieces {
  import opened Isa
  import opened Numerals
  import opened Lexing

  datatype Piece =
    | Name(text: string)
    | Prefix(kind: TokenKind, name: string)
    | Guarded(negate: bool, name: string)
    | Decimal(digits: string)
    | Hexadecimal(digits: string)
    | FloatLiteral(whole: string, fraction: string, exponent: string)
    | Mark(c: char)
    | Blank
    | Line
    | Comment(text: string)

  function Text(p: Piece): string {
    match p
    case Name(text) => text
    case Prefix(kind, name) => (if kind == Directive then "." else "%") + name
    case Guarded(negate, name) => (if negate then "@!" else "@") + name
    case Decimal(digits) => digits
    case Hexadecimal(digits) => "0x" + digits
    case FloatLiteral(whole, fraction, exponent) => whole + fraction + exponent
    case Mark(c) => [c]
    case Blank => " "
    case Line => "\n"
    case Comment(text) => "//" + text
  }

  function TokensOf(p: Piece): seq<Token> {
    match p
    case Name(text) => [Plain(Identifier, text)]
    case Prefix(kind, _) => [Plain(kind, Text(p))]
    case Guarded(negate, name) => [Token(GuardMark, name, negate)]
    case Decimal(digits) => [Plain(Integer, digits)]
    case Hexadecimal(_) => [Plain(Integer, Text(p))]
    case FloatLiteral(_, _, _) => [Plain(Float, Text(p))]
    case Mark(c) => if MarkKind(c).Some? then [Plain(MarkKind(c).value, [c])] else []
    case Blank => []
    case Line => [Plain(Newline, "\n")]
    case Comment(_) => []
  }

  ghost predicate IsFraction(s: string) {
    s == "" || (|s| > 1 && s[0] == '.' && All(IsDigit, s[1..]))
  }

  ghost predicate IsExponent(s: string) {
    s == "" || (|s| > 1 && s[0] == 'e' && IsDigits(s[1..][Sign(s[1..])..]))
  }

  /** A piece that is a token, or a blank or a comment. */
  ghost predicate WellFormed(p: Piece) {
    match p
    case Name(text) => IsIdent(text)
    case Prefix(kind, name) => (kind == Directive || kind == Special) && name != [] && All(IsIdentChar, name)
    case Guarded(_, name) => IsIdent(name)
    case Decimal(digits) => IsDigits(digits)
    case Hexadecimal(digits) => IsHexDigits(digits)
    case FloatLiteral(whole, fraction, exponent) =>
      IsDigits(whole) && IsFraction(fraction) && IsExponent(exponent) && fraction + exponent != ""
    case Mark(c) => MarkKind(c).Some?
    case Blank => true
    case Line => true
    case Comment(text) => All(NotNewline, text)
  }

  /** Names and numbers need something after them that cannot continue them; comments end at a line end. */
  ghost predicate Follows(p: Piece, rest: string) {
    match p
    case Mark(_) => true
    case Blank => true
    case Line => true
    case Comment(_) => rest == [] || rest[0] == '\n'
    case _ => Delimited(rest)
  }

  lemma NameLexed(text: string, rest: string)
    requires IsIdent(text) && Delimited(rest)
    ensures NextToken(text + rest) == Some(Scanned(Plain(Identifier, text), |text|))
  {
    hide Run, NumberToken, GuardToken, Prefixed;
    RunAppend(IsIdentChar, text, rest);
    assert (text + rest)[0] == text[0];
  }

  lemma PrefixLexed(kind: TokenKind, name: string, rest: string)
    requires (kind == Directive || kind == Special) && name != [] && All(IsIdentChar, name) && Delimited(rest)
    ensures NextToken(Text(Prefix(kind, name)) + rest)
            == Some(Scanned(Plain(kind, Text(Prefix(kind, name))), 1 + |name|))
  {
    hide Run, NumberToken, GuardToken;
    var text := Text(Prefix(kind, name));
    var s := text + rest;
    assert s[0] == text[0] && s[1..] == name + rest;
    RunAppend(IsIdentChar, name, rest);
    assert s[..1 + |name|] == text;
  }

  lemma GuardLexed(negate: bool, name: string, rest: string)
    requires IsIdent(name) && Delimited(rest)
    ensures NextToken(Text(Guarded(negate, name)) + rest)
            == Some(Scanned(Token(GuardMark, name, negate), |Text(Guarded(negate, name))|))
  {
    hide Run, NumberToken, Prefixed;
    var s := Text(Guarded(negate, name)) + rest;
    var at := if negate then 2 else 1;
    assert s[at..] == name + rest;
    assert s[at] == name[0];
    RunAppend(IsIdentChar, name, rest);
    assert s[at..at + |name|] == name;
  }

  lemma DecimalLexed(digits: string, rest: string)
    requires IsDigits(digits) && Delimited(rest)
    ensures NextToken(digits + rest) == Some(Scanned(Plain(Integer, digits), |digits|))
  {
    hide Run, HexToken, GuardToken, Prefixed;
    var s := digits + rest;
    RunAppend(IsDigit, digits, rest);
    assert s[0] == digits[0];
    assert !StartsHex(s);
    assert s[|digits|..] == rest;
    assert rest[0..] == rest;
    assert digits + "" == digits;
  }

  lemma HexLexed(digits: string, rest: string)
    requires IsHexDigits(digits) && Delimited(rest)
    ensures NextToken("0x" + digits + rest) == Some(Scanned(Plain(Integer, "0x" + digits), 2 + |digits|))
  {
    hide Run, Mantissa, Exponent, GuardToken, Prefixed;
    var s := "0x" + digits + rest;
    assert s[2..] == digits + rest;
    RunAppend(IsHexDigit, digits, rest);
    assert StartsHex(s);
  }

  lemma FractionLexed(fraction: string, rest: string)
    requires IsFraction(fraction) && (rest == [] || (!IsDigit(rest[0]) && rest[0] != '.'))
    ensures Fraction(fraction + rest) == |fraction|
  {
    if fraction == "" {
      assert fraction + rest == rest;
    } else {
      assert (fraction + rest)[1..] == fraction[1..] + rest;
      assert (fraction + rest)[1] == fraction[1..][0];
      RunAppend(IsDigit, fraction[1..], rest);
    }
  }

  lemma ExponentLexed(exponent: string, rest: string)
    requires IsExponent(exponent) && Delimited(rest)
    ensures Exponent(exponent + rest) == Some(|exponent|)
    ensures ExponentText(exponent + rest, |exponent|) == exponent
  {
    if exponent == "" {
      assert exponent + rest == rest;
    } else {
      var tail := exponent[1..];
      SignedDigitsLexed(tail, rest);
      hide Run, Sign;
      var s := exponent + rest;
      assert s[0] == exponent[0] && s[1..] == tail + rest;
      assert s[1..|exponent|] == tail;
      assert exponent == "e" + tail;
    }
  }

  lemma SignedDigitsLexed(tail: string, rest: string)
    requires tail != "" && IsDigits(tail[Sign(tail)..]) && Delimited(rest)
    ensures Sign(tail + rest) == Sign(tail)
    ensures Run(IsDigit, (tail + rest)[Sign(tail)..]) == |tail| - Sign(tail) > 0
  {
    hide Run;
    var digits := tail[Sign(tail)..];
    assert (tail + rest)[0] == tail[0];
    assert (tail + rest)[Sign(tail)..] == digits + rest;
    RunAppend(IsDigit, digits, rest);
  }

  lemma NumberScanned(s: string, m: nat, e: nat)
    requires s != [] && IsDigit(s[0]) && !StartsHex(s) && Mantissa(s) == m && Exponent(s[m..]) == Some(e)
    requires Delimited(s[m..][e..]) && (m > Run(IsDigit, s) || e > 0)
    ensures NextToken(s) == Some(Scanned(Plain(Float, s[..m] + ExponentText(s[m..], e)), m + e))
  {
    hide Run, Mantissa, Exponent, GuardToken, Prefixed, HexToken, ExponentText;
  }

  lemma MantissaLexed(whole: string, fraction: string, rest: string)
    requires IsDigits(whole) && IsFraction(fraction)
    requires rest == [] || (!IsDigit(rest[0]) && rest[0] != '.')
    requires fraction + rest == [] || !IsDigit((fraction + rest)[0])
    ensures var s := whole + (fraction + rest);
            && s[0] == whole[0] && Run(IsDigit, s) == |whole|
            && Mantissa(s) == |whole| + |fraction|
            && s[..|whole| + |fraction|] == whole + fraction && s[|whole| + |fraction|..] == rest
  {
    hide Run, IsFraction, Fraction;
    RunAppend(IsDigit, whole, fraction + rest);
    FractionLexed(fraction, rest);
  }

  /** A float does not begin like a hexadecimal number. */
  lemma FloatStarts(whole: string, fraction: string, exponent: string, rest: string, s: string)
    requires IsDigits(whole) && IsFraction(fraction) && IsExponent(exponent) && fraction + exponent != "" && Delimited(rest)
    requires s == whole + (fraction + (exponent + rest))
    ensures s != [] && IsDigit(s[0]) && !StartsHex(s)
  {
    hide IsFraction, IsExponent;
    AfterWhole(fraction, exponent, rest);
    if |whole| > 1 {
      assert s[1] == whole[1];
    } else {
      assert s[1] == (fraction + (exponent + rest))[0];
    }
  }

  lemma FloatLexed(whole: string, fraction: string, exponent: string, rest: string)
    requires WellFormed(FloatLiteral(whole, fraction, exponent)) && Delimited(rest)
    ensures var text := whole + fraction + exponent;
            NextToken(text + rest) == Some(Scanned(Plain(Float, text), |text|))
  {
    hide Run, Mantissa, Exponent, ExponentText, IsExponent, IsFraction, NextToken, StartsHex, Delimited;
    var text := whole + fraction + exponent;
    var s := text + rest;
    var m := |whole| + |fraction|;
    assert s == whole + (fraction + (exponent + rest));
    FloatStarts(whole, fraction, exponent, rest, s);
    AfterWhole(fraction, exponent, rest);
    MantissaLexed(whole, fraction, exponent + rest);
    ExponentLexed(exponent, rest);
    assert s[m..] == exponent + rest;
    assert (exponent + rest)[|exponent|..] == rest;
    NumberScanned(s, m, |exponent|);
    assert s[..m] + exponent == text;
  }

  /** What follows the whole digits of a float is not a digit, and not a hexadecimal prefix. */
  lemma AfterWhole(fraction: string, exponent: string, rest: string)
    requires IsFraction(fraction) && IsExponent(exponent) && fraction + exponent != "" && Delimited(rest)
    ensures var t := fraction + (exponent + rest); t != "" && !IsDigit(t[0]) && t[0] != 'x' && t[0] != 'X'
    ensures var u := exponent + rest; u == [] || (!IsDigit(u[0]) && u[0] != '.')
  {
    if exponent == "" { assert exponent + rest == rest; }
    if fraction == "" { assert fraction + (exponent + rest) == exponent + rest; }
  }

  /** The tokenizer takes one piece off the front of a text. */
  lemma PieceLexed(p: Piece, rest: string)
    requires WellFormed(p) && Follows(p, rest)
    ensures Scan(Text(p) + rest) == Prepend(TokensOf(p), Scan(rest))
  {
    hide NextToken, Run, Scan;
    var s := Text(p) + rest;
    assert s[|Text(p)|..] == rest;
    match p
    case Name(text) => NameLexed(text, rest); ScanToken(s);
    case Prefix(kind, name) => PrefixLexed(kind, name, rest); ScanToken(s);
    case Guarded(negate, name) => GuardLexed(negate, name, rest); ScanToken(s);
    case Decimal(digits) => DecimalLexed(digits, rest); assert s[0] == digits[0]; ScanToken(s);
    case Hexadecimal(digits) => HexLexed(digits, rest); ScanToken(s);
    case FloatLiteral(whole, fraction, exponent) =>
      FloatLexed(whole, fraction, exponent, rest);
      assert s[0] == whole[0];
      ScanToken(s);
    case Mark(c) => MarkLexed(c, rest); ScanToken(s);
    case Blank => ScanBlank(s); PrependNothing(Scan(rest));
    case Line => ScanLine(s);
    case Comment(text) => CommentLexed(text, rest); PrependNothing(Scan(rest));
  }

  lemma MarkLexed(c: char, rest: string)
    requires MarkKind(c).Some?
    ensures NextToken([c] + rest) == Some(Scanned(Plain(MarkKind(c).value, [c]), 1))
  {
    assert ([c] + rest)[0] == c;
  }

  lemma ScanToken(s: string)
    requires s != [] && s[0] != '\n' && !IsBlank(s[0]) && s[0] != '/' && NextToken(s).Some?
    ensures Scan(s) == Prepend([NextToken(s).value.token], Scan(s[NextToken(s).value.length..]))
  {
    hide NextToken;
  }

  lemma ScanBlank(s: string)
    requires s != [] && s[0] == ' '
    ensures Scan(s) == Scan(s[1..])
  {
  }

  lemma ScanLine(s: string)
    requires s != [] && s[0] == '\n'
    ensures Scan(s) == Prepend([Plain(Newline, "\n")], Scan(s[1..]))
  {
  }

  lemma CommentLexed(text: string, rest: string)
    requires All(NotNewline, text) && (rest == [] || rest[0] == '\n')
    ensures Scan("//" + text + rest) == Scan(rest)
  {
    hide NextToken;
    var s := "//" + text + rest;
    RunAppend(NotNewline, "//" + text, rest);
    assert s[|"//" + text|..] == rest;
  }

  // ---- sequences of pieces ----

  function Render(ps: seq<Piece>): string {
    if ps == [] then "" else Text(ps[0]) + Render(ps[1..])
  }

  function AllTokens(ps: seq<Piece>): seq<Token> {
    if ps == [] then [] else TokensOf(ps[0]) + AllTokens(ps[1..])
  }

  /** A piece that ends a name or a number when it comes next. */
  predicate Delimits(p: Piece) { p.Mark? || p.Blank? || p.Line? || p.Comment? }

  predicate Sticks(p: Piece) { !p.Mark? && !p.Blank? && !p.Line? && !p.Comment? }

  /** Whole lines: every name or number is delimited by the next piece, a comment by its line end. */
  ghost predicate Spaced(ps: seq<Piece>) {
    ps == [] ||
    (&& WellFormed(ps[0])
     && (Sticks(ps[0]) ==> |ps| > 1 && Delimits(ps[1]))
     && (ps[0].Comment? ==> |ps| > 1 && ps[1].Line?)
     && Spaced(ps[1..]))
  }

  lemma DelimitsText(p: Piece, rest: string)
    requires WellFormed(p) && Delimits(p)
    ensures Delimited(Text(p) + rest)
  {
    assert (Text(p) + rest)[0] == Text(p)[0];
  }

  /** Text rendered from well spaced pieces is tokenized piece by piece. */
  lemma {:induction false} RenderLexed(ps: seq<Piece>, rest: string)
    requires Spaced(ps)
    ensures Scan(Render(ps) + rest) == Prepend(AllTokens(ps), Scan(rest))
  {
    hide Scan, Text, TokensOf, WellFormed;
    if ps == [] {
      assert Render(ps) + rest == rest;
      PrependNothing(Scan(rest));
    } else {
      var tail := Render(ps[1..]) + rest;
      assert Render(ps) + rest == Text(ps[0]) + tail;
      NextFollows(ps, rest);
      PieceLexed(ps[0], tail);
      RenderLexed(ps[1..], rest);
      PrependTwice(TokensOf(ps[0]), AllTokens(ps[1..]), Scan(rest));
    }
  }

  lemma NextFollows(ps: seq<Piece>, rest: string)
    requires Spaced(ps) && ps != []
    ensures Follows(ps[0], Render(ps[1..]) + rest)
  {
    if |ps| > 1 {
      var tail := Render(ps[1..][1..]) + rest;
      assert Render(ps[1..]) + rest == Text(ps[1]) + tail;
      if Delimits(ps[1]) { DelimitsText(ps[1], tail); }
    }
  }

  lemma {:induction false} RenderAppend(a: seq<Piece>, b: seq<Piece>)
    ensures Render(a + b) == Render(a) + Render(b)
    ensures AllTokens(a + b) == AllTokens(a) + AllTokens(b)
  {
    hide Text, TokensOf;
    if a == [] {
      assert a + b == b;
    } else {
      assert (a + b)[1..] == a[1..] + b;
      RenderAppend(a[1..], b);
    }
  }

  /** `q` may come right after `p`. */
  predicate Joins(p: Piece, q: Piece) { (Sticks(p) ==> Delimits(q)) && (p.Comment? ==> q.Line?) }

  /** Well spaced, except that the last piece may need something after it. */
  ghost predicate Loose(ps: seq<Piece>) {
    && (forall k | 0 <= k < |ps| :: WellFormed(ps[k]))
    && (forall k | 0 <= k < |ps| - 1 :: Joins(ps[k], ps[k + 1]))
  }

  lemma LooseAppend(a: seq<Piece>, b: seq<Piece>)
    requires Loose(a) && Loose(b) && (a != [] && b != [] ==> Joins(a[|a| - 1], b[0]))
    ensures Loose(a + b)
  {
    hide WellFormed, Joins;
    var ps := a + b;
    forall k | 0 <= k < |ps| - 1 ensures Joins(ps[k], ps[k + 1]) {
      if k + 1 < |a| {
        assert Joins(a[k], a[k + 1]);
      } else if k >= |a| {
        assert Joins(b[k - |a|], b[k - |a| + 1]);
      }
    }
  }

  /** Whole lines are well spaced. */
  lemma {:induction false} LooseSpaced(ps: seq<Piece>)
    requires Loose(ps) && (ps != [] ==> ps[|ps| - 1].Line?)
    ensures Spaced(ps)
  {
    hide WellFormed;
    if ps != [] {
      assert Loose(ps[1..]) by {
        forall k | 0 <= k < |ps[1..]| - 1 ensures Joins(ps[1..][k], ps[1..][k + 1]) {
          assert Joins(ps[k + 1], ps[k + 2]);
        }
      }
      LooseSpaced(ps[1..]);
      if |ps| > 1 { assert Joins(ps[0], ps[1]); }
    }
  }
}
