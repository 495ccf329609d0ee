/** The tokenizer: what it returns, and the loop that computes it. */
module Lexing {
  import opened Isa
  import opened Numerals

  datatype TokenKind =
    | Identifier | Directive | GuardMark | Special | Integer | Float
    | Comma | LBracket | RBracket | Plus | Minus | Colon | Newline | End

  datatype Token = Token(kind: TokenKind, text: string, negate: bool)

  /** A token and the number of characters it takes up. */
  datatype Scanned = Scanned(token: Token, length: nat)

  function Plain(kind: TokenKind, text: string): Token { Token(kind, text, false) }

  function MarkKind(c: char): Option<TokenKind> {
    match c
    case ',' => Some(Comma)
    case '[' => Some(LBracket)
    case ']' => Some(RBracket)
    case '+' => Some(Plus)
    case '-' => Some(Minus)
    case ':' => Some(Colon)
    case _ => None
  }

  predicate IsBlank(c: char) { c == ' ' || c == '\t' || c == '\r' }

  /** The length of a fraction `.digits` at the start of `s`, or zero. */
  function Fraction(s: string): (n: nat)
    ensures n <= |s|
  {
    if |s| > 1 && s[0] == '.' && IsDigit(s[1]) then 1 + Run(IsDigit, s[1..]) else 0
  }

  function Sign(s: string): (n: nat)
    ensures n <= |s|
  {
    if s != [] && (s[0] == '+' || s[0] == '-') then 1 else 0
  }

  predicate StartsExponent(s: string) { s != [] && (s[0] == 'e' || s[0] == 'E') }

  /** The length of an exponent at the start of `s`, or zero: an `e` must be followed by an optional sign
      and digits. */
  function Exponent(s: string): (n: Option<nat>)
    ensures n.Some? ==> n.value <= |s| && (n.value > 0 <==> StartsExponent(s))
  {
    if !StartsExponent(s) then Some(0)
    else
      var sign := Sign(s[1..]);
      var digits := Run(IsDigit, s[1..][sign..]);
      if digits == 0 then None else Some(1 + sign + digits)
  }

  predicate StartsHex(s: string) {
    |s| >= 2 && s[0] == '0' && (s[1] == 'x' || s[1] == 'X')
  }

  function HexToken(s: string): (r: Option<Scanned>)
    requires StartsHex(s)
    ensures r.Some? ==> 0 < r.value.length <= |s|
  {
    var n := Run(IsHexDigit, s[2..]);
    if n == 0 then None else Some(Scanned(Plain(Integer, "0x" + s[2..][..n]), 2 + n))
  }

  /** The digits of a decimal number with its fraction. */
  function Mantissa(s: string): (n: nat)
    requires s != [] && IsDigit(s[0])
    ensures 0 < n <= |s|
  {
    var whole := Run(IsDigit, s);
    whole + Fraction(s[whole..])
  }

  /** An exponent is normalised to a lower-case `e`. */
  function ExponentText(s: string, length: nat): string
    requires length <= |s|
  {
    if length > 0 then "e" + s[1..length] else ""
  }

  /** The sign and the digits of an exponent are its text. */
  lemma ExponentParts(s: string, sign: string, digits: string)
    requires StartsExponent(s) && digits != ""
    requires |sign| == Sign(s[1..]) && sign == s[1..][..|sign|]
    requires |digits| == Run(IsDigit, s[1..][|sign|..]) && digits == s[1..][|sign|..][..|digits|]
    ensures Exponent(s) == Some(1 + |sign| + |digits|) && 1 + |sign| + |digits| <= |s|
    ensures ExponentText(s, 1 + |sign| + |digits|) == "e" + (sign + digits)
    ensures s[1..][|sign|..][|digits|..] == s[1 + |sign| + |digits|..]
  {
    hide Run, Sign;
    SliceSplit(s[1..], |sign|, |digits|);
    assert s[1..][..|sign| + |digits|] == s[1..1 + |sign| + |digits|];
  }

  predicate Delimited(s: string) { s == [] || !IsIdentChar(s[0]) }

  /** A number: hexadecimal, decimal, or floating-point when it has a fraction or an exponent. */
  function NumberToken(s: string): (r: Option<Scanned>)
    requires s != [] && IsDigit(s[0])
    ensures r.Some? ==> 0 < r.value.length <= |s|
  {
    if StartsHex(s) then HexToken(s)
    else
      var m := Mantissa(s);
      match Exponent(s[m..])
      case None => None
      case Some(e) =>
        if !Delimited(s[m..][e..]) then None
        else Some(Scanned(Plain(if m > Run(IsDigit, s) || e > 0 then Float else Integer,
                                s[..m] + ExponentText(s[m..], e)),
                          m + e))
  }

  /** A directive or a special register: a name after a one-character prefix. */
  function Prefixed(kind: TokenKind, s: string): (r: Option<Scanned>)
    requires s != []
    ensures r.Some? ==> 0 < r.value.length <= |s|
  {
    var n := Run(IsIdentChar, s[1..]);
    if n == 0 then None else Some(Scanned(Plain(kind, [s[0]] + s[1..1 + n]), 1 + n))
  }

  /** A guard: `@` or `@!` and a name. */
  function GuardToken(s: string): (r: Option<Scanned>)
    requires s != []
    ensures r.Some? ==> 0 < r.value.length <= |s|
  {
    var at := if |s| > 1 && s[1] == '!' then 2 else 1;
    var n := Run(IsIdentChar, s[at..]);
    if n == 0 then None else Some(Scanned(Token(GuardMark, s[at..at + n], at == 2), at + n))
  }

  /** The token at the start of `s`; none is an error. */
  function NextToken(s: string): (r: Option<Scanned>)
    requires s != []
    ensures r.Some? ==> 0 < r.value.length <= |s|
  {
    var c := s[0];
    if MarkKind(c).Some? then Some(Scanned(Plain(MarkKind(c).value, [c]), 1))
    else if c == '.' then Prefixed(Directive, s)
    else if c == '@' then GuardToken(s)
    else if c == '%' then Prefixed(Special, s)
    else if IsIdentStart(c) then
      var n := Run(IsIdentChar, s);
      Some(Scanned(Plain(Identifier, s[..n]), n))
    else if IsDigit(c) then NumberToken(s)
    else None
  }

  predicate StartsComment(s: string) { |s| >= 2 && s[0] == '/' && s[1] == '/' }

  predicate NotNewline(c: char) { c != '\n' }

  function Prepend(tokens: seq<Token>, r: Option<seq<Token>>): Option<seq<Token>> {
    match r
    case None => None
    case Some(more) => Some(tokens + more)
  }

  /** The tokens of `s`; comments and blanks are dropped and a line end is a token. */
  function Scan(s: string): Option<seq<Token>>
    decreases |s|
  {
    if s == [] then Some([])
    else if s[0] == '\n' then Prepend([Plain(Newline, "\n")], Scan(s[1..]))
    else if IsBlank(s[0]) then Scan(s[1..])
    else if StartsComment(s) then (CommentLength(s); Scan(s[Run(NotNewline, s)..]))
    else match NextToken(s)
      case None => None
      case Some(t) => Prepend([t.token], Scan(s[t.length..]))
  }

  lemma CommentLength(s: string)
    requires StartsComment(s)
    ensures Run(NotNewline, s) > 0
  {
  }

  /** Every line ends with a newline token and the stream ends with `End`. */
  function Finish(tokens: seq<Token>): seq<Token> {
    (if tokens == [] || tokens[|tokens| - 1].kind != Newline then tokens + [Plain(Newline, "\n")] else tokens)
    + [Plain(End, "")]
  }

  function Lex(source: string): Option<seq<Token>> {
    match Scan(source)
    case None => None
    case Some(tokens) => Some(Finish(tokens))
  }

  // ---- the tokenizer object ----

  class Lexer {
    const source: string
    var pos: nat

    ghost predicate Valid()
      reads this
    {
      pos <= |source|
    }

    ghost function Rest(): string
      requires Valid()
      reads this
    {
      source[pos..]
    }

    constructor (source: string)
      ensures this.source == source && pos == 0
    {
      this.source := source;
      pos := 0;
    }

    /** The character `ahead` of the position, if there is one. */
    function Peek(ahead: nat): Option<char>
      requires Valid()
      reads this
    {
      if pos + ahead < |source| then Some(source[pos + ahead]) else None
    }

    method TakeWhile(p: char -> bool) returns (text: string)
      requires Valid()
      modifies this
      ensures Valid() && pos == old(pos) + Run(p, old(Rest())) && text == old(Rest())[..pos - old(pos)]
      ensures old(pos) + |text| == pos && Rest() == old(Rest())[|text|..]
    {
      var start := pos;
      while pos < |source| && p(source[pos])
        invariant start <= pos <= |source|
        invariant All(p, source[start..pos])
      {
        assert source[start..pos + 1] == source[start..pos] + [source[pos]];
        pos := pos + 1;
      }
      text := source[start..pos];
      assert source[start..][..pos - start] == text;
      assert source[start..][pos - start..] == source[pos..];
      RunIs(p, source[start..], pos - start);
    }

    method ScanHex() returns (r: Option<Token>)
      requires Valid() && StartsHex(Rest())
      modifies this
      ensures match HexToken(old(Rest()))
              case None => r == None
              case Some(t) => r == Some(t.token) && Valid() && pos == old(pos) + t.length
    {
      ghost var s := Rest();
      pos := pos + 2;
      assert s[2..] == Rest();
      var digits := TakeWhile(IsHexDigit);
      if digits == "" {
        return None;
      }
      return Some(Plain(Integer, "0x" + digits));
    }

    method ScanFraction() returns (text: string)
      requires Valid()
      modifies this
      ensures Valid() && Fraction(old(Rest())) == |text| && text == old(Rest())[..|text|]
      ensures pos == old(pos) + |text| && Rest() == old(Rest())[|text|..]
    {
      ghost var s := Rest();
      if Peek(0) != Some('.') || Peek(1).None? || !IsDigit(Peek(1).value) {
        return "";
      }
      pos := pos + 1;
      assert s[1..] == Rest();
      var digits := TakeWhile(IsDigit);
      assert s[1..][|digits|..] == s[1 + |digits|..];
      return "." + digits;
    }

    method ScanSign() returns (text: string)
      requires Valid()
      modifies this
      ensures Valid() && Sign(old(Rest())) == |text| && text == old(Rest())[..|text|]
      ensures pos == old(pos) + |text| && Rest() == old(Rest())[|text|..]
    {
      if Peek(0) == Some('+') || Peek(0) == Some('-') {
        text := [source[pos]];
        pos := pos + 1;
      } else {
        text := "";
      }
    }

    /** The text of an exponent. */
    method ScanExponent() returns (text: Option<string>)
      requires Valid()
      modifies this
      ensures match Exponent(old(Rest()))
              case None => text == None
              case Some(n) =>
                (text == Some(ExponentText(old(Rest()), n)) && Valid() && pos == old(pos) + n
                 && Rest() == old(Rest())[n..])
    {
      hide Run, Sign;
      ghost var s := Rest();
      if Peek(0) != Some('e') && Peek(0) != Some('E') {
        return Some("");
      }
      pos := pos + 1;
      assert s[1..] == Rest();
      var sign := ScanSign();
      var digits := TakeWhile(IsDigit);
      if digits == "" {
        return None;
      }
      ExponentParts(s, sign, digits);
      return Some("e" + (sign + digits));
    }

    /** The digits of a number with its fraction. */
    method ScanMantissa() returns (text: string, whole: nat)
      requires Valid() && pos < |source| && IsDigit(source[pos])
      modifies this
      ensures var m := Mantissa(old(Rest()));
              && Valid() && text == old(Rest())[..m] && pos == old(pos) + m && Rest() == old(Rest())[m..]
      ensures whole == Run(IsDigit, old(Rest()))
    {
      hide Run, Fraction;
      ghost var s := Rest();
      var digits := TakeWhile(IsDigit);
      var fraction := ScanFraction();
      SliceSplit(s, |digits|, |fraction|);
      return digits + fraction, |digits|;
    }

    method ScanNumber() returns (r: Option<Token>)
      requires Valid() && pos < |source| && IsDigit(source[pos])
      modifies this
      ensures match NumberToken(old(Rest()))
              case None => r == None
              case Some(t) => r == Some(t.token) && Valid() && pos == old(pos) + t.length
    {
      hide Run, Mantissa, Exponent, HexToken;
      if source[pos] == '0' && (Peek(1) == Some('x') || Peek(1) == Some('X')) {
        r := ScanHex();
        return;
      }
      var mantissa, whole := ScanMantissa();
      var exponent := ScanExponent();
      if exponent == None {
        return None;
      }
      if Peek(0).Some? && IsIdentChar(Peek(0).value) {
        return None;
      }
      var isFloat := |mantissa| > whole || exponent.value != "";
      return Some(Plain(if isFloat then Float else Integer, mantissa + exponent.value));
    }

    /** A name after a one-character prefix. */
    method ScanPrefixed(kind: TokenKind) returns (r: Option<Token>)
      requires Valid() && pos < |source|
      modifies this
      ensures match Prefixed(kind, old(Rest()))
              case None => r == None
              case Some(t) => r == Some(t.token) && Valid() && pos == old(pos) + t.length
    {
      ghost var s := Rest();
      var c := source[pos];
      pos := pos + 1;
      assert s[1..] == source[pos..];
      var name := TakeWhile(IsIdentChar);
      if name == "" {
        return None;
      }
      assert name == s[1..1 + |name|];
      return Some(Plain(kind, [c] + name));
    }

    method ScanGuard() returns (r: Option<Token>)
      requires Valid() && pos < |source|
      modifies this
      ensures match GuardToken(old(Rest()))
              case None => r == None
              case Some(t) => r == Some(t.token) && Valid() && pos == old(pos) + t.length
    {
      ghost var s := Rest();
      ghost var start := pos;
      pos := pos + 1;
      var negate := Peek(0) == Some('!');
      if negate {
        pos := pos + 1;
      }
      ghost var at := pos - start;
      assert s[at..] == source[pos..];
      var name := TakeWhile(IsIdentChar);
      if name == "" {
        return None;
      }
      assert name == s[at..at + |name|];
      return Some(Token(GuardMark, name, negate));
    }

    method ScanToken() returns (r: Option<Token>)
      requires Valid() && pos < |source|
      modifies this
      ensures match NextToken(old(Rest()))
              case None => r == None
              case Some(t) => r == Some(t.token) && Valid() && pos == old(pos) + t.length
    {
      hide NumberToken, Prefixed, GuardToken, Run;
      var c := source[pos];
      if MarkKind(c).Some? {
        pos := pos + 1;
        return Some(Plain(MarkKind(c).value, [c]));
      }
      if c == '.' {
        r := ScanPrefixed(Directive);
      } else if c == '@' {
        r := ScanGuard();
      } else if c == '%' {
        r := ScanPrefixed(Special);
      } else if IsIdentStart(c) {
        var name := TakeWhile(IsIdentChar);
        r := Some(Plain(Identifier, name));
      } else if IsDigit(c) {
        r := ScanNumber();
      } else {
        r := None;
      }
    }

    method SkipComment()
      requires Valid()
      modifies this
      ensures Valid() && pos == old(pos) + Run(NotNewline, old(Rest()))
    {
      var comment := TakeWhile(NotNewline);
    }

    method Tokenize() returns (r: Option<seq<Token>>)
      requires pos == 0
      modifies this
      ensures r == Lex(source)
    {
      hide NextToken;
      var tokens: seq<Token> := [];
      assert source[0..] == source;
      PrependNothing(Scan(source));
      while pos < |source|
        invariant Valid() && Prepend(tokens, Scan(Rest())) == Scan(source)
        decreases |source| - pos
      {
        ghost var s := Rest();
        ghost var before := tokens;
        var c := source[pos];
        if c == '\n' {
          tokens := tokens + [Plain(Newline, "\n")];
          pos := pos + 1;
          assert s[1..] == Rest();
          PrependTwice(before, [Plain(Newline, "\n")], Scan(Rest()));
          continue;
        }
        if IsBlank(c) {
          pos := pos + 1;
          assert s[1..] == Rest();
          continue;
        }
        if c == '/' && Peek(1) == Some('/') {
          CommentLength(s);
          SkipComment();
          assert s[Run(NotNewline, s)..] == Rest();
          continue;
        }
        var token := ScanToken();
        if token == None {
          return None;
        }
        tokens := tokens + [token.value];
        assert s[NextToken(s).value.length..] == Rest();
        PrependTwice(before, [token.value], Scan(Rest()));
      }
      assert tokens + [] == tokens;
      if tokens == [] || tokens[|tokens| - 1].kind != Newline {
        tokens := tokens + [Plain(Newline, "\n")];
      }
      return Some(tokens + [Plain(End, "")]);
    }
  }

  lemma SliceSplit(s: string, a: nat, b: nat)
    requires a + b <= |s|
    ensures s[..a] + s[a..][..b] == s[..a + b] && s[a..][b..] == s[a + b..]
  {
  }

  lemma PrependNothing(r: Option<seq<Token>>)
    ensures Prepend([], r) == r
  {
    if r.Some? { assert [] + r.value == r.value; }
  }

  lemma PrependTwice(a: seq<Token>, b: seq<Token>, r: Option<seq<Token>>)
    ensures Prepend(a + b, r) == Prepend(a, Prepend(b, r))
  {
    if r.Some? { assert a + b + r.value == a + (b + r.value); }
  }
}
