/** Characters and the decimal and hexadecimal numerals of the assembly text. */
module Numerals {

  predicate IsDigit(c: char) { '0' <= c <= '9' }

  predicate IsHexDigit(c: char) { IsDigit(c) || 'a' <= c <= 'f' || 'A' <= c <= 'F' }

  predicate IsIdentStart(c: char) { 'a' <= c <= 'z' || 'A' <= c <= 'Z' || c == '_' }

  predicate IsIdentChar(c: char) { IsIdentStart(c) || IsDigit(c) || c == '.' }

  ghost predicate All(p: char -> bool, s: string) {
    forall k | 0 <= k < |s| :: p(s[k])
  }

  /** The length of the longest prefix whose characters satisfy `p`. */
  function Run(p: char -> bool, s: string): (n: nat)
    ensures n <= |s| && All(p, s[..n]) && (n < |s| ==> !p(s[n]))
  {
    if s == [] || !p(s[0]) then 0
    else
      var n := 1 + Run(p, s[1..]);
      assert forall k | 1 <= k < n :: s[..n][k] == s[1..][..n - 1][k - 1];
      n
  }

  lemma {:induction false} RunIs(p: char -> bool, s: string, n: nat)
    requires n <= |s| && All(p, s[..n]) && (n < |s| ==> !p(s[n]))
    ensures Run(p, s) == n
  {
    if n > 0 {
      assert s[..n][0] == s[0];
      assert s[1..][..n - 1] == s[..n][1..];
      RunIs(p, s[1..], n - 1);
    }
  }

  /** A run ends where the text put after it starts. */
  lemma RunAppend(p: char -> bool, a: string, rest: string)
    requires All(p, a) && (rest == [] || !p(rest[0]))
    ensures Run(p, a + rest) == |a| && (a + rest)[..|a|] == a && (a + rest)[|a|..] == rest
  {
    assert (a + rest)[..|a|] == a;
    RunIs(p, a + rest, |a|);
  }

  /** A nonempty identifier text. */
  ghost predicate IsIdent(s: string) {
    s != [] && IsIdentStart(s[0]) && All(IsIdentChar, s)
  }

  ghost predicate IsDigits(s: string) { s != [] && All(IsDigit, s) }

  ghost predicate IsHexDigits(s: string) { s != [] && All(IsHexDigit, s) }

  // ---- numerals ----

  function DigitChar(d: nat): char
    requires d < 16
  {
    if d < 10 then '0' + d as char else 'a' + (d - 10) as char
  }

  function DigitValue(c: char): nat
    requires IsHexDigit(c)
  {
    if IsDigit(c) then (c - '0') as nat
    else if 'a' <= c <= 'f' then (c - 'a') as nat + 10
    else (c - 'A') as nat + 10
  }

  /** The shortest numeral of `n` in `radix`: `std::to_string` and `std::to_chars`. */
  function Numeral(n: nat, radix: nat): (s: string)
    requires 2 <= radix <= 16
    ensures s != [] && All(IsHexDigit, s)
    ensures radix <= 10 ==> All(IsDigit, s)
  {
    if n < radix then [DigitChar(n)]
    else (Smaller(n, radix); Numeral(n / radix, radix) + [DigitChar(n % radix)])
  }

  lemma Smaller(n: nat, radix: nat)
    requires 2 <= radix <= n
    ensures 0 < n / radix < n
  {
    assert n == (n / radix) * radix + n % radix;
  }

  /** The value of a numeral: `std::from_chars`, which for the integer types used here reads any number
      of digits and reports values that are too large. */
  function Value(s: string, radix: nat): nat
    requires All(IsHexDigit, s)
  {
    if s == [] then 0
    else
      assert All(IsHexDigit, s[..|s| - 1]);
      Value(s[..|s| - 1], radix) * radix + DigitValue(s[|s| - 1])
  }

  lemma DivMod(n: nat, radix: nat)
    requires radix > 0
    ensures n == (n / radix) * radix + n % radix && n % radix < radix
  {
  }

  lemma DigitRoundTrip(d: nat)
    requires d < 16
    ensures DigitValue(DigitChar(d)) == d
  {
  }

  lemma {:induction false} ValueOfNumeral(n: nat, radix: nat)
    requires 2 <= radix <= 16
    ensures Value(Numeral(n, radix), radix) == n
  {
    hide DigitValue, Value;
    DivMod(n, radix);
    if n < radix {
      DigitRoundTrip(n);
      OneDigit(n, radix);
    } else {
      Smaller(n, radix);
      ValueOfNumeral(n / radix, radix);
      DigitRoundTrip(n % radix);
      ValueStep(Numeral(n / radix, radix), DigitChar(n % radix), radix);
    }
  }

  lemma OneDigit(n: nat, radix: nat)
    requires n < radix <= 16
    ensures Value([DigitChar(n)], radix) == DigitValue(DigitChar(n))
  {
    assert [DigitChar(n)][..0] == [];
  }

  lemma ValueStep(s: string, c: char, radix: nat)
    requires All(IsHexDigit, s) && IsHexDigit(c)
    ensures All(IsHexDigit, s + [c]) && Value(s + [c], radix) == Value(s, radix) * radix + DigitValue(c)
  {
    assert (s + [c])[..|s|] == s;
  }

  /** Only zero starts with the digit zero. */
  lemma {:induction false} NoLeadingZero(n: nat, radix: nat)
    requires 2 <= radix <= 16
    ensures Numeral(n, radix)[0] == '0' <==> n == 0
    ensures |Numeral(n, radix)| == 1 <==> n < radix
  {
    if n >= radix {
      Smaller(n, radix);
      NoLeadingZero(n / radix, radix);
    }
  }
}
