/**
 * Digit strings as the calculators read and write them: Python's format(v, 'b'/'o'/'X'),
 * str(int), int(text, base), and float() on the plain decimal numerals a keypad can type.
 */
module Numerals {
  import opened Options

  /** Upper-case digit symbols in the order of their values, as format(v, 'X') writes them. */
  const Symbols: string := "0123456789ABCDEF"

  predicate ValidBase(base: nat) { 2 <= base <= 16 }

  function Pow(b: nat, e: nat): (r: nat)
    ensures b >= 1 ==> r >= 1
  {
    if e == 0 then 1 else b * Pow(b, e - 1)
  }

  /** The value int() gives a digit symbol; int() accepts both letter cases. */
  function DigitValue(c: char): Option<nat>
  {
    if '0' <= c <= '9' then Some(c as int - '0' as int)
    else if 'A' <= c <= 'F' then Some(c as int - 'A' as int + 10)
    else if 'a' <= c <= 'f' then Some(c as int - 'a' as int + 10)
    else None
  }

  predicate IsDigit(c: char, base: nat)
  {
    DigitValue(c).Some? && DigitValue(c).value < base
  }

  predicate AllDigits(s: string, base: nat)
  {
    forall i :: 0 <= i < |s| ==> IsDigit(s[i], base)
  }

  lemma SymbolValue(d: nat)
    requires d < 16
    ensures DigitValue(Symbols[d]) == Some(d)
  {
  }

  /** format(n, base) for a non-negative n: no padding, no leading zeros, upper-case letters. */
  function Digits(n: nat, base: nat): (s: string)
    requires ValidBase(base)
    ensures |s| >= 1
    decreases n
  {
    if n < base then [Symbols[n]] else Digits(n / base, base) + [Symbols[n % base]]
  }

  /** The value of a digit symbol, 0 for any other character. */
  function DigitOf(c: char): nat
  {
    match DigitValue(c)
    case Some(d) => d
    case None => 0
  }

  /** The value of a digit string read most significant digit first (0 for the empty string). */
  function NatValue(s: string, base: nat): nat
  {
    if s == [] then 0 else NatValue(s[..|s| - 1], base) * base + DigitOf(s[|s| - 1])
  }

  /** format(v, base) and str(v) for any int: a leading '-' on negative values. */
  function Format(v: int, base: nat): string
    requires ValidBase(base)
  {
    if v < 0 then "-" + Digits(-v, base) else Digits(v, base)
  }

  /** str(v) for a Python int. */
  function IntText(v: int): string
  {
    Format(v, 10)
  }

  /** int(text, base) on an optional sign followed by digits; every other text raises (None). */
  function ParseInt(s: string, base: nat): Option<int>
  {
    if |s| > 0 && (s[0] == '-' || s[0] == '+') then
      if |s| > 1 && AllDigits(s[1..], base) then
        var magnitude: int := NatValue(s[1..], base);
        Some(if s[0] == '-' then -magnitude else magnitude)
      else None
    else if |s| > 0 && AllDigits(s, base) then Some(NatValue(s, base))
    else None
  }

  lemma DivMod(n: int, d: nat)
    requires d > 0
    ensures (n / d) * d + n % d == n
  {
  }

  /** Appending a digit multiplies the value by the base and adds the digit. */
  lemma NatValueSnoc(front: string, c: char, base: nat)
    ensures NatValue(front + [c], base) == NatValue(front, base) * base + DigitOf(c)
  {
    assert (front + [c])[..|front|] == front;
  }

  lemma {:induction false} DigitsAreDigits(n: nat, base: nat)
    requires ValidBase(base)
    ensures AllDigits(Digits(n, base), base)
    decreases n
  {
    if n < base {
      SymbolValue(n);
    } else {
      SymbolValue(n % base);
      DigitsAreDigits(n / base, base);
    }
  }

  lemma SingleDigitValue(n: nat, base: nat)
    requires ValidBase(base) && n < base
    ensures NatValue(Digits(n, base), base) == n
  {
    SymbolValue(n);
    assert Digits(n, base) == [] + [Symbols[n]];
    NatValueSnoc([], Symbols[n], base);
  }

  lemma LastDigitValue(n: nat, base: nat)
    requires ValidBase(base) && n >= base
    requires NatValue(Digits(n / base, base), base) == n / base
    ensures NatValue(Digits(n, base), base) == n
  {
    SymbolValue(n % base);
    NatValueSnoc(Digits(n / base, base), Symbols[n % base], base);
    DivMod(n, base);
  }

  /** Reading the digits of n back gives n. */
  lemma {:induction false} DigitsValue(n: nat, base: nat)
    requires ValidBase(base)
    ensures NatValue(Digits(n, base), base) == n
    decreases n
  {
    if n < base {
      SingleDigitValue(n, base);
    } else {
      DigitsValue(n / base, base);
      LastDigitValue(n, base);
    }
  }

  /** int() of a non-empty digit string is its value. */
  lemma ParseDigitString(s: string, base: nat)
    requires |s| > 0 && AllDigits(s, base)
    ensures ParseInt(s, base) == Some(NatValue(s, base))
    ensures ParseInt("-" + s, base) == Some(-(NatValue(s, base) as int))
  {
    assert IsDigit(s[0], base);
    assert ("-" + s)[1..] == s;
  }

  /** Re-parsing a rendered value in the same base gives the value back. */
  lemma FormatRoundTrip(v: int, base: nat)
    requires ValidBase(base)
    ensures ParseInt(Format(v, base), base) == Some(v)
  {
    var n: nat := if v < 0 then -v else v;
    DigitsValue(n, base);
    DigitsAreDigits(n, base);
    ParseDigitString(Digits(n, base), base);
  }

  /** Characters a keypad entry or an integer's text is made of. */
  predicate PlainNumeral(s: string)
  {
    forall i :: 0 <= i < |s| ==> s[i] in "0123456789.-"
  }

  function IndexOf(s: string, c: char): (k: nat)
    requires c in s
    ensures k < |s| && s[k] == c && c !in s[..k]
  {
    if s[0] == c then 0 else 1 + IndexOf(s[1..], c)
  }

  /**
   * float() on a sign-free plain numeral: digits with at most one '.', at least one digit
   * ("5", "5.", ".5", "5.25"); anything else raises.
   */
  function UnsignedDecimal(s: string): Option<real>
  {
    if '.' in s then
      var k := IndexOf(s, '.');
      var whole, fraction := s[..k], s[k + 1..];
      if (|whole| > 0 || |fraction| > 0) && AllDigits(whole, 10) && AllDigits(fraction, 10) then
        Some(NatValue(whole, 10) as real + NatValue(fraction, 10) as real / Pow(10, |fraction|) as real)
      else None
    else if |s| > 0 && AllDigits(s, 10) then Some(NatValue(s, 10) as real)
    else None
  }

  /**
   * Python float(text). Over the characters 0-9, '.', '-', Python accepts exactly an optional
   * leading '-' followed by an unsigned decimal; any other text (exponents, "inf", "nan",
   * surrounding blanks) is decided by `syntax`, the rest of Python's float grammar.
   */
  function PyFloat(s: string, syntax: string -> Option<real>): Option<real>
  {
    if !PlainNumeral(s) then syntax(s)
    else if |s| > 0 && s[0] == '-' then
      match UnsignedDecimal(s[1..])
      case Some(x) => Some(-x)
      case None => None
    else UnsignedDecimal(s)
  }

  lemma DigitsArePlain(s: string)
    requires AllDigits(s, 10)
    ensures PlainNumeral(s) && '.' !in s
  {
    forall k | 0 <= k < |s| ensures s[k] in "0123456789" {
      assert IsDigit(s[k], 10);
    }
  }

  /** float(str(i)) == i for every Python int i. */
  lemma FloatOfIntText(i: int, syntax: string -> Option<real>)
    ensures PyFloat(IntText(i), syntax) == Some(i as real)
  {
    var n: nat := if i < 0 then -i else i;
    var d := Digits(n, 10);
    DigitsValue(n, 10);
    DigitsAreDigits(n, 10);
    DigitsArePlain(d);
    if i < 0 {
      assert IntText(i)[1..] == d;
    } else {
      assert IsDigit(d[0], 10);
    }
  }

  /** float() rejects the empty text and a lone sign or point. */
  lemma FloatRejectsFragments(syntax: string -> Option<real>)
    ensures PyFloat("", syntax) == None
    ensures PyFloat(".", syntax) == None
    ensures PyFloat("-", syntax) == None
    ensures PyFloat("-.", syntax) == None
  {
    assert "."[..0] == [] && "."[1..] == [];
    assert "-."[1..] == ".";
  }
}
