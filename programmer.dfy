/**
 * The programmer calculator: one unbounded integer shown in four bases, masked
 * to the selected word size on display only, edited digit by digit in the
 * selected base, and combined with AND, OR, XOR, NOT and shifts.
 */
module Programmer {
  import opened Options
  import opened Numerals
  import opened Bits
  import opened History

  /** The base selected with the radio buttons; digits are typed and erased in this base. */
  datatype DisplayBase = Bin | Oct | Dec | Hex

  function Radix(b: DisplayBase): (r: nat)
    ensures ValidBase(r)
  {
    match b
    case Bin => 2
    case Oct => 8
    case Dec => 10
    case Hex => 16
  }

  /** The base's name in capitals, as the "=" history entry shows it. */
  function Label(b: DisplayBase): string
  {
    match b
    case Bin => "BIN"
    case Oct => "OCT"
    case Dec => "DEC"
    case Hex => "HEX"
  }

  /** The word sizes the read-only combobox offers. */
  predicate IsWordSize(w: nat)
  {
    w == 8 || w == 16 || w == 32 || w == 64
  }

  /** Whether a keypad button is enabled for the selected base (update_button_states). */
  predicate ButtonEnabled(b: DisplayBase, key: char)
  {
    if key in "ABCDEF" then b == Hex
    else if key in "23456789" then b != Bin && !(b == Oct && key in "89")
    else key in "01"
  }

  /** Exactly the digits legal in the selected base are enabled. */
  lemma ButtonsMatchBase(b: DisplayBase, key: char)
    requires key in Symbols
    ensures ButtonEnabled(b, key) <==> IsDigit(key, Radix(b))
  {
  }

  // ---------------------------------------------------------------- displays

  datatype Displays = Displays(bin: string, oct: string, dec: string, hex: string)

  function Zeros(k: nat): (z: string)
    ensures |z| == k && forall i :: 0 <= i < k ==> z[i] == '0'
  {
    if k == 0 then [] else Zeros(k - 1) + ['0']
  }

  /** format(m, '0<w>b'): the binary digits, zero-padded on the left to at least w characters. */
  function BinaryField(m: nat, w: nat): string
  {
    var s := Digits(m, 2);
    if |s| < w then Zeros(w - |s|) + s else s
  }

  /** The text cut into blocks of four characters from the left, joined by single spaces. */
  function GroupsOfFour(s: string): string
    decreases |s|
  {
    if |s| <= 4 then s else s[..4] + " " + GroupsOfFour(s[4..])
  }

  /** What update_displays writes into the four read-only entries. */
  function Render(value: int, w: nat): Displays
  {
    var m := Masked(value, w);
    Displays(GroupsOfFour(BinaryField(m, w)), Digits(m, 8), Digits(m, 10), Digits(m, 16))
  }

  /** The entry of the selected base. */
  function Shown(d: Displays, b: DisplayBase): string
  {
    match b
    case Bin => d.bin
    case Oct => d.oct
    case Dec => d.dec
    case Hex => d.hex
  }

  lemma {:induction false} BinaryDigitsFit(m: nat, w: nat)
    requires w >= 1 && m < Pow(2, w)
    ensures |Digits(m, 2)| <= w
    decreases m
  {
    if m >= 2 {
      assert w >= 2;
      BinaryDigitsFit(m / 2, w - 1);
    }
  }

  lemma {:induction false} ZerosValue(k: nat, base: nat)
    ensures NatValue(Zeros(k), base) == 0
  {
    if k > 0 {
      ZerosValue(k - 1, base);
      NatValueSnoc(Zeros(k - 1), '0', base);
      assert DigitOf('0') == 0;
      assert NatValue(Zeros(k), base) == 0 * base + 0;
    }
  }

  /** Leading zeros do not change a digit string's value. */
  lemma {:induction false} LeadingZeros(k: nat, s: string, base: nat)
    ensures NatValue(Zeros(k) + s, base) == NatValue(s, base)
    decreases |s|
  {
    if s == [] {
      assert Zeros(k) + s == Zeros(k);
      ZerosValue(k, base);
    } else {
      var front, last := s[..|s| - 1], s[|s| - 1];
      assert s == front + [last];
      assert Zeros(k) + s == (Zeros(k) + front) + [last];
      LeadingZeros(k, front, base);
      NatValueSnoc(Zeros(k) + front, last, base);
      NatValueSnoc(front, last, base);
    }
  }

  /** The binary field of a value below 2^w is exactly w binary digits spelling that value. */
  lemma BinaryFieldExact(m: nat, w: nat)
    requires w >= 1 && m < Pow(2, w)
    ensures |BinaryField(m, w)| == w
    ensures ParseInt(BinaryField(m, w), 2) == Some(m)
  {
    var s := Digits(m, 2);
    BinaryDigitsFit(m, w);
    DigitsAreDigits(m, 2);
    DigitsValue(m, 2);
    var f := BinaryField(m, w);
    if |s| < w {
      LeadingZeros(w - |s|, s, 2);
      assert forall i :: 0 <= i < |f| ==> IsDigit(f[i], 2) by {
        forall i | 0 <= i < |f| ensures IsDigit(f[i], 2) {
          if i >= w - |s| {
            assert f[i] == s[i - (w - |s|)];
          }
        }
      }
    }
    ParseDigitString(f, 2);
  }

  /** Groups of four: every character of s keeps its order, and a space follows every fourth one. */
  lemma {:induction false} GroupsOfFourLayout(s: string)
    requires ' ' !in s
    ensures var g := GroupsOfFour(s);
      && (|s| > 0 ==> |g| == |s| + (|s| - 1) / 4)
      && (forall i :: 0 <= i < |s| ==> g[i + i / 4] == s[i])
      && (forall j :: 0 <= j < |g| ==> (g[j] == ' ' <==> j % 5 == 4))
    decreases |s|
  {
    if |s| > 4 {
      var rest := s[4..];
      var g, h := GroupsOfFour(s), GroupsOfFour(rest);
      assert ' ' !in rest by {
        forall k | 0 <= k < |rest| ensures rest[k] != ' ' {
          assert rest[k] == s[k + 4];
        }
      }
      GroupsOfFourLayout(rest);
      assert g == s[..4] + " " + h;
      forall i | 4 <= i < |s|
        ensures g[i + i / 4] == s[i]
      {
        assert i + i / 4 == 5 + ((i - 4) + (i - 4) / 4);
        assert rest[i - 4] == s[i];
      }
      forall j | 5 <= j < |g|
        ensures g[j] == ' ' <==> j % 5 == 4
      {
        assert g[j] == h[j - 5];
        assert (j - 5) % 5 == j % 5;
      }
      assert forall j :: 0 <= j < 5 ==> (g[j] == ' ' <==> j % 5 == 4) by {
        forall j | 0 <= j < 5 ensures g[j] == ' ' <==> j % 5 == 4 {
          if j < 4 {
            assert g[j] == s[j];
          }
        }
      }
    } else {
      forall j | 0 <= j < |s| ensures s[j] != ' ' && j % 5 != 4 {
      }
    }
  }

  /**
   * Every display shows the stored value reduced modulo 2^w: octal, decimal and
   * hexadecimal read back to it, and the binary display is a field of exactly w
   * bits reading back to it, split into groups of four.
   */
  lemma RenderShowsMaskedValue(value: int, w: nat)
    requires IsWordSize(w)
    ensures var d, m := Render(value, w), value % Pow(2, w);
      && ParseInt(d.oct, 8) == Some(m)
      && ParseInt(d.dec, 10) == Some(m)
      && ParseInt(d.hex, 16) == Some(m)
      && d.bin == GroupsOfFour(BinaryField(m, w))
      && |BinaryField(m, w)| == w
      && ParseInt(BinaryField(m, w), 2) == Some(m)
  {
    var m := Masked(value, w);
    FormatRoundTrip(m, 8);
    FormatRoundTrip(m, 10);
    FormatRoundTrip(m, 16);
    BinaryFieldExact(m, w);
  }

  /** Values that agree modulo 2^w look the same on every display. */
  lemma RenderIgnoresHighBits(a: int, b: int, w: nat)
    requires a % Pow(2, w) == b % Pow(2, w)
    ensures Render(a, w) == Render(b, w)
  {
  }

  // ------------------------------------------------------- digit entry

  /** int(format(v) + d, base): the digit joins the end, on the sign's side for negatives. */
  function Extended(v: int, base: nat, d: nat): int
  {
    if v < 0 then v * base - d else v * base + d
  }

  /** The value with its last digit in the given base dropped, rounding towards zero. */
  function Truncated(v: int, base: nat): int
    requires base >= 1
  {
    if v < 0 then -((-v) / base) else v / base
  }

  /** Typing digit c: the text of v in base, c appended, read back with int(text, base). */
  function AppendValue(v: int, base: nat, c: char): Option<int>
    requires ValidBase(base)
  {
    ParseInt(Format(v, base) + [c], base)
  }

  /** Backspace: the text of v in base with its last character dropped; empty text reads as 0. */
  function BackspaceValue(v: int, base: nat): Option<int>
    requires ValidBase(base)
  {
    var s := Format(v, base);
    var t := s[..|s| - 1];
    if t == [] then Some(0) else ParseInt(t, base)
  }

  /** Text whose last character is not a digit never parses. */
  lemma LastCharMustBeDigit(s: string, c: char, base: nat)
    requires !IsDigit(c, base)
    ensures ParseInt(s + [c], base) == None
  {
    var t := s + [c];
    assert t[|t| - 1] == c;
    if |t| > 1 {
      assert t[1..][|t| - 2] == c;
    }
  }

  /** A digit after the digits of n, with or without a minus sign in front. */
  lemma ParseDigitsSnoc(n: nat, base: nat, c: char)
    requires ValidBase(base) && IsDigit(c, base)
    ensures ParseInt(Digits(n, base) + [c], base) == Some(n * base + DigitOf(c))
    ensures ParseInt("-" + (Digits(n, base) + [c]), base) == Some(-(n * base + DigitOf(c)))
  {
    var d := Digits(n, base);
    DigitsAreDigits(n, base);
    DigitsValue(n, base);
    NatValueSnoc(d, c, base);
    assert AllDigits(d + [c], base) by {
      forall k | 0 <= k < |d| + 1 ensures IsDigit((d + [c])[k], base) {
        if k < |d| {
          assert (d + [c])[k] == d[k];
        }
      }
    }
    ParseDigitString(d + [c], base);
  }

  lemma AppendNegative(v: int, base: nat, c: char)
    requires ValidBase(base) && v < 0 && IsDigit(c, base)
    ensures AppendValue(v, base, c) == Some(-((-v) * base + DigitOf(c)))
  {
    var n: nat := -v;
    NegativeText(v, base, c);
    ParseDigitsSnoc(n, base, c);
    calc {
      AppendValue(v, base, c);
      ParseInt(Format(v, base) + [c], base);
      ParseInt("-" + (Digits(n, base) + [c]), base);
      Some(-(n * base + DigitOf(c)));
    }
  }

  lemma NegativeText(v: int, base: nat, c: char)
    requires ValidBase(base) && v < 0
    ensures Format(v, base) + [c] == "-" + (Digits(-v, base) + [c])
  {
  }

  lemma AppendNonNegative(v: int, base: nat, c: char)
    requires ValidBase(base) && v >= 0 && IsDigit(c, base)
    ensures AppendValue(v, base, c) == Some(v * base + DigitOf(c))
  {
    ParseDigitsSnoc(v, base, c);
  }

  /** A typed character is taken exactly when it is a digit of the base, and then extends the value. */
  lemma AppendIsExtend(v: int, base: nat, c: char)
    requires ValidBase(base)
    ensures AppendValue(v, base, c) == if IsDigit(c, base) then Some(Extended(v, base, DigitOf(c))) else None
  {
    if !IsDigit(c, base) {
      LastCharMustBeDigit(Format(v, base), c, base);
    } else if v < 0 {
      AppendNegative(v, base, c);
      assert (-v) * base == -(v * base);
    } else {
      AppendNonNegative(v, base, c);
    }
  }

  /** Dropping the last digit of n's text, with or without a minus sign in front. */
  lemma DropLastDigit(n: nat, base: nat)
    requires ValidBase(base) && n >= base
    ensures var s := Digits(n, base);
      && ParseInt(s[..|s| - 1], base) == Some(n / base)
      && ParseInt("-" + s[..|s| - 1], base) == Some(-(n / base))
  {
    var t := Digits(n / base, base);
    DigitsAreDigits(n / base, base);
    DigitsValue(n / base, base);
    ParseDigitString(t, base);
  }

  /** Backspace on a one-digit value: 0 for a non-negative one, a lone "-" (which raises) otherwise. */
  lemma BackspaceOneDigit(v: int, base: nat)
    requires ValidBase(base) && v < base && -v < base
    ensures BackspaceValue(v, base) == if v < 0 then None else Some(Truncated(v, base))
  {
    var s := Format(v, base);
    if v < 0 {
      assert s[..|s| - 1] == "-";
    } else {
      ModUnique(v, base, 0, v);
    }
  }

  /** Backspace on a value of several digits keeps the sign and drops the last digit. */
  lemma BackspaceManyDigits(v: int, base: nat)
    requires ValidBase(base) && (v >= base || -v >= base)
    ensures BackspaceValue(v, base) == Some(Truncated(v, base))
  {
    var n: nat := if v < 0 then -v else v;
    var s, d := Format(v, base), Digits(n, base);
    DropLastDigit(n, base);
    if v < 0 {
      assert s[..|s| - 1] == "-" + d[..|d| - 1];
    }
  }

  /**
   * Backspace drops the last digit of the value's text, rounding towards zero;
   * it raises only when a negative one-digit value would leave a lone "-".
   */
  lemma BackspaceIsTruncate(v: int, base: nat)
    requires ValidBase(base)
    ensures BackspaceValue(v, base) == if v < 0 && -v < base then None else Some(Truncated(v, base))
  {
    if v < base && -v < base {
      BackspaceOneDigit(v, base);
    } else {
      BackspaceManyDigits(v, base);
    }
  }

  lemma ExtendedThenTruncated(v: int, base: nat, d: nat)
    requires ValidBase(base) && d < base
    ensures var e := Extended(v, base, d);
      !(e < 0 && -e < base) && Truncated(e, base) == v
  {
    var e := Extended(v, base, d);
    if v < 0 {
      assert -e == base * (-v) + d;
      ModUnique(-e, base, -v, d);
    } else {
      ModUnique(e, base, v, d);
    }
  }

  /** Backspace undoes the digit just typed. */
  lemma AppendThenBackspace(v: int, base: nat, c: char)
    requires ValidBase(base) && IsDigit(c, base)
    ensures AppendValue(v, base, c) == Some(Extended(v, base, DigitOf(c)))
    ensures BackspaceValue(Extended(v, base, DigitOf(c)), base) == Some(v)
  {
    AppendIsExtend(v, base, c);
    ExtendedThenTruncated(v, base, DigitOf(c));
    BackspaceIsTruncate(Extended(v, base, DigitOf(c)), base);
  }

  // ------------------------------------------------------- operations

  datatype BitOp = And | Or | Xor

  function OpName(op: BitOp): string
  {
    match op
    case And => "AND"
    case Or => "OR"
    case Xor => "XOR"
  }

  function Combine(op: BitOp, a: int, b: int): int
  {
    match op
    case And => BitAnd(a, b)
    case Or => BitOr(a, b)
    case Xor => BitXor(a, b)
  }

  /** The bitwise operations act bit by bit, as the two's-complement reading defines them. */
  lemma CombineBitwise(op: BitOp, a: int, b: int, i: nat)
    ensures Bit(Combine(op, a, b), i) == match op
      case And => Bit(a, i) * Bit(b, i)
      case Or => Bit(a, i) + Bit(b, i) - Bit(a, i) * Bit(b, i)
      case Xor => (Bit(a, i) + Bit(b, i)) % 2
  {
    match op
    case And => BitAndSpec(a, b, i);
    case Or => BitOrSpec(a, b, i);
    case Xor => BitXorSpec(a, b, i);
  }

  datatype ShiftOp = Left | Right

  function ShiftName(op: ShiftOp): string
  {
    match op
    case Left => "<<"
    case Right => ">>"
  }

  /** The new value of a shift: a left shift is masked to the word, a right shift is not. */
  function Shifted(op: ShiftOp, v: int, n: nat, w: nat): int
  {
    match op
    case Left => Masked(ShiftLeft(v, n), w)
    case Right => ShiftRight(v, n)
  }

  /** NOT always lands in the word, and NOT twice gives back the value as the displays show it. */
  lemma NotInWordAndTwice(v: int, w: nat)
    ensures 0 <= Masked(BitNot(v), w) <= Mask(w)
    ensures Masked(BitNot(Masked(BitNot(v), w)), w) == Masked(v, w)
  {
    NotTwice(v, w);
  }

  /** A left shift stays in the word; shifting a value that fits back right restores it. */
  lemma ShiftLeftThenRight(v: nat, n: nat, w: nat)
    ensures 0 <= Shifted(Left, v, n, w) < Pow(2, w)
    ensures ShiftLeft(v, n) < Pow(2, w) ==> Shifted(Right, Shifted(Left, v, n, w), n, w) == v
  {
    if ShiftLeft(v, n) < Pow(2, w) {
      ShiftRoundTrip(v, n, w);
    }
  }

  // ------------------------------------------------------- the calculator

  class ProgrammerCalculator {
    var currentValue: int
    var displayBase: DisplayBase
    var wordSize: nat

    constructor ()
      ensures IsWordSize(wordSize)
      ensures currentValue == 0 && displayBase == Dec && wordSize == 32
    {
      currentValue := 0;
      displayBase := Dec;
      wordSize := 32;
    }

    /** The four displays for the current state. */
    function Displayed(): Displays
      reads this
    {
      Render(currentValue, wordSize)
    }

    /** Choosing a word size only re-renders: the stored value keeps its high bits. */
    method SelectWordSize(w: nat)
      requires IsWordSize(w)
      modifies this
      ensures IsWordSize(wordSize) && wordSize == w
      ensures currentValue == old(currentValue) && displayBase == old(displayBase)
    {
      wordSize := w;
    }

    method ChangeBase(b: DisplayBase)
      modifies this
      ensures displayBase == b
      ensures currentValue == old(currentValue) && wordSize == old(wordSize)
    {
      displayBase := b;
    }

    /**
     * A keypad digit: appended to the value's text in the selected base and read
     * back. A digit the base does not allow (only reachable from the keyboard)
     * raises and leaves the value as it was.
     */
    method AppendDigit(digit: char) returns (accepted: bool)
      modifies this
      ensures accepted == IsDigit(digit, Radix(displayBase))
      ensures currentValue == if accepted then Extended(old(currentValue), Radix(displayBase), DigitOf(digit)) else old(currentValue)
      ensures displayBase == old(displayBase) && wordSize == old(wordSize)
    {
      var base := Radix(displayBase);
      var parsed := ParseInt(Format(currentValue, base) + [digit], base);
      AppendIsExtend(currentValue, base, digit);
      if parsed.Some? {
        currentValue := parsed.value;
        accepted := true;
      } else {
        accepted := false;
      }
    }

    /**
     * Drops the last character of the value's text in the selected base. Erasing
     * the last digit of a negative one-digit value leaves "-", which raises and
     * leaves the value as it was.
     */
    method Backspace() returns (erased: bool)
      modifies this
      ensures erased == !(old(currentValue) < 0 && -old(currentValue) < Radix(displayBase))
      ensures currentValue == if erased then Truncated(old(currentValue), Radix(displayBase)) else old(currentValue)
      ensures displayBase == old(displayBase) && wordSize == old(wordSize)
    {
      var base := Radix(displayBase);
      var text := Format(currentValue, base);
      text := text[..|text| - 1];
      BackspaceIsTruncate(currentValue, base);
      if text == [] {
        currentValue := 0;
        erased := true;
      } else {
        var parsed := ParseInt(text, base);
        if parsed.Some? {
          currentValue := parsed.value;
          erased := true;
        } else {
          erased := false;
        }
      }
    }

    /** handle_operation: only "=" does anything, logging the selected display and its base. */
    function OperationRecord(op: string): (r: Option<Record>)
      reads this
      ensures r.Some? <==> op == "="
      ensures r.Some? ==> r.value.kind == "Programmer" && r.value.result == "Value in different bases"
    {
      if op == "=" then
        Some(Record("Programmer", Shown(Displayed(), displayBase) + " (" + Label(displayBase) + ")", "Value in different bases"))
      else None
    }

    /** NOT within the word; logged with the decimal values before and after. */
    method BitwiseNot() returns (record: Record)
      modifies this
      ensures currentValue == Masked(BitNot(old(currentValue)), wordSize)
      ensures record == Record("Programmer", "NOT " + IntText(old(currentValue)), "= " + IntText(currentValue))
      ensures displayBase == old(displayBase) && wordSize == old(wordSize)
    {
      var original := currentValue;
      currentValue := BitAnd(BitNot(currentValue), Mask(wordSize));
      record := Record("Programmer", "NOT " + IntText(original), "= " + IntText(currentValue));
    }

    /**
     * AND, OR or XOR with an operand typed in the selected base. An operand that
     * does not parse leaves everything as it was and logs nothing. The result is
     * not masked.
     */
    method ApplyBitwise(op: BitOp, entry: string) returns (record: Option<Record>)
      modifies this
      ensures var operand := ParseInt(entry, Radix(displayBase));
        && (operand.None? ==> record.None? && currentValue == old(currentValue))
        && (operand.Some? ==>
              && currentValue == Combine(op, old(currentValue), operand.value)
              && record == Some(Record("Programmer",
                   IntText(old(currentValue)) + " " + OpName(op) + " " + IntText(operand.value),
                   "= " + IntText(currentValue))))
      ensures displayBase == old(displayBase) && wordSize == old(wordSize)
    {
      var operand := ParseInt(entry, Radix(displayBase));
      if operand.None? {
        return None;
      }
      var original, k := currentValue, operand.value;
      match op {
        case And => currentValue := BitAnd(currentValue, k);
        case Or => currentValue := BitOr(currentValue, k);
        case Xor => currentValue := BitXor(currentValue, k);
      }
      record := Some(Record("Programmer", IntText(original) + " " + OpName(op) + " " + IntText(k), "= " + IntText(currentValue)));
    }

    /**
     * A shift by an amount typed in decimal. An amount that does not parse, or a
     * negative one (Python raises on a negative shift count), changes nothing.
     */
    method Shift(op: ShiftOp, entry: string) returns (record: Option<Record>)
      modifies this
      ensures var amount := ParseInt(entry, 10);
        && (amount.None? || amount.value < 0 ==> record.None? && currentValue == old(currentValue))
        && (amount.Some? && amount.value >= 0 ==>
              && currentValue == Shifted(op, old(currentValue), amount.value, wordSize)
              && record == Some(Record("Programmer",
                   IntText(old(currentValue)) + " " + ShiftName(op) + " " + IntText(amount.value),
                   "= " + IntText(currentValue))))
      ensures displayBase == old(displayBase) && wordSize == old(wordSize)
    {
      var amount := ParseInt(entry, 10);
      if amount.None? || amount.value < 0 {
        return None;
      }
      var original, n := currentValue, amount.value;
      match op {
        case Left => currentValue := BitAnd(ShiftLeft(currentValue, n), Mask(wordSize));
        case Right => currentValue := ShiftRight(currentValue, n);
      }
      record := Some(Record("Programmer", IntText(original) + " " + ShiftName(op) + " " + IntText(n), "= " + IntText(currentValue)));
    }

    method Clear()
      modifies this
      ensures currentValue == 0
      ensures displayBase == old(displayBase) && wordSize == old(wordSize)
    {
      currentValue := 0;
    }
  }

  /**
   * Digits typed past the word stay in the stored value: 256 and 0 look the
   * same in an 8-bit word, yet backspace in decimal turns them into 25 and 0.
   */
  lemma HiddenHighBits()
    ensures Render(256, 8) == Render(0, 8)
    ensures BackspaceValue(256, 10) == Some(25) && BackspaceValue(0, 10) == Some(0)
  {
    assert Pow(2, 8) == 256;
    RenderIgnoresHighBits(256, 0, 8);
    BackspaceIsTruncate(256, 10);
    BackspaceIsTruncate(0, 10);
  }
}
