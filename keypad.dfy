/**
 * The keypad logic the basic and scientific calculators share: the typed
 * input, a pending binary operator with its first operand, evaluation from
 * left to right when the next operator or "=" arrives, and error recovery.
 *
 * Floats are modelled as reals; `str(float)`, the parts of `float()` beyond
 * plain numerals, and `**` come from Python and are parameters (FloatLib).
 */
module Keypad {
  import opened Options
  import opened Numerals
  import opened History

  datatype Operator = Add | Subtract | Multiply | Divide | Modulo | Power

  /** A float result, or the exception computing it raised: whether it is a ZeroDivisionError, and str(e). */
  datatype Outcome = Value(r: real) | Raised(zeroDivision: bool, message: string)

  /** The float operations borrowed from Python. */
  datatype FloatLib = FloatLib(
    floatStr: real -> string,
    syntax: string -> Option<real>,
    power: (real, real) -> Outcome)

  /** The two calculators differ in a few keys and in how they log. */
  datatype Style = BasicStyle | ScientificStyle

  /**
   * current_input, current_operation, first_number, result,
   * operation_just_pressed, and the texts of the main display and of the
   * operation line above it.
   */
  datatype Machine = Machine(
    input: string,
    operation: Option<Operator>,
    first: Option<real>,
    result: Option<real>,
    justPressed: bool,
    display: string,
    pending: string)

  /** The state after __init__. */
  const Start: Machine := Machine("", None, None, None, false, "0", "")

  /** An operator is pending exactly when its first operand is stored. */
  predicate Valid(m: Machine)
  {
    m.operation.None? <==> m.first.None?
  }

  /**
   * A transition: the new state, the history record it adds, and whether it
   * ended in an exception nobody catches (float() of the input raising), which
   * abandons the handler at that point.
   */
  datatype Step = Step(machine: Machine, record: Option<Record>, raised: bool)

  /** update_display: an empty input shows "0". */
  function Screen(input: string): string
  {
    if input == "" then "0" else input
  }

  function Kind(style: Style): string
  {
    match style
    case BasicStyle => "Basic"
    case ScientificStyle => "Scientific"
  }

  /** The operator as handle_operator receives it. */
  function Symbol(op: Operator): string
  {
    match op
    case Add => "+"
    case Subtract => "-"
    case Multiply => "*"
    case Divide => "/"
    case Modulo => "%"
    case Power => "^"
  }

  /** The operator as the operation line shows it. */
  function Sign(op: Operator): string
  {
    match op
    case Multiply => "×"
    case Divide => "÷"
    case _ => Symbol(op)
  }

  /** The history input of a binary operation. */
  function Expression(style: Style, op: Operator, a: real, b: real, lib: FloatLib): string
  {
    match style
    case BasicStyle => lib.floatStr(a) + " " + Symbol(op) + " " + lib.floatStr(b)
    case ScientificStyle =>
      if op == Power then lib.floatStr(a) + "^" + lib.floatStr(b)
      else lib.floatStr(a) + " " + Sign(op) + " " + lib.floatStr(b)
  }

  /** Python's float `a % b`: the remainder takes the sign of the divisor. */
  function FloatMod(a: real, b: real): real
    requires b != 0.0
  {
    a - b * ((a / b).Floor as real)
  }

  /** The arithmetic of calculate. */
  function Evaluate(op: Operator, a: real, b: real, lib: FloatLib): Outcome
  {
    match op
    case Add => Value(a + b)
    case Subtract => Value(a - b)
    case Multiply => Value(a * b)
    case Divide => if b == 0.0 then Raised(true, "Division by zero") else Value(a / b)
    case Modulo => if b == 0.0 then Raised(true, "float modulo") else Value(FloatMod(a, b))
    case Power => lib.power(a, b)
  }

  predicate IsWhole(r: real)
  {
    r.Floor as real == r
  }

  /** The text of a result: a whole result is shown as an integer, any other with `str`. */
  function ResultText(r: real, lib: FloatLib): string
  {
    if IsWhole(r) then IntText(r.Floor) else lib.floatStr(r)
  }

  /** reset_after_error, after the error text went to the display. */
  function AfterError(m: Machine, message: string): Machine
  {
    m.(input := "", operation := None, first := None, result := None, pending := "", display := message)
  }

  /** append_number: a digit key, or the text of pi on the scientific keypad. */
  function EnterNumber(style: Style, m: Machine, number: string): Machine
  {
    var m1 := if m.justPressed then m.(input := "", justPressed := false) else m;
    match style
    case BasicStyle =>
      if m1.input == "0" && number == "0" then m1
      else
        var t := if m1.input == "0" then number else m1.input + number;
        m1.(input := t, display := Screen(t))
    case ScientificStyle =>
      var t := if m1.input == "0" && number != "." then number else m1.input + number;
      m1.(input := t, display := Screen(t))
  }

  /** append_decimal: at most one point; the scientific keypad writes "0." on an empty input. */
  function EnterDecimal(style: Style, m: Machine): Machine
  {
    var m1 := if m.justPressed then m.(input := "0", justPressed := false) else m;
    var t :=
      if '.' in m1.input then m1.input
      else if style == ScientificStyle && m1.input == "" then "0."
      else m1.input + ".";
    m1.(input := t, display := Screen(t))
  }

  /** calculate ("="): applies the pending operator to the first operand and the input. */
  function Calculate(style: Style, m: Machine, lib: FloatLib): Step
  {
    if m.operation.Some? && m.first.Some? && m.input != "" then
      match PyFloat(m.input, lib.syntax)
      case None => Step(m, None, true)
      case Some(b) =>
        var op, a := m.operation.value, m.first.value;
        match Evaluate(op, a, b, lib)
        case Value(r) =>
          var t := ResultText(r, lib);
          Step(m.(input := t, first := None, operation := None, result := Some(r), pending := "", display := Screen(t)),
               Some(Record(Kind(style), Expression(style, op, a, b, lib), t)), false)
        case Raised(zeroDivision, message) =>
          Step(AfterError(m, if zeroDivision then "Error: Division by zero" else "Error: " + message), None, false)
    else Step(m, None, false)
  }

  /**
   * handle_operator: with a non-empty input, first finishes a pending
   * operation, then stores the input as the first operand of op.
   */
  function PressOperator(style: Style, m: Machine, op: Operator, lib: FloatLib): Step
  {
    if m.input == "" then Step(m, None, false)
    else
      var s := if m.first.Some? then Calculate(style, m, lib) else Step(m, None, false);
      if s.raised then s
      else
        match PyFloat(s.machine.input, lib.syntax)
        case None => Step(s.machine, s.record, true)
        case Some(x) =>
          Step(s.machine.(first := Some(x), operation := Some(op), justPressed := true,
                          pending := lib.floatStr(x) + " " + Sign(op)),
               s.record, false)
  }

  /** clear. */
  function Cleared(m: Machine): Machine
  {
    m.(input := "", operation := None, first := None, result := None, pending := "", display := "0")
  }

  /** negate: toggles a leading minus sign on a non-empty input. */
  function Negated(m: Machine): Machine
  {
    if m.input == "" then m
    else
      var t := if m.input[0] == '-' then m.input[1..] else "-" + m.input;
      m.(input := t, display := Screen(t))
  }

  /** backspace: drops the last character; a lone minus sign goes too. */
  function Erased(m: Machine): Machine
  {
    if m.input == "" then m
    else
      var t0 := m.input[..|m.input| - 1];
      var t := if t0 == "" || t0 == "-" then "" else t0;
      m.(input := t, display := Screen(t))
  }

  // ------------------------------------------------------------ properties

  /** Editing keys never touch the operator or its first operand; clear drops both. */
  lemma EditingKeepsValid(style: Style, m: Machine, number: string)
    requires Valid(m)
    ensures Valid(EnterNumber(style, m, number)) && Valid(EnterDecimal(style, m))
    ensures Valid(Cleared(m)) && Valid(Negated(m)) && Valid(Erased(m))
  {
  }

  /**
   * A lone "0" gives way to the next number, except that the basic keypad
   * ignores a second "0" and the scientific one appends a point to it.
   */
  lemma LeadingZeroReplaced(style: Style, m: Machine, number: string)
    requires !m.justPressed && m.input == "0"
    ensures style == BasicStyle && number == "0" ==> EnterNumber(style, m, number) == m
    ensures style == BasicStyle && number != "0" ==> EnterNumber(style, m, number).input == number
    ensures style == ScientificStyle && number != "." ==> EnterNumber(style, m, number).input == number
    ensures style == ScientificStyle && number == "." ==> EnterNumber(style, m, number).input == "0."
  {
  }

  /**
   * The point key right after an operator starts the input "0."; on an empty
   * input the basic keypad writes "." and the scientific one "0.".
   */
  lemma DecimalOnEmpty(style: Style, m: Machine)
    ensures m.justPressed ==> EnterDecimal(style, m).input == "0." && !EnterDecimal(style, m).justPressed
    ensures !m.justPressed && m.input == "" ==> EnterDecimal(style, m).input == (if style == BasicStyle then "." else "0.")
  {
  }

  /** "=" does nothing unless an operator, its first operand and an input are all there. */
  lemma CalculateGuard(style: Style, m: Machine, lib: FloatLib)
    requires m.operation.None? || m.first.None? || m.input == ""
    ensures Calculate(style, m, lib) == Step(m, None, false)
  {
  }

  /** An operator key on an empty input does nothing. */
  lemma OperatorOnEmpty(style: Style, m: Machine, op: Operator, lib: FloatLib)
    requires m.input == ""
    ensures PressOperator(style, m, op, lib) == Step(m, None, false)
  {
  }

  /** Negate leaves an empty input alone. */
  lemma NegateOnEmpty(m: Machine)
    requires m.input == ""
    ensures Negated(m) == m
  {
  }

  /** "=" either changes nothing or clears the operator together with its first operand. */
  lemma CalculateKeepsValid(style: Style, m: Machine, lib: FloatLib)
    requires Valid(m)
    ensures Valid(Calculate(style, m, lib).machine)
  {
  }

  /** An operator key stores the operator together with its first operand. */
  lemma OperatorKeepsValid(style: Style, m: Machine, op: Operator, lib: FloatLib)
    requires Valid(m)
    ensures Valid(PressOperator(style, m, op, lib).machine)
  {
    CalculateKeepsValid(style, m, lib);
  }

  /** Division and modulo by zero raise ZeroDivisionError; otherwise division inverts multiplication. */
  lemma DivisionSpec(a: real, b: real, lib: FloatLib)
    ensures b == 0.0 ==> Evaluate(Divide, a, b, lib).Raised? && Evaluate(Divide, a, b, lib).zeroDivision
    ensures b == 0.0 ==> Evaluate(Modulo, a, b, lib).Raised? && Evaluate(Modulo, a, b, lib).zeroDivision
    ensures b != 0.0 ==> Evaluate(Divide, a, b, lib).Value? && Evaluate(Divide, a, b, lib).r * b == a
  {
  }

  /** Python's float modulo: a whole multiple of b plus a remainder that has the sign of b and is smaller than it. */
  lemma FloatModSpec(a: real, b: real)
    requires b != 0.0
    ensures var r := FloatMod(a, b);
      && (a - r) / b == ((a - r) / b).Floor as real
      && (b > 0.0 ==> 0.0 <= r < b)
      && (b < 0.0 ==> b < r <= 0.0)
  {
    var k := (a / b).Floor;
    var f := k as real;
    var d := a / b - f;
    var r := FloatMod(a, b);
    assert r == b * d by {
      RemainderIsScaledFraction(a, b, f);
    }
    assert (b > 0.0 ==> 0.0 <= r < b) && (b < 0.0 ==> b < r <= 0.0) by {
      FractionBounds(b, d);
    }
    assert (a - r) / b == f by {
      DivideBack(b, f);
    }
    assert f.Floor == k;
  }

  lemma DivideBack(b: real, f: real)
    requires b != 0.0
    ensures (b * f) / b == f
  {
  }

  lemma RemainderIsScaledFraction(a: real, b: real, f: real)
    requires b != 0.0
    ensures a - b * f == b * (a / b - f)
  {
    assert a == b * (a / b);
  }

  lemma FractionBounds(b: real, d: real)
    requires b != 0.0 && 0.0 <= d < 1.0
    ensures b > 0.0 ==> 0.0 <= b * d < b
    ensures b < 0.0 ==> b < b * d <= 0.0
  {
    if b > 0.0 {
      assert b * d < b * 1.0;
    } else {
      assert b * d > b * 1.0;
    }
  }

  /** float(str(r)) gives r back for the text calculate leaves in the input. */
  predicate ReadsBack(r: real, lib: FloatLib)
  {
    PyFloat(ResultText(r, lib), lib.syntax) == Some(r)
  }

  /** Whole results always read back; others read back when str() of the float does. */
  lemma WholeResultsReadBack(r: real, lib: FloatLib)
    ensures IsWhole(r) ==> ReadsBack(r, lib)
    ensures !IsWhole(r) ==> (ReadsBack(r, lib) <==> PyFloat(lib.floatStr(r), lib.syntax) == Some(r))
  {
    FloatOfIntText(r.Floor, lib.syntax);
  }

  /**
   * Pressing an operator while one is pending evaluates from left to right:
   * the pending result is logged and becomes the first operand of the new operator.
   */
  lemma OperatorsChainLeftToRight(style: Style, m: Machine, op: Operator, lib: FloatLib, b: real, r: real)
    requires Valid(m) && m.first.Some? && m.input != ""
    requires PyFloat(m.input, lib.syntax) == Some(b)
    requires Evaluate(m.operation.value, m.first.value, b, lib) == Value(r)
    requires ReadsBack(r, lib)
    ensures var s := PressOperator(style, m, op, lib);
      && !s.raised
      && s.machine.first == Some(r) && s.machine.operation == Some(op) && s.machine.justPressed
      && s.machine.input == ResultText(r, lib)
      && s.record == Some(Record(Kind(style), Expression(style, m.operation.value, m.first.value, b, lib), ResultText(r, lib)))
  {
  }

  /** An error while evaluating clears the input, the operator and the first operand, and shows the error. */
  lemma ErrorsReset(style: Style, m: Machine, lib: FloatLib, b: real)
    requires Valid(m) && m.first.Some? && m.input != ""
    requires PyFloat(m.input, lib.syntax) == Some(b)
    requires Evaluate(m.operation.value, m.first.value, b, lib).Raised?
    ensures var s := Calculate(style, m, lib);
      && s.record.None? && !s.raised
      && s.machine.input == "" && s.machine.operation.None? && s.machine.first.None?
      && s.machine.display == (if Evaluate(m.operation.value, m.first.value, b, lib).zeroDivision then "Error: Division by zero"
                               else "Error: " + Evaluate(m.operation.value, m.first.value, b, lib).message)
  {
  }

  /** Negating twice gives the input back. */
  lemma NegateTwice(m: Machine)
    requires m.input != "-" && !(|m.input| >= 2 && m.input[..2] == "--")
    ensures Negated(Negated(m)).input == m.input
  {
    if m.input != "" && m.input[0] == '-' {
      assert "-" + m.input[1..] == m.input;
    }
  }

  lemma SignedTextIsNotUnsigned(t: string)
    requires |t| > 0 && t[0] == '-'
    ensures UnsignedDecimal(t) == None
  {
    if '.' in t {
      var k := IndexOf(t, '.');
      assert k > 0;
      assert t[..k][0] == '-';
    } else {
      assert !IsDigit(t[0], 10);
    }
  }

  lemma PlainTail(s: string)
    requires |s| > 0 && PlainNumeral(s)
    ensures PlainNumeral(s[1..])
  {
    forall i | 0 <= i < |s| - 1 ensures s[1..][i] in "0123456789.-" {
      assert s[1..][i] == s[i + 1];
    }
  }

  lemma PlainCons(s: string)
    requires PlainNumeral(s)
    ensures PlainNumeral("-" + s)
  {
    forall i | 0 <= i < |s| + 1 ensures ("-" + s)[i] in "0123456789.-" {
      if i > 0 {
        assert ("-" + s)[i] == s[i - 1];
      }
    }
  }

  lemma NegateNegative(s: string, x: real, syntax: string -> Option<real>)
    requires |s| > 0 && s[0] == '-' && PlainNumeral(s) && PyFloat(s, syntax) == Some(x)
    ensures PyFloat(s[1..], syntax) == Some(-x)
  {
    PlainTail(s);
    var t := s[1..];
    if |t| > 0 && t[0] == '-' {
      SignedTextIsNotUnsigned(t);
    }
  }

  lemma NegateNonNegative(s: string, x: real, syntax: string -> Option<real>)
    requires |s| > 0 && s[0] != '-' && PlainNumeral(s) && PyFloat(s, syntax) == Some(x)
    ensures PyFloat("-" + s, syntax) == Some(-x)
  {
    PlainCons(s);
    assert ("-" + s)[1..] == s;
  }

  /** Negating a keypad numeral negates the number it reads as. */
  lemma NegateNegatesValue(m: Machine, x: real, syntax: string -> Option<real>)
    requires PlainNumeral(m.input) && PyFloat(m.input, syntax) == Some(x)
    ensures PyFloat(Negated(m).input, syntax) == Some(-x)
  {
    FloatRejectsFragments(syntax);
    if m.input[0] == '-' {
      NegateNegative(m.input, x, syntax);
    } else {
      NegateNonNegative(m.input, x, syntax);
    }
  }

  /** Backspace never leaves a lone minus sign. */
  lemma EraseNeverLeavesSign(m: Machine)
    ensures Erased(m).input != "-"
  {
  }

  /** Backspace removes the digit just typed (unless typing replaced a lone "0"). */
  lemma EnterThenErase(style: Style, m: Machine, digit: char)
    requires digit in "0123456789"
    requires !m.justPressed && m.input != "0" && m.input != "-"
    ensures Erased(EnterNumber(style, m, [digit])).input == m.input
  {
    assert (m.input + [digit])[..|m.input|] == m.input;
  }

  /** The decimal key adds a point at most once. */
  lemma DecimalIdempotent(style: Style, m: Machine)
    ensures '.' in EnterDecimal(style, m).input
    ensures EnterDecimal(style, EnterDecimal(style, m)) == EnterDecimal(style, m)
  {
    var m1 := if m.justPressed then m.(input := "0", justPressed := false) else m;
    var t := EnterDecimal(style, m).input;
    if '.' !in m1.input {
      assert t[|t| - 1] == '.';
    }
  }

  /** With no operator pending, an operator key stores the input as its first operand. */
  lemma OperatorStoresOperand(style: Style, m: Machine, op: Operator, lib: FloatLib, x: real)
    requires m.input != "" && m.first.None? && PyFloat(m.input, lib.syntax) == Some(x)
    ensures var s := PressOperator(style, m, op, lib);
      && !s.raised && s.record.None?
      && s.machine == m.(first := Some(x), operation := Some(op), justPressed := true, pending := lib.floatStr(x) + " " + Sign(op))
  {
  }

  /** The first digit after an operator key starts a new input. */
  lemma DigitAfterOperator(style: Style, m: Machine, digit: char)
    requires m.justPressed && digit in "0123456789"
    ensures EnterNumber(style, m, [digit]).input == [digit]
    ensures !EnterNumber(style, m, [digit]).justPressed
  {
  }

  lemma WholeText(i: int, lib: FloatLib)
    ensures ResultText(i as real, lib) == IntText(i)
    ensures PyFloat(IntText(i), lib.syntax) == Some(i as real)
  {
    assert (i as real).Floor == i;
    FloatOfIntText(i, lib.syntax);
  }

  lemma ScenarioTexts()
    ensures IntText(1) == "1" && IntText(2) == "2" && IntText(3) == "3" && IntText(9) == "9"
  {
  }

  /** "=" with an operator pending shows the result and logs it. */
  lemma CalculateShowsResult(style: Style, m: Machine, lib: FloatLib, b: real, r: real)
    requires m.first.Some? && m.operation.Some? && m.input != ""
    requires PyFloat(m.input, lib.syntax) == Some(b)
    requires Evaluate(m.operation.value, m.first.value, b, lib) == Value(r)
    ensures var s := Calculate(style, m, lib);
      && s.machine.display == Screen(ResultText(r, lib))
      && s.record == Some(Record(Kind(style), Expression(style, m.operation.value, m.first.value, b, lib), ResultText(r, lib)))
  {
  }

  /** "1 + 2 × 3 =" shows 9: there is no precedence, each operator finishes the previous one. */
  lemma NoPrecedence(style: Style, lib: FloatLib, m1: Machine, m2: Machine, m3: Machine, m4: Machine, m5: Machine)
    requires m1 == EnterNumber(style, Start, "1")
    requires m2 == PressOperator(style, m1, Add, lib).machine
    requires m3 == EnterNumber(style, m2, "2")
    requires m4 == PressOperator(style, m3, Multiply, lib).machine
    requires m5 == EnterNumber(style, m4, "3")
    ensures Calculate(style, m5, lib).machine.display == "9"
  {
    ScenarioTexts();
    OnePlusTwo(style, lib, m1, m2, m3);
    WholeText(2, lib);
    WholeText(3, lib);
    OperatorsChainLeftToRight(style, m3, Multiply, lib, 2.0, 3.0);
    assert m4.justPressed && m4.first == Some(3.0) && m4.operation == Some(Multiply);
    DigitAfterOperator(style, m4, '3');
    assert m5.input == "3" && m5.first == Some(3.0) && m5.operation == Some(Multiply);
    WholeText(9, lib);
    CalculateShowsResult(style, m5, lib, 3.0, 9.0);
  }

  /** The first half of the scenario: "1 + 2" leaves 1 and + pending and 2 typed. */
  lemma OnePlusTwo(style: Style, lib: FloatLib, m1: Machine, m2: Machine, m3: Machine)
    requires m1 == EnterNumber(style, Start, "1")
    requires m2 == PressOperator(style, m1, Add, lib).machine
    requires m3 == EnterNumber(style, m2, "2")
    ensures Valid(m3) && m3.input == "2" && m3.first == Some(1.0) && m3.operation == Some(Add)
  {
    ScenarioTexts();
    WholeText(1, lib);
    assert m1.input == "1" && m1.first.None?;
    OperatorStoresOperand(style, m1, Add, lib, 1.0);
    assert m2.justPressed && m2.first == Some(1.0) && m2.operation == Some(Add);
    DigitAfterOperator(style, m2, '2');
  }
}
