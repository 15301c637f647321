/**
 * The scientific calculator: the basic keypad plus a power operator, unary
 * functions applied to the input (trigonometry in degrees or radians,
 * logarithms, roots, powers, reciprocal, exponential) and a pi key.
 * The transcendental functions of Python's math module are a parameter;
 * their domain errors are part of the model.
 */
module Scientific {
  import opened Options
  import opened Numerals
  import opened History
  import opened Keypad

  datatype Function = Sin | Cos | Tan | Ln | Log | Sqrt | Square | Cube | Reciprocal | Exp

  /** math.sin, math.cos, math.tan, math.log, math.log10, math.sqrt and math.exp inside their domains. */
  type MathLib = (Function, real) -> Outcome

  /** math.pi, and str(math.pi) as the pi key types it. */
  const Pi: real := 3.141592653589793
  const PiText: string := "3.141592653589793"

  /** math.radians. */
  function Radians(degrees: real): real
  {
    degrees * Pi / 180.0
  }

  predicate IsTrig(f: Function)
  {
    f == Sin || f == Cos || f == Tan
  }

  /** The function's name as apply_scientific_function receives it. */
  function Name(f: Function): string
  {
    match f
    case Sin => "sin"
    case Cos => "cos"
    case Tan => "tan"
    case Ln => "ln"
    case Log => "log"
    case Sqrt => "sqrt"
    case Square => "square"
    case Cube => "cube"
    case Reciprocal => "reciprocal"
    case Exp => "exp"
  }

  /** The history input: "sin(30.0)", "(3.0)²", "(3.0)³", "1/(4.0)", "e^(1.0)". */
  function FunctionExpression(f: Function, v: real, lib: FloatLib): string
  {
    var s := lib.floatStr(v);
    match f
    case Square => "(" + s + ")²"
    case Cube => "(" + s + ")³"
    case Reciprocal => "1/(" + s + ")"
    case Exp => "e^(" + s + ")"
    case _ => Name(f) + "(" + s + ")"
  }

  /** The value of a unary function, or the exception it raises. */
  function ApplyOutcome(f: Function, v: real, degrees: bool, math: MathLib): Outcome
  {
    match f
    case Sin => math(Sin, if degrees then Radians(v) else v)
    case Cos => math(Cos, if degrees then Radians(v) else v)
    case Tan => math(Tan, if degrees then Radians(v) else v)
    case Ln => if v <= 0.0 then Raised(false, "math domain error") else math(Ln, v)
    case Log => if v <= 0.0 then Raised(false, "math domain error") else math(Log, v)
    case Sqrt => if v < 0.0 then Raised(false, "math domain error") else math(Sqrt, v)
    case Square => Value(v * v)
    case Cube => Value(v * v * v)
    case Reciprocal => if v == 0.0 then Raised(true, "float division by zero") else Value(1.0 / v)
    case Exp => math(Exp, v)
  }

  /** |r| < 1e-10 counts as zero. */
  predicate Negligible(r: real)
  {
    -0.0000000001 < r < 0.0000000001
  }

  /** The text a unary result leaves in the input: "0" when negligible, else str() of the float. */
  function FunctionText(r: real, lib: FloatLib): string
  {
    if Negligible(r) then "0" else lib.floatStr(r)
  }

  /**
   * apply_scientific_function: replaces the input by the function of its value
   * and logs it, keeping any pending operator; an exception shows
   * "Error: <message>" and resets.
   */
  function ApplyFunction(m: Machine, f: Function, degrees: bool, lib: FloatLib, math: MathLib): Step
  {
    if m.input == "" then Step(m, None, false)
    else
      match PyFloat(m.input, lib.syntax)
      case None => Step(m, None, true)
      case Some(v) =>
        match ApplyOutcome(f, v, degrees, math)
        case Value(r) =>
          var t := FunctionText(r, lib);
          Step(m.(input := t, result := Some(if Negligible(r) then 0.0 else r), display := Screen(t)),
               Some(Record("Scientific", FunctionExpression(f, v, lib), t)), false)
        case Raised(_, message) =>
          Step(AfterError(m, "Error: " + message), None, false)
  }

  /** The pi key, corrected: the input becomes the text of pi, whatever was typed before. */
  function EnterPi(m: Machine): Machine
  {
    m.(input := PiText, justPressed := false, display := PiText)
  }

  // ------------------------------------------------------------ properties

  /** A function key on an empty input does nothing. */
  lemma FunctionOnEmpty(m: Machine, f: Function, degrees: bool, lib: FloatLib, math: MathLib)
    requires m.input == ""
    ensures ApplyFunction(m, f, degrees, lib, math) == Step(m, None, false)
  {
  }

  /** Only the trigonometric functions read the angle mode, and in degree mode they see the angle in radians. */
  lemma AngleModeSpec(f: Function, v: real, math: MathLib)
    ensures IsTrig(f) ==> ApplyOutcome(f, v, true, math) == ApplyOutcome(f, Radians(v), false, math)
    ensures !IsTrig(f) ==> ApplyOutcome(f, v, true, math) == ApplyOutcome(f, v, false, math)
  {
  }

  /** Logarithms of non-positive values and roots of negative values raise a domain error; 1/0 raises ZeroDivisionError. */
  lemma DomainErrors(f: Function, v: real, degrees: bool, math: MathLib)
    ensures (f == Ln || f == Log) && v <= 0.0 ==> ApplyOutcome(f, v, degrees, math) == Raised(false, "math domain error")
    ensures f == Sqrt && v < 0.0 ==> ApplyOutcome(f, v, degrees, math) == Raised(false, "math domain error")
    ensures f == Reciprocal ==> (ApplyOutcome(f, v, degrees, math).Raised? <==> v == 0.0)
  {
  }

  /** The powers and the reciprocal are exact in the model: squares are never negative, cubes keep the sign, x * (1/x) == 1. */
  lemma AlgebraicResults(v: real, math: MathLib)
    ensures ApplyOutcome(Square, v, false, math).r >= 0.0
    ensures v > 0.0 ==> ApplyOutcome(Cube, v, false, math).r > 0.0
    ensures v < 0.0 ==> ApplyOutcome(Cube, v, false, math).r < 0.0
    ensures v != 0.0 ==> v * ApplyOutcome(Reciprocal, v, false, math).r == 1.0
  {
    if v < 0.0 {
      assert v * v > 0.0;
      assert v * v * v == (v * v) * v;
    }
  }

  /** A unary function that raises clears the input, the operator and the first operand, and shows the message. */
  lemma FunctionErrorResets(m: Machine, f: Function, degrees: bool, lib: FloatLib, math: MathLib, v: real)
    requires m.input != "" && PyFloat(m.input, lib.syntax) == Some(v)
    requires ApplyOutcome(f, v, degrees, math).Raised?
    ensures var s := ApplyFunction(m, f, degrees, lib, math);
      && s.record.None? && !s.raised
      && s.machine.input == "" && s.machine.operation.None? && s.machine.first.None?
      && s.machine.display == "Error: " + ApplyOutcome(f, v, degrees, math).message
  {
  }

  /**
   * A unary function that succeeds keeps a pending operator and its first
   * operand, so "2 + 9 √ =" adds the root; negligible results read back as 0.
   */
  lemma FunctionKeepsPending(m: Machine, f: Function, degrees: bool, lib: FloatLib, math: MathLib, v: real, r: real)
    requires Valid(m) && m.input != "" && PyFloat(m.input, lib.syntax) == Some(v)
    requires ApplyOutcome(f, v, degrees, math) == Value(r)
    ensures var s := ApplyFunction(m, f, degrees, lib, math);
      && Valid(s.machine)
      && s.machine.operation == m.operation && s.machine.first == m.first
      && s.record == Some(Record("Scientific", FunctionExpression(f, v, lib), s.machine.input))
      && (Negligible(r) ==> PyFloat(s.machine.input, lib.syntax) == Some(0.0))
  {
    if Negligible(r) {
      WholeText(0, lib);
      assert IntText(0) == "0";
    }
  }

  lemma PiTextDigits()
    ensures PiText[..1] == "3" && PiText[2..] == "141592653589793"
    ensures IndexOf(PiText, '.') == 1
    ensures AllDigits("3", 10) && AllDigits("141592653589793", 10)
  {
    PiTextParts();
    PiFractionDigits();
  }

  lemma PiTextParts()
    ensures PiText[..1] == "3" && PiText[2..] == "141592653589793"
    ensures IndexOf(PiText, '.') == 1
  {
  }

  lemma PiFractionDigits()
    ensures AllDigits("3", 10) && AllDigits("141592653589793", 10)
  {
  }

  lemma PowTenFifteen()
    ensures Pow(10, 15) == 1000000000000000
  {
    assert Pow(10, 5) == 100000;
    assert Pow(10, 10) == 10000000000;
  }

  /** float() of the text of pi, split at its point. */
  lemma PiTextSplits()
    ensures UnsignedDecimal(PiText) == Some(3.0 + 141592653589793.0 / 1000000000000000.0)
  {
    PiTextDigits();
    PiFractionValue();
    PowTenFifteen();
  }

  /** The text of pi reads back as pi. */
  lemma PiReadsBack(syntax: string -> Option<real>)
    ensures PyFloat(PiText, syntax) == Some(Pi)
  {
    PiTextSplits();
    assert PlainNumeral(PiText);
  }

  /** The first seven decimals of pi, evaluated one digit at a time. */
  lemma PiFractionFront()
    ensures NatValue("1415926", 10) == 1415926
  {
    NatValueSnoc("", '1', 10);
    NatValueSnoc("1", '4', 10);
    assert "1" + ['4'] == "14";
    NatValueSnoc("14", '1', 10);
    assert "14" + ['1'] == "141";
    NatValueSnoc("141", '5', 10);
    assert "141" + ['5'] == "1415";
    NatValueSnoc("1415", '9', 10);
    assert "1415" + ['9'] == "14159";
    NatValueSnoc("14159", '2', 10);
    assert "14159" + ['2'] == "141592";
    NatValueSnoc("141592", '6', 10);
    assert "141592" + ['6'] == "1415926";
  }

  /** All fifteen decimals of pi. */
  lemma PiFractionValue()
    ensures NatValue("141592653589793", 10) == 141592653589793
  {
    PiFractionFront();
    NatValueSnoc("1415926", '5', 10);
    assert "1415926" + ['5'] == "14159265";
    NatValueSnoc("14159265", '3', 10);
    assert "14159265" + ['3'] == "141592653";
    NatValueSnoc("141592653", '5', 10);
    assert "141592653" + ['5'] == "1415926535";
    NatValueSnoc("1415926535", '8', 10);
    assert "1415926535" + ['8'] == "14159265358";
    NatValueSnoc("14159265358", '9', 10);
    assert "14159265358" + ['9'] == "141592653589";
    NatValueSnoc("141592653589", '7', 10);
    assert "141592653589" + ['7'] == "1415926535897";
    NatValueSnoc("1415926535897", '9', 10);
    assert "1415926535897" + ['9'] == "14159265358979";
    NatValueSnoc("14159265358979", '3', 10);
    assert "14159265358979" + ['3'] == "141592653589793";
  }

  /** The corrected pi key always leaves pi in the input. */
  lemma EnterPiGivesPi(m: Machine, syntax: string -> Option<real>)
    ensures PyFloat(EnterPi(m).input, syntax) == Some(Pi)
    ensures EnterPi(m).operation == m.operation && EnterPi(m).first == m.first
  {
    PiReadsBack(syntax);
  }

  /**
   * The pi key as written appends str(math.pi) to whatever was typed: after
   * "2" the input is "23.141592653589793", and after "1.5" it holds two
   * points, which float() rejects.
   */
  lemma PiAppendsToInput(m: Machine, syntax: string -> Option<real>)
    requires !m.justPressed
    ensures m.input == "2" ==> EnterNumber(ScientificStyle, m, PiText).input == "23.141592653589793"
    ensures m.input == "1.5" ==> PyFloat(EnterNumber(ScientificStyle, m, PiText).input, syntax) == None
  {
    if m.input == "1.5" {
      assert EnterNumber(ScientificStyle, m, PiText).input == "1.5" + PiText;
      SecondPointRejected(syntax);
    }
  }

  /** "1.5" followed by the text of pi has two points, so float() rejects it. */
  lemma SecondPointRejected(syntax: string -> Option<real>)
    ensures PyFloat("1.5" + PiText, syntax) == None
  {
    var t := "1.5" + PiText;
    assert IndexOf(t, '.') == 1;
    assert t[2..][2] == '.';
    assert !IsDigit(t[2..][2], 10);
    assert PlainNumeral(t);
  }

  class ScientificCalculator {
    var input: string
    var operation: Option<Operator>
    var first: Option<real>
    var result: Option<real>
    var justPressed: bool
    var display: string
    var pending: string
    var inDegreeMode: bool
    const lib: FloatLib
    const math: MathLib

    function State(): Machine
      reads this
    {
      Machine(input, operation, first, result, justPressed, display, pending)
    }

    constructor (lib: FloatLib, math: MathLib)
      ensures State() == Start && inDegreeMode
      ensures this.lib == lib && this.math == math
    {
      input, operation, first, result := "", None, None, None;
      justPressed, display, pending := false, "0", "";
      inDegreeMode := true;
      this.lib := lib;
      this.math := math;
    }

    /** The DEG/RAD key. */
    method ToggleDegreeMode()
      modifies this
      ensures inDegreeMode == !old(inDegreeMode) && State() == old(State())
      ensures ModeLabel() == (if old(inDegreeMode) then "RAD" else "DEG")
    {
      inDegreeMode := !inDegreeMode;
    }

    /** The label of the DEG/RAD indicator. */
    function ModeLabel(): string
      reads this
    {
      if inDegreeMode then "DEG" else "RAD"
    }

    /** append_number: a digit key passes its digit, the pi key the text of pi. */
    method AppendNumber(number: string)
      modifies this
      ensures State() == EnterNumber(ScientificStyle, old(State()), number) && inDegreeMode == old(inDegreeMode)
    {
      if justPressed {
        input := "";
        justPressed := false;
      }
      if input == "0" && number != "." {
        input := number;
      } else {
        input := input + number;
      }
      display := Screen(input);
    }

    /** The pi key as written: it appends the text of pi to the input (see PiAppendsToInput; EnterPi is the intended key). */
    method AppendPi()
      modifies this
      ensures State() == EnterNumber(ScientificStyle, old(State()), PiText) && inDegreeMode == old(inDegreeMode)
    {
      AppendNumber(PiText);
    }

    method AppendDecimal()
      modifies this
      ensures State() == EnterDecimal(ScientificStyle, old(State())) && inDegreeMode == old(inDegreeMode)
    {
      if justPressed {
        input := "0";
        justPressed := false;
      }
      if '.' !in input {
        if input == "" {
          input := "0";
        }
        input := input + ".";
      }
      display := Screen(input);
    }

    method ApplyScientificFunction(f: Function) returns (record: Option<Record>)
      modifies this
      ensures var s := ApplyFunction(old(State()), f, old(inDegreeMode), lib, math);
        State() == s.machine && record == s.record && inDegreeMode == old(inDegreeMode)
    {
      record := None;
      if input == "" {
        return;
      }
      var value := PyFloat(input, lib.syntax);
      if value.None? {
        return;
      }
      var v := value.value;
      match ApplyOutcome(f, v, inDegreeMode, math) {
        case Value(r) =>
          var text := FunctionText(r, lib);
          result := Some(if Negligible(r) then 0.0 else r);
          record := Some(Record("Scientific", FunctionExpression(f, v, lib), text));
          input := text;
          display := Screen(input);
        case Raised(_, message) =>
          display := "Error: " + message;
          ResetAfterError();
      }
    }

    /** The "=" key. `raised` reports that float() of the input raised and nothing changed. */
    method Calculate() returns (record: Option<Record>, raised: bool)
      modifies this
      ensures var s := Keypad.Calculate(ScientificStyle, old(State()), lib);
        State() == s.machine && record == s.record && raised == s.raised
      ensures inDegreeMode == old(inDegreeMode)
    {
      record, raised := None, false;
      if operation.Some? && first.Some? && input != "" {
        var second := PyFloat(input, lib.syntax);
        if second.None? {
          raised := true;
          return;
        }
        var op, a, b := operation.value, first.value, second.value;
        match Evaluate(op, a, b, lib) {
          case Value(r) =>
            var text := ResultText(r, lib);
            result := Some(r);
            record := Some(Record("Scientific", Expression(ScientificStyle, op, a, b, lib), text));
            input := text;
            first, operation := None, None;
            pending := "";
            display := Screen(input);
          case Raised(zeroDivision, message) =>
            display := if zeroDivision then "Error: Division by zero" else "Error: " + message;
            ResetAfterError();
        }
      }
    }

    method HandleOperator(op: Operator) returns (record: Option<Record>)
      modifies this
      ensures var s := PressOperator(ScientificStyle, old(State()), op, lib);
        State() == s.machine && record == s.record
      ensures inDegreeMode == old(inDegreeMode)
    {
      record := None;
      if input != "" {
        if first.Some? {
          var raised;
          record, raised := Calculate();
          if raised {
            return;
          }
        }
        var x := PyFloat(input, lib.syntax);
        if x.None? {
          return;
        }
        first := Some(x.value);
        operation := Some(op);
        justPressed := true;
        pending := lib.floatStr(x.value) + " " + Sign(op);
      }
    }

    method Clear()
      modifies this
      ensures State() == Cleared(old(State())) && inDegreeMode == old(inDegreeMode)
    {
      input, operation, first, result := "", None, None, None;
      pending, display := "", "0";
    }

    method Negate()
      modifies this
      ensures State() == Negated(old(State())) && inDegreeMode == old(inDegreeMode)
    {
      if input != "" {
        if input[0] == '-' {
          input := input[1..];
        } else {
          input := "-" + input;
        }
        display := Screen(input);
      }
    }

    method Backspace()
      modifies this
      ensures State() == Erased(old(State())) && inDegreeMode == old(inDegreeMode)
    {
      if input != "" {
        input := input[..|input| - 1];
        if input == "" || input == "-" {
          input := "";
        }
        display := Screen(input);
      }
    }

    method ResetAfterError()
      modifies this
      ensures State() == old(State()).(input := "", operation := None, first := None, result := None, pending := "")
      ensures inDegreeMode == old(inDegreeMode)
    {
      input, operation, first, result := "", None, None, None;
      pending := "";
    }
  }
}
